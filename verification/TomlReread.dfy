/** What a clean-up and a second reading make of lines (`src/cli/plugin-marketplace.ts`). */
module TomlReread {
  import opened TomlText
  import opened Wrappers

  predicate EndsInReturn(l: string) { l != "" && l[|l| - 1] == '\r' }

  function DropReturn(l: string): string { if EndsInReturn(l) then l[..|l| - 1] else l }

  /** The lines that collapsing newlines leaves, after `run` newlines. */
  function Thin(lines: seq<string>, run: nat): seq<string> {
    if |lines| <= 1 then lines
    else if lines[0] == "" then (if run >= 2 then [] else [""]) + Thin(lines[1..], run + 1)
    else [lines[0]] + Thin(lines[1..], 1)
  }

  /** The lines that trimming the end of their text leaves. */
  function Ended(lines: seq<string>): seq<string> {
    if lines == [] then []
    else if Significant(lines[1..]) == [] then [TrimEnd(lines[0])]
    else [lines[0]] + Ended(lines[1..])
  }

  /** Joined lines read again: all but the last lose a final return. */
  function Reread(lines: seq<string>): seq<string> {
    if |lines| <= 1 then lines else [DropReturn(lines[0])] + Reread(lines[1..])
  }

  // ------------------------------------------------------------------ cleaning up, line by line

  lemma OneLinersRest(lines: seq<string>)
    requires OneLiners(lines) && lines != []
    ensures '\n' !in lines[0] && OneLiners(lines[1..])
  {
    assert lines[0] in lines;
  }

  lemma {:induction false} CollapseLine(l: string, rest: string, run: nat)
    requires '\n' !in l && l != ""
    ensures CollapseFrom(l + rest, run) == l + CollapseFrom(rest, 0)
    decreases |l|
  {
    assert (l + rest)[1..] == l[1..] + rest;
    if |l| > 1 {
      CollapseLine(l[1..], rest, 0);
    } else {
      assert l[1..] + rest == rest;
    }
  }

  lemma CollapseBreak(rest: string, run: nat)
    ensures CollapseFrom("\n" + rest, run) == (if run >= 2 then "" else "\n") + CollapseFrom(rest, run + 1)
  {
    assert ("\n" + rest)[1..] == rest;
  }

  lemma ThinFirst(lines: seq<string>, run: nat)
    requires |lines| > 1 && (lines[0] == "" ==> run < 2)
              && Thin(lines[1..], if lines[0] == "" then run + 1 else 1) != []
    ensures Join(Thin(lines, run)) == lines[0] + "\n" + Join(Thin(lines[1..], if lines[0] == "" then run + 1 else 1))
  {
    var thin := Thin(lines[1..], if lines[0] == "" then run + 1 else 1);
    assert ([lines[0]] + thin)[1..] == thin;
  }

  lemma CollapseFirst(l: string, rest: string, run: nat)
    requires '\n' !in l
    ensures CollapseFrom(l + "\n" + rest, run) ==
              if l == "" && run >= 2 then CollapseFrom(rest, run + 1)
              else l + "\n" + CollapseFrom(rest, if l == "" then run + 1 else 1)
  {
    assert l + "\n" + rest == l + ("\n" + rest);
    CollapseBreak(rest, if l == "" then run else 0);
    if l == "" {
      assert l + ("\n" + rest) == "\n" + rest;
    } else {
      CollapseLine(l, "\n" + rest, run);
    }
  }

  lemma {:induction false} CollapseJoin(lines: seq<string>, run: nat)
    requires OneLiners(lines)
    ensures CollapseFrom(Join(lines), run) == Join(Thin(lines, run))
    ensures Thin(lines, run) == [] ==> lines == []
    decreases |lines|
  {
    if lines != [] {
      OneLinersRest(lines);
    }
    if |lines| == 1 {
      LineStays(lines[0], run);
    } else if |lines| > 1 {
      var l, next := lines[0], if lines[0] == "" then run + 1 else 1;
      CollapseFirst(l, Join(lines[1..]), run);
      CollapseJoin(lines[1..], next);
      if l == "" && run >= 2 {
        assert [] + Thin(lines[1..], next) == Thin(lines[1..], next);
      } else {
        ThinFirst(lines, run);
      }
    }
  }

  lemma LineStays(l: string, run: nat)
    requires '\n' !in l
    ensures CollapseFrom(l, run) == l
  {
    if l != "" {
      CollapseLine(l, "", run);
      assert l + "" == l;
    }
  }

  lemma {:induction false} TrimSum(a: string, b: string)
    ensures TrimEnd(a + b) == if TrimEnd(b) == "" then TrimEnd(a) else a + TrimEnd(b)
    decreases |b|
  {
    if b == "" {
      assert a + b == a;
    } else if IsSpace(b[|b| - 1]) {
      assert (a + b)[..|a + b| - 1] == a + b[..|b| - 1];
      TrimSum(a, b[..|b| - 1]);
    }
  }

  lemma TrimBreak(a: string, b: string)
    ensures TrimEnd(a + "\n" + b) == if TrimEnd(b) == "" then TrimEnd(a) else a + "\n" + TrimEnd(b)
  {
    TrimSum(a + "\n", b);
    TrimSum(a, "\n");
    assert "\n"[..0] == "";
  }

  lemma {:induction false} TrimJoin(lines: seq<string>)
    ensures TrimEnd(Join(lines)) == Join(Ended(lines))
    ensures TrimEnd(Join(lines)) == "" <==> Significant(lines) == []
    ensures lines != [] ==> Ended(lines) != []
  {
    if |lines| == 1 {
      assert lines[1..] == [];
    } else if lines != [] {
      TrimJoin(lines[1..]);
      TrimBreak(lines[0], Join(lines[1..]));
      var rest := Ended(lines[1..]);
      assert ([lines[0]] + rest)[1..] == rest;
    }
  }

  /** The clean-up thins out empty lines and ends with the last visible line. */
  lemma TidyIsJoin(lines: seq<string>)
    requires OneLiners(lines)
    ensures Tidy(lines) == Join(Ended(Thin(lines, 0)))
  {
    CollapseJoin(lines, 0);
    TrimJoin(Thin(lines, 0));
  }

  lemma {:induction false} ThinMembers(lines: seq<string>, run: nat)
    ensures forall l :: l in Thin(lines, run) ==> l in lines
    ensures Significant(Thin(lines, run)) == Significant(lines)
    decreases |lines|
  {
    if |lines| > 1 {
      var l := lines[0];
      var thin := Thin(lines[1..], if l == "" then run + 1 else 1);
      ThinMembers(lines[1..], if l == "" then run + 1 else 1);
      assert ([l] + thin)[1..] == thin && [] + thin == thin;
      assert [] + Significant(thin) == Significant(thin);
    }
  }

  lemma {:induction false} EndedMembers(lines: seq<string>)
    requires OneLiners(lines)
    ensures OneLiners(Ended(lines))
  {
    if lines != [] {
      OneLinersRest(lines);
      EndedMembers(lines[1..]);
      TrimEndPrefix(lines[0]);
      forall l | l in Ended(lines) ensures '\n' !in l {
        assert l == TrimEnd(lines[0]) || l == lines[0] || l in Ended(lines[1..]);
      }
    }
  }

  // ------------------------------------------------------------------ reading again

  lemma {:induction false} SplitFirst(l: string, rest: string)
    requires '\n' !in l
    ensures Split(l + ("\n" + rest)) == [DropReturn(l)] + Split(rest)
    decreases |l|
  {
    var t := l + ("\n" + rest);
    if l == "" {
      assert t[1..] == rest;
    } else if l == "\r" {
      assert t[0] == '\r' && t[1] == '\n' && t[2..] == rest;
    } else {
      assert t[1..] == l[1..] + ("\n" + rest);
      SplitFirst(l[1..], rest);
      assert [l[0]] + DropReturn(l[1..]) == DropReturn(l);
      assert ([DropReturn(l[1..])] + Split(rest))[1..] == Split(rest);
    }
  }

  lemma {:induction false} SplitOfJoin(lines: seq<string>)
    requires OneLiners(lines) && lines != []
    ensures Split(Join(lines)) == Reread(lines)
  {
    OneLinersRest(lines);
    if |lines| == 1 {
      SplitLine(lines[0]);
    } else {
      SplitOfJoin(lines[1..]);
      SplitFirst(lines[0], Join(lines[1..]));
      assert Join(lines) == lines[0] + ("\n" + Join(lines[1..]));
    }
  }

  /** No line but the last ends in a return. */
  predicate Returnless(lines: seq<string>) {
    |lines| <= 1 || (!EndsInReturn(lines[0]) && Returnless(lines[1..]))
  }

  lemma {:induction false} ReturnlessStays(lines: seq<string>)
    requires Returnless(lines)
    ensures Reread(lines) == lines
  {
    if |lines| > 1 {
      ReturnlessStays(lines[1..]);
    }
  }

  lemma NoBreakInside(l: string, i: nat)
    requires '\n' !in l && i < |l|
    ensures l[i] != '\n'
  {
  }

  lemma CrLfInSum(l: string, t: string)
    ensures EndsInReturn(l) || !NoCrLf(t) ==> !NoCrLf(l + "\n" + t)
  {
    var whole, n := l + "\n" + t, |l|;
    if EndsInReturn(l) {
      assert whole[n - 1] == '\r' && whole[n] == '\n';
    } else if !NoCrLf(t) {
      var i :| 0 <= i < |t| - 1 && t[i] == '\r' && t[i + 1] == '\n';
      assert whole[n + 1 + i] == '\r' && whole[n + 1 + i + 1] == '\n';
    }
  }

  lemma NoCrLfFirst(l: string, t: string)
    requires '\n' !in l
    ensures NoCrLf(l + "\n" + t) <==> !EndsInReturn(l) && NoCrLf(t)
  {
    var whole, n := l + "\n" + t, |l|;
    CrLfInSum(l, t);
    if !EndsInReturn(l) && NoCrLf(t) {
      forall i | 0 <= i < |whole| - 1 && whole[i] == '\r' ensures whole[i + 1] != '\n' {
        if i + 1 < n {
          NoBreakInside(l, i + 1);
        } else if i > n {
          assert whole[i + 1] == t[i - n] && t[i - n - 1] == '\r';
        }
      }
    }
  }

  lemma {:induction false} NoCrLfJoin(lines: seq<string>)
    requires OneLiners(lines)
    ensures NoCrLf(Join(lines)) <==> Returnless(lines)
  {
    if lines != [] {
      OneLinersRest(lines);
      if |lines| > 1 {
        NoCrLfJoin(lines[1..]);
        NoCrLfFirst(lines[0], Join(lines[1..]));
      } else {
        var l := lines[0];
        forall i | 0 <= i < |l| - 1 && l[i] == '\r' ensures l[i + 1] != '\n' {
          NoBreakInside(l, i + 1);
        }
      }
    }
  }

  /** A line that ends in a return, before a visible one. */
  predicate ReturnBeforeText(lines: seq<string>) {
    lines != [] && ((EndsInReturn(lines[0]) && Significant(lines[1..]) != []) || ReturnBeforeText(lines[1..]))
  }

  lemma {:induction false} ReturnIsBeforeText(lines: seq<string>)
    ensures ReturnBeforeText(lines) ==> Significant(lines) != []
  {
    if lines != [] {
      ReturnIsBeforeText(lines[1..]);
    }
  }

  lemma {:induction false} EndedReturns(lines: seq<string>)
    ensures Returnless(Ended(lines)) <==> !ReturnBeforeText(lines)
  {
    if lines != [] {
      EndedReturns(lines[1..]);
      ReturnIsBeforeText(lines[1..]);
      TrimJoin(lines[1..]);
      var rest := Ended(lines[1..]);
      assert ([lines[0]] + rest)[1..] == rest;
    }
  }

  lemma {:induction false} ThinReturns(lines: seq<string>, run: nat)
    ensures ReturnBeforeText(Thin(lines, run)) == ReturnBeforeText(lines)
    decreases |lines|
  {
    if |lines| > 1 {
      var next := if lines[0] == "" then run + 1 else 1;
      ThinReturns(lines[1..], next);
      ThinMembers(lines[1..], next);
      var thin := Thin(lines[1..], next);
      assert ([lines[0]] + thin)[1..] == thin && [] + thin == thin;
    }
  }

  /** Cleaning up keeps a CR LF exactly when a line that ends in a return comes before a visible line. */
  lemma TidyCrLf(lines: seq<string>)
    requires OneLiners(lines)
    ensures NoCrLf(Tidy(lines)) <==> !ReturnBeforeText(lines)
  {
    var thin := Thin(lines, 0);
    ThinMembers(lines, 0);
    EndedMembers(thin);
    TidyIsJoin(lines);
    NoCrLfJoin(Ended(thin));
    EndedReturns(thin);
    ThinReturns(lines, 0);
  }

  lemma {:induction false} SignificantExists(lines: seq<string>)
    ensures Significant(lines) != [] <==> exists j :: 0 <= j < |lines| && TrimEnd(lines[j]) != ""
  {
    if lines != [] {
      SignificantExists(lines[1..]);
      if TrimEnd(lines[0]) == "" && Significant(lines[1..]) != [] {
        var j :| 0 <= j < |lines[1..]| && TrimEnd(lines[1..][j]) != "";
        assert TrimEnd(lines[j + 1]) != "";
      }
      forall j | 0 < j < |lines| ensures lines[j] == lines[1..][j - 1] {
      }
    }
  }

  lemma {:induction false} ReturnBeforeTextExists(lines: seq<string>)
    ensures ReturnBeforeText(lines) <==>
              exists i, j :: 0 <= i < j < |lines| && EndsInReturn(lines[i]) && TrimEnd(lines[j]) != ""
  {
    if lines != [] {
      var rest := lines[1..];
      ReturnBeforeTextExists(rest);
      SignificantExists(rest);
      if EndsInReturn(lines[0]) && Significant(rest) != [] {
        var j :| 0 <= j < |rest| && TrimEnd(rest[j]) != "";
        assert EndsInReturn(lines[0]) && TrimEnd(lines[j + 1]) != "";
      } else if ReturnBeforeText(rest) {
        var i, j :| 0 <= i < j < |rest| && EndsInReturn(rest[i]) && TrimEnd(rest[j]) != "";
        assert EndsInReturn(lines[i + 1]) && TrimEnd(lines[j + 1]) != "";
      } else {
        forall i, j | 0 <= i < j < |lines| && EndsInReturn(lines[i]) ensures TrimEnd(lines[j]) == "" {
          assert lines[j] == rest[j - 1];
          assert i > 0 ==> lines[i] == rest[i - 1];
        }
      }
    }
  }

  // ------------------------------------------------------------------ cleaned up and read again

  /** The lines of a cleaned-up text, but for the empty ones that the clean-up drops. */
  function Worn(lines: seq<string>): seq<string> {
    if lines == [] then []
    else if Significant(lines[1..]) == [] then [TrimEnd(lines[0])]
    else [DropReturn(lines[0])] + Worn(lines[1..])
  }

  lemma {:induction false} RereadEnded(lines: seq<string>)
    ensures Reread(Ended(lines)) == Worn(lines)
  {
    if lines != [] {
      RereadEnded(lines[1..]);
      TrimJoin(lines[1..]);
      var rest := Ended(lines[1..]);
      assert ([lines[0]] + rest)[1..] == rest;
    }
  }

  /** Reading a cleaned-up text. */
  lemma SplitTidy(lines: seq<string>)
    requires OneLiners(lines)
    ensures Split(Tidy(lines)) == if lines == [] then [""] else Worn(Thin(lines, 0))
  {
    var thin := Thin(lines, 0);
    ThinMembers(lines, 0);
    EndedMembers(thin);
    TidyIsJoin(lines);
    CollapseJoin(lines, 0);
    TrimJoin(thin);
    if lines != [] {
      SplitOfJoin(Ended(thin));
      RereadEnded(thin);
    }
  }

  lemma EmitDropsReturn(l: string)
    ensures TrimEnd(DropReturn(l)) == TrimEnd(l)
  {
  }

  lemma {:induction false} WornContent(lines: seq<string>)
    ensures Significant(Worn(lines)) == Significant(lines)
  {
    if lines != [] {
      WornContent(lines[1..]);
      EmitDropsReturn(lines[0]);
      var rest := Worn(lines[1..]);
      var l := lines[0];
      assert ([DropReturn(l)] + rest)[1..] == rest && [TrimEnd(l)][1..] == [];
    }
  }
}
