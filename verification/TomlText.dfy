/** Text as lines: splitting, joining and the clean-up that every TOML rewrite ends with
    (`src/cli/plugin-marketplace.ts`). */
module TomlText {
  /** What `\s` and `trimEnd` count as white space. */
  predicate IsSpace(c: char) {
    || c == ' ' || '\t' <= c <= '\r' || c == '\U{00A0}' || c == '\U{1680}' || '\U{2000}' <= c <= '\U{200A}'
    || c == '\U{2028}' || c == '\U{2029}' || c == '\U{202F}' || c == '\U{205F}' || c == '\U{3000}' || c == '\U{FEFF}'
  }

  function TrimEnd(t: string): (r: string)
    ensures r != "" ==> !IsSpace(r[|r| - 1])
  {
    if t != "" && IsSpace(t[|t| - 1]) then TrimEnd(t[..|t| - 1]) else t
  }

  lemma {:induction false} TrimEndPrefix(t: string)
    ensures TrimEnd(t) <= t
  {
    if t != "" && IsSpace(t[|t| - 1]) {
      TrimEndPrefix(t[..|t| - 1]);
    }
  }

  function TrimStart(t: string): (r: string)
    ensures r != "" ==> !IsSpace(r[0])
  {
    if t != "" && IsSpace(t[0]) then TrimStart(t[1..]) else t
  }

  function Trim(t: string): string { TrimStart(TrimEnd(t)) }

  /** No line holds a newline. */
  predicate OneLiners(lines: seq<string>) {
    forall l :: l in lines ==> '\n' !in l
  }

  /** Whether the text starts with what `/\r?\n/` matches. */
  predicate IsBreak(t: string) {
    t != "" && (t[0] == '\n' || (t[0] == '\r' && |t| > 1 && t[1] == '\n'))
  }

  function AfterBreak(t: string): string
    requires IsBreak(t)
  {
    if t[0] == '\n' then t[1..] else t[2..]
  }

  function Prepend(c: char, lines: seq<string>): seq<string>
    requires lines != []
  {
    [[c] + lines[0]] + lines[1..]
  }

  /** `split(/\r?\n/)`. */
  function Split(t: string): (lines: seq<string>)
    ensures lines != [] && OneLiners(lines)
    decreases |t|
  {
    if t == "" then [""]
    else if IsBreak(t) then [""] + Split(AfterBreak(t))
    else Prepend(t[0], Split(t[1..]))
  }

  /** `join("\n")`. */
  function Join(lines: seq<string>): string {
    if lines == [] then "" else if |lines| == 1 then lines[0] else lines[0] + "\n" + Join(lines[1..])
  }

  /** `replace(/\n{3,}/g, "\n\n")`, after `run` newlines have just been seen. */
  function CollapseFrom(t: string, run: nat): string {
    if t == "" then ""
    else if t[0] != '\n' then [t[0]] + CollapseFrom(t[1..], 0)
    else if run >= 2 then CollapseFrom(t[1..], run + 1)
    else "\n" + CollapseFrom(t[1..], run + 1)
  }

  function Collapse(t: string): string { CollapseFrom(t, 0) }

  /** The clean-up after a rewrite. */
  function Tidy(lines: seq<string>): (t: string)
    ensures t != "" ==> !IsSpace(t[|t| - 1])
  {
    TrimEnd(Collapse(Join(lines)))
  }

  // ------------------------------------------------------------------ significant lines

  /** A line without its trailing white space, unless that leaves nothing. */
  function Emit(line: string): seq<string> {
    if TrimEnd(line) == "" then [] else [TrimEnd(line)]
  }

  function Significant(lines: seq<string>): seq<string> {
    if lines == [] then [] else Emit(lines[0]) + Significant(lines[1..])
  }

  /** The lines of a text up to blank lines, trailing white space and line endings. */
  function Content(t: string): seq<string> { Significant(Split(t)) }

  /** The content of a text read after `line`. */
  function Scan(line: string, t: string): seq<string>
    decreases |t|
  {
    if t == "" then Emit(line)
    else if t[0] == '\n' then Emit(line) + Scan("", t[1..])
    else Scan(line + [t[0]], t[1..])
  }

  lemma {:induction false} SignificantOfSum(a: seq<string>, b: seq<string>)
    ensures Significant(a + b) == Significant(a) + Significant(b)
  {
    if a == [] {
      assert a + b == b;
    } else {
      assert (a + b)[1..] == a[1..] + b;
      SignificantOfSum(a[1..], b);
    }
  }

  lemma EmitIgnoresReturn(line: string)
    ensures Emit(line + ['\r']) == Emit(line)
  {
    assert (line + ['\r'])[..|line|] == line;
  }

  lemma ScanBreak(line: string, t: string)
    requires IsBreak(t)
    ensures Scan(line, t) == Emit(line) + Scan("", AfterBreak(t))
  {
    if t[0] == '\r' {
      EmitIgnoresReturn(line);
      assert t[1..][1..] == t[2..];
    }
  }

  /** The content of a text whose first line continues `line`. */
  function Continued(line: string, lines: seq<string>): seq<string>
    requires lines != []
  {
    Emit(line + lines[0]) + Significant(lines[1..])
  }

  lemma ContinuedChar(line: string, c: char, lines: seq<string>)
    requires lines != []
    ensures Continued(line, Prepend(c, lines)) == Continued(line + [c], lines)
  {
    assert line + ([c] + lines[0]) == line + [c] + lines[0];
    assert Prepend(c, lines)[1..] == lines[1..];
  }

  lemma ContinuedBreak(line: string, lines: seq<string>)
    requires lines != []
    ensures Continued(line, [""] + lines) == Emit(line) + Continued("", lines)
  {
    assert line + "" == line && "" + lines[0] == lines[0];
    assert ([""] + lines)[1..] == lines;
    assert lines == [lines[0]] + lines[1..];
  }

  lemma {:induction false} ScanReadsSplit(line: string, t: string)
    ensures Scan(line, t) == Continued(line, Split(t))
    decreases |t|
  {
    if t == "" {
      assert line + "" == line;
    } else if IsBreak(t) {
      ScanBreak(line, t);
      ScanReadsSplit("", AfterBreak(t));
      ContinuedBreak(line, Split(AfterBreak(t)));
    } else {
      ScanReadsSplit(line + [t[0]], t[1..]);
      ContinuedChar(line, t[0], Split(t[1..]));
    }
  }

  lemma ContentIsScan(t: string)
    ensures Content(t) == Scan("", t)
  {
    ScanReadsSplit("", t);
    assert "" + Split(t)[0] == Split(t)[0];
    assert Split(t) == [Split(t)[0]] + Split(t)[1..];
  }

  lemma {:induction false} CollapseKeepsScan(line: string, t: string, run: nat)
    requires run > 0 ==> line == ""
    ensures Scan(line, CollapseFrom(t, run)) == Scan(line, t)
    decreases |t|
  {
    if t != "" {
      if t[0] != '\n' {
        CollapseKeepsScan(line + [t[0]], t[1..], 0);
        assert ([t[0]] + CollapseFrom(t[1..], 0))[1..] == CollapseFrom(t[1..], 0);
      } else {
        CollapseKeepsScan("", t[1..], run + 1);
        if run < 2 {
          assert ("\n" + CollapseFrom(t[1..], run + 1))[1..] == CollapseFrom(t[1..], run + 1);
        }
      }
    }
  }

  lemma {:induction false} LastSpaceIsIgnored(line: string, t: string, w: char)
    requires IsSpace(w)
    ensures Scan(line, t + [w]) == Scan(line, t)
    decreases |t|
  {
    if t == "" {
      assert (t + [w])[1..] == "";
      assert (line + [w])[..|line|] == line;
    } else {
      assert (t + [w])[1..] == t[1..] + [w];
      LastSpaceIsIgnored(if t[0] == '\n' then "" else line + [t[0]], t[1..], w);
    }
  }

  lemma {:induction false} TrimKeepsScan(t: string)
    ensures Scan("", TrimEnd(t)) == Scan("", t)
  {
    if t != "" && IsSpace(t[|t| - 1]) {
      var rest := t[..|t| - 1];
      TrimKeepsScan(rest);
      LastSpaceIsIgnored("", rest, t[|t| - 1]);
      assert rest + [t[|t| - 1]] == t;
    }
  }

  lemma {:induction false} ScanLine(line: string, l: string, t: string)
    requires '\n' !in l
    ensures Scan(line, l + t) == Scan(line + l, t)
    decreases |l|
  {
    if l == "" {
      assert l + t == t && line + l == line;
    } else {
      assert (l + t)[1..] == l[1..] + t;
      assert line + [l[0]] + l[1..] == line + l;
      ScanLine(line + [l[0]], l[1..], t);
    }
  }

  lemma {:induction false} ScanJoin(lines: seq<string>)
    requires OneLiners(lines)
    ensures Scan("", Join(lines)) == Significant(lines)
  {
    assert lines != [] ==> lines[0] in lines;
    assert OneLiners(lines[if lines == [] then 0 else 1..]);
    if |lines| == 1 {
      ScanLine("", lines[0], "");
      assert lines[0] + "" == lines[0] && "" + lines[0] == lines[0];
      assert Significant(lines[1..]) == [];
    } else if lines != [] {
      var rest := "\n" + Join(lines[1..]);
      ScanJoin(lines[1..]);
      ScanLine("", lines[0], rest);
      assert Join(lines) == lines[0] + rest && "" + lines[0] == lines[0];
      assert rest[1..] == Join(lines[1..]);
    }
  }

  /** Cleaning up loses no significant line. */
  lemma TidyKeepsContent(lines: seq<string>)
    requires OneLiners(lines)
    ensures Content(Tidy(lines)) == Significant(lines)
  {
    var joined := Join(lines);
    ContentIsScan(Tidy(lines));
    TrimKeepsScan(Collapse(joined));
    CollapseKeepsScan("", joined, 0);
    ScanJoin(lines);
  }

  lemma TrimKeepsContent(t: string)
    ensures Content(TrimEnd(t)) == Content(t)
  {
    ContentIsScan(t);
    ContentIsScan(TrimEnd(t));
    TrimKeepsScan(t);
  }

  // ------------------------------------------------------------------ texts that a clean-up leaves alone

  predicate NoCrLf(t: string) {
    forall i :: 0 <= i < |t| - 1 ==> t[i] == '\r' ==> t[i + 1] != '\n'
  }

  /** No three newlines in a row, counting `run` newlines before the text. */
  predicate Sparse(t: string, run: nat) {
    t == "" || if t[0] == '\n' then run < 2 && Sparse(t[1..], run + 1) else Sparse(t[1..], 0)
  }

  /** What `Tidy` produces: sparse, and not ending in white space. */
  predicate IsTidy(t: string) { Sparse(t, 0) && (t == "" || !IsSpace(t[|t| - 1])) }

  lemma {:induction false} CollapseIsSparse(t: string, run: nat)
    ensures Sparse(CollapseFrom(t, run), if run > 2 then 2 else run)
    decreases |t|
  {
    if t != "" {
      var out := CollapseFrom(t, run);
      if t[0] != '\n' {
        CollapseIsSparse(t[1..], 0);
        assert out[1..] == CollapseFrom(t[1..], 0);
      } else {
        CollapseIsSparse(t[1..], run + 1);
        if run < 2 {
          assert out[1..] == CollapseFrom(t[1..], run + 1);
        }
      }
    }
  }

  lemma {:induction false} SparseStays(t: string, run: nat)
    requires Sparse(t, run)
    ensures CollapseFrom(t, run) == t
    decreases |t|
  {
    if t != "" {
      SparseStays(t[1..], if t[0] == '\n' then run + 1 else 0);
      assert t == [t[0]] + t[1..];
    }
  }

  lemma {:induction false} SparsePrefix(t: string, p: string, run: nat)
    requires Sparse(t, run) && p <= t
    ensures Sparse(p, run)
    decreases |t|
  {
    if p != "" {
      SparsePrefix(t[1..], p[1..], if t[0] == '\n' then run + 1 else 0);
    }
  }

  lemma TidyIsTidy(lines: seq<string>)
    ensures IsTidy(Tidy(lines))
  {
    CollapseIsSparse(Join(lines), 0);
    TrimEndPrefix(Collapse(Join(lines)));
    SparsePrefix(Collapse(Join(lines)), Tidy(lines), 0);
  }

  /** A text that does not end in a newline may be followed by up to two newlines. */
  lemma {:induction false} SparseSum(a: string, b: string, run: nat)
    requires Sparse(a, run) && Sparse(b, 2) && (a == "" || a[|a| - 1] != '\n') && a != ""
    ensures Sparse(a + "\n\n" + b, run)
    decreases |a|
  {
    var whole := a + "\n\n" + b;
    assert whole[1..] == a[1..] + "\n\n" + b;
    if |a| > 1 {
      SparseSum(a[1..], b, if a[0] == '\n' then run + 1 else 0);
    } else {
      assert whole[1..] == "\n\n" + b;
      assert whole[1..][1..] == "\n" + b;
      assert whole[1..][1..][1..] == b;
    }
  }

  lemma {:induction false} SparseFrom(b: string, run: nat, more: nat)
    requires Sparse(b, run) && b != "" && b[0] != '\n'
    ensures Sparse(b, more)
  {
  }

  lemma JoinPrepend(c: char, lines: seq<string>)
    requires lines != []
    ensures Join(Prepend(c, lines)) == [c] + Join(lines)
  {
    assert Prepend(c, lines)[1..] == lines[1..];
    if |lines| > 1 {
      assert [c] + (lines[0] + "\n" + Join(lines[1..])) == ([c] + lines[0]) + "\n" + Join(lines[1..]);
    }
  }

  lemma JoinEmptyFirst(lines: seq<string>)
    requires lines != []
    ensures Join([""] + lines) == "\n" + Join(lines)
  {
    assert ([""] + lines)[1..] == lines;
  }

  lemma {:induction false} JoinSplit(t: string)
    requires NoCrLf(t)
    ensures Join(Split(t)) == t
    decreases |t|
  {
    if t != "" {
      forall i | 0 <= i < |t[1..]| - 1 && t[1..][i] == '\r' ensures t[1..][i + 1] != '\n' {
        assert t[i + 1] == '\r' ==> t[i + 2] != '\n';
      }
      JoinSplit(t[1..]);
      if t[0] == '\n' {
        JoinEmptyFirst(Split(t[1..]));
      } else {
        JoinPrepend(t[0], Split(t[1..]));
      }
    }
  }

  lemma PrependSum(c: char, a: seq<string>, b: seq<string>)
    requires a != []
    ensures Prepend(c, a + b) == Prepend(c, a) + b
  {
    assert (a + b)[1..] == a[1..] + b;
  }

  lemma BreakSum(a: string, b: string)
    requires IsBreak(a)
    ensures IsBreak(a + b) && AfterBreak(a + b) == AfterBreak(a) + b
  {
  }

  lemma {:induction false} SplitSum(a: string, b: string)
    requires a == "" || a[|a| - 1] != '\r'
    ensures Split(a + ("\n" + b)) == Split(a) + Split(b)
    decreases |a|
  {
    var tail := "\n" + b;
    if a == "" {
      assert a + tail == tail && tail[1..] == b;
    } else if IsBreak(a) {
      BreakSum(a, tail);
      SplitSum(AfterBreak(a), b);
      assert [""] + (Split(AfterBreak(a)) + Split(b)) == [""] + Split(AfterBreak(a)) + Split(b);
    } else {
      assert (a + tail)[1..] == a[1..] + tail;
      assert !IsBreak(a + tail);
      SplitSum(a[1..], b);
      PrependSum(a[0], Split(a[1..]), Split(b));
    }
  }

  lemma {:induction false} SplitLine(l: string)
    requires '\n' !in l
    ensures Split(l) == [l]
  {
    if l != "" {
      SplitLine(l[1..]);
      assert l == [l[0]] + l[1..];
    }
  }

  lemma {:induction false} JoinSum(a: seq<string>, b: seq<string>)
    requires a != [] && b != []
    ensures Join(a + b) == Join(a) + "\n" + Join(b)
  {
    assert (a + b)[1..] == a[1..] + b;
    if |a| > 1 {
      JoinSum(a[1..], b);
      assert a[0] + "\n" + (Join(a[1..]) + "\n" + Join(b)) == (a[0] + "\n" + Join(a[1..])) + "\n" + Join(b);
    } else {
      assert a[1..] + b == b;
    }
  }

  /** Reading a tidy text, with or without a final newline, and cleaning it up again gives it back. */
  lemma TidyTwice(t: string)
    requires IsTidy(t) && NoCrLf(t)
    ensures Tidy(Split(t)) == t && Tidy(Split(t) + [""]) == t
  {
    JoinSplit(t);
    SparseStays(t, 0);
    JoinSum(Split(t), [""]);
    assert t + "\n" + "" == t + "\n";
    CollapseLastNewline(t, 0);
    assert (t + "\n")[..|t|] == t;
  }

  lemma {:induction false} CollapseLastNewline(t: string, run: nat)
    requires Sparse(t, run) && (t == "" || t[|t| - 1] != '\n')
    ensures CollapseFrom(t + "\n", run) == t + "\n" || (t == "" && CollapseFrom(t + "\n", run) == "")
    decreases |t|
  {
    var whole := t + "\n";
    if t == "" {
      assert whole[1..] == "";
    } else {
      assert whole[1..] == t[1..] + "\n";
      CollapseLastNewline(t[1..], if t[0] == '\n' then run + 1 else 0);
      assert t == [t[0]] + t[1..];
    }
  }

  // ------------------------------------------------------------------ carriage returns

  function Returns(t: string): nat {
    if t == "" then 0 else (if t[0] == '\r' then 1 else 0) + Returns(t[1..])
  }

  lemma {:induction false} ReturnsOfSum(a: string, b: string)
    ensures Returns(a + b) == Returns(a) + Returns(b)
  {
    if a == "" {
      assert a + b == b;
    } else {
      assert (a + b)[1..] == a[1..] + b;
      ReturnsOfSum(a[1..], b);
    }
  }

  lemma {:induction false} CollapseKeepsReturns(t: string, run: nat)
    ensures Returns(CollapseFrom(t, run)) == Returns(t)
    decreases |t|
  {
    if t != "" {
      var next := if t[0] == '\n' then run + 1 else 0;
      CollapseKeepsReturns(t[1..], next);
      ReturnsOfSum([t[0]], CollapseFrom(t[1..], next));
    }
  }

  lemma TrimReturns(t: string)
    ensures Returns(TrimEnd(t)) <= Returns(t)
  {
    var r := TrimEnd(t);
    TrimEndPrefix(t);
    assert t == r + t[|r|..];
    ReturnsOfSum(r, t[|r|..]);
  }

  /** Reading a text drops the return of every CR LF, and nothing else. */
  lemma {:induction false} SplitDropsReturns(t: string)
    ensures Returns(Join(Split(t))) <= Returns(t)
    ensures !NoCrLf(t) ==> Returns(Join(Split(t))) < Returns(t)
    decreases |t|
  {
    if t != "" && IsBreak(t) {
      var rest := AfterBreak(t);
      SplitDropsReturns(rest);
      JoinEmptyFirst(Split(rest));
      ReturnsOfSum("\n", Join(Split(rest)));
      if t[0] == '\r' {
        assert t[1..][1..] == rest;
      } else if !NoCrLf(t) {
        CrLfLater(t);
      }
    } else if t != "" {
      SplitDropsReturns(t[1..]);
      JoinPrepend(t[0], Split(t[1..]));
      ReturnsOfSum([t[0]], Join(Split(t[1..])));
      if !NoCrLf(t) {
        CrLfLater(t);
      }
    }
  }

  lemma CrLfLater(t: string)
    requires t != "" && (t[0] == '\n' || !IsBreak(t)) && !NoCrLf(t)
    ensures !NoCrLf(t[1..])
  {
    var i :| 0 <= i < |t| - 1 && t[i] == '\r' && t[i + 1] == '\n';
    assert i > 0 && t[1..][i - 1] == '\r' && t[1..][i] == '\n';
  }

  /** A text with a CR LF is changed by reading it and cleaning it up. */
  lemma CrLfIsLost(t: string)
    requires !NoCrLf(t)
    ensures Tidy(Split(t) + [""]) != t
  {
    SplitDropsReturns(t);
    JoinSum(Split(t), [""]);
    ReturnsOfSum(Join(Split(t)), "\n");
    assert Join(Split(t)) + "\n" + "" == Join(Split(t)) + "\n";
    CollapseKeepsReturns(Join(Split(t) + [""]), 0);
    TrimReturns(Collapse(Join(Split(t) + [""])));
  }
}
