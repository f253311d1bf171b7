/** Enabling the servers twice, and removing them again: on which texts that shows (`src/cli/plugin-marketplace.ts`). */
module PluginMcpTwice {
  import opened TomlText
  import opened TomlEdit
  import opened TomlReread
  import opened PluginRegistration
  import opened PluginIdempotence
  import opened PluginMcpProofs
  import opened PluginMcpUndo
  import opened Wrappers

  // ------------------------------------------------------------------ lines outside some tables

  predicate EndsInReturns(l: string, n: nat) {
    n == 0 || (EndsInReturn(l) && EndsInReturns(DropReturn(l), n - 1))
  }

  /** Some line outside the tables is visible. */
  predicate Shows(lines: seq<string>, owner: string, tables: set<string>) {
    lines != [] &&
    var o := OwnerAt(lines[0], owner);
    (o !in tables && TrimEnd(lines[0]) != "") || Shows(lines[1..], o, tables)
  }

  /** A line outside the tables ends in `n` returns, before a visible one. */
  predicate KeepsReturns(lines: seq<string>, owner: string, tables: set<string>, n: nat) {
    lines != [] &&
    var o := OwnerAt(lines[0], owner);
    || (o !in tables && EndsInReturns(lines[0], n) && Shows(lines[1..], o, tables))
    || KeepsReturns(lines[1..], o, tables, n)
  }

  lemma FirstOf(l: string, lines: seq<string>, owner: string, tables: set<string>, n: nat)
    ensures var o := OwnerAt(l, owner);
            && (Shows([l] + lines, owner, tables) <==>
                 (o !in tables && TrimEnd(l) != "") || Shows(lines, o, tables))
            && (KeepsReturns([l] + lines, owner, tables, n) <==>
                 || (o !in tables && EndsInReturns(l, n) && Shows(lines, o, tables))
                 || KeepsReturns(lines, o, tables, n))
  {
    assert ([l] + lines)[1..] == lines;
  }

  lemma {:induction false} BlankShowsNothing(lines: seq<string>, owner: string, tables: set<string>, n: nat)
    requires Significant(lines) == []
    ensures !Shows(lines, owner, tables) && !KeepsReturns(lines, owner, tables, n)
  {
    if lines != [] {
      BlankShowsNothing(lines[1..], OwnerAt(lines[0], owner), tables, n);
    }
  }

  lemma EmptyLine(lines: seq<string>, owner: string, tables: set<string>, n: nat)
    requires n > 0
    ensures Shows([""] + lines, owner, tables) == Shows(lines, owner, tables)
    ensures KeepsReturns([""] + lines, owner, tables, n) == KeepsReturns(lines, owner, tables, n)
  {
    BlankLine("");
    FirstOf("", lines, owner, tables, n);
  }

  // ------------------------------------------------------------------ one removal

  /** Removing a table is leaving it out of account. */
  lemma {:induction false} KeptReturnsAre(lines: seq<string>, h: string, owner: string, before: string,
                                          tables: set<string>, n: nat)
    requires IsHeader(h) && (owner != h ==> before == owner)
    ensures Shows(Kept(lines, h, owner == h), before, tables) == Shows(lines, owner, tables + {h})
    ensures KeepsReturns(Kept(lines, h, owner == h), before, tables, n) == KeepsReturns(lines, owner, tables + {h}, n)
  {
    if lines != [] {
      var l, o := lines[0], OwnerAt(lines[0], owner);
      HeaderIsTable(l, h);
      assert Goes(l, h, owner == h) == (o == h);
      KeptReturnsAre(lines[1..], h, o, if o == h then before else o, tables, n);
      var rest := Kept(lines[1..], h, o == h);
      if o == h {
        assert [] + rest == rest;
      } else {
        FirstOf(l, rest, before, tables, n);
      }
    }
  }

  lemma {:induction false} ThinReturnsAre(lines: seq<string>, run: nat, owner: string, tables: set<string>, n: nat)
    requires n > 0
    ensures Shows(Thin(lines, run), owner, tables) == Shows(lines, owner, tables)
    ensures KeepsReturns(Thin(lines, run), owner, tables, n) == KeepsReturns(lines, owner, tables, n)
    decreases |lines|
  {
    if |lines| > 1 {
      var l, next := lines[0], if lines[0] == "" then run + 1 else 1;
      var thin := Thin(lines[1..], next);
      assert lines == [l] + lines[1..];
      if l == "" {
        ThinReturnsAre(lines[1..], next, owner, tables, n);
        EmptyLine(thin, owner, tables, n);
        EmptyLine(lines[1..], owner, tables, n);
        assert [] + thin == thin;
      } else {
        ThinReturnsAre(lines[1..], next, OwnerAt(l, owner), tables, n);
        FirstOf(l, thin, owner, tables, n);
      }
    }
  }

  /** Each reading takes one return off every line before the last visible one. */
  lemma {:induction false} WornReturnsAre(lines: seq<string>, owner: string, tables: set<string>, n: nat)
    requires n > 0
    ensures Shows(Worn(lines), owner, tables) == Shows(lines, owner, tables)
    ensures KeepsReturns(Worn(lines), owner, tables, n) == KeepsReturns(lines, owner, tables, n + 1)
  {
    if lines != [] {
      var l, rest, o := lines[0], lines[1..], OwnerAt(lines[0], owner);
      EmitDropsReturn(l);
      TrimEndTwice(l);
      TrimmedOwner(l, owner);
      if Significant(rest) == [] {
        BlankShowsNothing(rest, o, tables, n + 1);
        FirstOf(TrimEnd(l), [], owner, tables, n);
        assert [TrimEnd(l)] + [] == [TrimEnd(l)];
      } else {
        WornReturnsAre(rest, o, tables, n);
        FirstOf(DropReturn(l), Worn(rest), owner, tables, n);
      }
    }
  }

  lemma TrimmedOwner(l: string, owner: string)
    ensures OwnerAt(TrimEnd(l), owner) == OwnerAt(DropReturn(l), owner) == OwnerAt(l, owner)
  {
    TrimEndTwice(l);
    TrimEndTwice(DropReturn(l));
    EmitDropsReturn(l);
  }

  // ------------------------------------------------------------------ removing every server

  function Headers(servers: seq<string>): set<string> { set h | h in servers }

  lemma HeadersOf(servers: seq<string>)
    requires servers != []
    ensures Headers(servers) == Headers(servers[1..]) + {servers[0]}
  {
    assert servers == [servers[0]] + servers[1..];
  }

  lemma {:induction false} OneReturn(lines: seq<string>, owner: string)
    ensures Shows(lines, owner, {}) <==> Significant(lines) != []
    ensures KeepsReturns(lines, owner, {}, 1) <==> ReturnBeforeText(lines)
  {
    if lines != [] {
      OneReturn(lines[1..], OwnerAt(lines[0], owner));
      assert EndsInReturns(lines[0], 1) == EndsInReturn(lines[0]);
    }
  }

  /** One removal and the next reading: the table is left out of account, and every line has one return less. */
  lemma StripTakesAReturn(t: string, h: string, tables: set<string>, n: nat)
    requires IsHeader(h) && n > 0
    ensures KeepsReturns(Split(Strip(t, h)), "", tables, n) == KeepsReturns(Split(t), "", tables + {h}, n + 1)
  {
    var kept := Kept(Split(t), h, false);
    KeptOneLiners(t, h);
    KeptReturnsAre(Split(t), h, "", "", tables, n + 1);
    SplitTidy(kept);
    if kept == [] {
      EmptyLine([], "", tables, n);
      assert [""] + [] == [""];
    } else {
      WornReturnsAre(Thin(kept, 0), "", tables, n);
      ThinReturnsAre(kept, 0, "", tables, n + 1);
    }
  }

  lemma LastStrip(t: string, h: string)
    requires IsHeader(h)
    ensures NoCrLf(Strip(t, h)) <==> !KeepsReturns(Split(t), "", {h}, 1)
  {
    var kept := Kept(Split(t), h, false);
    KeptOneLiners(t, h);
    KeptReturnsAre(Split(t), h, "", "", {}, 1);
    assert {} + {h} == {h};
    TidyCrLf(kept);
    OneReturn(kept, "");
  }

  lemma StripsOn(t: string, servers: seq<string>)
    requires servers != []
    ensures StripServers(t, servers) == StripServers(Strip(t, servers[0]), servers[1..])
    ensures |servers| == 1 ==> StripServers(t, servers) == Strip(t, servers[0])
  {
  }

  ghost predicate SurvivesRemoval(t: string, servers: seq<string>) {
    KeepsReturns(Split(t), "", Headers(servers), |servers|)
  }

  lemma LastRemoval(t: string, servers: seq<string>)
    requires |servers| == 1 && IsHeader(servers[0])
    ensures NoCrLf(Strip(t, servers[0])) <==> !SurvivesRemoval(t, servers)
  {
    HeadersOf(servers);
    assert Headers(servers) == {servers[0]};
    LastStrip(t, servers[0]);
  }

  lemma SameTables(t: string, a: set<string>, b: set<string>, m: nat, n: nat)
    requires a == b && m == n
    ensures KeepsReturns(Split(t), "", a, m) == KeepsReturns(Split(t), "", b, n)
  {
  }

  lemma FirstRemoval(t: string, servers: seq<string>)
    requires |servers| > 1 && IsHeader(servers[0])
    ensures SurvivesRemoval(Strip(t, servers[0]), servers[1..]) == SurvivesRemoval(t, servers)
  {
    var h, rest := servers[0], servers[1..];
    HeadersOf(servers);
    StripTakesAReturn(t, h, Headers(rest), |rest|);
    SameTables(t, Headers(servers), Headers(rest) + {h}, |servers|, |rest| + 1);
  }

  /** A CR LF survives all removals exactly where a line has a return for each of them, before a visible line. */
  lemma {:induction false} StripKeepsReturns(t: string, servers: seq<string>)
    requires servers != [] && forall i :: 0 <= i < |servers| ==> IsHeader(servers[i])
    ensures NoCrLf(StripServers(t, servers)) <==> !SurvivesRemoval(t, servers)
    decreases |servers|
  {
    StripsOn(t, servers);
    if |servers| == 1 {
      LastRemoval(t, servers);
    } else {
      FirstRemoval(t, servers);
      StripKeepsReturns(Strip(t, servers[0]), servers[1..]);
    }
  }

  /** Outside the server tables a line ends in as many returns as there are servers, before a visible line. */
  ghost predicate ReturnsForEach(owned: seq<(string, string)>, servers: seq<string>) {
    exists i, j :: ReturnsBefore(owned, Headers(servers), |servers|, i, j)
  }

  lemma {:induction false} ShowsMeans(lines: seq<string>, owner: string, tables: set<string>)
    ensures var owned := Owned(lines, owner);
            Shows(lines, owner, tables) <==>
              exists j :: 0 <= j < |owned| && owned[j].0 !in tables && TrimEnd(owned[j].1) != ""
  {
    if lines != [] {
      var o := OwnerAt(lines[0], owner);
      var owned, rest := Owned(lines, owner), Owned(lines[1..], o);
      ShowsMeans(lines[1..], o, tables);
      OwnedFirst(lines, owner);
      forall j | 0 <= j < |rest| ensures rest[j] == owned[j + 1] {
      }
      forall j | 0 < j < |owned| ensures owned[j] == rest[j - 1] {
      }
    }
  }

  ghost predicate ReturnsBefore(owned: seq<(string, string)>, tables: set<string>, n: nat, i: int, j: int) {
    && 0 <= i < j < |owned| && owned[i].0 !in tables && owned[j].0 !in tables
    && EndsInReturns(owned[i].1, n) && TrimEnd(owned[j].1) != ""
  }

  lemma {:induction false} ReturnsMeans(lines: seq<string>, owner: string, tables: set<string>, n: nat)
    ensures KeepsReturns(lines, owner, tables, n) <==>
              exists i, j :: ReturnsBefore(Owned(lines, owner), tables, n, i, j)
  {
    if lines != [] {
      var o := OwnerAt(lines[0], owner);
      var owned, rest := Owned(lines, owner), Owned(lines[1..], o);
      ReturnsMeans(lines[1..], o, tables, n);
      ShowsMeans(lines[1..], o, tables);
      OwnedFirst(lines, owner);
      ReturnsLater(owned, tables, n);
    }
  }

  lemma ReturnsLater(owned: seq<(string, string)>, tables: set<string>, n: nat)
    requires owned != []
    ensures var rest := owned[1..];
            (exists i, j :: ReturnsBefore(owned, tables, n, i, j)) <==>
              || (owned[0].0 !in tables && EndsInReturns(owned[0].1, n)
                  && exists j :: 0 <= j < |rest| && rest[j].0 !in tables && TrimEnd(rest[j].1) != "")
              || exists i, j :: ReturnsBefore(rest, tables, n, i, j)
  {
    var rest := owned[1..];
    if i, j :| ReturnsBefore(rest, tables, n, i, j) {
      assert ReturnsBefore(owned, tables, n, i + 1, j + 1);
    }
    if j :| 0 <= j < |rest| && rest[j].0 !in tables && TrimEnd(rest[j].1) != "" {
      assert owned[0].0 !in tables && EndsInReturns(owned[0].1, n) ==> ReturnsBefore(owned, tables, n, 0, j + 1);
    }
    forall i, j | ReturnsBefore(owned, tables, n, i, j)
      ensures rest[j - 1].0 !in tables && TrimEnd(rest[j - 1].1) != ""
      ensures i > 0 ==> ReturnsBefore(rest, tables, n, i - 1, j - 1)
    {
    }
  }

  lemma StrippedReturns(t: string, servers: seq<string>)
    requires ServerTables(servers) && servers != []
    ensures NoCrLf(StripServers(t, servers)) <==> !ReturnsForEach(Owned(Split(t), ""), servers)
  {
    forall i | 0 <= i < |servers| ensures IsHeader(servers[i]) {
      ServerAt(servers, i);
    }
    StripKeepsReturns(t, servers);
    ReturnsMeans(Split(t), "", Headers(servers), |servers|);
  }

  /** Removing the servers after enabling them is removing them once unless, outside their tables, a line ends in as
      many returns as there are servers, before a visible line. */
  lemma UndoneExactlyWhen(t: string, servers: seq<string>)
    requires ServerTables(servers) && servers != []
    ensures StripServers(UpsertServers(t, servers, true, false), servers) == StripServers(t, servers)
            <==> !ReturnsForEach(Owned(Split(t), ""), servers)
  {
    RemovingUndoesEnabling(t, servers);
    StrippedReturns(t, servers);
  }

  // ------------------------------------------------------------------ enabling twice

  lemma BodyIsInjective(a: string, b: string, block: seq<string>)
    requires Body(a, block) == Body(b, block)
    ensures a == b
  {
    assert Registered(a, block) == Body(a, block) + "\n" && Registered(b, block) == Body(b, block) + "\n";
    RegisteredIsInjective(a, b, block);
  }

  lemma {:induction false} BuiltIsInjective(a: string, b: string, servers: seq<string>)
    requires Built(a, servers) == Built(b, servers)
    ensures a == b
    decreases |servers|
  {
    if servers != [] {
      BuiltIsInjective(Body(a, ServerLines(servers[0])), Body(b, ServerLines(servers[0])), servers[1..]);
      BodyIsInjective(a, b, ServerLines(servers[0]));
    }
  }

  /** Enabling adds the server tables to what removing them leaves. */
  lemma EnabledText(t: string, servers: seq<string>)
    requires ServerTables(servers) && servers != []
    ensures UpsertServers(t, servers, true, false) == Built(StripServers(t, servers), servers) + "\n"
  {
    var s := StripServers(t, servers);
    StripServersTidy(t, servers);
    forall h | h in servers ensures forall l :: l in Split(s) ==> !Matches(l, h) {
      StrippedServersHaveNone(t, servers, h);
    }
    EnableBuilds(s, s, servers);
  }

  /** Enabling the servers twice is enabling them once under the same condition. */
  lemma EnablingTwice(t: string, servers: seq<string>)
    requires ServerTables(servers) && servers != []
    ensures var u := UpsertServers(t, servers, true, false);
            UpsertServers(u, servers, true, false) == u <==> !ReturnsForEach(Owned(Split(t), ""), servers)
  {
    var u := UpsertServers(t, servers, true, false);
    EnabledText(t, servers);
    EnabledText(u, servers);
    UndoneExactlyWhen(t, servers);
    if UpsertServers(u, servers, true, false) == u {
      var a, b := Built(StripServers(u, servers), servers), Built(StripServers(t, servers), servers);
      assert a == (a + "\n")[..|a|] && b == (b + "\n")[..|b|];
      BuiltIsInjective(StripServers(u, servers), StripServers(t, servers), servers);
    }
  }

  /** With line endings LF or CR LF throughout, enabling is idempotent. */
  lemma EnablingTwiceOnOrdinaryTexts(t: string, servers: seq<string>)
    requires ServerTables(servers) && servers != [] && ReturnsInBreaks(t)
    ensures var u := UpsertServers(t, servers, true, false); UpsertServers(u, servers, true, false) == u
  {
    UndoneOnOrdinaryTexts(t, servers);
    UndoneExactlyWhen(t, servers);
    EnablingTwice(t, servers);
  }

  /** For example a first line `a` with one return more than there are servers, before `b`. */
  lemma EnablingTwiceShows(servers: seq<string>)
    requires ServerTables(servers) && servers != []
    ensures var u := UpsertServers(Pair(FIRST, |servers| + 1, SECOND), servers, true, false);
            UpsertServers(u, servers, true, false) != u
  {
    var t := Pair(FIRST, |servers| + 1, SECOND);
    UndoingIsNotExact(servers);
    UndoneExactlyWhen(t, servers);
    EnablingTwice(t, servers);
  }
}
