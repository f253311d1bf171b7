/** Removing the plugin's server tables undoes enabling them (`src/cli/plugin-marketplace.ts`). */
module PluginMcpUndo {
  import opened TomlText
  import opened TomlEdit
  import opened TomlReread
  import opened PluginRegistration
  import opened PluginIdempotence
  import opened PluginMcp
  import opened PluginMcpWriter
  import opened PluginMcpProofs
  import opened Wrappers

  // ------------------------------------------------------------------ removing undoes enabling

  function ServerLines(h: string): seq<string> { [h, Assignment(true)] }

  /** The text with server tables added at its end, without a final newline. */
  function Built(s: string, servers: seq<string>): string
    decreases |servers|
  {
    if servers == [] then s else Built(Body(s, ServerLines(servers[0])), servers[1..])
  }

  /** The lines of the added tables, each after a blank line. */
  function Tail(servers: seq<string>): seq<string> {
    if servers == [] then [] else [""] + ServerLines(servers[0]) + Tail(servers[1..])
  }

  lemma BodyLines(s: string, h: string)
    requires IsHeader(h) && EndsVisibly(s)
    ensures var b := Body(s, ServerLines(h));
            b != "" && EndsVisibly(b) && Split(b) == BaseLines(s) + ServerLines(h)
  {
    ServerBlock(h, true);
    JoinEndsVisibly(ServerLines(h));
    RegisteredLines(s, ServerLines(h), h);
  }

  lemma {:induction false} BuiltLines(s: string, servers: seq<string>)
    requires ServerTables(servers) && EndsVisibly(s)
    ensures EndsVisibly(Built(s, servers))
    ensures s != "" ==> Split(Built(s, servers)) == Split(s) + Tail(servers)
    ensures servers != [] ==> Split(Built(s, servers)) == BaseLines(s) + ServerLines(servers[0]) + Tail(servers[1..])
    decreases |servers|
  {
    if servers == [] {
      assert Split(s) + [] == Split(s);
    } else {
      var h := servers[0];
      RestOfServers(servers);
      BodyLines(s, h);
      BuiltLines(Body(s, ServerLines(h)), servers[1..]);
      if s != "" {
        TailFirst(Split(s), servers);
      }
    }
  }

  lemma TailFirst(lines: seq<string>, servers: seq<string>)
    requires servers != []
    ensures lines + [""] + ServerLines(servers[0]) + Tail(servers[1..]) == lines + Tail(servers)
  {
  }

  predicate EndsVisibly(t: string) { t == "" || !IsSpace(t[|t| - 1]) }

  lemma TrimVisible(s: string)
    requires EndsVisibly(s)
    ensures TrimEnd(s) == s && TrimEnd(s + "\n") == s
  {
    assert (s + "\n")[..|s|] == s;
  }

  lemma RegisteredIsBody(s: string, block: seq<string>, h: string)
    requires IsBlock(block, h)
    ensures Registered(s, block) == Body(s, block) + "\n" && EndsVisibly(Body(s, block))
  {
    JoinEndsVisibly(block);
  }

  predicate HasNone(t: string, servers: seq<string>) {
    forall h, l :: h in servers && l in Split(t) ==> !Matches(l, h)
  }

  /** A created table does not bring in another server's. */
  lemma AddedHasNone(s: string, h: string, servers: seq<string>)
    requires IsHeader(h) && h !in servers && (forall g :: g in servers ==> IsHeader(g))
    requires HasNone(s, servers) && EndsVisibly(s)
    ensures HasNone(Registered(s, ServerLines(h)), servers)
  {
    var u := Registered(s, ServerLines(h));
    ServerBlock(h, true);
    RegisteredContent(s, ServerLines(h), h);
    forall g | g in servers ensures forall l :: l in Split(u) ==> !Matches(l, g) {
      NoneInSignificant(Split(s), g);
      OtherHeaders(ServerLines(h), h, g);
      NoneInContent(Split(u), g);
    }
  }

  lemma OtherHeaders(block: seq<string>, g: string, h: string)
    requires IsBlock(block, g) && IsHeader(h) && g != h
    ensures forall l :: l in block ==> !Matches(l, h)
  {
    HeaderLine(g);
    forall l | l in block ensures !Matches(l, h) {
      HeaderIsTable(l, h);
      assert l == block[0] || l in block[1..];
    }
  }

  lemma CreatesTable(t: string, h: string)
    requires forall l :: l in Split(t) ==> !Matches(l, h)
    ensures UpsertKey(t, h, true, true) == Registered(TrimEnd(t), ServerLines(h))
  {
  }

  /** Enabling builds the tables up one after another. */
  lemma {:induction false} EnableBuilds(t: string, s: string, servers: seq<string>)
    requires ServerTables(servers) && EndsVisibly(s) && t in {s, s + "\n"} && HasNone(t, servers) && HasNone(s, servers)
    ensures EnableEach(t, servers) == if servers == [] then t else Built(s, servers) + "\n"
    decreases |servers|
  {
    if servers != [] {
      var h, rest := servers[0], servers[1..];
      var body := Body(s, ServerLines(h));
      RestOfServers(servers);
      TrimVisible(s);
      CreatesTable(t, h);
      ServerBlock(h, true);
      RegisteredIsBody(s, ServerLines(h), h);
      AddedHasNone(s, h, rest);
      TrimVisible(body);
      TrimHasNone(body + "\n", rest);
      EnableBuilds(body + "\n", body, rest);
    }
  }

  lemma TrimHasNone(t: string, servers: seq<string>)
    requires HasNone(t, servers) && forall g :: g in servers ==> IsHeader(g)
    ensures HasNone(TrimEnd(t), servers)
  {
    TrimKeepsContent(t);
    forall g | g in servers ensures forall l :: l in Split(TrimEnd(t)) ==> !Matches(l, g) {
      NoneInSignificant(Split(t), g);
      NoneInContent(Split(TrimEnd(t)), g);
    }
  }

  // Removing the first of the built tables.

  lemma {:induction false} NoneInTail(servers: seq<string>, h: string)
    requires ServerTables(servers) && IsHeader(h) && h !in servers
    ensures forall l :: l in Tail(servers) ==> !Matches(l, h)
  {
    if servers != [] {
      RestOfServers(servers);
      ServerBlock(servers[0], true);
      OtherHeaders(ServerLines(servers[0]), servers[0], h);
      NoneInTail(servers[1..], h);
      BlankLine("");
    }
  }

  /** The server tables after the first, without the blank line before them. */
  function NextLines(servers: seq<string>, last: seq<string>): seq<string> {
    if servers == [] then [] else ServerLines(servers[0]) + Tail(servers[1..]) + last
  }

  lemma {:induction false} SkipBlank(first: seq<string>, h: string)
    requires first != [] && IsTable(first[0]) && forall l :: l in first ==> !Matches(l, h)
    requires IsHeader(h)
    ensures Kept([""] + first, h, true) == first
  {
    BlankLine("");
    assert ([""] + first)[1..] == first;
    KeptAtStart(first, h, true);
    KeptAll(first, h);
  }

  lemma KeptNext(servers: seq<string>, h: string, last: seq<string>)
    requires ServerTables(servers) && IsHeader(h) && h !in servers && last in {[], [""]}
    ensures Kept(Tail(servers) + last, h, true) == NextLines(servers, last)
  {
    if servers == [] {
      BlankLine("");
      assert Tail(servers) + last == last;
      KeptBody(last, h);
    } else {
      var first := NextLines(servers, last);
      NoneInTail(servers, h);
      ServerBlock(servers[0], true);
      HeaderLine(servers[0]);
      BlankLine("");
      NextFirst(servers, last);
      forall l | l in first ensures !Matches(l, h) {
        assert l in Tail(servers) || l in last;
      }
      SkipBlank(first, h);
    }
  }

  lemma NextFirst(servers: seq<string>, last: seq<string>)
    requires servers != []
    ensures Tail(servers) + last == [""] + NextLines(servers, last)
    ensures NextLines(servers, last) != [] && NextLines(servers, last)[0] == servers[0]
    ensures forall l :: l in NextLines(servers, last) ==> l in Tail(servers) || l in last
  {
    Associate([""], ServerLines(servers[0]), Tail(servers[1..]));
    Associate([""], ServerLines(servers[0]) + Tail(servers[1..]), last);
  }

  /** The first server's table goes, and with it the blank line after it. */
  lemma KeptServers(base: seq<string>, servers: seq<string>, last: seq<string>)
    requires ServerTables(servers) && servers != [] && last in {[], [""]}
    requires forall l :: l in base ==> !Matches(l, servers[0])
    ensures Kept(base + ServerLines(servers[0]) + Tail(servers[1..]) + last, servers[0], false) ==
              base + NextLines(servers[1..], last)
  {
    var h, rest := servers[0], servers[1..];
    var block, tail := ServerLines(h), Tail(rest) + last;
    RestOfServers(servers);
    ServerBlock(h, true);
    HeaderLine(h);
    Associate(base, block, Tail(rest));
    Associate(base, block + Tail(rest), last);
    Associate(block, Tail(rest), last);
    KeptAll(base, h);
    KeptSum(base, block + tail, h, false);
    KeptBlockThen(h, Assignment(true), tail);
    KeptNext(rest, h, last);
  }

  lemma KeptBlockThen(h: string, entry: string, tail: seq<string>)
    requires Matches(h, h) && !IsTable(entry)
    ensures Kept([h, entry] + tail, h, false) == Kept(tail, h, true)
  {
    var lines := [h, entry] + tail;
    assert lines[1..] == [entry] + tail && lines[1..][1..] == tail;
    assert [] + Kept(tail, h, true) == Kept(tail, h, true);
  }

  lemma BuiltText(s: string, servers: seq<string>, last: seq<string>)
    requires ServerTables(servers) && servers != [] && EndsVisibly(s) && last in {[], [""]}
    ensures Split(if last == [] then Built(s, servers) else Built(s, servers) + "\n")
            == BaseLines(s) + ServerLines(servers[0]) + Tail(servers[1..]) + last
  {
    var b := Built(s, servers);
    BuiltLines(s, servers);
    SplitSum(b, "");
    assert b + ("\n" + "") == b + "\n";
    assert Split(b) + [] == Split(b);
  }

  // ------------------------------------------------------------------ the added tables as text

  lemma {:induction false} BuiltIsTidy(s: string, servers: seq<string>)
    requires ServerTables(servers) && IsTidy(s) && NoCrLf(s)
    ensures IsTidy(Built(s, servers)) && NoCrLf(Built(s, servers))
    decreases |servers|
  {
    if servers != [] {
      RestOfServers(servers);
      ServerBlock(servers[0], true);
      BodyIsTidy(s, ServerLines(servers[0]), servers[0]);
      BuiltIsTidy(Body(s, ServerLines(servers[0])), servers[1..]);
    }
  }

  /** The added tables do not depend on what they are added to. */
  lemma {:induction false} BuiltOn(s: string, servers: seq<string>)
    requires ServerTables(servers) && s != "" && servers != []
    ensures Built(s, servers) == s + "\n\n" + Built("", servers)
    decreases |servers|
  {
    var text, rest := Join(ServerLines(servers[0])), servers[1..];
    RestOfServers(servers);
    if rest != [] {
      ServerBlock(servers[0], true);
      JoinEndsVisibly(ServerLines(servers[0]));
      BuiltOn(s + "\n\n" + text, rest);
      BuiltOn(text, rest);
      RegroupTwice(s, "\n\n", text, "\n\n", Built("", rest));
    }
  }

  lemma RegroupTwice(a: string, b: string, c: string, d: string, e: string)
    ensures a + b + c + d + e == a + b + (c + d + e)
  {
  }

  /** The added tables alone: clean, and starting with a header. */
  lemma BuiltAlone(servers: seq<string>)
    requires ServerTables(servers) && servers != []
    ensures var b := Built("", servers);
            && b != "" && EndsVisibly(b) && Sparse(b, 2)
            && Split(b) == NextLines(servers, []) && Join(NextLines(servers, [])) == b
  {
    var b := Built("", servers);
    BuiltIsTidy("", servers);
    BuiltLines("", servers);
    JoinSplit(b);
    assert [] + ServerLines(servers[0]) == ServerLines(servers[0]);
    assert NextLines(servers, []) == ServerLines(servers[0]) + Tail(servers[1..]);
    FirstOfHeader(servers);
    SparseFrom(b, 0, 2);
  }

  lemma FirstOfHeader(servers: seq<string>)
    requires ServerTables(servers) && servers != [] && Join(NextLines(servers, [])) == Built("", servers)
    ensures Built("", servers) != "" && Built("", servers)[0] == '['
  {
    RestOfServers(servers);
    assert NextLines(servers, [])[0] == servers[0];
  }

  // ------------------------------------------------------------------ cleaning up before and after the tables

  lemma {:induction false} CollapseSum(x: string, y: string, run: nat)
    requires x != "" && x[|x| - 1] != '\n'
    ensures CollapseFrom(x + y, run) == CollapseFrom(x, run) + CollapseFrom(y, 0)
    decreases |x|
  {
    assert (x + y)[1..] == x[1..] + y;
    if |x| > 1 {
      CollapseSum(x[1..], y, if x[0] == '\n' then run + 1 else 0);
    } else {
      assert x[1..] + y == y;
    }
  }

  lemma {:induction false} CollapseEndsVisibly(x: string, run: nat)
    requires x != "" && EndsVisibly(x)
    ensures CollapseFrom(x, run) != "" && EndsVisibly(CollapseFrom(x, run))
    decreases |x|
  {
    if |x| > 1 {
      CollapseEndsVisibly(x[1..], if x[0] == '\n' then run + 1 else 0);
    }
  }

  lemma {:induction false} RereadEndsVisibly(t: string)
    requires t != "" && EndsVisibly(t)
    ensures Join(Split(t)) != "" && EndsVisibly(Join(Split(t)))
    decreases |t|
  {
    if IsBreak(t) {
      RereadEndsVisibly(AfterBreak(t));
      JoinEmptyFirst(Split(AfterBreak(t)));
    } else {
      JoinPrepend(t[0], Split(t[1..]));
      if |t| > 1 {
        RereadEndsVisibly(t[1..]);
      }
    }
  }

  lemma JoinAround(lines: seq<string>, tail: seq<string>)
    requires lines != [] && tail != []
    ensures Join(lines + [""] + tail) == Join(lines) + ("\n" + ("\n" + Join(tail)))
  {
    Associate(lines, [""], tail);
    JoinSum(lines, [""] + tail);
    JoinEmptyFirst(tail);
    Regroup(Join(lines), "\n", "\n" + Join(tail));
  }

  lemma Regroup(a: string, b: string, c: string)
    ensures a + b + c == a + (b + c)
  {
  }

  lemma CollapseAround(x: string, y: string)
    requires x != "" && x[|x| - 1] != '\n'
    ensures Collapse(x + ("\n" + ("\n" + y))) == Collapse(x) + "\n\n" + CollapseFrom(y, 2)
  {
    CollapseSum(x, "\n" + ("\n" + y), 0);
    CollapseBreak("\n" + y, 0);
    CollapseBreak(y, 1);
    var c, z := Collapse(x), CollapseFrom(y, 2);
    assert c + ("\n" + ("\n" + z)) == c + "\n\n" + z;
  }

  /** What comes after a blank line is cleaned up by itself. */
  lemma TidyBefore(s: string, tail: seq<string>)
    requires s != "" && EndsVisibly(s) && tail != []
    requires TrimEnd(Join(tail)) != "" && CollapseFrom(Join(tail), 2) == Join(tail)
    ensures Tidy(Split(s) + [""] + tail) == Tidy(Split(s)) + "\n\n" + TrimEnd(Join(tail))
  {
    var x, y := Join(Split(s)), Join(tail);
    RereadEndsVisibly(s);
    JoinAround(Split(s), tail);
    CollapseAround(x, y);
    CollapseEndsVisibly(x, 0);
    TrimSum(Collapse(x) + "\n\n", y);
  }

  lemma TidyAlone(s: string)
    requires EndsVisibly(s)
    ensures Tidy(BaseLines(s)) == Tidy(Split(s))
  {
    if s == "" {
      assert Join([""]) == "";
    } else {
      var x := Join(Split(s));
      RereadEndsVisibly(s);
      JoinSum(Split(s), [""]);
      assert x + "\n" + "" == x + "\n";
      CollapseSum(x, "\n", 0);
      CollapseEndsVisibly(x, 0);
      TrimVisible(Collapse(x));
      CollapseBreak("", 0);
    }
  }

  lemma LastNewline(b: string)
    requires b != "" && EndsVisibly(b) && Sparse(b, 0) && Sparse(b, 2)
    ensures CollapseFrom(b, 2) == Collapse(b) == b && CollapseFrom(b + "\n", 2) == Collapse(b + "\n") == b + "\n"
  {
    SparseStays(b, 2);
    SparseStays(b, 0);
    CollapseSum(b, "\n", 2);
    CollapseSum(b, "\n", 0);
    CollapseBreak("", 0);
    assert "\n" + "" == "\n";
  }

  lemma NextText(servers: seq<string>, last: seq<string>)
    requires ServerTables(servers) && servers != [] && last in {[], [""]}
    ensures Join(NextLines(servers, last)) == if last == [] then Built("", servers) else Built("", servers) + "\n"
  {
    BuiltAlone(servers);
    if last == [""] {
      var lines, b := NextLines(servers, []), Built("", servers);
      assert NextLines(servers, last) == lines + [""];
      JoinSum(lines, [""]);
      assert b + "\n" + "" == b + "\n";
    }
  }

  /** The text of the remaining tables, with or without a final newline. */
  lemma TailText(servers: seq<string>, last: seq<string>)
    requires ServerTables(servers) && servers != [] && last in {[], [""]}
    ensures var y := Join(NextLines(servers, last));
            TrimEnd(y) == Built("", servers) && CollapseFrom(y, 2) == y
              && Tidy(NextLines(servers, last)) == Built("", servers)
  {
    var b := Built("", servers);
    BuiltAlone(servers);
    BuiltIsTidy("", servers);
    NextText(servers, last);
    TrimVisible(b);
    LastNewline(b);
  }

  /** Removing the first of the added tables cleans up what is before them, and nothing else. */
  lemma StripFirst(s: string, servers: seq<string>, last: seq<string>)
    requires ServerTables(servers) && servers != [] && EndsVisibly(s) && HasNone(s, servers) && last in {[], [""]}
    ensures Strip(if last == [] then Built(s, servers) else Built(s, servers) + "\n", servers[0])
            == Built(Strip(s, servers[0]), servers[1..])
  {
    var rest, before := servers[1..], Strip(s, servers[0]);
    RestOfServers(servers);
    BuiltText(s, servers, last);
    BaseHasNone(s, servers[0]);
    KeptServers(BaseLines(s), servers, last);
    KeptAll(Split(s), servers[0]);
    if rest == [] {
      assert BaseLines(s) + [] == BaseLines(s);
      TidyAlone(s);
    } else {
      TailText(rest, last);
      BuiltAlone(rest);
      if s == "" {
        assert [] + NextLines(rest, last) == NextLines(rest, last);
        TidyAlone("");
      } else {
        NextFirst(rest, last);
        TidyBefore(s, NextLines(rest, last));
        TidyIsVisible(s);
        BuiltOn(before, rest);
      }
    }
  }

  lemma TidyIsVisible(s: string)
    requires s != "" && EndsVisibly(s)
    ensures Tidy(Split(s)) != ""
  {
    RereadEndsVisibly(s);
    CollapseEndsVisibly(Join(Split(s)), 0);
  }

  lemma StripHasNone(s: string, h: string, servers: seq<string>)
    requires IsHeader(h) && HasNone(s, servers) && forall g :: g in servers ==> IsHeader(g)
    ensures HasNone(Strip(s, h), servers)
  {
    StripContent(s, h);
    KeptHasLines(Content(s), h, false);
    forall g | g in servers ensures forall l :: l in Split(Strip(s, h)) ==> !Matches(l, g) {
      NoneInSignificant(Split(s), g);
      NoneInContent(Split(Strip(s, h)), g);
    }
  }

  /** Removing the added tables one by one does to the rest what removing does without them. */
  lemma {:induction false} StripBuilt(s: string, servers: seq<string>, last: seq<string>)
    requires ServerTables(servers) && EndsVisibly(s) && HasNone(s, servers)
    requires last == [] || (last == [""] && servers != [])
    ensures StripServers(if last == [] then Built(s, servers) else Built(s, servers) + "\n", servers) ==
              StripServers(s, servers)
    decreases |servers|
  {
    if servers != [] {
      RestOfServers(servers);
      StripFirst(s, servers, last);
      StripHasNone(s, servers[0], servers[1..]);
      StripBuilt(Strip(s, servers[0]), servers[1..], []);
    }
  }

  lemma {:induction false} StripServersTidy(t: string, servers: seq<string>)
    requires servers == [] ==> IsTidy(t)
    ensures IsTidy(StripServers(t, servers))
    decreases |servers|
  {
    if servers != [] {
      TidyIsTidy(Kept(Split(t), servers[0], false));
      StripServersTidy(Strip(t, servers[0]), servers[1..]);
    }
  }

  // Carriage returns through enabling and removing.

  lemma StripReturns(t: string, h: string)
    ensures Returns(Strip(t, h)) <= Returns(t)
    ensures !NoCrLf(t) ==> Returns(Strip(t, h)) < Returns(t)
  {
    ReadReturns(t);
    KeptReturns(Split(t), h, false);
    TidyReturns(Kept(Split(t), h, false));
  }

  lemma {:induction false} StripServersReturns(t: string, servers: seq<string>)
    ensures Returns(StripServers(t, servers)) <= Returns(t)
    ensures servers != [] && !NoCrLf(t) ==> Returns(StripServers(t, servers)) < Returns(t)
    decreases |servers|
  {
    if servers != [] {
      StripReturns(t, servers[0]);
      StripServersReturns(Strip(t, servers[0]), servers[1..]);
    }
  }

  /** Without server tables and without CR LF, removing changes nothing. */
  lemma {:induction false} NothingToStrip(s: string, servers: seq<string>)
    requires ServerTables(servers) && IsTidy(s) && NoCrLf(s) && HasNone(s, servers)
    ensures StripServers(s, servers) == s
    decreases |servers|
  {
    if servers != [] {
      RestOfServers(servers);
      KeptAll(Split(s), servers[0]);
      TidyTwice(s);
      NothingToStrip(s, servers[1..]);
    }
  }

  lemma {:induction false} StripServersLines(s: string, servers: seq<string>)
    requires ServerTables(servers) && HasNone(s, servers)
    ensures Content(StripServers(s, servers)) == Content(s)
    decreases |servers|
  {
    if servers != [] {
      var h := servers[0];
      RestOfServers(servers);
      StripContent(s, h);
      NoneInSignificant(Split(s), h);
      KeptAll(Content(s), h);
      StripHasNone(s, h, servers[1..]);
      StripServersLines(Strip(s, h), servers[1..]);
    }
  }

  /** For every text, removing the servers after enabling them gives, to the character, what removing them twice
      gives: the second removal finds no table and only normalises line endings, so that every significant line stays.
      And that is what removing them once gives exactly when no CR LF is left. */
  lemma RemovingUndoesEnabling(t: string, servers: seq<string>)
    requires ServerTables(servers) && servers != []
    ensures var s, undone := StripServers(t, servers), StripServers(UpsertServers(t, servers, true, false), servers);
            && undone == StripServers(s, servers)
            && Content(undone) == Content(s)
            && (undone == s <==> NoCrLf(s))
  {
    var s := StripServers(t, servers);
    StripServersTidy(t, servers);
    forall h | h in servers ensures forall l :: l in Split(s) ==> !Matches(l, h) {
      StrippedServersHaveNone(t, servers, h);
    }
    EnableBuilds(s, s, servers);
    StripBuilt(s, servers, [""]);
    StripServersLines(s, servers);
    if NoCrLf(s) {
      NothingToStrip(s, servers);
    } else {
      StripServersReturns(s, servers);
    }
  }

  /** With line endings LF or CR LF throughout, removing undoes enabling to the character. */
  lemma UndoneOnOrdinaryTexts(t: string, servers: seq<string>)
    requires ServerTables(servers) && servers != [] && ReturnsInBreaks(t)
    ensures StripServers(UpsertServers(t, servers, true, false), servers) == StripServers(t, servers)
  {
    var s := StripServers(t, servers);
    SplitMembers(t);
    LinesHaveNoReturns(Split(t));
    KeptReturns(Split(t), servers[0], false);
    TidyReturns(Kept(Split(t), servers[0], false));
    StripServersReturns(Strip(t, servers[0]), servers[1..]);
    ReadReturns(s);
    RemovingUndoesEnabling(t, servers);
  }

  lemma {:induction false} LinesHaveNoReturns(lines: seq<string>)
    requires forall l :: l in lines ==> '\r' !in l
    ensures SumReturns(lines) == 0
  {
    if lines != [] {
      assert lines[0] in lines;
      NoReturns(lines[0]);
      LinesHaveNoReturns(lines[1..]);
    }
  }

  // ------------------------------------------------------------------ a text on which the undoing shows

  /** A line that starts with a visible character but is no header. */
  predicate IsText(l: string) { '\n' !in l && l != "" && !IsSpace(l[0]) && l[0] != '[' }

  lemma TidyTwoLines(m: string, b: string)
    requires '\n' !in m && m != "" && IsEntry(b)
    ensures Tidy([m, b]) == m + ("\n" + b)
  {
    TidyIsJoin([m, b]);
    assert [m, b][1..] == [b] && [b][1..] == [];
    TrimVisible(b);
    assert Significant([b]) == [b] + [];
    assert Thin([m, b], 0) == [m] + Thin([b], 1);
    assert Ended([m, b]) == [m] + Ended([b]);
    Regroup(m, "\n", b);
  }

  /** Removing tables that are not there takes a return off the first line. */
  lemma StripTwoLines(l: string, b: string, h: string)
    requires IsHeader(h) && IsText(l) && IsText(DropReturn(l)) && IsEntry(b) && !IsTable(b)
    ensures Strip(l + ("\n" + b), h) == DropReturn(l) + ("\n" + b)
  {
    var m := DropReturn(l);
    SplitPair(l, b);
    NotATable(m);
    HeaderIsTable(m, h);
    HeaderIsTable(b, h);
    KeptAll([m, b], h);
    TidyTwoLines(m, b);
  }

  /** Two lines, with `n` returns before the break. */
  function Pair(l: string, n: nat, b: string): string
    decreases n
  {
    if n == 0 then l + ("\n" + b) else Pair(l + ['\r'], n - 1, b)
  }

  lemma {:induction false} StripPairOnce(l: string, n: nat, b: string, h: string)
    requires IsHeader(h) && IsText(l) && n > 0 && IsEntry(b) && !IsTable(b)
    ensures Strip(Pair(l, n, b), h) == Pair(l, n - 1, b)
    decreases n
  {
    if n == 1 {
      StripTwoLines(l + ['\r'], b, h);
    } else {
      StripPairOnce(l + ['\r'], n - 1, b, h);
    }
  }

  ghost predicate StripsAt(texts: seq<string>, servers: seq<string>, i: nat)
    requires i < |servers| < |texts|
  {
    Strip(texts[i], servers[i]) == texts[i + 1]
  }

  /** Removing the servers one after another, text by text. */
  lemma {:induction false} StripInTurn(texts: seq<string>, servers: seq<string>)
    requires |texts| == |servers| + 1 && forall i :: 0 <= i < |servers| ==> StripsAt(texts, servers, i)
    ensures StripServers(texts[0], servers) == texts[|servers|]
    decreases |servers|
  {
    if servers != [] {
      assert StripsAt(texts, servers, 0);
      forall i | 0 <= i < |servers| - 1 ensures StripsAt(texts[1..], servers[1..], i) {
        assert StripsAt(texts, servers, i + 1);
      }
      StripInTurn(texts[1..], servers[1..]);
    }
  }

  lemma ServerAt(servers: seq<string>, i: nat)
    requires ServerTables(servers) && i < |servers|
    ensures IsHeader(servers[i])
  {
    assert servers[i] in servers;
  }

  /** The pair with one return less each time. */
  function Pairs(l: string, n: nat, b: string): (texts: seq<string>)
    ensures |texts| == n + 1 && forall i :: 0 <= i <= n ==> texts[i] == Pair(l, n + 1 - i, b)
  {
    seq(n + 1, i requires 0 <= i <= n => Pair(l, n + 1 - i, b))
  }

  lemma PairsStrip(l: string, b: string, servers: seq<string>, i: nat)
    requires ServerTables(servers) && IsText(l) && IsEntry(b) && !IsTable(b) && i < |servers|
    ensures StripsAt(Pairs(l, |servers|, b), servers, i)
  {
    ServerAt(servers, i);
    StripPairOnce(l, |servers| + 1 - i, b, servers[i]);
  }

  lemma StripPairEach(l: string, b: string, servers: seq<string>)
    requires ServerTables(servers) && IsText(l) && IsEntry(b) && !IsTable(b)
    ensures StripServers(Pair(l, |servers| + 1, b), servers) == Pair(l, 1, b)
  {
    var texts := Pairs(l, |servers|, b);
    forall i | 0 <= i < |servers| ensures StripsAt(texts, servers, i) {
      PairsStrip(l, b, servers, i);
    }
    StripInTurn(texts, servers);
  }

  lemma PairHasCrLf(l: string, b: string)
    ensures !NoCrLf(Pair(l, 1, b))
  {
    var t := Pair(l, 1, b);
    assert t == (l + ['\r']) + ("\n" + b);
    assert t[|l|] == '\r' && t[|l| + 1] == '\n';
  }

  lemma CrLfShows(t: string, s: string, servers: seq<string>)
    requires ServerTables(servers) && servers != [] && StripServers(t, servers) == s && !NoCrLf(s)
    ensures StripServers(UpsertServers(t, servers, true, false), servers) != StripServers(t, servers)
  {
    RemovingUndoesEnabling(t, servers);
  }

  /** One return more before a line break than there are servers: removing after enabling takes it away. */
  lemma StrayReturnsShow(l: string, b: string, servers: seq<string>)
    requires ServerTables(servers) && servers != [] && IsText(l) && IsEntry(b) && !IsTable(b)
    ensures var t := Pair(l, |servers| + 1, b);
            StripServers(UpsertServers(t, servers, true, false), servers) != StripServers(t, servers)
  {
    StripPairEach(l, b, servers);
    PairHasCrLf(l, b);
    CrLfShows(Pair(l, |servers| + 1, b), Pair(l, 1, b), servers);
  }

  const FIRST := "a"
  const SECOND := "b"

  lemma PlainWords()
    ensures IsText(FIRST) && IsEntry(SECOND) && !IsTable(SECOND)
  {
    NotATable(SECOND);
  }

  /** For example after a first line `a` that is followed by `b`. */
  lemma UndoingIsNotExact(servers: seq<string>)
    requires ServerTables(servers) && servers != []
    ensures var t := Pair(FIRST, |servers| + 1, SECOND);
            StripServers(UpsertServers(t, servers, true, false), servers) != StripServers(t, servers)
  {
    PlainWords();
    StrayReturnsShow(FIRST, SECOND, servers);
  }
}
