/** Writer and reader agree: what setup writes is what the doctor reads. */
module PluginMcpProofs {
  import opened TomlText
  import opened TomlEdit
  import opened PluginRegistration
  import opened PluginIdempotence
  import opened PluginMcp
  import opened PluginMcpWriter
  import opened Wrappers

  const SERVERS := ["omx_state", "omx_memory", "omx_code_intel", "omx_trace", "omx_wiki", "omx_hermes"]

  function ServerHeader(name: string): string { "[plugins." + PLUGIN_KEY + ".mcp_servers." + name + "]" }

  /** Headers of different server tables. */
  ghost predicate ServerTables(servers: seq<string>) {
    && (forall h :: h in servers ==> IsHeader(h) && h !in {MARKETPLACE, PLUGIN, PLUGINS})
    && (forall i, j :: 0 <= i < j < |servers| ==> servers[i] != servers[j])
  }

  /** `stripLocalOmxPluginMcpServerRegistrations`. */
  function StripServers(t: string, servers: seq<string>): string
    decreases |servers|
  {
    if servers == [] then t else StripServers(Strip(t, servers[0]), servers[1..])
  }

  /** The loop of `upsertLocalOmxPluginMcpServerEnablement`. */
  function EnableEach(t: string, servers: seq<string>): string
    decreases |servers|
  {
    if servers == [] then t else EnableEach(UpsertKey(t, servers[0], true, true), servers[1..])
  }

  /** `upsertLocalOmxPluginMcpServerEnablement`. */
  function UpsertServers(t: string, servers: seq<string>, enabled: bool, removeWhenDisabled: bool): string {
    if enabled then EnableEach(StripServers(t, servers), servers)
    else if removeWhenDisabled then
      var stripped := StripServers(t, servers);
      if stripped == "" then "" else stripped + "\n"
    else t
  }

  // ------------------------------------------------------------------ a key that was set is read back

  lemma {:induction false} AssignsTrimmed(l: string, key: string)
    requires key != "" && !IsSpace(key[|key| - 1]) && Assigns(Trim(l), key)
    ensures Assigns(l, key)
    decreases |l|
  {
    if l != "" && IsSpace(l[|l| - 1]) {
      var front, w := l[..|l| - 1], l[|l| - 1];
      SameTrim(l, front);
      AssignsTrimmed(front, key);
      AssignsWithSpace(front, w, key);
      LastChar(l);
    } else {
      KeyOfTrimmed(l, key);
    }
  }

  lemma SameTrim(l: string, front: string)
    requires l != "" && IsSpace(l[|l| - 1]) && front == l[..|l| - 1]
    ensures Trim(front) == Trim(l)
  {
    assert TrimEnd(front) == TrimEnd(l);
  }

  lemma LastChar(l: string)
    requires l != ""
    ensures l == l[..|l| - 1] + [l[|l| - 1]]
  {
  }

  lemma KeyOfTrimmed(l: string, key: string)
    requires TrimEnd(l) == l
    ensures AfterKey(Trim(l), key) == AfterKey(l, key)
  {
    TrimStartTwice(l);
  }

  lemma AssignsWithSpace(l: string, w: char, key: string)
    requires key != "" && !IsSpace(key[|key| - 1]) && IsSpace(w) && Assigns(l, key)
    ensures Assigns(l + [w], key)
  {
    AfterKeyLast(l, w, key);
    var v := AfterKey(l, key).value;
    assert AfterKey(l + [w], key).value == v + [w];
  }

  lemma TrimStartTwice(t: string)
    ensures TrimStart(TrimStart(t)) == TrimStart(t)
  {
  }

  lemma EnabledAssigns(l: string)
    ensures Enabled(l).Some? ==> Assigns(l, ENABLED)
  {
    if Enabled(l).Some? {
      EnabledKey();
      AssignsTrimmed(l, ENABLED);
    }
  }

  lemma EnabledKey()
    ensures ENABLED != "" && !IsSpace(ENABLED[|ENABLED| - 1])
  {
  }

  lemma {:induction false} ReadRewritten(lines: seq<string>, assignment: string)
    requires HasKey(lines, ENABLED) && !IsTable(assignment) && Enabled(assignment).Some?
    ensures ReadTable(Rewritten(lines, ENABLED, assignment, false)) == Enabled(assignment)
  {
    var l, rest := lines[0], lines[1..];
    EnabledAssigns(l);
    if Assigns(l, ENABLED) {
      ReadFirst(assignment, Rewritten(rest, ENABLED, assignment, true), "");
    } else {
      ReadFirst(l, Rewritten(rest, ENABLED, assignment, false), "");
      ReadRewritten(rest, assignment);
    }
  }

  lemma ReadWithKey(lines: seq<string>, assignment: string)
    requires !IsTable(assignment) && Enabled(assignment).Some?
    ensures ReadTable(WithKey(lines, ENABLED, assignment)) == Enabled(assignment)
  {
    if HasKey(lines, ENABLED) {
      ReadRewritten(lines, assignment);
    } else {
      ReadFirst(assignment, lines, "");
    }
  }

  /** Rewriting a table changes no setting in the tables after it. */
  lemma {:induction false} SettingRewritten(lines: seq<string>, assignment: string, done: bool, h: string)
    requires IsHeader(h) && !IsTable(assignment)
    ensures Setting(Rewritten(lines, ENABLED, assignment, done), h) == Setting(lines, h)
  {
    if lines != [] && !IsTable(lines[0]) {
      var l, rest := lines[0], lines[1..];
      HeaderIsTable(l, h);
      HeaderIsTable(assignment, h);
      var next := done || Assigns(l, ENABLED);
      SettingRewritten(rest, assignment, next, h);
      ReadFirst(assignment, Rewritten(rest, ENABLED, assignment, true), h);
      ReadFirst(l, Rewritten(rest, ENABLED, assignment, done), h);
    }
  }

  lemma SettingWithKey(lines: seq<string>, assignment: string, h: string)
    requires IsHeader(h) && !IsTable(assignment)
    ensures Setting(WithKey(lines, ENABLED, assignment), h) == Setting(lines, h)
  {
    SettingRewritten(lines, assignment, false, h);
    HeaderIsTable(assignment, h);
    ReadFirst(assignment, lines, h);
  }

  /** The setting in lines that go on with other tables, where the rest reads as given. */
  function SettingOr(lines: seq<string>, h: string, rest: Option<bool>): Option<bool> {
    if lines == [] then rest
    else if Matches(lines[0], h) then ReadTable(lines[1..])
    else SettingOr(lines[1..], h, rest)
  }

  lemma {:induction false} SettingAfter(a: seq<string>, x: seq<string>, h: string)
    requires x != [] && IsTable(x[0])
    ensures Setting(a + x, h) == SettingOr(a, h, Setting(x, h))
  {
    if a == [] {
      assert a + x == x;
    } else {
      assert (a + x)[1..] == a[1..] + x;
      SettingAfter(a[1..], x, h);
      ReadTableSum(a[1..], x);
    }
  }

  lemma EditedHere(before: seq<string>, l: string, rest: seq<string>, assignment: string, g: string)
    requires (forall k :: k in before ==> !Matches(k, g)) && Matches(l, g)
    requires !IsTable(assignment) && Enabled(assignment).Some?
    ensures Setting(before + ([l] + WithKey(rest, ENABLED, assignment)), g) == Enabled(assignment)
  {
    var changed := WithKey(rest, ENABLED, assignment);
    SettingLast(before, [l] + changed, g);
    ReadFirst(l, changed, g);
    ReadWithKey(rest, assignment);
  }

  lemma EditedElsewhere(before: seq<string>, l: string, rest: seq<string>, assignment: string, h: string)
    requires IsHeader(h) && IsTable(l) && !Matches(l, h) && !IsTable(assignment)
    ensures Setting(before + ([l] + WithKey(rest, ENABLED, assignment)), h) == Setting(before + ([l] + rest), h)
  {
    var changed := WithKey(rest, ENABLED, assignment);
    SettingWithKey(rest, assignment, h);
    ReadFirst(l, rest, h);
    ReadFirst(l, changed, h);
    SettingAfter(before, [l] + changed, h);
    SettingAfter(before, [l] + rest, h);
  }

  lemma Regrouped(lines: seq<string>, start: nat, changed: seq<string>)
    requires start < |lines|
    ensures lines[..start + 1] + changed == lines[..start] + ([lines[start]] + changed)
    ensures lines == lines[..start] + ([lines[start]] + lines[start + 1..])
  {
  }

  lemma EditedSettings(lines: seq<string>, start: nat, g: string, assignment: string, h: string)
    requires IsHeader(g) && IsHeader(h) && start == FirstTable(lines, g) < |lines|
    requires !IsTable(assignment) && Enabled(assignment).Some?
    ensures Setting(Edited(lines, start, ENABLED, assignment), h) == if g == h then Enabled(assignment)
              else Setting(lines, h)
  {
    var before, l, rest := lines[..start], lines[start], lines[start + 1..];
    Regrouped(lines, start, WithKey(rest, ENABLED, assignment));
    HeaderIsTable(l, g);
    if g == h {
      NoneBefore(lines, start, g);
      EditedHere(before, l, rest, assignment, g);
    } else {
      EditedElsewhere(before, l, rest, assignment, h);
    }
  }

  lemma NoneBefore(lines: seq<string>, start: nat, g: string)
    requires start == FirstTable(lines, g)
    ensures forall l :: l in lines[..start] ==> !Matches(l, g)
  {
  }

  lemma {:induction false} FinalNewlineContent(t: string)
    ensures Content(OneFinalNewline(t)) == Content(t)
  {
    ContentIsScan(t);
    if t != "" && t[|t| - 1] == '\n' {
      var front := t[..|t| - 1];
      FinalNewlineContent(front);
      ContentIsScan(front);
      LastSpaceIsIgnored("", front, '\n');
      assert front + ['\n'] == t;
    } else {
      ContentIsScan(t + "\n");
      LastSpaceIsIgnored("", t, '\n');
    }
  }

  lemma {:induction false} RewrittenOneLiners(lines: seq<string>, assignment: string, done: bool)
    requires OneLiners(lines) && '\n' !in assignment
    ensures OneLiners(Rewritten(lines, ENABLED, assignment, done))
  {
    if lines != [] {
      assert lines[0] in lines;
      RewrittenOneLiners(lines[1..], assignment, true);
      RewrittenOneLiners(lines[1..], assignment, done);
    }
  }

  lemma EditedOneLiners(lines: seq<string>, start: nat, assignment: string)
    requires OneLiners(lines) && '\n' !in assignment && start < |lines|
    ensures OneLiners(Edited(lines, start, ENABLED, assignment))
  {
    RewrittenOneLiners(lines[start + 1..], assignment, false);
  }

  lemma JoinContent(lines: seq<string>)
    requires OneLiners(lines)
    ensures Content(Join(lines)) == Significant(lines)
  {
    ContentIsScan(Join(lines));
    ScanJoin(lines);
  }

  /** Setting a server's key is read back, whatever its table held before; every other setting stays. */
  lemma UpsertKeyReadsBack(t: string, g: string, value: bool, h: string)
    requires IsHeader(g) && IsHeader(h)
    ensures Setting(Split(UpsertKey(t, g, value, true)), h) == if g == h then Some(value) else Setting(Split(t), h)
  {
    var lines, start, assignment := Split(t), FirstTable(Split(t), g), Assignment(value);
    AssignmentIsEntry(value);
    ReadAssignment(value);
    if start < |lines| {
      var edited := Edited(lines, start, ENABLED, assignment);
      EditedOneLiners(lines, start, assignment);
      JoinContent(edited);
      FinalNewlineContent(Join(edited));
      SettingOf(UpsertKey(t, g, value, true), h);
      SettingContent(edited, h);
      EditedSettings(lines, start, g, assignment, h);
    } else {
      CreatedReadsBack(t, g, value, h);
    }
  }

  lemma ServerBlock(g: string, value: bool)
    requires IsHeader(g)
    ensures IsBlock([g, Assignment(value)], g) && Setting([g, Assignment(value)], g) == Some(value)
  {
    AssignmentIsEntry(value);
    ReadAssignment(value);
    OneEntryBlock(g, Assignment(value));
  }

  lemma OneEntryBlock(g: string, entry: string)
    requires IsHeader(g) && IsEntry(entry) && !IsTable(entry)
    ensures IsBlock([g, entry], g) && Setting([g, entry], g) == Enabled(entry)
  {
    BlockOf(g, [entry]);
    assert [g] + [entry] == [g, entry];
    HeaderLine(g);
    ReadTwo(g, entry);
  }

  lemma ReadTwo(g: string, entry: string)
    requires Matches(g, g) && !IsTable(entry)
    ensures Setting([g, entry], g) == Enabled(entry)
  {
    assert [g, entry][1..] == [entry];
    ReadOne(entry);
  }

  lemma ReadOne(entry: string)
    requires !IsTable(entry)
    ensures ReadTable([entry]) == Enabled(entry)
  {
    assert [entry][1..] == [];
  }

  lemma RegisteredSetting(base: string, block: seq<string>, g: string, h: string)
    requires IsBlock(block, g) && IsHeader(h) && (base == "" || base[|base| - 1] != '\r')
    ensures g != h ==> Setting(Split(Registered(base, block)), h) == Setting(Split(base), h)
    ensures g == h && (forall l :: l in Split(base) ==> !Matches(l, g)) ==>
              Setting(Split(Registered(base, block)), h) == Setting(block, h)
  {
    RegisteredContent(base, block, g);
    SettingOf(Registered(base, block), h);
    SettingOf(base, h);
    if g != h {
      OtherBlock(block, g, h);
      SettingSum(Content(base), block, h);
    } else if forall l :: l in Split(base) ==> !Matches(l, g) {
      NoneInSignificant(Split(base), g);
      SettingLast(Content(base), block, h);
    }
  }

  lemma CreatedReadsBack(t: string, g: string, value: bool, h: string)
    requires IsHeader(g) && IsHeader(h) && FirstTable(Split(t), g) == |Split(t)|
    ensures Setting(Split(UpsertKey(t, g, value, true)), h) == if g == h then Some(value) else Setting(Split(t), h)
  {
    var base, block := TrimEnd(t), [g, Assignment(value)];
    ServerBlock(g, value);
    TrimKeepsContent(t);
    SettingOf(t, h);
    SettingOf(base, h);
    NoneInTrimmed(t, g);
    RegisteredSetting(base, block, g, h);
  }

  lemma NoneInTrimmed(t: string, h: string)
    requires IsHeader(h) && FirstTable(Split(t), h) == |Split(t)|
    ensures forall l :: l in Split(TrimEnd(t)) ==> !Matches(l, h)
  {
    NoneInSignificant(Split(t), h);
    TrimKeepsContent(t);
    NoneInContent(Split(TrimEnd(t)), h);
  }

  lemma {:induction false} NoneInSignificant(lines: seq<string>, h: string)
    requires forall l :: l in lines ==> !Matches(l, h)
    ensures forall l :: l in Significant(lines) ==> !Matches(l, h)
  {
    if lines != [] {
      assert lines[0] in lines;
      TrimEndTwice(lines[0]);
      NoneInSignificant(lines[1..], h);
    }
  }

  // ------------------------------------------------------------------ enabling every server, removing every server

  method StripEveryServer(t: string, servers: seq<string>) returns (next: string)
    ensures next == StripServers(t, servers)
  {
    next := t;
    assert servers[0..] == servers;
    for i := 0 to |servers|
      invariant StripServers(next, servers[i..]) == StripServers(t, servers)
    {
      assert servers[i..][1..] == servers[i + 1..];
      next := StripTables(next, servers[i]);
    }
  }

  method UpsertServerEnablement(t: string, servers: seq<string>, enabled: bool, removeWhenDisabled: bool)
    returns (r: string)
    ensures r == UpsertServers(t, servers, enabled, removeWhenDisabled)
  {
    if !enabled && removeWhenDisabled {
      var stripped := StripEveryServer(t, servers);
      return if stripped == "" then "" else stripped + "\n";
    }
    if !enabled {
      return t;
    }
    r := StripEveryServer(t, servers);
    assert servers[0..] == servers;
    for i := 0 to |servers|
      invariant EnableEach(r, servers[i..]) == EnableEach(StripServers(t, servers), servers)
    {
      assert servers[i..][1..] == servers[i + 1..];
      r := UpsertBooleanKey(r, servers[i], true, true);
    }
  }

  lemma RestOfServers(servers: seq<string>)
    requires ServerTables(servers) && servers != []
    ensures ServerTables(servers[1..]) && servers[0] in servers && servers[0] !in servers[1..]
    ensures forall h :: h in servers <==> h == servers[0] || h in servers[1..]
  {
    var rest := servers[1..];
    assert forall i :: 0 <= i < |rest| ==> rest[i] == servers[i + 1];
    forall h | h in rest ensures h in servers {
    }
  }

  /** Enabling changes the settings of exactly the listed servers. */
  lemma {:induction false} EnableEachReads(t: string, servers: seq<string>, h: string)
    requires ServerTables(servers) && IsHeader(h)
    ensures Setting(Split(EnableEach(t, servers)), h) == if h in servers then Some(true) else Setting(Split(t), h)
    decreases |servers|
  {
    if servers != [] {
      RestOfServers(servers);
      UpsertKeyReadsBack(t, servers[0], true, h);
      EnableEachReads(UpsertKey(t, servers[0], true, true), servers[1..], h);
    }
  }

  ghost predicate AllAre(t: string, servers: seq<string>, setting: Option<bool>) {
    forall h :: h in servers ==> Setting(Split(t), h) == setting
  }

  ghost predicate NoneIs(t: string, servers: seq<string>, setting: Option<bool>) {
    forall h :: h in servers ==> Setting(Split(t), h) != setting
  }

  lemma FirstAndRest(t: string, servers: seq<string>, setting: Option<bool>)
    requires servers != []
    ensures AllAre(t, servers, setting) <==>
              Setting(Split(t), servers[0]) == setting && AllAre(t, servers[1..], setting)
    ensures NoneIs(t, servers, setting) <==>
              Setting(Split(t), servers[0]) != setting && NoneIs(t, servers[1..], setting)
  {
    var first, rest := servers[0], servers[1..];
    assert servers == [first] + rest;
    assert first in servers && forall h :: h in rest ==> h in servers;
    assert forall h :: h in servers ==> h == first || h in rest;
  }

  lemma {:induction false} CountAll(t: string, servers: seq<string>, setting: Option<bool>)
    ensures CountSettings(t, servers, setting) <= |servers|
    ensures CountSettings(t, servers, setting) == |servers| <==> AllAre(t, servers, setting)
    ensures CountSettings(t, servers, setting) == 0 <==> NoneIs(t, servers, setting)
  {
    if servers != [] {
      FirstAndRest(t, servers, setting);
      CountAll(t, servers[1..], setting);
    }
  }

  /** The doctor passes in mode `compat` when every server is enabled, and in the other modes when none is. A mixed
      configuration is inferred to be in mode `none`, and draws a warning in every mode. */
  lemma DoctorPassesExactlyWhen(t: string, servers: seq<string>, mode: McpMode)
    requires servers != []
    ensures var all := forall h :: h in servers ==> Setting(Split(t), h) == Some(true);
            var none := forall h :: h in servers ==> Setting(Split(t), h) != Some(true);
            && (DescribeState(t, servers, mode) == Pass <==> if mode == Compat then all else none)
            && (DescribeState(t, servers, InferMode(t, servers)) == Pass <==> all || none)
            && (!all && !none ==> InferMode(t, servers) == NoMcp && DescribeState(t, servers, mode) == Warn)
  {
    CountAll(t, servers, Some(true));
    CountAll(t, servers, None);
    assert servers[0] in servers;
  }

  /** After enabling, the doctor reads every server as enabled, infers `compat` and passes. */
  lemma EnabledReadsEnabled(t: string, servers: seq<string>, removeWhenDisabled: bool)
    requires ServerTables(servers) && servers != []
    ensures var u := UpsertServers(t, servers, true, removeWhenDisabled);
            && (forall h :: h in servers ==> Setting(Split(u), h) == Some(true))
            && InferMode(u, servers) == Compat && DescribeState(u, servers, Compat) == Pass
  {
    var u := UpsertServers(t, servers, true, removeWhenDisabled);
    forall h | h in servers ensures Setting(Split(u), h) == Some(true) {
      EnableEachReads(StripServers(t, servers), servers, h);
    }
    CountAll(u, servers, Some(true));
    CountAll(u, servers, None);
  }

  lemma {:induction false} StripServersContent(t: string, servers: seq<string>, h: string)
    requires ServerTables(servers)
    requires h in servers || forall l :: l in Content(t) ==> !Matches(l, h)
    ensures forall l :: l in Content(StripServers(t, servers)) ==> !Matches(l, h)
    decreases |servers|
  {
    if servers != [] {
      RestOfServers(servers);
      StripContent(t, servers[0]);
      KeptHasLines(Content(t), servers[0], false);
      StripServersContent(Strip(t, servers[0]), servers[1..], h);
    }
  }

  lemma StrippedServersHaveNone(t: string, servers: seq<string>, h: string)
    requires ServerTables(servers) && h in servers
    ensures forall l :: l in Split(StripServers(t, servers)) ==> !Matches(l, h)
  {
    StripServersContent(t, servers, h);
    NoneInContent(Split(StripServers(t, servers)), h);
  }

  /** After removal, the doctor finds no server table at all and infers `none`. */
  lemma RemovedReadsNone(t: string, servers: seq<string>)
    requires ServerTables(servers)
    ensures var u := UpsertServers(t, servers, false, true);
            && (forall h :: h in servers ==> Setting(Split(u), h) == None)
            && !HasRegistrations(u, servers)
            && InferMode(u, servers) == NoMcp && DescribeState(u, servers, NoMcp) == Pass
  {
    var s, u := StripServers(t, servers), UpsertServers(t, servers, false, true);
    forall h | h in servers ensures (forall l :: l in Split(u) ==> !Matches(l, h)) && Setting(Split(u), h) == None {
      StripServersContent(t, servers, h);
      NewlineContent(s);
      NoneInContent(Split(u), h);
      NoSetting(Split(u), h);
    }
    CountAll(u, servers, Some(true));
    assert servers != [] ==> servers[0] in servers;
  }

  lemma NewlineContent(t: string)
    ensures Content(t + "\n") == Content(t)
  {
    ContentIsScan(t);
    ContentIsScan(t + "\n");
    LastSpaceIsIgnored("", t, '\n');
  }

  // ------------------------------------------------------------------ the six servers

  lemma ServerHeaderIsHeader(name: string)
    requires '\n' !in name && '\r' !in name
    ensures IsHeader(ServerHeader(name))
  {
    PluginKey();
    PlainPieces();
    var h := ServerHeader(name);
    assert h[0] == '[' && h[|h| - 1] == ']';
  }

  lemma PlainPieces()
    ensures '\n' !in "[plugins." && '\r' !in "[plugins." && '\n' !in ".mcp_servers." && '\r' !in ".mcp_servers."
  {
  }

  lemma ServerHeadersDiffer(a: string, b: string)
    requires ServerHeader(a) == ServerHeader(b)
    ensures a == b
  {
    var prefix := "[plugins." + PLUGIN_KEY + ".mcp_servers.";
    assert ServerHeader(a) == prefix + (a + "]") && ServerHeader(b) == prefix + (b + "]");
    assert ServerHeader(a)[|prefix|..] == a + "]" && ServerHeader(b)[|prefix|..] == b + "]";
    assert a == (a + "]")[..|a|] && b == (b + "]")[..|b|];
  }

  lemma NotARegistration(name: string)
    ensures ServerHeader(name) !in {MARKETPLACE, PLUGIN, PLUGINS}
  {
    var h, n := ServerHeader(name), |"[plugins." + PLUGIN_KEY|;
    assert h[1] == 'p' && MARKETPLACE[1] == 'm';
    assert h[8] == '.' && PLUGINS[8] == ']';
    assert h[n] == '.' && PLUGIN[n] == ']';
  }

  lemma ServerNames()
    ensures forall name :: name in SERVERS ==> '\n' !in name && '\r' !in name
    ensures forall i, j :: 0 <= i < j < |SERVERS| ==> SERVERS[i] != SERVERS[j]
  {
    assert |SERVERS[0]| == 9 && |SERVERS[1]| == 10 && |SERVERS[2]| == 14 && |SERVERS[3]| == 9 && |SERVERS[4]| == 8
        && |SERVERS[5]| == 10;
    assert SERVERS[0][4] == 's' && SERVERS[3][4] == 't' && SERVERS[1][4] == 'm' && SERVERS[5][4] == 'h';
  }

  function SixServers(): seq<string> {
    seq(|SERVERS|, i requires 0 <= i < |SERVERS| => ServerHeader(SERVERS[i]))
  }

  /** The six first-party servers have six different tables. */
  lemma SixServersAreTables()
    ensures ServerTables(SixServers()) && |SixServers()| == 6
  {
    ServerNames();
    var servers := SixServers();
    forall h | h in servers ensures IsHeader(h) && h !in {MARKETPLACE, PLUGIN, PLUGINS} {
      var i :| 0 <= i < |servers| && servers[i] == h;
      assert SERVERS[i] in SERVERS;
      ServerHeaderIsHeader(SERVERS[i]);
      NotARegistration(SERVERS[i]);
    }
    forall i, j | 0 <= i < j < |servers| ensures servers[i] != servers[j] {
      if servers[i] == servers[j] {
        ServerHeadersDiffer(SERVERS[i], SERVERS[j]);
      }
    }
  }
}
