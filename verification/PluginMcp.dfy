/** Enabling the first-party MCP servers in `config.toml`, and the doctor that reads them back
    (`src/cli/plugin-marketplace.ts`, `src/cli/doctor.ts`). */
module PluginMcp {
  import opened TomlText
  import opened TomlEdit
  import opened PluginRegistration
  import opened Wrappers

  // ------------------------------------------------------------------ the reader

  /** `^\s*enabled\s*=\s*(true|false)\s*$`. */
  function Enabled(l: string): Option<bool> {
    if Assigns(Trim(l), ENABLED) then ReadBool(TrimStart(AfterKey(Trim(l), ENABLED).value[1..])) else None
  }

  function ReadBool(v: string): Option<bool> {
    if v == "true" then Some(true) else if v == "false" then Some(false) else None
  }

  /** The word after the equals sign of an assignment, with white space around it. */
  ghost predicate SetsFrom(l: string, key: string, word: string, i: nat, k: nat, m: nat) {
    && AssignsFrom(l, key, i, k) && Spaces(l, k + 1, m) && m + |word| <= |l|
    && l[m..m + |word|] == word && Spaces(l, m + |word|, |l|)
  }

  lemma SpacesWithin(l: string, i: nat, n: nat, from: nat, to: nat)
    requires i <= from <= to <= n <= |l|
    ensures Spaces(l, from, to) <==> Spaces(l[i..n], from - i, to - i)
  {
    var part := l[i..n];
    if Spaces(part, from - i, to - i) {
      forall j | from <= j < to ensures IsSpace(l[j]) {
        assert part[j - i] == l[j];
      }
    }
  }

  lemma SliceWithin(l: string, i: nat, n: nat, from: nat, to: nat)
    requires i <= from <= to <= n <= |l|
    ensures l[i..n][from - i..to - i] == l[from..to]
  {
    var part, slice := l[i..n][from - i..to - i], l[from..to];
    forall j | 0 <= j < |slice| ensures part[j] == slice[j] {
      assert part[j] == l[i..n][from - i + j] == l[from + j];
    }
  }

  lemma TrimTo(l: string, i: nat, n: nat)
    requires i < n <= |l| && Spaces(l, 0, i) && Spaces(l, n, |l|) && !IsSpace(l[i]) && !IsSpace(l[n - 1])
    ensures Trim(l) == l[i..n]
  {
    TrimEndAt(l, n);
    TrimStartAt(l[..n], i);
    assert l[..n][i..] == l[i..n];
  }

  /** What is assigned within a part of a line is assigned in the line, as far as the part goes back. */
  lemma AssignsWithin(l: string, i: nat, n: nat, key: string, j: nat, k: nat)
    requires i <= j && j + |key| <= k < n <= |l| && Spaces(l, 0, i)
    ensures AssignsFrom(l[i..n], key, j - i, k - i) <==> AssignsFrom(l, key, j, k)
  {
    SpacesWithin(l, i, n, i, j);
    SpacesWithin(l, i, n, j + |key|, k);
    SliceWithin(l, i, n, j, j + |key|);
  }

  lemma WordAt(l: string, key: string, word: string, i: nat, k: nat, m: nat)
    requires key != "" && !IsSpace(key[0]) && word != "" && !IsSpace(word[0]) && !IsSpace(word[|word| - 1])
    requires SetsFrom(l, key, word, i, k, m)
    ensures Assigns(Trim(l), key) && TrimStart(AfterKey(Trim(l), key).value[1..]) == word
  {
    var n := m + |word|;
    assert l[m..n][|word| - 1] == l[n - 1] && l[i..i + |key|][0] == l[i] && l[m..n][0] == l[m];
    TrimTo(l, i, n);
    AssignsWithin(l, i, n, key, i, k);
    AfterKeyAt(l[i..n], key, 0, k - i);
    WordAfter(l, i, n, k, m);
  }

  lemma WordAfter(l: string, i: nat, n: nat, k: nat, m: nat)
    requires i <= k < m < n <= |l| && Spaces(l, k + 1, m) && !IsSpace(l[m])
    ensures TrimStart(l[i..n][k - i..][1..]) == l[m..n]
  {
    var after := l[k + 1..n];
    assert l[i..n][k - i..][1..] == after;
    SpacesWithin(l, k + 1, n, k + 1, m);
    TrimStartAt(after, m - (k + 1));
    assert after[m - (k + 1)..] == l[m..n];
  }

  lemma WhereTrimmed(l: string) returns (a: nat, n: nat)
    ensures a <= n <= |l| && Trim(l) == l[a..n] && Spaces(l, 0, a) && Spaces(l, n, |l|)
  {
    n := LastVisible(l);
    a := FirstVisible(l[..n]);
    assert l[..n][a..] == l[a..n] && l[..n] == l[0..n];
    SpacesWithin(l, 0, n, 0, a);
  }

  lemma WhereAfter(l: string, i: nat, n: nat, k: nat) returns (m: nat)
    requires i <= k < n <= |l|
    ensures k < m <= n && Spaces(l, k + 1, m) && TrimStart(l[i..n][k - i..][1..]) == l[m..n]
  {
    var after := l[k + 1..n];
    assert l[i..n][k - i..][1..] == after;
    var f := FirstVisible(after);
    m := k + 1 + f;
    SpacesWithin(l, k + 1, n, k + 1, m);
    assert after[f..] == l[m..n];
  }

  lemma WhereWord(l: string, key: string, word: string) returns (i: nat, k: nat, m: nat)
    requires Assigns(Trim(l), key) && TrimStart(AfterKey(Trim(l), key).value[1..]) == word
    requires key != "" && !IsSpace(key[0])
    ensures SetsFrom(l, key, word, i, k, m)
  {
    var a, n := WhereTrimmed(l);
    var j, e := WhereAssigned(l[a..n], key);
    AfterKeyAt(l[a..n], key, j, e);
    i, k := a + j, a + e;
    AssignsWithin(l, a, n, key, i, k);
    m := WhereAfter(l, a, n, k);
  }

  lemma EnabledWords()
    ensures ENABLED != "" && !IsSpace(ENABLED[0])
    ensures !IsSpace("true"[0]) && !IsSpace("true"[3]) && !IsSpace("false"[0]) && !IsSpace("false"[4])
  {
  }

  /** A line sets the key to true, or to false, when it holds the key, an equals sign and that word, and nothing else
      but white space. */
  lemma EnabledExactlyWhen(l: string)
    ensures Enabled(l) == Some(true) <==> exists i: nat, k: nat, m: nat :: SetsFrom(l, "enabled", "true", i, k, m)
    ensures Enabled(l) == Some(false) <==> exists i: nat, k: nat, m: nat :: SetsFrom(l, "enabled", "false", i, k, m)
  {
    EnabledWords();
    if Enabled(l) == Some(true) {
      var i, k, m := WhereWord(l, ENABLED, "true");
    } else if Enabled(l) == Some(false) {
      var i, k, m := WhereWord(l, ENABLED, "false");
    }
    if i: nat, k: nat, m: nat :| SetsFrom(l, "enabled", "true", i, k, m) {
      WordAt(l, ENABLED, "true", i, k, m);
    }
    if i: nat, k: nat, m: nat :| SetsFrom(l, "enabled", "false", i, k, m) {
      WordAt(l, ENABLED, "false", i, k, m);
    }
  }

  /** The first setting in the rest of a table. */
  function ReadTable(lines: seq<string>): Option<bool> {
    if lines == [] || IsTable(lines[0]) then None
    else if Enabled(lines[0]).Some? then Enabled(lines[0])
    else ReadTable(lines[1..])
  }

  /** The setting in the first table headed `h`. */
  function Setting(lines: seq<string>, h: string): Option<bool> {
    if lines == [] then None
    else if Matches(lines[0], h) then ReadTable(lines[1..])
    else Setting(lines[1..], h)
  }

  lemma SettingStep(lines: seq<string>, i: nat, h: string)
    requires i < |lines|
    ensures Setting(lines[i..], h) == if Matches(lines[i], h) then ReadTable(lines[i + 1..])
              else Setting(lines[i + 1..], h)
    ensures ReadTable(lines[i..]) ==
              if IsTable(lines[i]) then None
              else if Enabled(lines[i]).Some? then Enabled(lines[i])
              else ReadTable(lines[i + 1..])
  {
    assert lines[i..][1..] == lines[i + 1..];
  }

  /** `pluginMcpServerEnabled`. */
  method ServerEnabled(t: string, h: string) returns (r: Option<bool>)
    ensures r == Setting(Split(t), h)
  {
    var lines := Split(t);
    var start := 0;
    assert lines[0..] == lines;
    while start < |lines| && !Matches(lines[start], h)
      invariant start <= |lines| && Setting(lines[start..], h) == Setting(lines, h)
    {
      SettingStep(lines, start, h);
      start := start + 1;
    }
    if start == |lines| {
      return None;
    }
    SettingStep(lines, start, h);
    for index := start + 1 to |lines|
      invariant ReadTable(lines[index..]) == Setting(lines, h)
    {
      SettingStep(lines, index, h);
      if IsTable(lines[index]) {
        return None;
      }
      if Enabled(lines[index]).Some? {
        return Enabled(lines[index]);
      }
    }
    r := None;
  }

  datatype McpMode = Compat | NoMcp

  /** `inferPluginMcpModeFromConfig`. */
  function InferMode(t: string, servers: seq<string>): McpMode {
    if servers != [] && forall h :: h in servers ==> Setting(Split(t), h) == Some(true) then Compat else NoMcp
  }

  datatype CheckStatus = Pass | Warn

  function CountSettings(t: string, servers: seq<string>, setting: Option<bool>): nat {
    if servers == [] then 0
    else (if Setting(Split(t), servers[0]) == setting then 1 else 0) + CountSettings(t, servers[1..], setting)
  }

  /** `describePluginMcpState`. */
  function DescribeState(t: string, servers: seq<string>, mode: McpMode): CheckStatus {
    var enabled := CountSettings(t, servers, Some(true));
    var missing := CountSettings(t, servers, None);
    if mode == Compat && missing == 0 && enabled == |servers| then Pass
    else if mode != Compat && enabled == 0 then Pass
    else Warn
  }

  /** `hasLocalOmxPluginMcpServerRegistrations`. */
  predicate HasRegistrations(t: string, servers: seq<string>) {
    exists h, l :: h in servers && l in Split(t) && Matches(l, h)
  }

  // ------------------------------------------------------------------ reading is reading the content

  lemma EnabledTrimmed(l: string)
    ensures Enabled(TrimEnd(l)) == Enabled(l) && IsTable(TrimEnd(l)) == IsTable(l)
  {
    TrimEndTwice(l);
  }

  lemma BlankIsSilent(l: string)
    requires TrimEnd(l) == ""
    ensures Enabled(l) == None && !IsTable(l)
  {
    BlankLine(l);
  }

  lemma {:induction false} ReadTableContent(lines: seq<string>)
    ensures ReadTable(Significant(lines)) == ReadTable(lines)
  {
    if lines != [] {
      var l, rest := lines[0], Significant(lines[1..]);
      ReadTableContent(lines[1..]);
      EnabledTrimmed(l);
      if TrimEnd(l) == "" {
        BlankIsSilent(l);
        assert [] + rest == rest;
      } else {
        assert ([TrimEnd(l)] + rest)[1..] == rest;
      }
    }
  }

  lemma {:induction false} SettingContent(lines: seq<string>, h: string)
    requires IsHeader(h)
    ensures Setting(Significant(lines), h) == Setting(lines, h)
  {
    if lines != [] {
      var l, rest := lines[0], Significant(lines[1..]);
      SettingContent(lines[1..], h);
      ReadTableContent(lines[1..]);
      TrimEndTwice(l);
      if TrimEnd(l) == "" {
        BlankLine(l);
        assert [] + rest == rest;
      } else {
        assert ([TrimEnd(l)] + rest)[1..] == rest;
      }
    }
  }

  lemma SettingOf(t: string, h: string)
    requires IsHeader(h)
    ensures Setting(Content(t), h) == Setting(Split(t), h)
  {
    SettingContent(Split(t), h);
  }

  // ------------------------------------------------------------------ what other edits leave alone

  lemma ReadFirst(l: string, rest: seq<string>, h: string)
    ensures Setting([l] + rest, h) == if Matches(l, h) then ReadTable(rest) else Setting(rest, h)
    ensures ReadTable([l] + rest) == if IsTable(l) then None else if Enabled(l).Some? then Enabled(l)
              else ReadTable(rest)
    ensures [] + rest == rest
  {
    assert ([l] + rest)[1..] == rest;
  }

  lemma {:induction false} ReadTableKept(lines: seq<string>, g: string)
    requires IsHeader(g)
    ensures ReadTable(Kept(lines, g, false)) == ReadTable(lines)
  {
    if lines != [] {
      var l, goes := lines[0], Goes(lines[0], g, false);
      HeaderIsTable(l, g);
      ReadFirst(l, Kept(lines[1..], g, goes), g);
      if goes {
        KeptFromTable(lines[1..], g);
      } else {
        ReadTableKept(lines[1..], g);
      }
    }
  }

  /** What is left after a removed table starts with a table. */
  lemma {:induction false} KeptFromTable(lines: seq<string>, g: string)
    requires IsHeader(g)
    ensures var k := Kept(lines, g, true); k == [] || IsTable(k[0])
  {
    if lines != [] {
      KeptFromTable(lines[1..], g);
      var rest := Kept(lines[1..], g, true);
      assert [] + rest == rest;
    }
  }

  /** Removing other tables changes no setting. */
  lemma {:induction false} SettingKept(lines: seq<string>, g: string, inside: bool, h: string)
    requires IsHeader(g) && IsHeader(h) && g != h
    ensures Setting(Kept(lines, g, inside), h) == Setting(lines, h)
  {
    if lines != [] {
      var l, goes := lines[0], Goes(lines[0], g, inside);
      HeaderIsTable(l, h);
      SettingKept(lines[1..], g, goes, h);
      ReadFirst(l, Kept(lines[1..], g, goes), h);
      if !goes {
        ReadTableKept(lines[1..], g);
      }
    }
  }

  lemma {:induction false} ReadTableSum(a: seq<string>, b: seq<string>)
    requires b != [] && IsTable(b[0])
    ensures ReadTable(a + b) == ReadTable(a)
  {
    if a == [] {
      assert a + b == b;
    } else {
      assert (a + b)[1..] == a[1..] + b;
      ReadTableSum(a[1..], b);
    }
  }

  /** Another table at the end changes no setting. */
  lemma {:induction false} SettingSum(a: seq<string>, b: seq<string>, h: string)
    requires b != [] && IsTable(b[0]) && Setting(b, h) == None
    ensures Setting(a + b, h) == Setting(a, h)
  {
    if a == [] {
      assert a + b == b;
    } else {
      assert (a + b)[1..] == a[1..] + b;
      SettingSum(a[1..], b, h);
      ReadTableSum(a[1..], b);
    }
  }

  /** Without a table for `h`, the one at the end is the one that is read. */
  lemma {:induction false} SettingLast(a: seq<string>, b: seq<string>, h: string)
    requires forall l :: l in a ==> !Matches(l, h)
    ensures Setting(a + b, h) == Setting(b, h)
  {
    if a == [] {
      assert a + b == b;
    } else {
      assert (a + b)[1..] == a[1..] + b;
      assert a[0] in a;
      SettingLast(a[1..], b, h);
    }
  }

  lemma {:induction false} NoSetting(lines: seq<string>, h: string)
    requires forall l :: l in lines ==> !Matches(l, h)
    ensures Setting(lines, h) == None
  {
    if lines != [] {
      assert lines[0] in lines;
      NoSetting(lines[1..], h);
    }
  }

  lemma OtherBlock(block: seq<string>, g: string, h: string)
    requires IsBlock(block, g) && IsHeader(h) && g != h
    ensures Setting(block, h) == None && IsTable(block[0])
  {
    HeaderLine(g);
    forall l | l in block ensures !Matches(l, h) {
      HeaderIsTable(l, h);
      assert l == block[0] || l in block[1..];
    }
    NoSetting(block, h);
  }

  /** An upsert of one table changes no setting in another. */
  lemma SettingUpserted(t: string, g: string, block: seq<string>, h: string)
    requires IsBlock(block, g) && IsHeader(h) && g != h
    ensures Setting(Split(Upsert(t, g, block)), h) == Setting(Split(t), h)
  {
    SettingOf(t, h);
    SettingOf(Upsert(t, g, block), h);
    UpsertContent(t, g, block);
    SettingKept(Content(t), g, false, h);
    OtherBlock(block, g, h);
    SettingSum(Kept(Content(t), g, false), block, h);
  }

  lemma {:induction false} ReadTableCurrent(lines: seq<string>, owner: string)
    requires owner != PLUGINS
    ensures ReadTable(Current(lines, owner)) == ReadTable(lines)
  {
    if lines != [] && !IsTable(lines[0]) {
      ReadTableCurrent(lines[1..], owner);
      var rest := Current(lines[1..], owner);
      assert ([lines[0]] + rest)[1..] == rest;
    }
  }

  lemma {:induction false} SettingCurrent(lines: seq<string>, owner: string, h: string)
    requires IsHeader(h) && h != PLUGINS
    ensures Setting(Current(lines, owner), h) == Setting(lines, h)
  {
    if lines != [] {
      var l, o := lines[0], OwnerAt(lines[0], owner);
      HeaderIsTable(l, h);
      SettingCurrent(lines[1..], o, h);
      ReadFirst(l, Current(lines[1..], o), h);
      if Matches(l, h) {
        TableStays(l, owner);
        ReadTableCurrent(lines[1..], o);
      } else {
        assert Surviving(l, o) == [] || Surviving(l, o) == [l];
      }
    }
  }

  lemma TableStays(l: string, owner: string)
    requires IsTable(l)
    ensures OwnerAt(l, owner) == Trim(l) && Surviving(l, OwnerAt(l, owner)) == [l]
  {
  }

  /** What the doctor reads survives later marketplace and plugin upserts. */
  lemma SettingsSurviveRegistration(t: string, quotedRoot: string, h: string)
    requires IsQuoted(quotedRoot) && IsHeader(h) && h !in {MARKETPLACE, PLUGIN, PLUGINS}
    ensures Setting(Split(UpsertMarketplace(t, quotedRoot)), h) == Setting(Split(t), h)
    ensures Setting(Split(UpsertEnablement(t)), h) == Setting(Split(t), h)
  {
    MarketplaceIsBlock(quotedRoot);
    SettingUpserted(t, MARKETPLACE, MarketplaceBlock(quotedRoot), h);
    PluginIsBlock();
    SettingUpserted(RemoveLegacy(t), PLUGIN, PluginBlock(), h);
    SettingOf(RemoveLegacy(t), h);
    LegacyContent(t);
    SettingContent(Current(Split(t), ""), h);
    SettingCurrent(Split(t), "", h);
  }
}
