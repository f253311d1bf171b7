/** What the writers of the plugin's server tables leave alone, and what exactly they write
    (`src/cli/plugin-marketplace.ts`). */
module PluginMcpLocal {
  import opened TomlText
  import opened TomlEdit
  import opened PluginRegistration
  import opened PluginIdempotence
  import opened PluginMcp
  import opened PluginMcpWriter
  import opened PluginMcpProofs
  import opened PluginMcpUndo
  import opened PluginMcpTwice
  import opened Wrappers

  // ------------------------------------------------------------------ the lines outside the server tables

  /** The lines that none of the tables owns. */
  function Outside(owned: seq<(string, string)>, tables: set<string>): seq<(string, string)> {
    if owned == [] then []
    else (if owned[0].0 in tables then [] else [owned[0]]) + Outside(owned[1..], tables)
  }

  lemma {:induction false} OutsideNone(owned: seq<(string, string)>)
    ensures Outside(owned, {}) == owned
  {
    if owned != [] {
      OutsideNone(owned[1..]);
      assert owned == [owned[0]] + owned[1..];
    }
  }

  lemma {:induction false} OutsideOneMore(owned: seq<(string, string)>, h: string, tables: set<string>)
    ensures Outside(Without(owned, h), tables) == Outside(owned, {h} + tables)
  {
    if owned != [] {
      OutsideOneMore(owned[1..], h, tables);
      var rest := Without(owned[1..], h);
      assert [] + rest == rest && ([owned[0]] + rest)[1..] == rest;
    }
  }

  lemma OwnedAfterStrip(t: string, h: string)
    requires IsHeader(h)
    ensures Owned(Content(Strip(t, h)), "") == Without(Owned(Content(t), ""), h)
  {
    StripContent(t, h);
    KeptIsWithout(Content(t), h, "", "");
  }

  lemma {:induction false} OwnedAfterStrips(t: string, servers: seq<string>)
    requires ServerTables(servers)
    ensures Owned(Content(StripServers(t, servers)), "") == Outside(Owned(Content(t), ""), Headers(servers))
    decreases |servers|
  {
    if servers == [] {
      OutsideNone(Owned(Content(t), ""));
      assert Headers(servers) == {};
    } else {
      var h := servers[0];
      RestOfServers(servers);
      assert Headers(servers) == {h} + Headers(servers[1..]);
      OwnedAfterStrip(t, h);
      OwnedAfterStrips(Strip(t, h), servers[1..]);
      OutsideOneMore(Owned(Content(t), ""), h, Headers(servers[1..]));
    }
  }

  /** Each server's header and its one entry, both under the header. */
  function EnabledTables(servers: seq<string>): seq<(string, string)> {
    if servers == [] then []
    else [(servers[0], servers[0]), (servers[0], "enabled = true")] + EnabledTables(servers[1..])
  }

  lemma OwnedServer(h: string)
    requires IsHeader(h)
    ensures Owned(ServerLines(h), "") == [(h, h), (h, "enabled = true")]
  {
    HeaderLine(h);
    AssignmentIsEntry(true);
    OwnedPair(h, Assignment(true));
  }

  lemma OwnedPair(h: string, entry: string)
    requires Trim(h) == h && IsTable(h) && !IsTable(entry)
    ensures Owned([h, entry], "") == [(h, h), (h, entry)]
  {
    var lines := [h, entry];
    assert lines[1..] == [entry] && lines[1..][1..] == [];
    assert Owned(lines[1..], h) == [(h, entry)] + Owned([], h);
  }

  lemma OwnedAfterBody(s: string, h: string)
    requires IsHeader(h) && EndsVisibly(s)
    ensures EndsVisibly(Body(s, ServerLines(h)))
    ensures Owned(Content(Body(s, ServerLines(h))), "") ==
              Owned(Content(s), "") + [(h, h), (h, "enabled = true")]
  {
    var block := ServerLines(h);
    ServerBlock(h, true);
    BodyLines(s, h);
    RegisteredIsBody(s, block, h);
    RegisteredContent(s, block, h);
    NewlineContent(Body(s, block));
    HeaderLine(h);
    OwnedSum(Content(s), block, "");
    OwnedServer(h);
  }

  lemma OneMoreTable(owned: seq<(string, string)>, servers: seq<string>)
    requires servers != []
    ensures owned + [(servers[0], servers[0]), (servers[0], "enabled = true")] + EnabledTables(servers[1..]) ==
              owned + EnabledTables(servers)
  {
  }

  lemma BuiltStep(s: string, servers: seq<string>)
    requires servers != []
    ensures Built(s, servers) == Built(Body(s, ServerLines(servers[0])), servers[1..])
  {
  }

  lemma {:induction false} OwnedAfterBuilding(s: string, servers: seq<string>)
    requires ServerTables(servers) && EndsVisibly(s)
    ensures Owned(Content(Built(s, servers)), "") == Owned(Content(s), "") + EnabledTables(servers)
    decreases |servers|
  {
    var owned := Owned(Content(s), "");
    if servers == [] {
      assert owned + [] == owned;
    } else {
      var h := servers[0];
      RestOfServers(servers);
      OwnedAfterBody(s, h);
      BuiltStep(s, servers);
      OwnedAfterBuilding(Body(s, ServerLines(h)), servers[1..]);
      OneMoreTable(owned, servers);
    }
  }

  lemma EnablingIsLocal(t: string, servers: seq<string>, removeWhenDisabled: bool)
    requires ServerTables(servers) && servers != []
    ensures Owned(Content(UpsertServers(t, servers, true, removeWhenDisabled)), "") ==
              Owned(Content(StripServers(t, servers)), "") + EnabledTables(servers)
  {
    var s := StripServers(t, servers);
    EnabledText(t, servers);
    StripServersTidy(t, servers);
    NewlineContent(Built(s, servers));
    OwnedAfterBuilding(s, servers);
  }

  /** With neither flag the text stays as it is, to the character. Otherwise every line outside the server tables
      survives in its order and under its header, up to blank lines and trailing white space; enabling adds after them
      one table for each server, removing adds nothing. */
  lemma ServersAreLocal(t: string, servers: seq<string>, enabled: bool, removeWhenDisabled: bool)
    requires ServerTables(servers) && servers != []
    ensures var u := UpsertServers(t, servers, enabled, removeWhenDisabled);
            if !enabled && !removeWhenDisabled then u == t
            else Owned(Content(u), "") ==
                   Outside(Squeezed(Owned(Split(t), "")), set h | h in servers)
                   + if enabled then EnabledTables(servers) else []
  {
    SignificantKeepsOwners(Split(t), "");
    OwnedAfterStrips(t, servers);
    var s := StripServers(t, servers);
    if enabled {
      EnablingIsLocal(t, servers, removeWhenDisabled);
    } else if removeWhenDisabled {
      NewlineContent(s);
      assert Owned(Content(s), "") + [] == Owned(Content(s), "");
    }
  }

  // ------------------------------------------------------------------ the lines beside a rewritten key

  /** The first table headed `h`: what is before it, its header line, its other lines, and what is after it. */
  ghost predicate FirstTableIs(lines: seq<string>, h: string, before: seq<string>, l: string, body: seq<string>,
                               after: seq<string>) {
    && lines == before + [l] + body + after && Matches(l, h)
    && (forall x :: x in before ==> !Matches(x, h)) && (forall x :: x in body ==> !IsTable(x))
    && (after == [] || IsTable(after[0]))
  }

  /** The lines that do not assign the key. */
  function Others(lines: seq<string>, key: string): seq<string> {
    if lines == [] then [] else (if Assigns(lines[0], key) then [] else [lines[0]]) + Others(lines[1..], key)
  }

  /** The assignment stands where the key was first assigned, or comes first when it was not; the other assignments of
      the key are gone. */
  ghost predicate KeyIsSet(body: seq<string>, changed: seq<string>, key: string, assignment: string) {
    || (changed == [assignment] + body && forall x :: x in body ==> !Assigns(x, key))
    || exists i :: 0 <= i < |body| && Assigns(body[i], key) && (forall x :: x in body[..i] ==> !Assigns(x, key))
                   && changed == body[..i] + ([assignment] + Others(body[i + 1..], key))
  }

  lemma {:induction false} RewrittenLater(body: seq<string>, after: seq<string>, key: string, assignment: string)
    requires (forall x :: x in body ==> !IsTable(x)) && (after == [] || IsTable(after[0]))
    ensures Rewritten(body + after, key, assignment, true) == Others(body, key) + after
  {
    if body == [] {
      assert body + after == after && Others(body, key) + after == after;
    } else {
      var rest := body[1..];
      FirstOfBody(body, after);
      RewrittenLater(rest, after, key, assignment);
      if Assigns(body[0], key) {
        assert [] + Others(rest, key) == Others(rest, key);
        assert [] + Rewritten(rest + after, key, assignment, true) == Others(rest, key) + after;
      } else {
        Associate([body[0]], Others(rest, key), after);
      }
    }
  }

  lemma FirstOfBody(body: seq<string>, after: seq<string>)
    requires body != [] && forall x :: x in body ==> !IsTable(x)
    ensures (body + after)[0] == body[0] && (body + after)[1..] == body[1..] + after && !IsTable(body[0])
    ensures forall x :: x in body[1..] ==> !IsTable(x)
  {
    assert body[0] in body;
  }

  lemma {:induction false} RewrittenFirst(body: seq<string>, after: seq<string>, i: nat, key: string,
                                          assignment: string)
    requires (forall x :: x in body ==> !IsTable(x)) && (after == [] || IsTable(after[0]))
    requires i < |body| && Assigns(body[i], key) && forall x :: x in body[..i] ==> !Assigns(x, key)
    ensures HasKey(body + after, key)
    ensures Rewritten(body + after, key, assignment, false) ==
              body[..i] + ([assignment] + Others(body[i + 1..], key)) + after
    decreases i
  {
    var rest := body[1..];
    FirstOfBody(body, after);
    if i == 0 {
      RewrittenLater(rest, after, key, assignment);
      Associate([assignment], Others(rest, key), after);
      var written := [assignment] + Others(rest, key);
      assert body[..0] + written == written;
    } else {
      assert body[0] in body[..i];
      assert body[..i] == [body[0]] + rest[..i - 1] && rest[i..] == body[i + 1..];
      RewrittenFirst(rest, after, i - 1, key, assignment);
      var written := [assignment] + Others(body[i + 1..], key);
      FourParts([body[0]], rest[..i - 1], written, after);
    }
  }

  lemma FourParts(a: seq<string>, b: seq<string>, c: seq<string>, d: seq<string>)
    ensures a + (b + c + d) == a + b + c + d
  {
  }

  lemma {:induction false} NoKey(body: seq<string>, after: seq<string>, key: string)
    requires (forall x :: x in body ==> !IsTable(x) && !Assigns(x, key)) && (after == [] || IsTable(after[0]))
    ensures !HasKey(body + after, key)
  {
    if body == [] {
      assert body + after == after;
    } else {
      FirstOfBody(body, after);
      assert body[0] in body;
      NoKey(body[1..], after, key);
    }
  }

  lemma {:induction false} FirstWithKey(body: seq<string>, key: string) returns (i: nat)
    ensures i <= |body| && (forall x :: x in body[..i] ==> !Assigns(x, key))
    ensures i < |body| ==> Assigns(body[i], key)
  {
    i := 0;
    while i < |body| && !Assigns(body[i], key)
      invariant i <= |body| && forall x :: x in body[..i] ==> !Assigns(x, key)
    {
      assert body[..i + 1] == body[..i] + [body[i]];
      i := i + 1;
    }
  }

  lemma WithKeyIs(body: seq<string>, after: seq<string>, key: string, assignment: string) returns (changed: seq<string>)
    requires (forall x :: x in body ==> !IsTable(x)) && (after == [] || IsTable(after[0]))
    ensures WithKey(body + after, key, assignment) == changed + after && KeyIsSet(body, changed, key, assignment)
  {
    var i := FirstWithKey(body, key);
    if i < |body| {
      RewrittenFirst(body, after, i, key, assignment);
      changed := body[..i] + ([assignment] + Others(body[i + 1..], key));
    } else {
      assert body[..i] == body;
      NoKey(body, after, key);
      Associate([assignment], body, after);
      changed := [assignment] + body;
    }
  }

  lemma {:induction false} BodyEnds(lines: seq<string>)
    ensures forall x :: x in lines[..BodyLength(lines)] ==> !IsTable(x)
    ensures BodyLength(lines) == |lines| || IsTable(lines[BodyLength(lines)])
  {
    if lines != [] && !IsTable(lines[0]) {
      BodyEnds(lines[1..]);
      var n := BodyLength(lines[1..]);
      assert lines[..n + 1] == [lines[0]] + lines[1..][..n];
    }
  }

  lemma InFourParts(lines: seq<string>, start: nat, n: nat)
    requires start < |lines| && n <= |lines| - (start + 1)
    ensures var rest := lines[start + 1..];
            && lines == lines[..start] + [lines[start]] + rest[..n] + rest[n..]
            && lines[..start] + [lines[start]] == lines[..start + 1] && rest[..n] + rest[n..] == rest
  {
  }

  /** Where the first table headed `h` is. */
  lemma FindFirstTable(lines: seq<string>, h: string)
    returns (before: seq<string>, l: string, body: seq<string>, after: seq<string>)
    requires FirstTable(lines, h) < |lines|
    ensures FirstTableIs(lines, h, before, l, body, after)
    ensures before + [l] == lines[..FirstTable(lines, h) + 1] && body + after == lines[FirstTable(lines, h) + 1..]
  {
    var start := FirstTable(lines, h);
    var rest := lines[start + 1..];
    BodyEnds(rest);
    NoneBefore(lines, start, h);
    InFourParts(lines, start, BodyLength(rest));
    before, l, body, after := lines[..start], lines[start], rest[..BodyLength(rest)], rest[BodyLength(rest)..];
  }

  /** Setting the key of a table that is there touches only the assignments of that key in the first such table. */
  lemma KeyIsLocal(t: string, h: string, value: bool, create: bool)
    returns (before: seq<string>, l: string, body: seq<string>, after: seq<string>, changed: seq<string>)
    requires exists x :: x in Split(t) && Matches(x, h)
    ensures FirstTableIs(Split(t), h, before, l, body, after)
    ensures KeyIsSet(body, changed, "enabled", if value then "enabled = true" else "enabled = false")
    ensures Content(UpsertKey(t, h, value, create)) == Significant(before + [l] + changed + after)
  {
    var lines := Split(t);
    before, l, body, after := FindFirstTable(lines, h);
    changed := WithKeyIs(body, after, ENABLED, Assignment(value));
    var start := FirstTable(lines, h);
    AssignmentIsEntry(value);
    EditedOneLiners(lines, start, Assignment(value));
    var edited := Edited(lines, start, ENABLED, Assignment(value));
    Associate(before + [l], changed, after);
    assert edited == before + [l] + changed + after;
    JoinContent(edited);
    FinalNewlineContent(Join(edited));
  }

  lemma {:induction false} FinalNewline(t: string) returns (front: string)
    ensures OneFinalNewline(t) == front + "\n" && front <= t && (front == "" || front[|front| - 1] != '\n')
    ensures forall i :: |front| <= i < |t| ==> t[i] == '\n'
  {
    if t != "" && t[|t| - 1] == '\n' {
      LastChar(t);
      front := FinalNewline(t[..|t| - 1]);
    } else {
      front := t;
    }
  }

  /** However the key is set, unless the text stays as it is, it then ends in one newline. */
  lemma OneNewlineAtEnd(t: string, h: string, value: bool, create: bool) returns (front: string)
    requires IsHeader(h) && (create || exists x :: x in Split(t) && Matches(x, h))
    ensures UpsertKey(t, h, value, create) == front + "\n" && (front == "" || front[|front| - 1] != '\n')
  {
    var lines := Split(t);
    var start := FirstTable(lines, h);
    if start < |lines| {
      front := FinalNewline(Join(Edited(lines, start, ENABLED, Assignment(value))));
    } else {
      ServerBlock(h, value);
      RegisteredIsBody(TrimEnd(t), [h, Assignment(value)], h);
      front := Body(TrimEnd(t), [h, Assignment(value)]);
    }
  }

  /** Without such a table the text stays as it is, or gets the table at its end. */
  lemma KeyOfNoTable(t: string, h: string, value: bool, create: bool)
    requires IsHeader(h) && forall x :: x in Split(t) ==> !Matches(x, h)
    ensures var u := UpsertKey(t, h, value, create);
            if create then Content(u) == Content(t) + [h, if value then "enabled = true" else "enabled = false"]
            else u == t
  {
    if create {
      ServerBlock(h, value);
      RegisteredContent(TrimEnd(t), [h, Assignment(value)], h);
      TrimmedContent(t);
    }
  }

  lemma SpaceContent(front: string, w: char)
    requires IsSpace(w)
    ensures Content(front + [w]) == Content(front)
  {
    ContentIsScan(front + [w]);
    ContentIsScan(front);
    LastSpaceIsIgnored("", front, w);
  }

  lemma {:induction false} TrimmedContent(t: string)
    ensures Content(TrimEnd(t)) == Content(t)
  {
    if t != "" && IsSpace(t[|t| - 1]) {
      LastChar(t);
      TrimmedContent(t[..|t| - 1]);
      SpaceContent(t[..|t| - 1], t[|t| - 1]);
    }
  }

  // ------------------------------------------------------------------ what is written, letter by letter

  lemma TwoLines(base: string, a: string, b: string)
    ensures Registered(base, [a, b]) == (if base == "" then "" else base + "\n\n") + (a + "\n" + b + "\n")
  {
    assert [a, b][1..] == [b];
    assert Join([a, b]) == a + "\n" + b;
  }

  lemma ThreeLines(base: string, a: string, b: string, c: string)
    ensures Registered(base, [a, b, c]) ==
              (if base == "" then "" else base + "\n\n") + (a + "\n" + b + "\n" + c + "\n")
  {
    assert [a, b, c][1..] == [b, c] && [b, c][1..] == [c];
    assert Join([b, c]) == b + "\n" + c;
    assert Join([a, b, c]) == a + "\n" + (b + "\n" + c);
  }

  /** After an upsert the text ends in the table, after a blank line unless nothing is before it. */
  lemma MarketplaceText(t: string, quotedRoot: string) returns (base: string)
    ensures EndsVisibly(base)
    ensures UpsertMarketplace(t, quotedRoot) ==
              (if base == "" then "" else base + "\n\n")
              + ("[marketplaces.oh-my-codex-local]" + "\n" + "source_type = \"local\"" + "\n"
                 + ("source = " + quotedRoot) + "\n")
  {
    base := TrimEnd(Strip(t, MARKETPLACE));
    ThreeLines(base, MARKETPLACE, "source_type = \"local\"", "source = " + quotedRoot);
  }

  lemma EnablementText(t: string) returns (base: string)
    ensures EndsVisibly(base)
    ensures UpsertEnablement(t) ==
              (if base == "" then "" else base + "\n\n")
              + ("[plugins.\"oh-my-codex@oh-my-codex-local\"]" + "\n" + "enabled = true" + "\n")
  {
    base := TrimEnd(Strip(RemoveLegacy(t), PLUGIN));
    PluginTable();
    TwoLines(base, PLUGIN, "enabled = true");
  }

  lemma PluginTable()
    ensures PLUGIN == "[plugins.\"oh-my-codex@oh-my-codex-local\"]"
  {
  }
}
