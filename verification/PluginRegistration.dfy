/** Marketplace and plugin registration in `config.toml`: idempotent and local (`src/cli/plugin-marketplace.ts`). */
module PluginRegistration {
  import opened TomlText
  import opened TomlEdit
  import opened Wrappers

  const MARKETPLACE := "[marketplaces.oh-my-codex-local]"
  const PLUGIN := "[plugins." + PLUGIN_KEY + "]"

  /** The key of the boolean that plugin and server tables hold. */
  const ENABLED := "enabled"

  /** What `JSON.stringify` makes of a path: quoted, on one line. */
  predicate IsQuoted(q: string) {
    |q| >= 2 && q[0] == q[|q| - 1] == '"' && '\n' !in q && '\r' !in q
  }

  function MarketplaceBlock(quotedRoot: string): seq<string> {
    [MARKETPLACE, "source_type = \"local\"", "source = " + quotedRoot]
  }

  function PluginBlock(): seq<string> { [PLUGIN, "enabled = true"] }

  /** `upsertLocalOmxMarketplaceRegistration`. */
  function UpsertMarketplace(t: string, quotedRoot: string): string {
    Upsert(t, MARKETPLACE, MarketplaceBlock(quotedRoot))
  }

  /** `upsertLocalOmxPluginEnablement`. */
  function UpsertEnablement(t: string): string {
    Upsert(RemoveLegacy(t), PLUGIN, PluginBlock())
  }

  lemma NotATable(l: string)
    requires l != "" && !IsSpace(l[0]) && l[0] != '['
    ensures !IsTable(l)
  {
    TrimEndPrefix(l);
    assert TrimEnd(l) != "" ==> TrimEnd(l)[0] == l[0];
  }

  lemma MarketplaceHeader()
    ensures IsHeader(MARKETPLACE)
  {
  }

  lemma PluginHeaders()
    ensures IsHeader(PLUGIN) && IsHeader(PLUGINS) && PLUGINS != PLUGIN
  {
    PluginKey();
    assert PLUGIN[8] == '.';
  }

  lemma PluginKey()
    ensures '\n' !in PLUGIN_KEY && '\r' !in PLUGIN_KEY
  {
  }

  lemma SourceLine(quotedRoot: string)
    requires IsQuoted(quotedRoot)
    ensures IsEntry("source = " + quotedRoot)
  {
    SourceKey();
    EntryOf("source = ", quotedRoot);
  }

  lemma SourceKey()
    ensures '\n' !in "source = " && '\r' !in "source = "
  {
  }

  lemma EntryOf(key: string, quoted: string)
    requires '\n' !in key && '\r' !in key && IsQuoted(quoted)
    ensures IsEntry(key + quoted)
  {
    assert (key + quoted)[|key + quoted| - 1] == '"';
  }

  lemma SourceTypeLine()
    ensures IsEntry("source_type = \"local\"")
  {
  }

  lemma EnabledLine()
    ensures IsEntry("enabled = true")
  {
  }

  lemma BlockOf(h: string, entries: seq<string>)
    requires IsHeader(h) && forall l :: l in entries ==> IsEntry(l) && !IsTable(l)
    ensures IsBlock([h] + entries, h)
  {
    assert ([h] + entries)[1..] == entries;
  }

  lemma MarketplaceIsBlock(quotedRoot: string)
    requires IsQuoted(quotedRoot)
    ensures IsBlock(MarketplaceBlock(quotedRoot), MARKETPLACE)
  {
    MarketplaceHeader();
    SourceTypeLine();
    NotATable("source_type = \"local\"");
    SourceLine(quotedRoot);
    NotATable("source = " + quotedRoot);
    var entries := ["source_type = \"local\"", "source = " + quotedRoot];
    BlockOf(MARKETPLACE, entries);
    assert MarketplaceBlock(quotedRoot) == [MARKETPLACE] + entries;
  }

  lemma PluginIsBlock()
    ensures IsBlock(PluginBlock(), PLUGIN)
  {
    PluginHeaders();
    EnabledLine();
    NotATable("enabled = true");
    BlockOf(PLUGIN, ["enabled = true"]);
    assert PluginBlock() == [PLUGIN] + ["enabled = true"];
  }

  // ------------------------------------------------------------------ one table, nothing else lost

  function CountTables(lines: seq<string>, h: string): nat {
    if lines == [] then 0 else (if Matches(lines[0], h) then 1 else 0) + CountTables(lines[1..], h)
  }

  lemma {:induction false} NoTables(lines: seq<string>, h: string)
    requires forall l :: l in lines ==> !Matches(l, h)
    ensures CountTables(lines, h) == 0
  {
    if lines != [] {
      assert lines[0] in lines;
      NoTables(lines[1..], h);
    }
  }

  lemma {:induction false} CountOfSum(a: seq<string>, b: seq<string>, h: string)
    ensures CountTables(a + b, h) == CountTables(a, h) + CountTables(b, h)
  {
    if a == [] {
      assert a + b == b;
    } else {
      assert (a + b)[1..] == a[1..] + b;
      CountOfSum(a[1..], b, h);
    }
  }

  lemma StripEndsVisibly(t: string, h: string)
    ensures TrimEnd(Strip(t, h)) == Strip(t, h)
    ensures Strip(t, h) == "" || Strip(t, h)[|Strip(t, h)| - 1] != '\r'
  {
  }

  lemma UpsertContent(t: string, h: string, block: seq<string>)
    requires IsBlock(block, h)
    ensures Content(Upsert(t, h, block)) == Kept(Content(t), h, false) + block
  {
    var s := Strip(t, h);
    StripEndsVisibly(t, h);
    RegisteredContent(s, block, h);
    StripContent(t, h);
    assert Upsert(t, h, block) == Registered(s, block);
  }

  /** After an upsert there is exactly one such table. */
  lemma UpsertLeavesOneTable(t: string, h: string, block: seq<string>)
    requires IsBlock(block, h)
    ensures CountTables(Content(Upsert(t, h, block)), h) == 1
  {
    var kept := Kept(Content(t), h, false);
    UpsertContent(t, h, block);
    CountOfSum(kept, block, h);
    KeptHasLines(Content(t), h, false);
    NoTables(kept, h);
    CountBlock(block, h);
  }

  lemma CountBlock(block: seq<string>, h: string)
    requires IsBlock(block, h)
    ensures CountTables(block, h) == 1
  {
    HeaderLine(h);
    forall l | l in block[1..] ensures !Matches(l, h) {
      assert !IsTable(l);
    }
    NoTables(block[1..], h);
  }

  /** It holds the given lines, and every other line of the text is still there, in its order and under its header, up
      to blank lines and trailing white space. */
  lemma UpsertIsLocal(t: string, h: string, block: seq<string>)
    requires IsBlock(block, h)
    ensures Owned(Content(Upsert(t, h, block)), "") == Without(Squeezed(Owned(Split(t), "")), h) + Owned(block, "")
  {
    UpsertContent(t, h, block);
    HeaderLine(h);
    KeptIsWithout(Content(t), h, "", "");
    SignificantKeepsOwners(Split(t), "");
    OwnedSum(Kept(Content(t), h, false), block, "");
  }

  lemma MarketplaceIsLocal(t: string, quotedRoot: string)
    requires IsQuoted(quotedRoot)
    ensures var u := UpsertMarketplace(t, quotedRoot);
            && CountTables(Content(u), MARKETPLACE) == 1
            && Owned(Content(u), "") ==
                 Without(Squeezed(Owned(Split(t), "")), MARKETPLACE) + Owned(MarketplaceBlock(quotedRoot), "")
  {
    MarketplaceIsBlock(quotedRoot);
    UpsertLeavesOneTable(t, MARKETPLACE, MarketplaceBlock(quotedRoot));
    UpsertIsLocal(t, MARKETPLACE, MarketplaceBlock(quotedRoot));
  }

  lemma {:induction false} CurrentOneLiners(lines: seq<string>, owner: string)
    requires OneLiners(lines)
    ensures OneLiners(Current(lines, owner))
  {
    if lines != [] {
      assert lines[0] in lines;
      assert OneLiners(lines[1..]);
      CurrentOneLiners(lines[1..], OwnerAt(lines[0], owner));
    }
  }

  lemma LegacyContent(t: string)
    ensures Content(RemoveLegacy(t)) == Significant(Current(Split(t), ""))
    ensures Owned(Content(RemoveLegacy(t)), "") == Squeezed(WithoutLegacy(Owned(Split(t), "")))
  {
    CurrentOneLiners(Split(t), "");
    TidyKeepsContent(Current(Split(t), ""));
    SignificantKeepsOwners(Current(Split(t), ""), "");
    CurrentIsWithoutLegacy(Split(t), "");
  }

  /** Enabling the plugin removes its tables and its legacy scalars under `[plugins]`, and nothing else. */
  lemma EnablementIsLocal(t: string)
    ensures var u := UpsertEnablement(t);
            && CountTables(Content(u), PLUGIN) == 1
            && Owned(Content(u), "") ==
                 Without(Squeezed(WithoutLegacy(Owned(Split(t), ""))), PLUGIN) + Owned(PluginBlock(), "")
  {
    PluginIsBlock();
    UpsertLeavesOneTable(RemoveLegacy(t), PLUGIN, PluginBlock());
    UpsertIsLocal(RemoveLegacy(t), PLUGIN, PluginBlock());
    SignificantKeepsOwners(Split(RemoveLegacy(t)), "");
    LegacyContent(t);
  }

  // ------------------------------------------------------------------ idempotence

  lemma RegisteredIsInjective(a: string, b: string, block: seq<string>)
    requires Registered(a, block) == Registered(b, block)
    ensures a == b
  {
    var tail := Join(block) + "\n";
    assert Registered(a, block) == (if a == "" then "" else a + "\n\n") + tail;
    assert Registered(b, block) == (if b == "" then "" else b + "\n\n") + tail;
    if a != "" && b != "" {
      assert a == Registered(a, block)[..|a|] && b == Registered(b, block)[..|b|];
    }
  }

  /** The second upsert finds the lines before its table, and cleans them up once more. */
  lemma UpsertAgain(t: string, h: string, block: seq<string>)
    requires IsBlock(block, h)
    ensures Strip(Upsert(t, h, block), h) == Tidy(BaseLines(Strip(t, h)))
  {
    var s := Strip(t, h);
    StripEndsVisibly(t, h);
    RegisteredLines(s, block, h);
    StrippedHasNone(t, h);
    RegisteredIsRemoved(s, block, h, [""]);
  }

  lemma TidyBase(s: string)
    requires IsTidy(s)
    ensures Tidy(BaseLines(s)) == s <==> NoCrLf(s)
  {
    if s == "" {
      assert Tidy([]) == "";
    } else if NoCrLf(s) {
      TidyTwice(s);
    } else {
      CrLfIsLost(s);
    }
  }

  /** A second upsert changes nothing exactly when stripping leaves no CR LF behind. */
  lemma MarketplaceRepeats(t: string, quotedRoot: string)
    requires IsQuoted(quotedRoot)
    ensures var u := UpsertMarketplace(t, quotedRoot);
            UpsertMarketplace(u, quotedRoot) == u <==> NoCrLf(Strip(t, MARKETPLACE))
  {
    MarketplaceIsBlock(quotedRoot);
    var block := MarketplaceBlock(quotedRoot);
    var u := Upsert(t, MARKETPLACE, block);
    var s := Strip(t, MARKETPLACE);
    UpsertAgain(t, MARKETPLACE, block);
    TidyIsTidy(Kept(Split(t), MARKETPLACE, false));
    TidyBase(s);
    StripEndsVisibly(t, MARKETPLACE);
    StripEndsVisibly(u, MARKETPLACE);
    if Upsert(u, MARKETPLACE, block) == u {
      RegisteredIsInjective(Strip(u, MARKETPLACE), s, block);
    }
  }

  // ------------------------------------------------------------------ counting carriage returns through a rewrite

  function SumReturns(lines: seq<string>): nat {
    if lines == [] then 0 else Returns(lines[0]) + SumReturns(lines[1..])
  }

  lemma {:induction false} JoinReturns(lines: seq<string>)
    ensures Returns(Join(lines)) == SumReturns(lines)
  {
    if |lines| > 1 {
      JoinReturns(lines[1..]);
      ReturnsOfSum(lines[0] + "\n", Join(lines[1..]));
      ReturnsOfSum(lines[0], "\n");
    }
  }

  lemma {:induction false} SumOfSum(a: seq<string>, b: seq<string>)
    ensures SumReturns(a + b) == SumReturns(a) + SumReturns(b)
  {
    if a == [] {
      assert a + b == b;
    } else {
      assert (a + b)[1..] == a[1..] + b;
      SumOfSum(a[1..], b);
    }
  }

  lemma SumOfFirst(l: string)
    ensures SumReturns([l]) == Returns(l) && SumReturns([]) == 0
  {
    assert [l][1..] == [];
  }

  lemma {:induction false} KeptReturns(lines: seq<string>, h: string, inside: bool)
    ensures SumReturns(Kept(lines, h, inside)) <= SumReturns(lines)
  {
    if lines != [] {
      var goes := Goes(lines[0], h, inside);
      KeptReturns(lines[1..], h, goes);
      SumOfFirst(lines[0]);
      SumOfSum(Staying(lines[0], goes), Kept(lines[1..], h, goes));
    }
  }

  lemma {:induction false} CurrentReturns(lines: seq<string>, owner: string)
    ensures SumReturns(Current(lines, owner)) <= SumReturns(lines)
  {
    if lines != [] {
      var o := OwnerAt(lines[0], owner);
      CurrentReturns(lines[1..], o);
      SumOfFirst(lines[0]);
      SumOfSum(Surviving(lines[0], o), Current(lines[1..], o));
    }
  }

  lemma TidyReturns(lines: seq<string>)
    ensures Returns(Tidy(lines)) <= SumReturns(lines)
  {
    JoinReturns(lines);
    CollapseKeepsReturns(Join(lines), 0);
    TrimReturns(Collapse(Join(lines)));
  }

  lemma ReadReturns(t: string)
    ensures SumReturns(Split(t)) <= Returns(t)
    ensures !NoCrLf(t) ==> SumReturns(Split(t)) < Returns(t)
  {
    SplitDropsReturns(t);
    JoinReturns(Split(t));
  }

  lemma RegisteredReturns(base: string, block: seq<string>)
    ensures Returns(Registered(base, block)) == Returns(base) + Returns(Join(block))
  {
    var tail := Join(block) + "\n";
    ReturnsOfSum(Join(block), "\n");
    if base != "" {
      assert Registered(base, block) == base + "\n\n" + tail;
      ReturnsOfSum(base + "\n\n", tail);
      ReturnsOfSum(base, "\n\n");
      assert "\n\n"[1..] == "\n";
    } else {
      assert Registered(base, block) == tail;
    }
  }

  /** What is left of a text that is about to get its plugin table. */
  function Stripped(t: string): string { Strip(RemoveLegacy(t), PLUGIN) }

  lemma EnablementForm(t: string)
    ensures UpsertEnablement(t) == Registered(Stripped(t), PluginBlock())
    ensures IsTidy(Stripped(t))
  {
    StripEndsVisibly(RemoveLegacy(t), PLUGIN);
    TidyIsTidy(Kept(Split(RemoveLegacy(t)), PLUGIN, false));
  }

  /** A CR LF that survives one upsert is lost in the next. */
  lemma CrLfBreaksIdempotence(t: string)
    requires !NoCrLf(Stripped(t))
    ensures UpsertEnablement(UpsertEnablement(t)) != UpsertEnablement(t)
  {
    var s, u := Stripped(t), UpsertEnablement(t);
    EnablementForm(t);
    EnablementForm(u);
    CrLfInside(s, PluginBlock());
    ReadReturns(u);
    CurrentReturns(Split(u), "");
    TidyReturns(Current(Split(u), ""));
    var n := RemoveLegacy(u);
    ReadReturns(n);
    KeptReturns(Split(n), PLUGIN, false);
    TidyReturns(Kept(Split(n), PLUGIN, false));
    RegisteredReturns(Stripped(u), PluginBlock());
    RegisteredReturns(s, PluginBlock());
    PluginBlockReturns();
  }

  lemma PluginBlockReturns()
    ensures Returns(Join(PluginBlock())) == 0
  {
    PluginIsBlock();
    JoinReturns(PluginBlock());
    EntriesHaveNoReturns(PluginBlock());
  }

  lemma {:induction false} EntriesHaveNoReturns(lines: seq<string>)
    requires forall l :: l in lines ==> IsEntry(l)
    ensures SumReturns(lines) == 0
  {
    if lines != [] {
      assert lines[0] in lines;
      NoReturns(lines[0]);
      EntriesHaveNoReturns(lines[1..]);
    }
  }

  lemma {:induction false} NoReturns(t: string)
    requires '\r' !in t
    ensures Returns(t) == 0
  {
    if t != "" {
      NoReturns(t[1..]);
    }
  }

  lemma CrLfInside(s: string, block: seq<string>)
    requires !NoCrLf(s)
    ensures !NoCrLf(Registered(s, block))
  {
    var i :| 0 <= i < |s| - 1 && s[i] == '\r' && s[i + 1] == '\n';
    var u := Registered(s, block);
    assert u[i] == '\r' && u[i + 1] == '\n';
  }

  // ------------------------------------------------------------------ legacy scalars through a rewrite

  lemma {:induction false} CurrentSum(a: seq<string>, b: seq<string>, owner: string)
    requires b == [] || IsTable(b[0])
    ensures Current(a + b, owner) == Current(a, owner) + Current(b, "")
  {
    if a == [] {
      assert a + b == b;
    } else {
      assert (a + b)[1..] == a[1..] + b;
      var o := OwnerAt(a[0], owner);
      CurrentSum(a[1..], b, o);
      Associate(Surviving(a[0], o), Current(a[1..], o), Current(b, ""));
    }
  }

  lemma BlankIsCurrent(owner: string)
    ensures Current([""], owner) == [""]
  {
    assert Current([""][1..], owner) == [];
  }

  lemma {:induction false} CurrentBlank(a: seq<string>, owner: string)
    ensures Current(a + [""], owner) == Current(a, owner) + [""]
  {
    if a == [] {
      assert a + [""] == [""];
      BlankIsCurrent(owner);
      assert [] + [""] == [""];
    } else {
      assert (a + [""])[1..] == a[1..] + [""];
      var o := OwnerAt(a[0], owner);
      CurrentBlank(a[1..], o);
      Associate(Surviving(a[0], o), Current(a[1..], o), [""]);
    }
  }

  /** Outside `[plugins]` nothing is legacy. */
  lemma {:induction false} CurrentElsewhere(lines: seq<string>, owner: string)
    requires owner != PLUGINS && forall l :: l in lines ==> !IsTable(l)
    ensures Current(lines, owner) == lines
  {
    if lines != [] {
      assert lines[0] in lines;
      CurrentElsewhere(lines[1..], owner);
    }
  }

  lemma BlockIsCurrent(block: seq<string>, h: string, last: seq<string>)
    requires IsBlock(block, h) && h != PLUGINS && last in {[], [""]}
    ensures Current(block + last, "") == block + last && IsTable((block + last)[0])
  {
    HeaderLine(h);
    var lines := block + last;
    assert lines[1..] == block[1..] + last;
    CurrentElsewhere(lines[1..], h);
    assert lines == [lines[0]] + lines[1..];
  }

  lemma CurrentRegistered(s: string, block: seq<string>, h: string)
    requires IsBlock(block, h) && h != PLUGINS && (s == "" || s[|s| - 1] != '\r')
    ensures Split(Registered(s, block)) == BaseLines(s) + block + [""]
    ensures Current(Split(Registered(s, block)), "") == Current(BaseLines(s), "") + block + [""]
  {
    RegisteredLines(s, block, h);
    BlockIsCurrent(block, h, [""]);
    Associate(BaseLines(s), block, [""]);
    CurrentSum(BaseLines(s), block + [""], "");
    Associate(Current(BaseLines(s), ""), block, [""]);
  }

  lemma CurrentUpserted(s: string)
    requires s == "" || s[|s| - 1] != '\r'
    ensures Split(Registered(s, PluginBlock())) == BaseLines(s) + PluginBlock() + [""]
    ensures Current(Split(Registered(s, PluginBlock())), "") == Current(BaseLines(s), "") + PluginBlock() + [""]
  {
    PluginIsBlock();
    PluginHeaders();
    CurrentRegistered(s, PluginBlock(), PLUGIN);
  }

  lemma {:induction false} AllSpace(l: string)
    requires TrimEnd(l) == ""
    ensures TrimStart(l) == ""
    decreases |l|
  {
    if l != "" {
      AllSpace(l[..|l| - 1]);
      SpaceAtEnd(l[..|l| - 1], l[|l| - 1]);
      assert l[..|l| - 1] + [l[|l| - 1]] == l;
    }
  }

  lemma {:induction false} SpaceAtEnd(l: string, w: char)
    requires IsSpace(w)
    ensures TrimStart(l + [w]) == if TrimStart(l) == "" then "" else TrimStart(l) + [w]
  {
    if l == "" {
      assert (l + [w])[1..] == "";
    } else {
      assert (l + [w])[1..] == l[1..] + [w];
      if IsSpace(l[0]) {
        SpaceAtEnd(l[1..], w);
      }
    }
  }

  lemma {:induction false} CurrentShrinks(lines: seq<string>, owner: string)
    ensures |Significant(Current(lines, owner))| <= |Significant(lines)|
    ensures Current(lines, owner) != lines ==> |Significant(Current(lines, owner))| < |Significant(lines)|
  {
    if lines != [] {
      var l, o := lines[0], OwnerAt(lines[0], owner);
      CurrentShrinks(lines[1..], o);
      SignificantOfSum(Surviving(l, o), Current(lines[1..], o));
      assert [l] + lines[1..] == lines;
      SurvivingShrinks(l, o);
    }
  }

  lemma SurvivingShrinks(l: string, owner: string)
    ensures Significant([l]) == Emit(l)
    ensures Legacy((owner, l)) ==> Emit(l) != []
  {
    assert [l][1..] == [];
    if TrimEnd(l) == "" {
      AllSpace(l);
    }
  }

  lemma {:induction false} KeptShrinks(lines: seq<string>, h: string, inside: bool)
    ensures |Kept(lines, h, inside)| <= |lines|
  {
    if lines != [] {
      KeptShrinks(lines[1..], h, Goes(lines[0], h, inside));
    }
  }

  lemma StrippedContent(t: string)
    ensures Content(Stripped(t)) == Kept(Significant(Current(Split(t), "")), PLUGIN, false)
    ensures Content(UpsertEnablement(t)) == Content(Stripped(t)) + PluginBlock()
  {
    PluginIsBlock();
    LegacyContent(t);
    StripContent(RemoveLegacy(t), PLUGIN);
    UpsertContent(RemoveLegacy(t), PLUGIN, PluginBlock());
  }

  /** The next upsert keeps at most the significant lines that are not legacy scalars. */
  lemma NextStrippedContent(t: string)
    ensures |Content(Stripped(UpsertEnablement(t)))| <= |Significant(Current(BaseLines(Stripped(t)), ""))|
  {
    EnablementForm(t);
    StrippedContent(UpsertEnablement(t));
    CurrentUpserted(Stripped(t));
    PluginIsBlock();
    SecondContent(Current(BaseLines(Stripped(t)), ""), PluginBlock(), PLUGIN);
  }

  /** A legacy scalar that survives one upsert is removed by the next. */
  lemma LegacyBreaksIdempotence(t: string)
    requires Current(Split(Stripped(t)), "") != Split(Stripped(t))
    ensures UpsertEnablement(UpsertEnablement(t)) != UpsertEnablement(t)
  {
    var s := Stripped(t);
    NextStrippedContent(t);
    BaseIsCurrent(s);
    CurrentShrinks(BaseLines(s), "");
    BaseContent(s);
    StrippedContent(t);
    StrippedContent(UpsertEnablement(t));
  }

  lemma BaseIsCurrent(s: string)
    ensures Current(BaseLines(s), "") == BaseLines(s) <==> Current(Split(s), "") == Split(s)
  {
    CurrentBlank(Split(s), "");
    BlankIsCurrent("");
    if s != "" && Current(BaseLines(s), "") == BaseLines(s) {
      assert Split(s) == (Split(s) + [""])[..|Split(s)|];
      assert Current(Split(s), "") == (Current(Split(s), "") + [""])[..|Current(Split(s), "")|];
    }
  }

  lemma SecondContent(base: seq<string>, block: seq<string>, h: string)
    requires IsBlock(block, h)
    ensures |Kept(Significant(base + block + [""]), h, false)| <= |Significant(base)|
  {
    SignificantOfSum(base + block, [""]);
    SignificantOfSum(base, block);
    SignificantBlock(block);
    BaseContent("");
    var sig := Significant(base);
    assert block + [] == block && sig + block + [] == sig + block;
    BlockIsRemoved(block, h, []);
    KeptSum(sig, block, h, false);
    KeptShrinks(sig, h, false);
  }

  // ------------------------------------------------------------------ the second upsert of a clean text

  lemma {:induction false} SparseLine(l: string, rest: string, run: nat)
    requires '\n' !in l && l != "" && Sparse(rest, 0)
    ensures Sparse(l + rest, run)
  {
    assert (l + rest)[1..] == l[1..] + rest;
    if |l| > 1 {
      SparseLine(l[1..], rest, 0);
    } else {
      assert l[1..] + rest == rest;
    }
  }

  lemma {:induction false} BlockIsSparse(lines: seq<string>, run: nat)
    requires forall l :: l in lines ==> IsEntry(l)
    ensures Sparse(Join(lines), run)
  {
    if lines != [] {
      assert lines[0] in lines;
      if |lines| > 1 {
        BlockIsSparse(lines[1..], 1);
        var rest := "\n" + Join(lines[1..]);
        assert rest[1..] == Join(lines[1..]);
        SparseLine(lines[0], rest, run);
        assert Join(lines) == lines[0] + rest;
      } else {
        SparseLine(lines[0], "", run);
        assert lines[0] + "" == lines[0];
      }
    }
  }

  /** The upserted text without its final newline. */
  function Body(s: string, block: seq<string>): string {
    if s == "" then Join(block) else s + "\n\n" + Join(block)
  }

  lemma {:induction false} JoinEndsVisibly(lines: seq<string>)
    requires lines != [] && forall l :: l in lines ==> IsEntry(l)
    ensures var t := Join(lines); t != "" && !IsSpace(t[|t| - 1])
  {
    assert lines[0] in lines;
    if |lines| > 1 {
      JoinEndsVisibly(lines[1..]);
    }
  }

  lemma BodyIsTidy(s: string, block: seq<string>, h: string)
    requires IsTidy(s) && NoCrLf(s) && IsBlock(block, h)
    ensures IsTidy(Body(s, block)) && NoCrLf(Body(s, block))
  {
    var j := Join(block);
    BlockIsSparse(block, 0);
    BlockIsSparse(block, 2);
    JoinEndsVisibly(block);
    JoinWithoutReturn(block);
    if s != "" {
      SparseSum(s, j, 0);
      forall i | 0 <= i < |Body(s, block)| - 1 && Body(s, block)[i] == '\r' ensures Body(s, block)[i + 1] != '\n' {
        assert i < |s| - 1;
      }
    }
  }

  lemma FirstAgain(s: string, block: seq<string>, h: string)
    requires IsTidy(s) && NoCrLf(s) && Current(BaseLines(s), "") == BaseLines(s)
    requires IsBlock(block, h) && h != PLUGINS
    ensures RemoveLegacy(Registered(s, block)) == Body(s, block)
  {
    CurrentRegistered(s, block, h);
    RegisteredLines(s, block, h);
    BodyIsTidy(s, block, h);
    TidyTwice(Body(s, block));
  }

  lemma SecondAgain(s: string, block: seq<string>, h: string)
    requires IsTidy(s) && NoCrLf(s) && IsBlock(block, h) && forall l :: l in Split(s) ==> !Matches(l, h)
    ensures Strip(Body(s, block), h) == s
  {
    RegisteredLines(s, block, h);
    RegisteredIsRemoved(s, block, h, []);
    assert BaseLines(s) + block + [] == BaseLines(s) + block;
    TidyBase(s);
  }

  lemma CleanUpsertStays(t: string)
    requires NoCrLf(Stripped(t)) && Current(Split(Stripped(t)), "") == Split(Stripped(t))
    ensures UpsertEnablement(UpsertEnablement(t)) == UpsertEnablement(t)
  {
    var s := Stripped(t);
    PluginIsBlock();
    PluginHeaders();
    EnablementForm(t);
    EnablementForm(UpsertEnablement(t));
    BaseIsCurrent(s);
    FirstAgain(s, PluginBlock(), PLUGIN);
    StrippedHasNone(RemoveLegacy(t), PLUGIN);
    SecondAgain(s, PluginBlock(), PLUGIN);
  }

  /** Enabling once more changes nothing exactly when the text that the table was added to holds neither a CR LF nor a
      legacy scalar. */
  lemma EnablementRepeats(t: string)
    ensures UpsertEnablement(UpsertEnablement(t)) == UpsertEnablement(t) <==>
              NoCrLf(Stripped(t)) && Current(Split(Stripped(t)), "") == Split(Stripped(t))
  {
    if !NoCrLf(Stripped(t)) {
      CrLfBreaksIdempotence(t);
    } else if Current(Split(Stripped(t)), "") != Split(Stripped(t)) {
      LegacyBreaksIdempotence(t);
    } else {
      CleanUpsertStays(t);
    }
  }
}
