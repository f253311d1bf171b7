/** Reading back whether the plugin is enabled (`src/cli/plugin-marketplace.ts`). */
module PluginReader {
  import opened TomlText
  import opened TomlEdit
  import opened PluginRegistration
  import opened Wrappers

  const TRUE := "true"

  /** `^\s*true\s*(?:#.*)?$`. */
  predicate IsTrue(v: string) {
    TRUE <= TrimStart(v) &&
    var rest := TrimStart(TrimStart(v)[|TRUE|..]);
    rest == "" || (rest[0] == '#' && Plain(rest))
  }

  /** What a line assigns to a key. */
  function Assigned(l: string, key: string): Option<string> {
    if Assigns(l, key) then Some(TrimStart(AfterKey(l, key).value[1..])) else None
  }

  /** The setting in the plugin's own table. */
  predicate EnablesPlugin(l: string) {
    Assigned(l, ENABLED).Some? && Plain(Assigned(l, ENABLED).value) && IsTrue(Assigned(l, ENABLED).value)
  }

  /** The older scalar in the table of all plugins. */
  predicate EnablesByKey(l: string) { Assigned(l, PLUGIN_KEY).Some? && IsTrue(Assigned(l, PLUGIN_KEY).value) }

  /** A line that says the plugin is enabled, in the table it stands in. */
  predicate Enables(p: (string, string)) {
    !IsTable(p.1) && ((p.0 == PLUGIN && EnablesPlugin(p.1)) || (p.0 == PLUGINS && EnablesByKey(p.1)))
  }

  ghost predicate ReadsEnabled(t: string) { exists p :: p in Owned(Split(t), "") && Enables(p) }

  /** `^\s*true\s*(?:#.*)?$`: the word, and a comment at most. */
  lemma IsTrueExactlyWhen(v: string)
    ensures IsTrue(v) <==> exists i: nat, k: nat :: TrueFrom(v, i, k)
  {
    var i := FirstVisible(v);
    var word := v[i..];
    if IsTrue(v) {
      var rest := word[|TRUE|..];
      var n := FirstVisible(rest);
      var k := i + |TRUE| + n;
      assert rest == v[i + |TRUE|..] && v[i..i + |TRUE|] == TRUE && rest[n..] == v[k..];
      assert k < |v| ==> v[k] == rest[n];
      assert TrueFrom(v, i, k);
    }
    if j: nat, k: nat :| TrueFrom(v, j, k) {
      TrueAt(v, j, k);
    }
  }

  ghost predicate TrueFrom(v: string, i: nat, k: nat) {
    && i + 4 <= k <= |v| && Spaces(v, 0, i) && v[i..i + 4] == "true" && Spaces(v, i + 4, k)
    && (k == |v| || (v[k] == '#' && Plain(v[k..])))
  }

  lemma TrueAt(v: string, i: nat, k: nat)
    requires TrueFrom(v, i, k)
    ensures IsTrue(v)
  {
    assert v[i] == TRUE[0];
    TrimStartAt(v, i);
    var rest := v[i + |TRUE|..];
    assert v[i..][|TRUE|..] == rest && v[i..][..|TRUE|] == TRUE;
    TrimStartAt(rest, k - (i + |TRUE|));
    assert rest[k - (i + |TRUE|)..] == v[k..];
  }

  /** A line enables the plugin when it is no table header and what it assigns is true: to `enabled` in the plugin's own
      table, or to the plugin's key in the table of all plugins. */
  lemma EnablesExactlyWhen(owner: string, l: string)
    ensures Enables((owner, l)) <==>
              && (forall i: nat :: i < |l| && Spaces(l, 0, i) ==> l[i] != '[')
              && (|| (owner == PLUGIN && exists i: nat, k: nat ::
                        && AssignsFrom(l, "enabled", i, k)
                        && Plain(TrimStart(l[k + 1..])) && IsTrue(TrimStart(l[k + 1..])))
                  || (owner == PLUGINS && exists i: nat, k: nat ::
                        AssignsFrom(l, PLUGIN_KEY, i, k) && IsTrue(TrimStart(l[k + 1..]))))
  {
    assert PLUGIN_KEY[0] == '"' && ENABLED[0] == 'e';
    PluginHeaders();
    IsTableExactlyWhen(l);
    AssignedExactlyWhen(l, ENABLED);
    AssignedExactlyWhen(l, PLUGIN_KEY);
  }

  lemma AssignedExactlyWhen(l: string, key: string)
    requires key != "" && !IsSpace(key[0])
    ensures Assigned(l, key).Some? ==>
              exists i: nat, k: nat :: AssignsFrom(l, key, i, k) && Assigned(l, key).value == TrimStart(l[k + 1..])
    ensures forall i: nat, k: nat :: AssignsFrom(l, key, i, k) ==> Assigned(l, key) == Some(TrimStart(l[k + 1..]))
  {
    forall i: nat, k: nat | AssignsFrom(l, key, i, k) ensures Assigned(l, key) == Some(TrimStart(l[k + 1..])) {
      AfterKeyAt(l, key, i, k);
      assert l[k..][1..] == l[k + 1..];
    }
    if Assigns(l, key) {
      var i, k := WhereAssigned(l, key);
    }
  }

  lemma {:induction false} OwnedPrefix(lines: seq<string>, i: nat, owner: string)
    requires i < |lines|
    ensures Owned(lines[..i + 1], owner) ==
              Owned(lines[..i], owner) + [(OwnerAt(lines[i], LastOwner(lines[..i], owner)), lines[i])]
    ensures LastOwner(lines[..i + 1], owner) == OwnerAt(lines[i], LastOwner(lines[..i], owner))
  {
    var o := OwnerAt(lines[0], owner);
    assert lines[..i + 1][1..] == lines[1..][..i] && lines[..i + 1][0] == lines[0];
    if i > 0 {
      assert lines[..i][1..] == lines[1..][..i - 1] && lines[..i][0] == lines[0];
      OwnedPrefix(lines[1..], i - 1, o);
    }
  }

  /** The header in force after the lines. */
  function LastOwner(lines: seq<string>, owner: string): string {
    if lines == [] then owner else LastOwner(lines[1..], OwnerAt(lines[0], owner))
  }

  /** `hasLocalOmxPluginEnablement`. */
  method HasEnablement(t: string) returns (r: bool)
    ensures r <==> ReadsEnabled(t)
  {
    var lines := Split(t);
    var inPlugin, inPlugins := false, false;
    PluginHeaders();
    for index := 0 to |lines|
      invariant inPlugin == (LastOwner(lines[..index], "") == PLUGIN)
                && inPlugins == (LastOwner(lines[..index], "") == PLUGINS)
      invariant forall p :: p in Owned(lines[..index], "") ==> !Enables(p)
    {
      var line := lines[index];
      OwnedPrefix(lines, index, "");
      ghost var p := (LastOwner(lines[..index + 1], ""), line);
      OwnedSoFar(lines, index + 1, "");
      if IsTable(line) {
        inPlugin, inPlugins := Trim(line) == PLUGIN, Trim(line) == PLUGINS;
      } else if (inPlugin && EnablesPlugin(line)) || (inPlugins && EnablesByKey(line)) {
        assert p in Owned(lines[..index + 1], "") && Enables(p);
        return true;
      }
    }
    assert lines[..|lines|] == lines;
    r := false;
  }

  lemma {:induction false} OwnedSoFar(lines: seq<string>, i: nat, owner: string)
    requires i <= |lines|
    ensures forall p :: p in Owned(lines[..i], owner) ==> p in Owned(lines, owner)
  {
    if i > 0 {
      assert lines[..i][1..] == lines[1..][..i - 1] && lines[..i][0] == lines[0];
      OwnedSoFar(lines[1..], i - 1, OwnerAt(lines[0], owner));
    }
  }

  lemma AssignedValue(key: string, middle: string, v: string)
    requires key != "" && !IsSpace(key[0]) && v != "" && !IsSpace(v[0]) && |middle| == 3 && middle[..] == " = "
    ensures Assigned(key + (middle + v), key) == Some(v)
  {
    var l, rest := key + (middle + v), middle + v;
    assert l[0] == key[0] && TrimStart(l) == l && key <= l && l[|key|..] == rest;
    var after := rest[1..];
    assert after[0] == '=' && TrimStart(rest) == after;
    var value := after[1..];
    assert value[0] == ' ' && value[1..] == v && TrimStart(v) == v;
  }

  lemma TrueIsTrue(v: string)
    requires v == TRUE
    ensures IsTrue(v) && Plain(v)
  {
    assert v[0] == 't' && TrimStart(v) == v && v[|TRUE|..] == "";
  }

  lemma EnabledText(l: string)
    requires l == "enabled = true"
    ensures l == ENABLED + (" = " + TRUE)
  {
    var whole := ENABLED + (" = " + TRUE);
    assert |l| == 14 && |whole| == 14;
    assert l[..7] == ENABLED == whole[..7] && l[7..10] == " = " == whole[7..10] && l[10..] == TRUE == whole[10..];
    assert l == l[..7] + l[7..10] + l[10..] && whole == whole[..7] + whole[7..10] + whole[10..];
  }

  lemma EnabledLineEnables(l: string)
    requires l == "enabled = true"
    ensures !IsTable(l) && EnablesPlugin(l)
  {
    NotATable(l);
    TrueIsTrue(TRUE);
    AssignedValue(ENABLED, " = ", TRUE);
    EnabledText(l);
  }

  /** After the upsert the plugin reads as enabled, whatever the text was. */
  lemma EnablementIsRead(t: string)
    ensures ReadsEnabled(UpsertEnablement(t))
  {
    var s, block := Stripped(t), PluginBlock();
    PluginIsBlock();
    PluginHeaders();
    EnablementForm(t);
    RegisteredLines(s, block, PLUGIN);
    HeaderLine(PLUGIN);
    var lines := block + [""];
    Associate(BaseLines(s), block, [""]);
    OwnedSum(BaseLines(s), lines, "");
    EnabledLineEnables(block[1]);
    assert lines[0] == PLUGIN && lines[1..][0] == "enabled = true";
    var p := (PLUGIN, "enabled = true");
    assert Owned(lines, "")[1] == p;
    assert p in Owned(lines, "");
    assert Enables(p);
  }
}
