/** The line editor behind the marketplace and plugin registrations (`src/cli/plugin-marketplace.ts`). */
module TomlEdit {
  import opened TomlText
  import opened Wrappers

  /** A table header as the writers spell it: `[…]` on one line. */
  ghost predicate IsHeader(h: string) {
    h != "" && h[0] == '[' && h[|h| - 1] == ']' && '\n' !in h && '\r' !in h
  }

  /** `isTomlTableHeader`. */
  predicate IsTable(line: string) { Trim(line) != "" && Trim(line)[0] == '[' }

  predicate Matches(line: string, h: string) { Trim(line) == h }

  // ------------------------------------------------------------------ removing tables

  /** Whether a line goes when the tables headed `h` are removed; `inside` after a line that went. */
  predicate Goes(l: string, h: string, inside: bool) { Matches(l, h) || (inside && !IsTable(l)) }

  function Staying(l: string, goes: bool): seq<string> { if goes then [] else [l] }

  /** The lines that survive the removal of the tables headed `h`. */
  function Kept(lines: seq<string>, h: string, inside: bool): seq<string> {
    if lines == [] then []
    else Staying(lines[0], Goes(lines[0], h, inside)) + Kept(lines[1..], h, Goes(lines[0], h, inside))
  }

  /** `stripTomlTablesByHeaderPattern`. */
  function Strip(t: string, h: string): string { Tidy(Kept(Split(t), h, false)) }

  /** `result` and what the rest of the lines still gives make up what all lines give. */
  ghost predicate Divides(result: seq<string>, lines: seq<string>, index: nat, h: string, inside: bool) {
    index <= |lines| && result + Kept(lines[index..], h, inside) == Kept(lines, h, false)
  }

  lemma Advance(result: seq<string>, lines: seq<string>, index: nat, h: string, inside: bool)
    requires Divides(result, lines, index, h, inside) && index < |lines|
    ensures var l := lines[index];
            Divides(if Goes(l, h, inside) then result else result + [l], lines, index + 1, h, Goes(l, h, inside))
  {
    KeptStep(lines, index, h, inside);
    var goes := Goes(lines[index], h, inside);
    Associate(result, Staying(lines[index], goes), Kept(lines[index + 1..], h, goes));
    assert result + [] == result;
  }

  lemma KeptStep(lines: seq<string>, index: nat, h: string, inside: bool)
    requires index < |lines|
    ensures var l := lines[index];
            Kept(lines[index..], h, inside) ==
              Staying(l, Goes(l, h, inside)) + Kept(lines[index + 1..], h, Goes(l, h, inside))
  {
    assert lines[index..][1..] == lines[index + 1..];
  }

  lemma DividesAtStart(lines: seq<string>, h: string)
    ensures Divides([], lines, 0, h, false)
  {
    assert lines[0..] == lines && [] + Kept(lines, h, false) == Kept(lines, h, false);
  }

  /** At the next table, or at the end, it no longer matters which table came before. */
  lemma DividesAtTable(result: seq<string>, lines: seq<string>, index: nat, h: string)
    requires Divides(result, lines, index, h, true) && (index == |lines| || IsTable(lines[index]))
    ensures Divides(result, lines, index, h, false)
  {
  }

  lemma DividesAtEnd(result: seq<string>, lines: seq<string>, h: string)
    requires Divides(result, lines, |lines|, h, false)
    ensures result == Kept(lines, h, false)
  {
    assert result + [] == result;
  }

  /** The inner loop: past the body of a removed table. */
  method SkipTable(lines: seq<string>, index: nat) returns (next: nat)
    requires index <= |lines|
    ensures index <= next <= |lines| && (next == |lines| || IsTable(lines[next]))
    ensures forall i :: index <= i < next ==> !IsTable(lines[i])
  {
    next := index;
    while next < |lines| && !IsTable(lines[next])
      invariant index <= next <= |lines|
      invariant forall i :: index <= i < next ==> !IsTable(lines[i])
    {
      next := next + 1;
    }
  }

  lemma {:induction false} DividesPastTable(result: seq<string>, lines: seq<string>, index: nat, next: nat, h: string)
    requires Divides(result, lines, index, h, true) && index <= next <= |lines|
    requires next == |lines| || IsTable(lines[next])
    requires forall i :: index <= i < next ==> !IsTable(lines[i])
    ensures Divides(result, lines, next, h, false)
    decreases next - index
  {
    if index == next {
      DividesAtTable(result, lines, next, h);
    } else {
      Advance(result, lines, index, h, true);
      DividesPastTable(result, lines, index + 1, next, h);
    }
  }

  method KeepLines(lines: seq<string>, h: string) returns (result: seq<string>)
    ensures result == Kept(lines, h, false)
  {
    result := [];
    var index := 0;
    DividesAtStart(lines, h);
    while index < |lines|
      invariant Divides(result, lines, index, h, false)
    {
      Advance(result, lines, index, h, false);
      if Matches(lines[index], h) {
        var next := SkipTable(lines, index + 1);
        DividesPastTable(result, lines, index + 1, next, h);
        index := next;
      } else {
        result := result + [lines[index]];
        index := index + 1;
      }
    }
    DividesAtEnd(result, lines, h);
  }

  method StripTables(t: string, h: string) returns (r: string)
    ensures r == Strip(t, h)
  {
    var result := KeepLines(Split(t), h);
    r := Tidy(result);
  }

  // ------------------------------------------------------------------ who owns a line

  /** The header in force at a line that follows `owner`. */
  function OwnerAt(l: string, owner: string): string { if IsTable(l) then Trim(l) else owner }

  /** Each line with the header of the table it stands in. */
  function Owned(lines: seq<string>, owner: string): seq<(string, string)> {
    if lines == [] then []
    else
      var o := OwnerAt(lines[0], owner);
      [(o, lines[0])] + Owned(lines[1..], o)
  }

  function Without(owned: seq<(string, string)>, h: string): seq<(string, string)> {
    if owned == [] then []
    else (if owned[0].0 == h then [] else [owned[0]]) + Without(owned[1..], h)
  }

  /** Removing tables takes away exactly the lines they own; every other line keeps its owner and its place. */
  lemma {:induction false} KeptIsWithout(lines: seq<string>, h: string, owner: string, before: string)
    requires IsHeader(h)
    requires owner != h ==> before == owner
    ensures Owned(Kept(lines, h, owner == h), before) == Without(Owned(lines, owner), h)
  {
    if lines != [] {
      var l, o := lines[0], OwnerAt(lines[0], owner);
      var owned := Owned(lines, owner);
      assert owned[0] == (o, l) && owned[1..] == Owned(lines[1..], o);
      HeaderIsTable(l, h);
      assert Goes(l, h, owner == h) == (o == h);
      KeptIsWithout(lines[1..], h, o, if o == h then before else o);
      var rest := Kept(lines[1..], h, o == h);
      assert [] + rest == rest && ([l] + rest)[1..] == rest;
    }
  }

  lemma HeaderIsTable(l: string, h: string)
    requires IsHeader(h)
    ensures Matches(l, h) ==> IsTable(l)
  {
  }

  lemma {:induction false} OwnedSum(a: seq<string>, b: seq<string>, owner: string)
    requires b == [] || IsTable(b[0])
    ensures Owned(a + b, owner) == Owned(a, owner) + Owned(b, "")
  {
    if a == [] {
      assert a + b == b;
    } else {
      assert (a + b)[1..] == a[1..] + b;
      var o := OwnerAt(a[0], owner);
      OwnedSum(a[1..], b, o);
      assert [(o, a[0])] + (Owned(a[1..], o) + Owned(b, "")) == [(o, a[0])] + Owned(a[1..], o) + Owned(b, "");
    }
  }

  // ------------------------------------------------------------------ lines and their content

  lemma TrimEndTwice(t: string)
    ensures TrimEnd(TrimEnd(t)) == TrimEnd(t) && Trim(TrimEnd(t)) == Trim(t)
  {
  }

  lemma BlankLine(l: string)
    requires TrimEnd(l) == ""
    ensures !IsTable(l) && Trim(l) == ""
  {
  }

  lemma {:induction false} KeptContent(lines: seq<string>, h: string, inside: bool)
    requires IsHeader(h)
    ensures Significant(Kept(lines, h, inside)) == Kept(Significant(lines), h, inside)
  {
    if lines != [] {
      var l, goes := lines[0], Goes(lines[0], h, inside);
      TrimEndTwice(l);
      KeptContent(lines[1..], h, goes);
      SignificantOfSum(Staying(l, goes), Kept(lines[1..], h, goes));
      OneLine(l);
      var rest := Significant(lines[1..]);
      if TrimEnd(l) == "" {
        BlankLine(l);
        assert goes == inside;
        assert [] + rest == rest;
        assert [] + Kept(rest, h, inside) == Kept(rest, h, inside);
      } else {
        assert ([TrimEnd(l)] + rest)[1..] == rest;
      }
    }
  }

  lemma OneLine(l: string)
    ensures Significant([l]) == Emit(l) && Significant([]) == []
  {
    assert [l][1..] == [];
  }

  lemma {:induction false} KeptHasLines(lines: seq<string>, h: string, inside: bool)
    ensures forall l :: l in Kept(lines, h, inside) ==> l in lines && !Matches(l, h)
  {
    if lines != [] {
      KeptHasLines(lines[1..], h, Goes(lines[0], h, inside));
    }
  }

  /** The content of a stripped text. */
  lemma StripContent(t: string, h: string)
    requires IsHeader(h)
    ensures Content(Strip(t, h)) == Kept(Content(t), h, false)
  {
    var lines := Split(t);
    KeptHasLines(lines, h, false);
    assert OneLiners(Kept(lines, h, false));
    TidyKeepsContent(Kept(lines, h, false));
    KeptContent(lines, h, false);
  }

  // ------------------------------------------------------------------ legacy scalars

  const PLUGINS := "[plugins]"
  const PLUGIN_KEY := "\"oh-my-codex@oh-my-codex-local\""

  /** What follows a key at the start of a line. */
  function AfterKey(l: string, key: string): Option<string> {
    Rest(TrimStart(l), key)
  }

  function Rest(t: string, key: string): Option<string> {
    if key <= t then Some(TrimStart(t[|key|..])) else None
  }

  /** `^\s*key\s*=`. */
  predicate Assigns(l: string, key: string) {
    AfterKey(l, key).Some? && AfterKey(l, key).value != "" && AfterKey(l, key).value[0] == '='
  }

  /** What the regular expression `.` does not match. */
  predicate IsTerminator(c: char) { c == '\n' || c == '\r' || c == '\U{2028}' || c == '\U{2029}' }

  predicate Plain(t: string) { forall c :: c in t ==> !IsTerminator(c) }

  /** `^\s*key\s*=.*$`. */
  predicate AssignsOnLine(l: string, key: string) { Assigns(l, key) && Plain(AfterKey(l, key).value) }

  predicate Scalar(l: string) { AssignsOnLine(l, PLUGIN_KEY) }

  predicate Legacy(p: (string, string)) { p.0 == PLUGINS && !IsTable(p.1) && Scalar(p.1) }

  /** The lines without the legacy plugin scalars of the `[plugins]` table. */
  function Current(lines: seq<string>, owner: string): seq<string> {
    if lines == [] then []
    else Surviving(lines[0], OwnerAt(lines[0], owner)) + Current(lines[1..], OwnerAt(lines[0], owner))
  }

  function Surviving(l: string, owner: string): seq<string> { if Legacy((owner, l)) then [] else [l] }

  /** `removeLocalOmxPluginLegacyScalar`. */
  function RemoveLegacy(t: string): string { Tidy(Current(Split(t), "")) }

  ghost predicate Continues(result: seq<string>, lines: seq<string>, index: nat, owner: string) {
    index <= |lines| && result + Current(lines[index..], owner) == Current(lines, "")
  }

  lemma ContinueLine(result: seq<string>, lines: seq<string>, index: nat, owner: string)
    requires Continues(result, lines, index, owner) && index < |lines|
    ensures var l := lines[index];
            var o := OwnerAt(l, owner);
            Continues(if Legacy((o, l)) then result else result + [l], lines, index + 1, o)
  {
    var l := lines[index];
    assert lines[index..][1..] == lines[index + 1..];
    var rest := Current(lines[index + 1..], OwnerAt(l, owner));
    assert [] + rest == rest;
    Associate(result, [l], rest);
  }

  lemma ContinueTo(result: seq<string>, lines: seq<string>, owner: string)
    ensures Continues([], lines, 0, "")
    ensures Continues(result, lines, |lines|, owner) ==> result == Current(lines, "")
  {
    assert lines[0..] == lines && [] + Current(lines, "") == Current(lines, "");
    assert result + [] == result;
  }

  method RemoveLegacyScalar(t: string) returns (r: string)
    ensures r == RemoveLegacy(t)
  {
    var lines := Split(t);
    var result := [];
    var inPlugins := false;
    ghost var owner := "";
    ContinueTo([], lines, "");
    for index := 0 to |lines|
      invariant Continues(result, lines, index, owner) && inPlugins == (owner == PLUGINS)
    {
      var line := lines[index];
      ContinueLine(result, lines, index, owner);
      if IsTable(line) {
        inPlugins := Trim(line) == PLUGINS;
        owner := Trim(line);
        result := result + [line];
      } else if !(inPlugins && Scalar(line)) {
        result := result + [line];
      }
    }
    ContinueTo(result, lines, owner);
    r := Tidy(result);
  }

  function WithoutLegacy(owned: seq<(string, string)>): seq<(string, string)> {
    if owned == [] then []
    else (if Legacy(owned[0]) then [] else [owned[0]]) + WithoutLegacy(owned[1..])
  }

  /** Removing legacy scalars takes away nothing else, and moves no line to another table. */
  lemma {:induction false} CurrentIsWithoutLegacy(lines: seq<string>, owner: string)
    ensures Owned(Current(lines, owner), owner) == WithoutLegacy(Owned(lines, owner))
  {
    if lines != [] {
      var l := lines[0];
      var o := OwnerAt(l, owner);
      CurrentIsWithoutLegacy(lines[1..], o);
      var rest := Current(lines[1..], o);
      assert Owned(lines, owner)[1..] == Owned(lines[1..], o) && Owned(lines, owner)[0] == (o, l);
      assert ([l] + rest)[1..] == rest && [] + rest == rest;
    }
  }

  /** Owned lines up to blank lines and trailing white space. */
  function Squeezed(owned: seq<(string, string)>): seq<(string, string)> {
    if owned == [] then []
    else (if TrimEnd(owned[0].1) == "" then [] else [(owned[0].0, TrimEnd(owned[0].1))]) + Squeezed(owned[1..])
  }

  lemma {:induction false} SignificantKeepsOwners(lines: seq<string>, owner: string)
    ensures Owned(Significant(lines), owner) == Squeezed(Owned(lines, owner))
  {
    if lines != [] {
      var l := lines[0];
      TrimEndTwice(l);
      var o := OwnerAt(l, owner);
      SignificantKeepsOwners(lines[1..], o);
      var rest := Significant(lines[1..]);
      assert Owned(lines, owner)[1..] == Owned(lines[1..], o) && Owned(lines, owner)[0] == (o, l);
      if TrimEnd(l) == "" {
        BlankLine(l);
        assert [] + rest == rest;
      } else {
        assert ([TrimEnd(l)] + rest)[1..] == rest;
      }
    }
  }

  // ------------------------------------------------------------------ registering a table at the end

  /** A table as the writers add it: a header and its assignments. */
  ghost predicate IsBlock(block: seq<string>, h: string) {
    && IsHeader(h) && block != [] && block[0] == h
    && (forall l :: l in block ==> IsEntry(l))
    && (forall l :: l in block[1..] ==> !IsTable(l))
  }

  /** One line that ends in a visible character. */
  ghost predicate IsEntry(l: string) { '\n' !in l && '\r' !in l && l != "" && !IsSpace(l[|l| - 1]) }

  /** The base text, a blank line, and the table. */
  function Registered(base: string, block: seq<string>): string {
    (if base == "" then "" else base + "\n\n") + Join(block) + "\n"
  }

  function Upsert(t: string, h: string, block: seq<string>): string {
    Registered(TrimEnd(Strip(t, h)), block)
  }

  lemma HeaderLine(h: string)
    requires IsHeader(h)
    ensures TrimEnd(h) == h && Trim(h) == h && IsTable(h) && Matches(h, h)
  {
  }

  lemma {:induction false} SplitJoin(lines: seq<string>)
    requires lines != [] && forall l :: l in lines ==> '\n' !in l && '\r' !in l
    ensures Split(Join(lines)) == lines
  {
    assert lines[0] in lines;
    SplitLine(lines[0]);
    if |lines| > 1 {
      SplitJoin(lines[1..]);
      SplitSum(lines[0], Join(lines[1..]));
      assert lines[0] + ("\n" + Join(lines[1..])) == Join(lines);
    }
  }

  /** The lines before a registered table. */
  function BaseLines(base: string): seq<string> {
    if base == "" then [] else Split(base) + [""]
  }

  lemma RegisteredLines(base: string, block: seq<string>, h: string)
    requires IsBlock(block, h) && (base == "" || base[|base| - 1] != '\r')
    ensures Split(Registered(base, block)) == BaseLines(base) + block + [""]
    ensures Split(if base == "" then Join(block) else base + "\n\n" + Join(block)) == BaseLines(base) + block
  {
    var text := Join(block);
    SplitJoin(block);
    JoinWithoutReturn(block);
    SplitSum(text, "");
    assert text + ("\n" + "") == text + "\n";
    if base != "" {
      SplitTwo(base, text);
      SplitTwo(base, text + "\n");
      assert base + "\n\n" + (text + "\n") == Registered(base, block);
      assert Split(base) + [""] + (block + [""]) == BaseLines(base) + block + [""];
    } else {
      assert "" + text + "\n" == text + "\n";
      assert [] + block == block;
    }
  }

  lemma SplitNewline(text: string)
    ensures Split("\n" + text) == [""] + Split(text)
  {
    assert ("\n" + text)[1..] == text;
  }

  lemma SplitTwo(base: string, text: string)
    requires base == "" || base[|base| - 1] != '\r'
    ensures Split(base + "\n\n" + text) == Split(base) + [""] + Split(text)
  {
    SplitNewline(text);
    SplitSum(base, "\n" + text);
    assert base + ("\n" + ("\n" + text)) == base + "\n\n" + text;
    Associate(Split(base), [""], Split(text));
  }

  lemma {:induction false} JoinWithoutReturn(lines: seq<string>)
    requires forall l :: l in lines ==> '\r' !in l
    ensures '\r' !in Join(lines)
  {
    assert lines != [] ==> lines[0] in lines;
    if |lines| > 1 {
      JoinWithoutReturn(lines[1..]);
    }
  }

  lemma {:induction false} SignificantBlock(block: seq<string>)
    requires forall l :: l in block ==> l != "" && !IsSpace(l[|l| - 1])
    ensures Significant(block) == block
  {
    if block != [] {
      assert block[0] in block;
      SignificantBlock(block[1..]);
      assert block == [block[0]] + block[1..];
    }
  }

  /** Registering adds exactly the table to what is there. */
  lemma RegisteredContent(base: string, block: seq<string>, h: string)
    requires IsBlock(block, h) && (base == "" || base[|base| - 1] != '\r')
    ensures Content(Registered(base, block)) == Content(base) + block
  {
    RegisteredLines(base, block, h);
    SignificantOfSum(BaseLines(base) + block, [""]);
    SignificantOfSum(BaseLines(base), block);
    SignificantBlock(block);
    BaseContent(base);
    assert Content(base) + block + [] == Content(base) + block;
  }

  lemma BaseContent(base: string)
    ensures Significant(BaseLines(base)) == Content(base) && Significant([""]) == []
  {
    if base != "" {
      SignificantOfSum(Split(base), [""]);
      assert Content(base) + [] == Content(base);
    }
  }

  // ------------------------------------------------------------------ a stripped text has no such table

  lemma {:induction false} SignificantMembers(lines: seq<string>, k: string)
    requires k in lines && TrimEnd(k) != ""
    ensures TrimEnd(k) in Significant(lines)
  {
    if k != lines[0] {
      assert lines == [lines[0]] + lines[1..];
      SignificantMembers(lines[1..], k);
    }
  }

  lemma StrippedHasNone(t: string, h: string)
    requires IsHeader(h)
    ensures forall l :: l in Split(Strip(t, h)) ==> !Matches(l, h)
  {
    StripContent(t, h);
    KeptHasLines(Content(t), h, false);
    NoneInContent(Split(Strip(t, h)), h);
  }

  lemma NoneInContent(lines: seq<string>, h: string)
    requires IsHeader(h) && forall l :: l in Significant(lines) ==> !Matches(l, h)
    ensures forall l :: l in lines ==> !Matches(l, h)
  {
    forall l | l in lines ensures !Matches(l, h) {
      TrimEndTwice(l);
      if TrimEnd(l) != "" {
        SignificantMembers(lines, l);
      }
    }
  }

  lemma {:induction false} KeptAll(lines: seq<string>, h: string)
    requires forall l :: l in lines ==> !Matches(l, h)
    ensures Kept(lines, h, false) == lines
  {
    if lines != [] {
      KeptFirst(lines, h);
      KeptAll(lines[1..], h);
    }
  }

  lemma KeptFirst(lines: seq<string>, h: string)
    requires lines != [] && forall l :: l in lines ==> !Matches(l, h)
    ensures Kept(lines, h, false) == [lines[0]] + Kept(lines[1..], h, false)
    ensures forall l :: l in lines[1..] ==> !Matches(l, h)
  {
    assert lines[0] in lines;
  }

  lemma {:induction false} KeptSum(a: seq<string>, b: seq<string>, h: string, inside: bool)
    requires IsHeader(h) && (b == [] || IsTable(b[0]))
    ensures Kept(a + b, h, inside) == Kept(a, h, inside) + Kept(b, h, false)
  {
    if a == [] {
      assert a + b == b;
      KeptAtStart(b, h, inside);
      assert Kept(a, h, inside) == [];
    } else {
      assert (a + b)[1..] == a[1..] + b;
      var goes := Goes(a[0], h, inside);
      KeptSum(a[1..], b, h, goes);
      Associate(Staying(a[0], goes), Kept(a[1..], h, goes), Kept(b, h, false));
    }
  }

  lemma KeptAtStart(b: seq<string>, h: string, inside: bool)
    requires b == [] || IsTable(b[0])
    ensures Kept(b, h, inside) == Kept(b, h, false) == [] + Kept(b, h, false)
  {
  }

  lemma {:induction false} KeptBody(body: seq<string>, h: string)
    requires IsHeader(h) && forall l :: l in body ==> !IsTable(l)
    ensures Kept(body, h, true) == []
  {
    if body != [] {
      assert body[0] in body;
      KeptBody(body[1..], h);
      assert [] + Kept(body[1..], h, true) == [];
    }
  }

  lemma BlockIsRemoved(block: seq<string>, h: string, last: seq<string>)
    requires IsBlock(block, h) && last in {[], [""]}
    ensures IsTable((block + last)[0]) && Kept(block + last, h, false) == []
  {
    HeaderLine(h);
    assert (block + last)[1..] == block[1..] + last;
    KeptBody(block[1..] + last, h);
  }

  /** Reading a registered text and removing the table again leaves the lines before it. */
  lemma RegisteredIsRemoved(base: string, block: seq<string>, h: string, last: seq<string>)
    requires IsBlock(block, h) && last in {[], [""]}
    requires forall l :: l in Split(base) ==> !Matches(l, h)
    ensures Kept(BaseLines(base) + block + last, h, false) == BaseLines(base)
  {
    var before := BaseLines(base);
    BaseHasNone(base, h);
    KeptAll(before, h);
    BlockIsRemoved(block, h, last);
    KeptSum(before, block + last, h, false);
    Associate(before, block, last);
    assert before + [] == before;
  }

  lemma BaseHasNone(base: string, h: string)
    requires IsHeader(h) && forall l :: l in Split(base) ==> !Matches(l, h)
    ensures forall l :: l in BaseLines(base) ==> !Matches(l, h)
  {
  }

  // ------------------------------------------------------------------ what the regular expressions match

  ghost predicate Spaces(t: string, from: nat, to: nat) {
    from <= to <= |t| && forall j :: from <= j < to ==> IsSpace(t[j])
  }

  lemma {:induction false} TrimStartAt(t: string, i: nat)
    requires Spaces(t, 0, i) && (i == |t| || !IsSpace(t[i]))
    ensures TrimStart(t) == t[i..]
    decreases i
  {
    if i > 0 {
      TrimStartAt(t[1..], i - 1);
      assert t[1..][i - 1..] == t[i..];
    } else {
      assert t[0..] == t;
    }
  }

  lemma {:induction false} TrimEndAt(t: string, n: nat)
    requires n <= |t| && Spaces(t, n, |t|) && (n == 0 || !IsSpace(t[n - 1]))
    ensures TrimEnd(t) == t[..n]
    decreases |t| - n
  {
    if n < |t| {
      TrimEndAt(t[..|t| - 1], n);
      assert t[..|t| - 1][..n] == t[..n];
    } else {
      assert t[..n] == t;
    }
  }

  lemma FirstVisible(t: string) returns (i: nat)
    ensures Spaces(t, 0, i) && (i == |t| || !IsSpace(t[i])) && TrimStart(t) == t[i..]
  {
    i := 0;
    while i < |t| && IsSpace(t[i])
      invariant Spaces(t, 0, i)
    {
      i := i + 1;
    }
    TrimStartAt(t, i);
  }

  lemma LastVisible(t: string) returns (n: nat)
    ensures n <= |t| && Spaces(t, n, |t|) && (n == 0 || !IsSpace(t[n - 1])) && TrimEnd(t) == t[..n]
  {
    n := |t|;
    while n > 0 && IsSpace(t[n - 1])
      invariant n <= |t| && Spaces(t, n, |t|)
    {
      n := n - 1;
    }
    TrimEndAt(t, n);
  }

  /** `^\s*\[`. */
  lemma IsTableExactlyWhen(l: string)
    ensures IsTable(l) <==> exists i :: 0 <= i < |l| && l[i] == '[' && Spaces(l, 0, i)
  {
    var n := LastVisible(l);
    var k := FirstVisible(l[..n]);
    if IsTable(l) {
      assert l[k] == '[' && Spaces(l, 0, k);
    }
    if i :| 0 <= i < |l| && l[i] == '[' && Spaces(l, 0, i) {
      assert i < n;
      TrimStartAt(l[..n], i);
    }
  }

  /** `^\s*header\s*$`. */
  lemma MatchesExactlyWhen(l: string, h: string)
    requires IsHeader(h)
    ensures Matches(l, h) <==>
              exists i :: 0 <= i <= |l| - |h| && l[i..i + |h|] == h && Spaces(l, 0, i) && Spaces(l, i + |h|, |l|)
  {
    var n := LastVisible(l);
    var k := FirstVisible(l[..n]);
    assert Trim(l) == l[..n][k..] == l[k..n];
    if Matches(l, h) {
      assert n == k + |h| && l[k..k + |h|] == h && Spaces(l, 0, k);
    }
    if i :| 0 <= i <= |l| - |h| && l[i..i + |h|] == h && Spaces(l, 0, i) && Spaces(l, i + |h|, |l|) {
      var end := i + |h|;
      assert l[i] == h[0] && l[end - 1] == h[|h| - 1];
      TrimEndAt(l, end);
      TrimStartAt(l[..end], i);
      assert l[..end][i..] == l[i..end];
    }
  }

  /** The key, between white space, from `i` on, and the equals sign at `k`. */
  ghost predicate AssignsFrom(l: string, key: string, i: nat, k: nat) {
    && i <= i + |key| <= k < |l| && Spaces(l, 0, i) && l[i..i + |key|] == key
    && Spaces(l, i + |key|, k) && l[k] == '='
  }

  /** `^\s*key\s*=`. */
  lemma AssignsExactlyWhen(l: string, key: string)
    requires key != "" && !IsSpace(key[0])
    ensures Assigns(l, key) <==> exists i: nat, k: nat :: AssignsFrom(l, key, i, k)
  {
    if Assigns(l, key) {
      var i, k := WhereAssigned(l, key);
    }
    if i: nat, k: nat :| AssignsFrom(l, key, i, k) {
      AfterKeyAt(l, key, i, k);
    }
  }

  lemma WhereAssigned(l: string, key: string) returns (i: nat, k: nat)
    requires Assigns(l, key)
    ensures AssignsFrom(l, key, i, k)
  {
    i := FirstVisible(l);
    var rest := l[i..][|key|..];
    var n := FirstVisible(rest);
    k := i + |key| + n;
    assert rest == l[i + |key|..] && l[i..i + |key|] == key && l[k] == rest[n] == '=';
  }

  lemma AfterKeyAt(l: string, key: string, i: nat, k: nat)
    requires key != "" && !IsSpace(key[0]) && AssignsFrom(l, key, i, k)
    ensures AfterKey(l, key) == Some(l[k..]) && Assigns(l, key)
  {
    assert l[i] == key[0];
    TrimStartAt(l, i);
    var rest := l[i + |key|..];
    assert l[i..][|key|..] == rest && l[i..][..|key|] == key;
    TrimStartAt(rest, k - (i + |key|));
    assert rest[k - (i + |key|)..] == l[k..];
  }
}
