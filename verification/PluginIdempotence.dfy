/** On which texts the marketplace and plugin registrations are idempotent (`src/cli/plugin-marketplace.ts`). */
module PluginIdempotence {
  import opened TomlText
  import opened TomlEdit
  import opened TomlReread
  import opened PluginRegistration
  import opened Wrappers

  // ------------------------------------------------------------------ the marketplace

  lemma {:induction false} OwnedAt(lines: seq<string>, owner: string)
    ensures |Owned(lines, owner)| == |lines| && forall i :: 0 <= i < |lines| ==> Owned(lines, owner)[i].1 == lines[i]
  {
    if lines != [] {
      OwnedAt(lines[1..], OwnerAt(lines[0], owner));
    }
  }

  /** A line that ends in a return, before a visible one. */
  ghost predicate ReturnBeforeVisible(rest: seq<(string, string)>) {
    exists i, j :: 0 <= i < j < |rest| && EndsInReturn(rest[i].1) && TrimEnd(rest[j].1) != ""
  }

  lemma KeptOneLiners(t: string, h: string)
    ensures OneLiners(Kept(Split(t), h, false))
  {
    KeptHasLines(Split(t), h, false);
  }

  /** Registering the marketplace twice is registering it once unless, among the lines outside its own tables, one that
      still ends in a return once the text is split into lines comes before a visible one. */
  lemma MarketplaceIdempotent(t: string, quotedRoot: string)
    requires IsQuoted(quotedRoot)
    ensures var u := UpsertMarketplace(t, quotedRoot);
            UpsertMarketplace(u, quotedRoot) == u <==> !ReturnBeforeVisible(Without(Owned(Split(t), ""), MARKETPLACE))
  {
    var lines := Kept(Split(t), MARKETPLACE, false);
    MarketplaceRepeats(t, quotedRoot);
    KeptOneLiners(t, MARKETPLACE);
    TidyCrLf(lines);
    ReturnBeforeTextExists(lines);
    MarketplaceHeader();
    KeptIsWithout(Split(t), MARKETPLACE, "", "");
    OwnedAt(lines, "");
  }

  // ------------------------------------------------------------------ legacy scalars, line by line

  ghost predicate NothingLegacy(owned: seq<(string, string)>) {
    owned == [] || (!Legacy(owned[0]) && NothingLegacy(owned[1..]))
  }

  lemma {:induction false} CurrentMeans(lines: seq<string>, owner: string)
    ensures Current(lines, owner) == lines <==> NothingLegacy(Owned(lines, owner))
  {
    if lines != [] {
      var l, o := lines[0], OwnerAt(lines[0], owner);
      var rest := Current(lines[1..], o);
      CurrentMeans(lines[1..], o);
      CurrentIsShorter(lines[1..], o);
      OwnedFirst(lines, owner);
      FirstStays(l, o, rest, lines);
    }
  }

  lemma OwnedFirst(lines: seq<string>, owner: string)
    requires lines != []
    ensures var o := OwnerAt(lines[0], owner);
            Owned(lines, owner)[0] == (o, lines[0]) && Owned(lines, owner)[1..] == Owned(lines[1..], o)
  {
  }

  lemma FirstStays(l: string, owner: string, rest: seq<string>, lines: seq<string>)
    requires lines != [] && lines[0] == l && |rest| < |lines|
    ensures Surviving(l, owner) + rest == lines <==> !Legacy((owner, l)) && rest == lines[1..]
  {
    assert lines == [l] + lines[1..];
    assert ([l] + rest)[1..] == rest;
  }

  lemma {:induction false} CurrentIsShorter(lines: seq<string>, owner: string)
    ensures |Current(lines, owner)| <= |lines|
  {
    if lines != [] {
      CurrentIsShorter(lines[1..], OwnerAt(lines[0], owner));
    }
  }

  lemma LegacyIsVisible(p: (string, string))
    ensures Legacy(p) ==> TrimEnd(p.1) != ""
  {
    if TrimEnd(p.1) == "" {
      AllSpace(p.1);
    }
  }

  // ------------------------------------------------------------------ lines that an upsert leaves to the next

  /** What becomes of a line when the text is cleaned up, and, if it is `reread`, split again. */
  function Left(l: string, reread: bool, last: bool): string {
    if last then TrimEnd(l) else if reread then DropReturn(l) else l
  }

  /** Some line is left with a return, or as a legacy scalar. */
  predicate Unsettled(lines: seq<string>, owner: string, reread: bool) {
    lines != [] &&
    var o, l := OwnerAt(lines[0], owner), Left(lines[0], reread, Significant(lines[1..]) == []);
    EndsInReturn(l) || Legacy((o, l)) || Unsettled(lines[1..], o, reread)
  }

  lemma {:induction false} BlankIsSettled(lines: seq<string>, owner: string, reread: bool)
    requires Significant(lines) == []
    ensures !Unsettled(lines, owner, reread)
  {
    if lines != [] {
      LegacyIsVisible((OwnerAt(lines[0], owner), ""));
      BlankIsSettled(lines[1..], OwnerAt(lines[0], owner), reread);
    }
  }

  lemma EmptyIsSettled(lines: seq<string>, owner: string, reread: bool)
    ensures Unsettled([""] + lines, owner, reread) == Unsettled(lines, owner, reread)
    ensures Significant([""] + lines) == Significant(lines)
  {
    assert ([""] + lines)[1..] == lines;
    LegacyIsVisible((owner, ""));
    BlankLine("");
    assert [] + Significant(lines) == Significant(lines);
  }

  lemma UnsettledFirst(l: string, lines: seq<string>, owner: string, reread: bool)
    ensures var o, left := OwnerAt(l, owner), Left(l, reread, Significant(lines) == []);
            Unsettled([l] + lines, owner, reread) <==>
              EndsInReturn(left) || Legacy((o, left)) || Unsettled(lines, o, reread)
  {
    assert ([l] + lines)[1..] == lines;
  }

  /** A text without CR LF, read again as it was cleaned up. */
  lemma {:induction false} EndedIsSettled(lines: seq<string>, owner: string)
    ensures !Unsettled(lines, owner, false) <==> Returnless(Ended(lines)) && NothingLegacy(Owned(Ended(lines), owner))
  {
    if lines != [] {
      var l, o, rest := lines[0], OwnerAt(lines[0], owner), Ended(lines[1..]);
      EndedIsSettled(lines[1..], o);
      TrimJoin(lines[1..]);
      if Significant(lines[1..]) == [] {
        BlankIsSettled(lines[1..], o, false);
        TrimEndTwice(l);
        OwnedFirst([TrimEnd(l)], owner);
        assert Owned([], o) == [];
      } else {
        assert ([l] + rest)[1..] == rest;
        OwnedFirst([l] + rest, owner);
      }
    }
  }

  lemma {:induction false} ThinSettles(lines: seq<string>, run: nat, owner: string)
    ensures Unsettled(Thin(lines, run), owner, false) == Unsettled(lines, owner, false)
    decreases |lines|
  {
    if |lines| > 1 {
      var l, o, next := lines[0], OwnerAt(lines[0], owner), if lines[0] == "" then run + 1 else 1;
      var thin := Thin(lines[1..], next);
      ThinSettles(lines[1..], next, o);
      ThinMembers(lines[1..], next);
      assert lines == [l] + lines[1..];
      UnsettledFirst(l, thin, owner, false);
      UnsettledFirst(l, lines[1..], owner, false);
      if l == "" {
        BlankLine("");
        EmptyIsSettled(lines[1..], owner, false);
        assert [] + thin == thin;
      }
    }
  }

  lemma ThinContent(lines: seq<string>, run: nat, h: string, inside: bool)
    requires IsHeader(h)
    ensures Significant(Kept(Thin(lines, run), h, inside)) == Significant(Kept(lines, h, inside))
  {
    KeptContent(Thin(lines, run), h, inside);
    KeptContent(lines, h, inside);
    ThinMembers(lines, run);
  }

  lemma KeptNextLine(l: string, lines: seq<string>, h: string, inside: bool)
    ensures Kept([l] + lines, h, inside) == Staying(l, Goes(l, h, inside)) + Kept(lines, h, Goes(l, h, inside))
  {
    assert ([l] + lines)[1..] == lines;
  }

  lemma KeptEmpty(lines: seq<string>, h: string, inside: bool, owner: string, reread: bool)
    requires IsHeader(h)
    ensures Unsettled(Kept([""] + lines, h, inside), owner, reread) == Unsettled(Kept(lines, h, inside), owner, reread)
  {
    BlankLine("");
    KeptNextLine("", lines, h, inside);
    var kept := Kept(lines, h, inside);
    EmptyIsSettled(kept, owner, reread);
    assert [] + kept == kept;
  }

  /** The empty lines that collapsing drops do not matter, whatever tables are removed next. */
  lemma {:induction false} ThinKept(lines: seq<string>, run: nat, h: string, inside: bool, owner: string)
    requires IsHeader(h)
    ensures Unsettled(Kept(Thin(lines, run), h, inside), owner, true) == Unsettled(Kept(lines, h, inside), owner, true)
    decreases |lines|
  {
    if |lines| > 1 {
      var l, next := lines[0], if lines[0] == "" then run + 1 else 1;
      var thin, goes, o := Thin(lines[1..], next), Goes(l, h, inside), OwnerAt(l, owner);
      assert lines == [l] + lines[1..];
      if l == "" {
        ThinKept(lines[1..], next, h, inside, owner);
        KeptEmpty(thin, h, inside, owner, true);
        KeptEmpty(lines[1..], h, inside, owner, true);
        assert [] + thin == thin;
      } else {
        ThinKept(lines[1..], next, h, goes, if goes then owner else o);
        ThinContent(lines[1..], next, h, goes);
        KeptSame(l, l, thin, lines[1..], h, inside, owner, true);
      }
    }
  }

  /** Two lines that differ only at their ends go or stay alike, and so does what follows. */
  lemma KeptSame(l: string, m: string, a: seq<string>, b: seq<string>, h: string, inside: bool, owner: string,
                 reread: bool)
    requires TrimEnd(l) == TrimEnd(m)
    requires Significant(Kept(a, h, Goes(m, h, inside))) == Significant(Kept(b, h, Goes(m, h, inside)))
    requires var goes := Goes(m, h, inside);
             var o := if goes then owner else OwnerAt(m, owner);
             Unsettled(Kept(a, h, goes), o, reread) == Unsettled(Kept(b, h, goes), o, true)
    requires var last := Significant(Kept(b, h, Goes(m, h, inside))) == [];
             !Goes(m, h, inside) ==> Left(l, reread, last) == Left(m, true, last)
    ensures Unsettled(Kept([l] + a, h, inside), owner, reread) == Unsettled(Kept([m] + b, h, inside), owner, true)
  {
    var goes := Goes(m, h, inside);
    assert Trim(l) == Trim(m);
    KeptNextLine(l, a, h, inside);
    KeptNextLine(m, b, h, inside);
    if goes {
      assert [] + Kept(a, h, goes) == Kept(a, h, goes) && [] + Kept(b, h, goes) == Kept(b, h, goes);
    } else {
      UnsettledFirst(l, Kept(a, h, goes), owner, reread);
      UnsettledFirst(m, Kept(b, h, goes), owner, true);
    }
  }

  lemma WornKeptContent(lines: seq<string>, h: string, inside: bool)
    requires IsHeader(h)
    ensures Significant(Kept(Worn(lines), h, inside)) == Significant(Kept(lines, h, inside))
    ensures Significant(lines) == [] ==> Significant(Kept(lines, h, inside)) == []
  {
    KeptContent(Worn(lines), h, inside);
    KeptContent(lines, h, inside);
    WornContent(lines);
  }

  /** A clean-up, a reading and the removal of tables leave what is told from the lines before. */
  lemma {:induction false} WornKept(lines: seq<string>, h: string, inside: bool, owner: string)
    requires IsHeader(h)
    ensures Unsettled(Kept(Worn(lines), h, inside), owner, false) == Unsettled(Kept(lines, h, inside), owner, true)
  {
    if lines != [] {
      var l, rest := lines[0], lines[1..];
      var goes := Goes(l, h, inside);
      var o := if goes then owner else OwnerAt(l, owner);
      assert lines == [l] + rest;
      WornKeptContent(rest, h, goes);
      EmitDropsReturn(l);
      TrimEndTwice(l);
      if Significant(rest) == [] {
        BlankIsSettled(Kept(rest, h, goes), o, true);
        assert [TrimEnd(l)] + [] == [TrimEnd(l)];
        KeptSame(TrimEnd(l), l, [], rest, h, inside, owner, false);
      } else {
        WornKept(rest, h, goes, o);
        KeptSame(DropReturn(l), l, Worn(rest), rest, h, inside, owner, false);
      }
    }
  }

  // ------------------------------------------------------------------ enabling the plugin

  /** Enabling is idempotent as far as the lines of the text that is not removed are settled. */
  lemma EnablementSettles(t: string)
    ensures UpsertEnablement(UpsertEnablement(t)) == UpsertEnablement(t) <==>
              !Unsettled(Kept(Current(Split(t), ""), PLUGIN, false), "", true)
  {
    var current := Current(Split(t), "");
    var read := Split(Tidy(current));
    var kept := Kept(read, PLUGIN, false);
    PluginHeaders();
    CurrentOneLiners(Split(t), "");
    SplitTidy(current);
    KeptOneLiners(Tidy(current), PLUGIN);
    StrippedIsSettled(t, kept);
    assert current != [];
    WornKept(Thin(current, 0), PLUGIN, false, "");
    ThinKept(current, 0, PLUGIN, false, "");
  }

  lemma StrippedIsSettled(t: string, kept: seq<string>)
    requires OneLiners(kept) && Stripped(t) == Tidy(kept)
    ensures UpsertEnablement(UpsertEnablement(t)) == UpsertEnablement(t) <==> !Unsettled(kept, "", false)
  {
    var ended := Ended(Thin(kept, 0));
    EnablementRepeats(t);
    CurrentMeans(Split(Stripped(t)), "");
    ThinMembers(kept, 0);
    EndedMembers(Thin(kept, 0));
    TidyIsJoin(kept);
    NoCrLfJoin(ended);
    ThinSettles(kept, 0, "");
    EndedIsSettled(Thin(kept, 0), "");
    if Returnless(ended) {
      ReturnlessStays(ended);
      if ended == [] {
        LegacyIsVisible(("", ""));
        OwnedFirst([""], "");
        BlankLine("");
        assert Owned([], "") == [];
      } else {
        SplitOfJoin(ended);
      }
    }
  }

  /** The lines that enabling the plugin does not remove, each with its owner. */
  function Remaining(t: string): seq<(string, string)> {
    Without(WithoutLegacy(Owned(Split(t), "")), PLUGIN)
  }

  ghost predicate VisibleFrom(rest: seq<(string, string)>, i: nat) {
    exists j :: i <= j < |rest| && TrimEnd(rest[j].1) != ""
  }

  /** The line as the first upsert leaves it: without its return, or trimmed when nothing visible follows. */
  ghost function LineAfter(rest: seq<(string, string)>, i: nat): string
    requires i < |rest|
  {
    Left(rest[i].1, true, !VisibleFrom(rest, i + 1))
  }

  /** The next upsert changes this line: it still ends in a return, or it has become a legacy scalar. */
  ghost predicate Changes(rest: seq<(string, string)>, i: nat)
    requires i < |rest|
  {
    EndsInReturn(LineAfter(rest, i)) || Legacy((rest[i].0, LineAfter(rest, i)))
  }

  lemma VisibleMeans(lines: seq<string>, owner: string, i: nat)
    requires i <= |lines|
    ensures Significant(lines[i..]) != [] <==> VisibleFrom(Owned(lines, owner), i)
  {
    var owned, rest := Owned(lines, owner), lines[i..];
    OwnedAt(lines, owner);
    SignificantExists(rest);
    if VisibleFrom(owned, i) {
      var j :| i <= j < |owned| && TrimEnd(owned[j].1) != "";
      assert rest[j - i] == lines[j];
    }
    if Significant(rest) != [] {
      var j :| 0 <= j < |rest| && TrimEnd(rest[j]) != "";
      assert TrimEnd(owned[i + j].1) != "";
    }
  }

  ghost predicate SomeLineChanges(rest: seq<(string, string)>) {
    exists i :: 0 <= i < |rest| && Changes(rest, i)
  }

  lemma ChangesLater(rest: seq<(string, string)>, i: nat)
    requires i + 1 < |rest|
    ensures Changes(rest, i + 1) == Changes(rest[1..], i)
  {
    if VisibleFrom(rest, i + 2) {
      var j :| i + 2 <= j < |rest| && TrimEnd(rest[j].1) != "";
      assert TrimEnd(rest[1..][j - 1].1) != "";
    }
    if VisibleFrom(rest[1..], i + 1) {
      var j :| i + 1 <= j < |rest[1..]| && TrimEnd(rest[1..][j].1) != "";
      assert TrimEnd(rest[j + 1].1) != "";
    }
  }

  lemma SomeLineFirst(rest: seq<(string, string)>)
    requires rest != []
    ensures SomeLineChanges(rest) <==> Changes(rest, 0) || SomeLineChanges(rest[1..])
  {
    if SomeLineChanges(rest[1..]) {
      var i :| 0 <= i < |rest[1..]| && Changes(rest[1..], i);
      ChangesLater(rest, i);
      assert Changes(rest, i + 1);
    }
    if SomeLineChanges(rest) {
      var i :| 0 <= i < |rest| && Changes(rest, i);
      if i > 0 {
        ChangesLater(rest, i - 1);
      }
    }
  }

  lemma {:induction false} UnsettledMeans(lines: seq<string>, owner: string)
    ensures Unsettled(lines, owner, true) <==> SomeLineChanges(Owned(lines, owner))
  {
    if lines != [] {
      UnsettledMeans(lines[1..], OwnerAt(lines[0], owner));
      OwnedFirst(lines, owner);
      VisibleMeans(lines, owner, 1);
      SomeLineFirst(Owned(lines, owner));
    }
  }

  /** Enabling the plugin twice is enabling it once unless some remaining line, as the first upsert leaves it, still
      ends in a return or has become a legacy scalar. */
  lemma EnablementIdempotent(t: string)
    ensures UpsertEnablement(UpsertEnablement(t)) == UpsertEnablement(t) <==> !SomeLineChanges(Remaining(t))
  {
    EnablementSettles(t);
    RemainingLines(t);
    UnsettledMeans(Kept(Current(Split(t), ""), PLUGIN, false), "");
  }

  lemma RemainingLines(t: string)
    ensures Owned(Kept(Current(Split(t), ""), PLUGIN, false), "") == Remaining(t)
  {
    PluginHeaders();
    CurrentIsWithoutLegacy(Split(t), "");
    KeptIsWithout(Current(Split(t), ""), PLUGIN, "", "");
  }

  // ------------------------------------------------------------------ texts with ordinary line endings

  /** Every carriage return is part of a CR LF. */
  predicate ReturnsInBreaks(t: string) {
    forall i :: 0 <= i < |t| && t[i] == '\r' ==> i + 1 < |t| && t[i + 1] == '\n'
  }

  lemma ReturnsInRest(t: string, n: nat)
    requires ReturnsInBreaks(t) && n <= |t|
    ensures ReturnsInBreaks(t[n..])
  {
    forall i | 0 <= i < |t[n..]| && t[n..][i] == '\r' ensures i + 1 < |t[n..]| && t[n..][i + 1] == '\n' {
      assert t[n + i] == '\r';
    }
  }

  lemma {:induction false} SplitMembers(t: string)
    ensures forall l, c :: l in Split(t) && c in l ==> c in t
    ensures ReturnsInBreaks(t) ==> forall l :: l in Split(t) ==> '\r' !in l
    decreases |t|
  {
    if t != "" && IsBreak(t) {
      var n := if t[0] == '\n' then 1 else 2;
      assert AfterBreak(t) == t[n..];
      SplitMembers(t[n..]);
      if ReturnsInBreaks(t) {
        ReturnsInRest(t, n);
      }
    } else if t != "" {
      SplitMembers(t[1..]);
      PrependMembers(t[0], Split(t[1..]));
      if ReturnsInBreaks(t) {
        ReturnsInRest(t, 1);
      }
    }
  }

  lemma PrependMembers(c: char, lines: seq<string>)
    requires lines != []
    ensures forall l :: l in Prepend(c, lines) ==> l in lines || (l == [c] + lines[0] && lines[0] in lines)
  {
    assert lines[0] in lines;
  }

  lemma {:induction false} RemainingMembers(owned: seq<(string, string)>, h: string)
    ensures forall p :: p in Without(WithoutLegacy(owned), h) ==> p in owned && !Legacy(p)
  {
    if owned != [] {
      RemainingMembers(owned[1..], h);
      var p, rest := owned[0], WithoutLegacy(owned[1..]);
      assert [] + rest == rest && ([p] + rest)[1..] == rest;
    }
  }

  lemma RemainingLine(t: string, i: nat)
    requires i < |Remaining(t)|
    ensures !Legacy(Remaining(t)[i]) && Remaining(t)[i].1 in Split(t)
  {
    var p := Remaining(t)[i];
    assert p in Remaining(t);
    RemainingMembers(Owned(Split(t), ""), PLUGIN);
    var k :| 0 <= k < |Owned(Split(t), "")| && Owned(Split(t), "")[k] == p;
    OwnedAt(Split(t), "");
  }

  /** The last remaining line turns into a legacy scalar when the white space after it is trimmed. */
  ghost predicate EndsInHiddenScalar(rest: seq<(string, string)>) {
    exists i :: 0 <= i < |rest| && !VisibleFrom(rest, i + 1) && Legacy((rest[i].0, TrimEnd(rest[i].1)))
  }

  /** With line endings LF or CR LF throughout, registering the marketplace is idempotent, and enabling the plugin is
      unless the remaining lines end in a hidden legacy scalar. */
  lemma IdempotentOnOrdinaryTexts(t: string, quotedRoot: string)
    requires ReturnsInBreaks(t) && IsQuoted(quotedRoot)
    ensures UpsertMarketplace(UpsertMarketplace(t, quotedRoot), quotedRoot) == UpsertMarketplace(t, quotedRoot)
    ensures UpsertEnablement(UpsertEnablement(t)) == UpsertEnablement(t) <==> !EndsInHiddenScalar(Remaining(t))
  {
    SplitMembers(t);
    OrdinaryMarketplace(t, quotedRoot);
    EnablementIdempotent(t);
    var rest := Remaining(t);
    forall i | 0 <= i < |rest|
      ensures Changes(rest, i) <==> !VisibleFrom(rest, i + 1) && Legacy((rest[i].0, TrimEnd(rest[i].1)))
    {
      RemainingLine(t, i);
      NoReturnAtEnd(rest[i].1);
      assert rest[i] == (rest[i].0, rest[i].1);
    }
  }

  lemma NoReturnAtEnd(l: string)
    requires '\r' !in l
    ensures !EndsInReturn(l) && DropReturn(l) == l
  {
  }

  lemma OrdinaryMarketplace(t: string, quotedRoot: string)
    requires IsQuoted(quotedRoot) && forall l :: l in Split(t) ==> '\r' !in l
    ensures UpsertMarketplace(UpsertMarketplace(t, quotedRoot), quotedRoot) == UpsertMarketplace(t, quotedRoot)
  {
    var lines := Kept(Split(t), MARKETPLACE, false);
    KeptHasLines(Split(t), MARKETPLACE, false);
    KeptOneLiners(t, MARKETPLACE);
    MarketplaceRepeats(t, quotedRoot);
    TidyCrLf(lines);
    ReturnBeforeTextExists(lines);
    forall i | 0 <= i < |lines| ensures !EndsInReturn(lines[i]) {
      assert lines[i] in lines;
      NoReturnAtEnd(lines[i]);
    }
  }

  /** On a plain line, trailing white space makes no difference to what counts as a legacy scalar. */
  lemma {:induction false} ScalarTrimmed(l: string)
    requires Plain(l)
    ensures Scalar(TrimEnd(l)) == Scalar(l)
    decreases |l|
  {
    if l != "" && IsSpace(l[|l| - 1]) {
      var front, w := l[..|l| - 1], l[|l| - 1];
      assert l == front + [w];
      ScalarTrimmed(front);
      ScalarLast(front, w);
    }
  }

  lemma ScalarLast(l: string, w: char)
    requires IsSpace(w) && !IsTerminator(w)
    ensures Scalar(l + [w]) == Scalar(l)
  {
    assert PLUGIN_KEY[|PLUGIN_KEY| - 1] == '"';
    AssignsLast(l, w, PLUGIN_KEY);
  }

  lemma AssignsLast(l: string, w: char, key: string)
    requires IsSpace(w) && !IsTerminator(w) && key != "" && !IsSpace(key[|key| - 1])
    ensures AssignsOnLine(l + [w], key) == AssignsOnLine(l, key)
  {
    AfterKeyLast(l, w, key);
    if AfterKey(l, key).Some? {
      PlainLast(AfterKey(l, key).value, w);
    }
  }

  lemma PlainLast(v: string, w: char)
    requires !IsTerminator(w)
    ensures Plain(v + [w]) == Plain(v)
  {
    assert forall c :: c in v ==> c in v + [w];
  }

  lemma AfterKeyLast(l: string, w: char, key: string)
    requires IsSpace(w) && key != "" && !IsSpace(key[|key| - 1])
    ensures AfterKey(l + [w], key).Some? == AfterKey(l, key).Some?
    ensures AfterKey(l, key).Some? ==>
              var v := AfterKey(l, key).value;
              AfterKey(l + [w], key).value == if v == "" then "" else v + [w]
  {
    SpaceAtEnd(l, w);
    if TrimStart(l) != "" {
      RestLast(TrimStart(l), w, key);
    }
  }

  lemma RestLast(t: string, w: char, key: string)
    requires IsSpace(w) && key != "" && !IsSpace(key[|key| - 1])
    ensures Rest(t + [w], key).Some? == Rest(t, key).Some?
    ensures Rest(t, key).Some? ==>
              var v := Rest(t, key).value;
              Rest(t + [w], key).value == if v == "" then "" else v + [w]
  {
    PrefixLast(t, w, key);
    if key <= t {
      assert (t + [w])[|key|..] == t[|key|..] + [w];
      SpaceAtEnd(t[|key|..], w);
    }
  }

  lemma PrefixLast(t: string, w: char, key: string)
    requires IsSpace(w) && key != "" && !IsSpace(key[|key| - 1])
    ensures key <= t + [w] <==> key <= t
  {
    var n := |key|;
    if key <= t + [w] {
      assert key[n - 1] == (t + [w])[n - 1];
      assert n <= |t|;
      assert key == (t + [w])[..n] == t[..n];
    }
  }

  lemma LegacyTrimmed(p: (string, string))
    requires Plain(p.1)
    ensures Legacy(p) <==> TrimEnd(p.1) != "" && Legacy((p.0, TrimEnd(p.1)))
  {
    TrimEndTwice(p.1);
    ScalarTrimmed(p.1);
    if TrimEnd(p.1) == "" {
      AllSpace(p.1);
    }
  }

  /** Without Unicode line separators there is no hidden scalar, and both upserts are idempotent. */
  lemma TameTextsAreSafe(t: string, quotedRoot: string)
    requires ReturnsInBreaks(t) && '\U{2028}' !in t && '\U{2029}' !in t && IsQuoted(quotedRoot)
    ensures UpsertMarketplace(UpsertMarketplace(t, quotedRoot), quotedRoot) == UpsertMarketplace(t, quotedRoot)
    ensures UpsertEnablement(UpsertEnablement(t)) == UpsertEnablement(t)
  {
    IdempotentOnOrdinaryTexts(t, quotedRoot);
    SplitMembers(t);
    var rest := Remaining(t);
    forall i | 0 <= i < |rest| ensures !Legacy((rest[i].0, TrimEnd(rest[i].1))) {
      RemainingLine(t, i);
      PlainLine(t, rest[i].1);
      LegacyTrimmed(rest[i]);
      LegacyIsVisible((rest[i].0, TrimEnd(rest[i].1)));
      TrimEndTwice(rest[i].1);
    }
  }

  lemma PlainLine(t: string, l: string)
    requires '\U{2028}' !in t && '\U{2029}' !in t && '\r' !in l && '\n' !in l && forall c :: c in l ==> c in t
    ensures Plain(l)
  {
  }

  // ------------------------------------------------------------------ texts that are not

  /** Two lines, the first of them visible to its end. */
  lemma TwoLines(a: string, b: string)
    requires IsEntry(a) && '\n' !in b && '\r' !in b && b != ""
    ensures Split(a + "\n" + b) == [a, b] && Join([a, b]) == a + "\n" + b
    ensures Sparse(a + "\n" + b, 0)
  {
    SplitLine(a);
    SplitLine(b);
    SplitSum(a, b);
    assert a + ("\n" + b) == a + "\n" + b;
    assert [a, b][1..] == [b];
    SparseLine(b, "", 1);
    assert b + "" == b;
    var rest := "\n" + b;
    assert rest[1..] == b;
    SparseLine(a, rest, 0);
    assert a + rest == a + "\n" + b;
  }

  lemma NoReturnNoCrLf(t: string)
    requires '\r' !in t
    ensures NoCrLf(t)
  {
    forall i | 0 <= i < |t| - 1 ensures t[i] != '\r' {
      assert t[i] in t;
    }
  }

  lemma ScalarLine(rest: string)
    ensures var l := PLUGIN_KEY + ("=" + rest);
            !IsTable(l) && (Scalar(l) <==> Plain("=" + rest)) && !Matches(l, PLUGIN)
  {
    var l := PLUGIN_KEY + ("=" + rest);
    assert l[0] == '"' && PLUGIN[0] == '[';
    NotATable(l);
    AssignmentLine(PLUGIN_KEY, rest);
    PluginHeaders();
    HeaderIsTable(l, PLUGIN);
  }

  lemma AssignmentLine(key: string, rest: string)
    requires key != "" && !IsSpace(key[0])
    ensures AssignsOnLine(key + ("=" + rest), key) <==> Plain("=" + rest)
  {
    var v := "=" + rest;
    var l := key + v;
    assert v[0] == '=' && l[0] == key[0];
    assert TrimStart(l) == l && TrimStart(v) == v;
    assert key <= l && l[|key|..] == v;
    assert AfterKey(l, key) == Some(v);
  }

  lemma TwoCurrent(l: string, rest: string)
    requires l == PLUGIN_KEY + ("=" + rest)
    ensures Current([PLUGINS, l], "") == if Plain("=" + rest) then [PLUGINS] else [PLUGINS, l]
  {
    PluginHeaders();
    HeaderLine(PLUGINS);
    ScalarLine(rest);
    assert [PLUGINS, l][1..] == [l] && [l][1..] == [];
    assert !Legacy((PLUGINS, PLUGINS));
    assert Current([l], PLUGINS) == Surviving(l, PLUGINS) + [];
  }

  const SHOWN := PLUGIN_KEY + "="
  const HIDDEN := PLUGIN_KEY + "=\U{2028}"

  lemma ShownAndHidden()
    ensures SHOWN == PLUGIN_KEY + ("=" + "") && HIDDEN == PLUGIN_KEY + ("=" + "\U{2028}")
    ensures !Plain("=" + "\U{2028}") && Plain("=" + "")
    ensures IsEntry(SHOWN) && '\n' !in HIDDEN && '\r' !in HIDDEN && HIDDEN == SHOWN + ['\U{2028}']
  {
    PluginKey();
    assert ("=" + "\U{2028}")[1] in "=" + "\U{2028}";
  }

  lemma TidyPair(a: string, b: string, w: char)
    requires IsEntry(a) && IsEntry(b) && IsSpace(w) && w != '\n' && w != '\r'
    ensures Tidy([a, b + [w]]) == a + "\n" + b
  {
    var t, n := a + "\n" + (b + [w]), a + "\n" + b;
    TwoLines(a, b + [w]);
    SparseStays(t, 0);
    TrimLast(n, w);
    assert t == n + [w];
  }

  lemma TrimLast(n: string, w: char)
    requires n != "" && !IsSpace(n[|n| - 1]) && IsSpace(w)
    ensures TrimEnd(n + [w]) == n
  {
    assert (n + [w])[..|n|] == n;
  }

  lemma FirstPass()
    ensures RemoveLegacy(PLUGINS + "\n" + HIDDEN) == PLUGINS + "\n" + SHOWN
  {
    PluginHeaders();
    ShownAndHidden();
    TwoLines(PLUGINS, HIDDEN);
    TwoCurrent(HIDDEN, "\U{2028}");
    TidyPair(PLUGINS, SHOWN, '\U{2028}');
  }

  lemma StripPair(a: string, b: string, h: string)
    requires IsEntry(a) && IsEntry(b) && !Matches(a, h) && !Matches(b, h)
    ensures Strip(a + "\n" + b, h) == a + "\n" + b
  {
    TwoLines(a, b);
    KeptAll([a, b], h);
    NoReturnNoCrLf(a + "\n" + b);
    TidyTwice(a + "\n" + b);
  }

  lemma SecondPass()
    ensures Strip(PLUGINS + "\n" + SHOWN, PLUGIN) == PLUGINS + "\n" + SHOWN
  {
    PluginHeaders();
    HeaderLine(PLUGINS);
    ShownAndHidden();
    ScalarLine("");
    StripPair(PLUGINS, SHOWN, PLUGIN);
  }

  /** Without a single carriage return, a legacy scalar that ends the text and is followed by a Unicode line separator
      survives the first upsert, which trims the separator, and is gone after the second. */
  lemma LineSeparatorBreaksIdempotence()
    ensures var t := PLUGINS + "\n" + HIDDEN;
            '\r' !in t && UpsertEnablement(UpsertEnablement(t)) != UpsertEnablement(t)
  {
    PluginHeaders();
    ShownAndHidden();
    FirstPass();
    SecondPass();
    TwoLines(PLUGINS, SHOWN);
    TwoCurrent(SHOWN, "");
    LegacyBreaksIdempotence(PLUGINS + "\n" + HIDDEN);
  }

  /** Two lines of a text, the first of which keeps a return when the text is split. */
  lemma SplitPair(l: string, b: string)
    requires '\n' !in l && '\n' !in b
    ensures Split(l + ("\n" + b)) == [DropReturn(l), b]
  {
    SplitFirst(l, b);
    SplitLine(b);
  }

  lemma PairIsOwned(a: string, b: string, h: string)
    requires !IsTable(a) && !IsTable(b) && h != ""
    ensures Owned([a, b], "") == [("", a), ("", b)] == Without([("", a), ("", b)], h)
    ensures WithoutLegacy([("", a), ("", b)]) == [("", a), ("", b)]
  {
    var p, q := ("", a), ("", b);
    OwnedFirst([a, b], "");
    OwnedFirst([b], "");
    assert [a, b][1..] == [b] && [b][1..] == [] && [p, q][1..] == [q] && [q][1..] == [];
    assert Owned([b], "") == [q] + Owned([], "");
    assert Without([q], h) == [q] + Without([], h) && Without([p, q], h) == [p] + Without([q], h);
    assert WithoutLegacy([q]) == [q] + WithoutLegacy([]) && WithoutLegacy([p, q]) == [p] + WithoutLegacy([q]);
  }

  /** A line that still ends in a return after splitting loses it in the second upsert. */
  lemma ReturnBreaksMarketplace(l: string, b: string, quotedRoot: string)
    requires '\n' !in l && '\n' !in b && EndsInReturn(DropReturn(l)) && !IsTable(DropReturn(l)) && !IsTable(b)
    requires TrimEnd(b) != "" && IsQuoted(quotedRoot)
    ensures var t := l + ("\n" + b);
            UpsertMarketplace(UpsertMarketplace(t, quotedRoot), quotedRoot) != UpsertMarketplace(t, quotedRoot)
  {
    var t, a := l + ("\n" + b), DropReturn(l);
    SplitPair(l, b);
    PairIsOwned(a, b, MARKETPLACE);
    var rest := Without(Owned(Split(t), ""), MARKETPLACE);
    MarketplaceIdempotent(t, quotedRoot);
    assert EndsInReturn(rest[0].1) && TrimEnd(rest[1].1) != "";
  }

  /** Two returns before the CR LF: enabling splits twice, and the third upsert's split takes the last one. */
  lemma ReturnsBreakEnablement(l: string, b: string)
    requires '\n' !in l && '\n' !in b && EndsInReturn(DropReturn(DropReturn(l)))
    requires !IsTable(DropReturn(l)) && !IsTable(b) && TrimEnd(b) != ""
    ensures var t := l + ("\n" + b);
            UpsertEnablement(UpsertEnablement(t)) != UpsertEnablement(t)
  {
    var t, a := l + ("\n" + b), DropReturn(l);
    SplitPair(l, b);
    PairIsOwned(a, b, PLUGIN);
    EnablementIdempotent(t);
    var rest := Remaining(t);
    assert rest == [("", a), ("", b)];
    assert VisibleFrom(rest, 1) by {
      assert TrimEnd(rest[1].1) != "";
    }
    assert Changes(rest, 0);
  }

  /** A text as an editor may leave it: a stray return before a CR LF, or two. */
  lemma StrayReturnsBreakIdempotence(quotedRoot: string)
    requires IsQuoted(quotedRoot)
    ensures var t := "a\r\r" + ("\n" + "b");
            UpsertMarketplace(UpsertMarketplace(t, quotedRoot), quotedRoot) != UpsertMarketplace(t, quotedRoot)
    ensures var t := "a\r\r\r" + ("\n" + "b");
            UpsertEnablement(UpsertEnablement(t)) != UpsertEnablement(t)
  {
    var one, two := "a\r", "a\r\r";
    NotATable(one);
    NotATable(two);
    NotATable("b");
    assert DropReturn("a\r\r") == one && DropReturn("a\r\r\r") == two;
    ReturnBreaksMarketplace("a\r\r", "b", quotedRoot);
    ReturnsBreakEnablement("a\r\r\r", "b");
  }
}
