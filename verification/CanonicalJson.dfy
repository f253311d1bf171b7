/** Canonical JSON for the capability digests (`src/capabilities/lockfile.ts`). */
module CanonicalJson {
  import opened Wrappers

  type Entry = (string, Json)

  /** A JSON value; an object lists its entries in enumeration order. */
  datatype Json =
    | Null
    | Bool(b: bool)
    | Number(n: real)
    | Text(s: string)
    | Array(items: seq<Json>)
    | Object(entries: seq<Entry>)

  /** A JSON value with its objects unordered (section 4 of RFC 8259). */
  datatype Meaning =
    | Leaf(v: Json)
    | List(items: seq<Meaning>)
    | Record(fields: map<string, Meaning>)

  /** `localeCompare`, and the keys that a JavaScript object enumerates first, as array indices. */
  datatype Runtime = Runtime(locale: NameOrder, index: string -> Option<nat>)

  ghost predicate Sound(js: Runtime) {
    && StrictTotalOrder(js.locale)
    && (forall a, b :: js.index(a).Some? && js.index(a) == js.index(b) ==> a == b)
  }

  predicate DistinctKeys(es: seq<Entry>) {
    forall i, j :: 0 <= i < j < |es| ==> es[i].0 != es[j].0
  }

  /** No object has two entries with the same key. */
  predicate Valid(v: Json) {
    match v
    case Array(items) => forall i :: 0 <= i < |items| ==> Valid(items[i])
    case Object(entries) => DistinctKeys(entries) && forall i :: 0 <= i < |entries| ==> Valid(entries[i].1)
    case _ => true
  }

  function Keys(es: seq<Entry>): set<string> {
    set e | e in es :: e.0
  }

  function IndexOf(es: seq<Entry>, key: string): (i: nat)
    requires key in Keys(es)
    ensures i < |es| && es[i].0 == key
  {
    if es[0].0 == key then 0 else
      assert es == [es[0]] + es[1..];
      1 + IndexOf(es[1..], key)
  }

  function MeaningOf(v: Json): Meaning
    requires Valid(v)
  {
    match v
    case Array(items) => List(seq(|items|, i requires 0 <= i < |items| => MeaningOf(items[i])))
    case Object(entries) => Record(map key | key in Keys(entries) :: MeaningOf(entries[IndexOf(entries, key)].1))
    case _ => Leaf(v)
  }

  // ------------------------------------------------------------------ sorting entries

  predicate Ascending(es: seq<Entry>, less: NameOrder) {
    forall i, j :: 0 <= i < j < |es| ==> less(es[i].0, es[j].0)
  }

  ghost predicate SameEntries(a: seq<Entry>, b: seq<Entry>) {
    |a| == |b| && forall e :: e in a <==> e in b
  }

  function Insert(e: Entry, sorted: seq<Entry>, less: NameOrder): (r: seq<Entry>)
    ensures SameEntries(r, [e] + sorted)
  {
    if sorted == [] then [e]
    else if less(e.0, sorted[0].0) then [e] + sorted
    else
      assert sorted == [sorted[0]] + sorted[1..];
      [sorted[0]] + Insert(e, sorted[1..], less)
  }

  function Sort(es: seq<Entry>, less: NameOrder): (r: seq<Entry>)
    ensures SameEntries(r, es)
  {
    if es == [] then []
    else
      assert es == [es[0]] + es[1..];
      Insert(es[0], Sort(es[1..], less), less)
  }

  lemma {:induction false} InsertAscends(e: Entry, sorted: seq<Entry>, less: NameOrder)
    requires StrictTotalOrder(less) && Ascending(sorted, less)
    requires forall f :: f in sorted ==> f.0 != e.0
    ensures Ascending(Insert(e, sorted, less), less)
  {
    if sorted != [] && !less(e.0, sorted[0].0) {
      InsertAscends(e, sorted[1..], less);
      var rest := Insert(e, sorted[1..], less);
      forall j | 0 <= j < |rest| ensures less(sorted[0].0, rest[j].0) {
        assert rest[j] in [e] + sorted[1..];
      }
    }
  }

  lemma {:induction false} SortAscends(es: seq<Entry>, less: NameOrder)
    requires StrictTotalOrder(less) && DistinctKeys(es)
    ensures Ascending(Sort(es, less), less)
  {
    if es != [] {
      SortAscends(es[1..], less);
      InsertAscends(es[0], Sort(es[1..], less), less);
    }
  }

  lemma HeadIsGone(es: seq<Entry>, less: NameOrder)
    requires StrictTotalOrder(less) && Ascending(es, less) && es != []
    ensures forall e :: e in es[1..] <==> e in es && e != es[0]
  {
    assert es == [es[0]] + es[1..];
    forall e | e in es[1..] ensures e != es[0] {
      var i :| 0 <= i < |es[1..]| && es[1..][i] == e;
      assert less(es[0].0, es[i + 1].0);
    }
  }

  /** A strict total order leaves one way to list given entries. */
  lemma {:induction false} AscendingIsUnique(a: seq<Entry>, b: seq<Entry>, less: NameOrder)
    requires StrictTotalOrder(less) && Ascending(a, less) && Ascending(b, less)
    requires forall e :: e in a <==> e in b
    ensures a == b
  {
    assert a != [] ==> a[0] in b;
    assert b != [] ==> b[0] in a;
    if a != [] && b != [] {
      assert a == [a[0]] + a[1..] && b == [b[0]] + b[1..];
      assert a[0] == b[0];
      HeadIsGone(a, less);
      HeadIsGone(b, less);
      forall e ensures e in a[1..] <==> e in b[1..] {
        assert e in a <==> e in b;
      }
      AscendingIsUnique(a[1..], b[1..], less);
    }
  }

  // ------------------------------------------------------------------ what JavaScript enumerates

  /** Index-like keys first, ascending; the other keys by the locale. */
  predicate Before(js: Runtime, a: string, b: string) {
    match (js.index(a), js.index(b))
    case (Some(i), Some(j)) => i < j
    case (Some(_), None) => true
    case (None, Some(_)) => false
    case (None, None) => js.locale(a, b)
  }

  function Canonical(js: Runtime): NameOrder { (a, b) => Before(js, a, b) }

  lemma CanonicalIsTotal(js: Runtime)
    requires Sound(js)
    ensures StrictTotalOrder(Canonical(js))
  {
  }

  function Select(es: seq<Entry>, js: Runtime, index: bool): (r: seq<Entry>)
    ensures forall e :: e in r <==> e in es && js.index(e.0).Some? == index
  {
    if es == [] then []
    else
      assert es == [es[0]] + es[1..];
      (if js.index(es[0].0).Some? == index then [es[0]] else []) + Select(es[1..], js, index)
  }

  /** `Object.fromEntries`: index-like keys move to the front, the others keep their order of insertion. */
  function FromEntries(es: seq<Entry>, js: Runtime): (r: seq<Entry>)
    ensures forall e :: e in r <==> e in es
  {
    Sort(Select(es, js, true), Canonical(js)) + Select(es, js, false)
  }

  lemma {:induction false} SelectAscends(es: seq<Entry>, js: Runtime, index: bool)
    requires Sound(js) && Ascending(es, js.locale)
    ensures Ascending(Select(es, js, index), js.locale)
  {
    if es != [] {
      SelectAscends(es[1..], js, index);
    }
  }

  lemma AscendingAreDistinct(es: seq<Entry>, less: NameOrder)
    requires StrictTotalOrder(less) && Ascending(es, less)
    ensures DistinctKeys(es)
  {
    forall i, j | 0 <= i < j < |es| ensures es[i].0 != es[j].0 {
      assert less(es[i].0, es[j].0);
    }
  }

  /** Sorting by the locale and enumerating the new object is sorting by the canonical order. */
  lemma FromSortedEntries(es: seq<Entry>, js: Runtime)
    requires Sound(js) && DistinctKeys(es)
    ensures Ascending(FromEntries(Sort(es, js.locale), js), Canonical(js))
    ensures FromEntries(Sort(es, js.locale), js) == Sort(es, Canonical(js))
  {
    var sorted := Sort(es, js.locale);
    var front, back := Select(sorted, js, true), Select(sorted, js, false);
    CanonicalIsTotal(js);
    SortAscends(es, js.locale);
    SelectAscends(sorted, js, true);
    SelectAscends(sorted, js, false);
    AscendingAreDistinct(front, js.locale);
    SortAscends(front, Canonical(js));
    var listed := FromEntries(sorted, js);
    forall i, j | 0 <= i < j < |listed| ensures Before(js, listed[i].0, listed[j].0) {
      var moved := Sort(front, Canonical(js));
      assert listed == moved + back;
      if j < |moved| {
        assert Canonical(js)(moved[i].0, moved[j].0);
      } else if i >= |moved| {
        assert back[i - |moved|] in back && back[j - |moved|] in back;
      } else {
        assert moved[i] in front && back[j - |moved|] in back;
      }
    }
    SortAscends(es, Canonical(js));
    AscendingIsUnique(listed, Sort(es, Canonical(js)), Canonical(js));
  }

  // ------------------------------------------------------------------ the whole value

  /** `sortJson`. */
  function SortJson(v: Json, js: Runtime): Json {
    match v
    case Array(items) => Array(seq(|items|, i requires 0 <= i < |items| => SortJson(items[i], js)))
    case Object(entries) =>
      var sorted := Sort(entries, js.locale);
      Object(FromEntries(seq(|sorted|, i requires 0 <= i < |sorted| =>
                               assert sorted[i] in entries; (sorted[i].0, SortJson(sorted[i].1, js))), js))
    case _ => v
  }

  function Child(e: Entry, js: Runtime): Entry { (e.0, SortJson(e.1, js)) }

  /** The entries are exactly the canonical forms of the given ones. */
  ghost predicate FormsOf(r: seq<Entry>, entries: seq<Entry>, js: Runtime) {
    && (forall e :: e in entries ==> Child(e, js) in r)
    && (forall f :: f in r ==> exists e :: e in entries && f == Child(e, js))
  }

  /** An object's canonical form: its keys in canonical order, each with the canonical form of its value. */
  lemma ObjectForm(entries: seq<Entry>, js: Runtime)
    requires Sound(js) && DistinctKeys(entries)
    ensures var r := SortJson(Object(entries), js);
            && r.Object? && Ascending(r.entries, Canonical(js)) && DistinctKeys(r.entries)
            && FormsOf(r.entries, entries, js)
  {
    var sorted := Sort(entries, js.locale);
    var mapped := seq(|sorted|, i requires 0 <= i < |sorted| => (sorted[i].0, SortJson(sorted[i].1, js)));
    SortAscends(entries, js.locale);
    assert Ascending(mapped, js.locale);
    CanonicalList(mapped, js);
    MappedForms(sorted, mapped, js);
    assert SortJson(Object(entries), js).entries == FromEntries(mapped, js);
  }

  lemma MappedForms(sorted: seq<Entry>, mapped: seq<Entry>, js: Runtime)
    requires |mapped| == |sorted| && forall i :: 0 <= i < |sorted| ==> mapped[i] == Child(sorted[i], js)
    ensures FormsOf(mapped, sorted, js)
  {
    forall e | e in sorted ensures Child(e, js) in mapped {
      var i :| 0 <= i < |sorted| && sorted[i] == e;
      assert mapped[i] in mapped;
    }
    forall f | f in mapped ensures exists e :: e in sorted && f == Child(e, js) {
      var i :| 0 <= i < |mapped| && mapped[i] == f;
      assert sorted[i] in sorted;
    }
  }

  /** Enumerating entries inserted in locale order lists them in canonical order. */
  lemma CanonicalList(es: seq<Entry>, js: Runtime)
    requires Sound(js) && Ascending(es, js.locale)
    ensures Ascending(FromEntries(es, js), Canonical(js)) && DistinctKeys(FromEntries(es, js))
  {
    AscendingAreDistinct(es, js.locale);
    SortAscends(es, js.locale);
    AscendingIsUnique(es, Sort(es, js.locale), js.locale);
    FromSortedEntries(es, js);
    CanonicalIsTotal(js);
    AscendingAreDistinct(FromEntries(es, js), Canonical(js));
  }

  /** The keys of a canonical object: array indices first and ascending, then the others by the locale. */
  lemma EnumeratedKeys(entries: seq<Entry>, js: Runtime, i: nat, j: nat)
    requires Sound(js) && DistinctKeys(entries)
    requires SortJson(Object(entries), js).Object? && i < j < |SortJson(Object(entries), js).entries|
    ensures var r := SortJson(Object(entries), js).entries;
            var a, b := r[i].0, r[j].0;
            && (js.index(b).Some? ==> js.index(a).Some? && js.index(a).value < js.index(b).value)
            && (js.index(a) == js.index(b) == None ==> js.locale(a, b))
  {
    ObjectForm(entries, js);
    var r := SortJson(Object(entries), js).entries;
    assert Canonical(js)(r[i].0, r[j].0);
  }

  /** Sorting changes nothing but the order of object entries. */
  lemma {:induction false} SortKeepsMeaning(v: Json, js: Runtime)
    requires Sound(js) && Valid(v)
    ensures Valid(SortJson(v, js)) && MeaningOf(SortJson(v, js)) == MeaningOf(v)
  {
    match v
    case Array(items) =>
      forall i | 0 <= i < |items|
        ensures Valid(SortJson(items[i], js)) && MeaningOf(SortJson(items[i], js)) == MeaningOf(items[i])
      {
        SortKeepsMeaning(items[i], js);
      }
      assert MeaningOf(SortJson(v, js)).items == MeaningOf(v).items;
    case Object(entries) =>
      ObjectForm(entries, js);
      forall i | 0 <= i < |entries| ensures Stable(entries[i].1, js) {
        SortKeepsMeaning(entries[i].1, js);
      }
      SortKeepsFields(entries, SortJson(v, js).entries, js);
    case _ =>
  }

  predicate Stable(v: Json, js: Runtime) {
    Valid(v) && Valid(SortJson(v, js)) && MeaningOf(SortJson(v, js)) == MeaningOf(v)
  }

  lemma SortKeepsFields(entries: seq<Entry>, sorted: seq<Entry>, js: Runtime)
    requires Valid(Object(entries)) && DistinctKeys(sorted)
    requires FormsOf(sorted, entries, js)
    requires forall i :: 0 <= i < |entries| ==> Stable(entries[i].1, js)
    ensures Valid(Object(sorted)) && Fields(sorted) == Fields(entries)
  {
    forall j | 0 <= j < |sorted| ensures Valid(sorted[j].1) && Matches(entries, sorted[j]) {
      assert sorted[j] in sorted;
      var e :| e in entries && sorted[j] == Child(e, js);
      var i :| 0 <= i < |entries| && entries[i] == e;
      assert Stable(entries[i].1, js);
    }
    forall i | 0 <= i < |entries| ensures Matches(sorted, entries[i]) {
      assert Stable(entries[i].1, js);
      assert Child(entries[i], js) in sorted;
      var j :| 0 <= j < |sorted| && sorted[j] == Child(entries[i], js);
    }
    SameFields(sorted, entries);
  }

  function Fields(entries: seq<Entry>): map<string, Meaning>
    requires Valid(Object(entries))
  {
    MeaningOf(Object(entries)).fields
  }

  lemma FieldAt(entries: seq<Entry>, i: nat)
    requires Valid(Object(entries)) && i < |entries|
    ensures entries[i].0 in Fields(entries) && Fields(entries)[entries[i].0] == MeaningOf(entries[i].1)
  {
    assert entries[i] in entries;
    assert IndexOf(entries, entries[i].0) == i;
  }

  /** Both lists have the entry's key, with values that mean the same. */
  ghost predicate Matches(a: seq<Entry>, e: Entry)
    requires Valid(Object(a)) && Valid(e.1)
  {
    exists j :: 0 <= j < |a| && a[j].0 == e.0 && MeaningOf(a[j].1) == MeaningOf(e.1)
  }

  lemma SameFields(a: seq<Entry>, b: seq<Entry>)
    requires Valid(Object(a)) && Valid(Object(b))
    requires forall i :: 0 <= i < |b| ==> Matches(a, b[i])
    requires forall j :: 0 <= j < |a| ==> Matches(b, a[j])
    ensures Fields(a) == Fields(b)
  {
    FieldsWithin(a, b);
    FieldsWithin(b, a);
  }

  lemma FieldsWithin(a: seq<Entry>, b: seq<Entry>)
    requires Valid(Object(a)) && Valid(Object(b))
    requires forall i :: 0 <= i < |b| ==> Matches(a, b[i])
    ensures forall key :: key in Fields(b) ==> key in Fields(a) && Fields(a)[key] == Fields(b)[key]
  {
    forall key | key in Fields(b) ensures key in Fields(a) && Fields(a)[key] == Fields(b)[key] {
      var i := IndexOf(b, key);
      assert Matches(a, b[i]);
      var j :| 0 <= j < |a| && a[j].0 == b[i].0 && MeaningOf(a[j].1) == MeaningOf(b[i].1);
      FieldAt(a, j);
      FieldAt(b, i);
    }
  }

  /** Values that mean the same have the same canonical form. */
  lemma {:induction false} SameMeaningSameForm(a: Json, b: Json, js: Runtime)
    requires Sound(js) && Valid(a) && Valid(b) && MeaningOf(a) == MeaningOf(b)
    ensures SortJson(a, js) == SortJson(b, js)
    decreases a
  {
    match a
    case Array(items) =>
      assert b.Array? && |b.items| == |items|;
      forall i | 0 <= i < |items| ensures SortJson(items[i], js) == SortJson(b.items[i], js) {
        assert MeaningOf(a).items[i] == MeaningOf(b).items[i];
        SameMeaningSameForm(items[i], b.items[i], js);
      }
    case Object(entries) =>
      var r, t := SortJson(a, js), SortJson(b, js);
      ObjectForm(entries, js);
      ObjectForm(b.entries, js);
      forall i | 0 <= i < |entries| ensures Child(entries[i], js) in t.entries {
        var j := Partner(entries, b.entries, i);
        SameMeaningSameForm(entries[i].1, b.entries[j].1, js);
        assert b.entries[j] in b.entries;
        assert Child(b.entries[j], js) in t.entries;
      }
      forall j | 0 <= j < |b.entries| ensures Child(b.entries[j], js) in r.entries {
        var i := Partner(b.entries, entries, j);
        SameMeaningSameForm(entries[i].1, b.entries[j].1, js);
        assert entries[i] in entries;
        assert Child(entries[i], js) in r.entries;
      }
      CanonicalIsTotal(js);
      AscendingIsUnique(r.entries, t.entries, Canonical(js));
    case _ =>
  }

  lemma Partner(a: seq<Entry>, b: seq<Entry>, i: nat) returns (j: nat)
    requires Valid(Object(a)) && Valid(Object(b)) && Fields(a) == Fields(b) && i < |a|
    ensures j < |b| && b[j].0 == a[i].0 && MeaningOf(b[j].1) == MeaningOf(a[i].1)
  {
    FieldAt(a, i);
    j := IndexOf(b, a[i].0);
    FieldAt(b, j);
  }

  /** The canonical form is complete: it tells two values apart exactly when more than key order differs. */
  lemma CanonicalFormIsComplete(a: Json, b: Json, js: Runtime)
    requires Sound(js) && Valid(a) && Valid(b)
    ensures SortJson(a, js) == SortJson(b, js) <==> MeaningOf(a) == MeaningOf(b)
  {
    SortKeepsMeaning(a, js);
    SortKeepsMeaning(b, js);
    if MeaningOf(a) == MeaningOf(b) {
      SameMeaningSameForm(a, b, js);
    }
  }

  /** Sorting a sorted value changes nothing, and no digest of it depends on how keys were ordered. */
  lemma SortIsIdempotent(v: Json, js: Runtime)
    requires Sound(js) && Valid(v)
    ensures SortJson(SortJson(v, js), js) == SortJson(v, js)
  {
    SortKeepsMeaning(v, js);
    SameMeaningSameForm(SortJson(v, js), v, js);
  }

  /** No digest of a canonical value depends on key order, and one that tells two canonical values apart tells apart
      exactly the values that differ in more than key order. */
  lemma DigestIgnoresKeyOrder<D>(a: Json, b: Json, js: Runtime, digest: Json -> D)
    requires Sound(js) && Valid(a) && Valid(b)
    ensures MeaningOf(a) == MeaningOf(b) ==> digest(SortJson(a, js)) == digest(SortJson(b, js))
    ensures (digest(SortJson(a, js)) == digest(SortJson(b, js)) ==> SortJson(a, js) == SortJson(b, js)) ==>
              (digest(SortJson(a, js)) == digest(SortJson(b, js)) <==> MeaningOf(a) == MeaningOf(b))
  {
    CanonicalFormIsComplete(a, b, js);
  }

  /** A digest without collisions: an injective wrapper around what was digested. */
  datatype Digest = Sha256(content: Json)

  /** `sha256(canonicalStringify(value))`. */
  function SurfaceDigest(v: Json, js: Runtime): Digest { Sha256(SortJson(v, js)) }

  /** Surface digests agree exactly on values that are equal up to key order. */
  lemma SurfaceDigestsAgree(a: Json, b: Json, js: Runtime)
    requires Sound(js) && Valid(a) && Valid(b)
    ensures SurfaceDigest(a, js) == SurfaceDigest(b, js) <==> MeaningOf(a) == MeaningOf(b)
  {
    DigestIgnoresKeyOrder(a, b, js, v => Sha256(v));
  }
}
