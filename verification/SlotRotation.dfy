/** Rotating through auth slots (`src/auth/rotation.ts`, `src/auth/storage.ts`). */
module SlotRotation {
  import opened Wrappers

  type Slot = string
  type Time = nat

  // ------------------------------------------------------------------ the order of rotation

  datatype Mode = Manual | Priority | RoundRobin

  datatype Config = Config(mode: Mode, priority: seq<Slot>)

  predicate Ascending(s: seq<Slot>, less: NameOrder) {
    forall i, j :: 0 <= i < j < |s| ==> !less(s[j], s[i])
  }

  function InsertName(x: Slot, s: seq<Slot>, less: NameOrder): (r: seq<Slot>)
    ensures multiset(r) == multiset(s) + multiset{x}
  {
    if s == [] || less(x, s[0]) then [x] + s
    else
      assert s == [s[0]] + s[1..];
      [s[0]] + InsertName(x, s[1..], less)
  }

  function SortNames(s: seq<Slot>, less: NameOrder): (r: seq<Slot>)
    ensures multiset(r) == multiset(s)
    decreases |s|
  {
    if s == [] then []
    else
      assert s == s[..|s| - 1] + [s[|s| - 1]];
      InsertName(s[|s| - 1], SortNames(s[..|s| - 1], less), less)
  }

  lemma {:induction false} InsertAscends(x: Slot, s: seq<Slot>, less: NameOrder)
    requires StrictTotalOrder(less) && Ascending(s, less)
    ensures Ascending(InsertName(x, s, less), less)
  {
    if s != [] && !less(x, s[0]) {
      InsertAscends(x, s[1..], less);
      var rest := InsertName(x, s[1..], less);
      forall j | 0 <= j < |rest| ensures !less(rest[j], s[0]) {
        assert rest[j] in multiset(rest);
        assert rest[j] == x || rest[j] in s[1..];
      }
    }
  }

  lemma {:induction false} SortAscends(s: seq<Slot>, less: NameOrder)
    requires StrictTotalOrder(less)
    ensures Ascending(SortNames(s, less), less)
    decreases |s|
  {
    if s != [] {
      SortAscends(s[..|s| - 1], less);
      InsertAscends(s[|s| - 1], SortNames(s[..|s| - 1], less), less);
    }
  }

  function Select(s: seq<Slot>, from: seq<Slot>, keep: bool): (r: seq<Slot>)
    ensures forall x :: x in r <==> x in s && (x in from) == keep
  {
    if s == [] then []
    else
      assert s == [s[0]] + s[1..];
      (if (s[0] in from) == keep then [s[0]] else []) + Select(s[1..], from, keep)
  }

  function IndexOf(s: seq<Slot>, x: Slot): (i: nat)
    requires x in s
    ensures i < |s| && s[i] == x && x !in s[..i]
  {
    if s[0] == x then 0
    else
      assert s == [s[0]] + s[1..];
      var i := IndexOf(s[1..], x);
      assert s[..i + 1] == [s[0]] + s[1..][..i];
      i + 1
  }

  /** `buildRotationPlan`: the order of the slots. */
  function RotationOrder(slots: seq<Slot>, config: Config, current: Option<Slot>, less: NameOrder): seq<Slot> {
    var available := SortNames(slots, less);
    match config.mode
    case Manual => if current.Some? then [current.value] else available[..if |available| < 1 then |available| else 1]
    case Priority =>
      var priority := Select(config.priority, available, true);
      priority + Select(available, priority, false)
    case RoundRobin =>
      if current.None? || current.value !in available then available
      else available[IndexOf(available, current.value)..] + available[..IndexOf(available, current.value)]
  }

  /** In round-robin the order is the sorted slots, rotated to start at the first that is the current one, and the
      sorted slots themselves when the current one is not among them. */
  lemma RoundRobinRotates(slots: seq<Slot>, config: Config, current: Option<Slot>, less: NameOrder)
    requires StrictTotalOrder(less) && config.mode == RoundRobin
    ensures var order := RotationOrder(slots, config, current, less);
            && multiset(order) == multiset(slots)
            && (current.Some? && current.value in slots ==>
                 && order[0] == current.value
                 && exists k :: 0 <= k <= |order| && Ascending(order[k..] + order[..k], less)
                                && current.value !in order[k..])
            && (current.None? || current.value !in slots ==> Ascending(order, less))
  {
    var available, order := SortNames(slots, less), RotationOrder(slots, config, current, less);
    SortAscends(slots, less);
    SameNames(available, slots);
    if current.Some? && current.value in slots {
      TurnBack(available, IndexOf(available, current.value), order);
    }
  }

  lemma SameNames(a: seq<Slot>, b: seq<Slot>)
    requires multiset(a) == multiset(b)
    ensures forall x :: x in a <==> x in b
  {
    assert forall x :: x in a <==> x in multiset(a);
    assert forall x :: x in b <==> x in multiset(b);
  }

  lemma TurnBack(s: seq<Slot>, i: nat, turned: seq<Slot>)
    requires i <= |s| && turned == s[i..] + s[..i]
    ensures multiset(turned) == multiset(s)
    ensures turned[|s| - i..] + turned[..|s| - i] == s && turned[|s| - i..] == s[..i]
  {
    assert s == s[..i] + s[i..];
  }

  /** With manual rotation the order is the current slot alone, or the first slot by name when none is current. */
  lemma ManualStays(slots: seq<Slot>, config: Config, current: Option<Slot>, less: NameOrder)
    requires StrictTotalOrder(less) && config.mode == Manual
    ensures var order := RotationOrder(slots, config, current, less);
            && (current.Some? ==> order == [current.value])
            && (current.None? && slots == [] ==> order == [])
            && (current.None? && slots != [] ==>
                 |order| == 1 && order[0] in slots && forall x :: x in slots ==> !less(x, order[0]))
  {
    var available := SortNames(slots, less);
    SortAscends(slots, less);
    SameNames(available, slots);
    if slots != [] {
      assert slots[0] in available;
      forall x | x in slots ensures !less(x, available[0]) {
        var j :| 0 <= j < |available| && available[j] == x;
      }
    }
  }

  ghost predicate Increasing(places: seq<nat>) {
    forall k, l :: 0 <= k < l < |places| ==> places[k] < places[l]
  }

  /** The configured places whose slot is available. */
  ghost predicate AreThePlaces(places: seq<nat>, priority: seq<Slot>, slots: seq<Slot>) {
    && Increasing(places)
    && (forall i :: 0 <= i < |places| ==> places[i] < |priority| && priority[places[i]] in slots)
    && (forall p :: 0 <= p < |priority| && priority[p] in slots ==> p in places)
  }

  /** The places from `i` on whose slot is available. */
  function PlacesFrom(s: seq<Slot>, from: seq<Slot>, i: nat): (places: seq<nat>)
    ensures forall p :: p in places <==> i <= p < |s| && s[p] in from
    decreases |s| - i
  {
    if i >= |s| then [] else (if s[i] in from then [i] else []) + PlacesFrom(s, from, i + 1)
  }

  lemma OneBefore(i: nat, later: seq<nat>)
    requires Increasing(later) && forall p :: p in later ==> i < p
    ensures Increasing([i] + later)
  {
    var places := [i] + later;
    forall k, l | 0 <= k < l < |places| ensures places[k] < places[l] {
      assert places[l] == later[l - 1];
      if k == 0 {
        assert later[l - 1] in later;
      } else {
        assert places[k] == later[k - 1] && later[k - 1] < later[l - 1];
      }
    }
  }

  lemma {:induction false} PlacesAscend(s: seq<Slot>, from: seq<Slot>, i: nat)
    ensures Increasing(PlacesFrom(s, from, i))
    decreases |s| - i
  {
    if i < |s| {
      PlacesAscend(s, from, i + 1);
      var later := PlacesFrom(s, from, i + 1);
      OneBefore(i, later);
      assert [] + later == later;
    }
  }

  ghost predicate AtPlaces(selected: seq<Slot>, s: seq<Slot>, places: seq<nat>) {
    |places| == |selected| && forall k :: 0 <= k < |places| ==> places[k] < |s| && selected[k] == s[places[k]]
  }

  lemma AtOneMore(selected: seq<Slot>, s: seq<Slot>, places: seq<nat>, i: nat)
    requires AtPlaces(selected, s, places) && i < |s|
    ensures AtPlaces([s[i]] + selected, s, [i] + places)
  {
  }

  lemma {:induction false} SelectAtPlaces(s: seq<Slot>, from: seq<Slot>, i: nat)
    requires i <= |s|
    ensures AtPlaces(Select(s[i..], from, true), s, PlacesFrom(s, from, i))
    decreases |s| - i
  {
    if i < |s| {
      SelectAtPlaces(s, from, i + 1);
      assert s[i..][1..] == s[i + 1..] && s[i..][0] == s[i];
      var later, rest := PlacesFrom(s, from, i + 1), Select(s[i + 1..], from, true);
      AtOneMore(rest, s, later, i);
      assert [] + rest == rest && [] + later == later;
    }
  }

  lemma SelectInOrder(s: seq<Slot>, from: seq<Slot>) returns (places: seq<nat>)
    ensures AreThePlaces(places, s, from) && |places| == |Select(s, from, true)|
    ensures forall i :: 0 <= i < |places| ==> places[i] < |s| && Select(s, from, true)[i] == s[places[i]]
  {
    places := PlacesFrom(s, from, 0);
    PlacesAscend(s, from, 0);
    SelectAtPlaces(s, from, 0);
    assert s[0..] == s;
    forall i | 0 <= i < |places| ensures places[i] < |s| && s[places[i]] in from {
      assert places[i] in places;
    }
  }

  lemma {:induction false} SelectAscends(s: seq<Slot>, from: seq<Slot>, keep: bool, less: NameOrder)
    requires Ascending(s, less)
    ensures Ascending(Select(s, from, keep), less)
    decreases |s|
  {
    if s != [] {
      SelectAscends(s[1..], from, keep, less);
      var rest := Select(s[1..], from, keep);
      forall j | 0 <= j < |rest| ensures !less(rest[j], s[0]) {
        assert rest[j] in s[1..];
      }
    }
  }

  lemma {:induction false} SelectCounts(s: seq<Slot>, from: seq<Slot>, keep: bool, x: Slot)
    ensures multiset(Select(s, from, keep))[x] == if (x in from) == keep then multiset(s)[x] else 0
    decreases |s|
  {
    if s != [] {
      SelectCounts(s[1..], from, keep, x);
      assert s == [s[0]] + s[1..];
      var rest := Select(s[1..], from, keep);
      assert [] + rest == rest;
    }
  }

  /** In priority order the preferred slots come first, as configured and each as often, at all the places whose slot is
      available; after them come the other available slots by name. */
  lemma PriorityCoversAll(slots: seq<Slot>, config: Config, current: Option<Slot>, less: NameOrder)
    returns (places: seq<nat>)
    requires StrictTotalOrder(less) && config.mode == Priority
    ensures var order, n := RotationOrder(slots, config, current, less), |places|;
            && AreThePlaces(places, config.priority, slots) && n <= |order|
            && (forall i :: 0 <= i < n ==> places[i] < |config.priority| && order[i] == config.priority[places[i]])
            && Ascending(order[n..], less)
            && (forall x :: multiset(order[n..])[x] == if x in config.priority then 0 else multiset(slots)[x])
  {
    var available, order := SortNames(slots, less), RotationOrder(slots, config, current, less);
    var preferred := Select(config.priority, available, true);
    var rest := Select(available, preferred, false);
    SameNames(available, slots);
    SortAscends(slots, less);
    places := SelectInOrder(config.priority, available);
    SelectAscends(available, preferred, false, less);
    assert order[|places|..] == rest;
    forall x ensures multiset(rest)[x] == if x in config.priority then 0 else multiset(slots)[x] {
      SelectCounts(available, preferred, false, x);
      assert x in slots <==> multiset(slots)[x] > 0;
    }
  }

  // ------------------------------------------------------------------ the next slot

  function FirstFresh(s: seq<Slot>, exhausted: set<Slot>): Option<Slot> {
    if s == [] then None else if s[0] !in exhausted then Some(s[0]) else FirstFresh(s[1..], exhausted)
  }

  /** Where the search for the next slot starts. */
  function StartAfter(order: seq<Slot>, current: Slot): (start: nat)
    ensures start <= |order|
  {
    if current in order then IndexOf(order, current) + 1 else 0
  }

  function Next(order: seq<Slot>, current: Slot, exhausted: set<Slot>): Option<Slot> {
    var start := StartAfter(order, current);
    FirstFresh(order[start..] + order[..start], exhausted)
  }

  /** `nextSlotAfter`. */
  method NextSlotAfter(order: seq<Slot>, current: Slot, exhausted: set<Slot>) returns (next: Option<Slot>)
    ensures next == Next(order, current, exhausted)
  {
    if |order| == 0 {
      return None;
    }
    var start := StartAfter(order, current);
    ghost var rotated := order[start..] + order[..start];
    assert rotated[0..] == rotated;
    for offset := 0 to |order|
      invariant FirstFresh(rotated[offset..], exhausted) == Next(order, current, exhausted)
    {
      var slot := order[(start + offset) % |order|];
      RotatedAt(order, start, offset);
      assert rotated[offset..][1..] == rotated[offset + 1..];
      if slot !in exhausted {
        return Some(slot);
      }
    }
    next := None;
  }

  lemma RotatedAt(order: seq<Slot>, start: nat, offset: nat)
    requires start <= |order| && offset < |order|
    ensures (order[start..] + order[..start])[offset] == order[(start + offset) % |order|]
  {
    OnceAround(start + offset, |order|);
  }

  lemma OnceAround(x: nat, n: nat)
    requires x < 2 * n
    ensures x % n == if x < n then x else x - n
  {
  }

  /** The order with every repeat after the first left out. */
  function Dedup(s: seq<Slot>): (d: seq<Slot>)
    ensures forall x :: x in d <==> x in s
    ensures |d| <= |s|
    decreases |s|
  {
    if s == [] then []
    else
      var d, last := Dedup(s[..|s| - 1]), s[|s| - 1];
      assert s == s[..|s| - 1] + [last];
      if last in d then d else d + [last]
  }

  lemma {:induction false} DedupIsDistinct(s: seq<Slot>)
    ensures forall i, j :: 0 <= i < j < |Dedup(s)| ==> Dedup(s)[i] != Dedup(s)[j]
    decreases |s|
  {
    if s != [] {
      DedupIsDistinct(s[..|s| - 1]);
    }
  }

  lemma DedupStep(s: seq<Slot>, i: nat)
    requires i < |s|
    ensures Dedup(s[..i + 1]) == if s[i] in Dedup(s[..i]) then Dedup(s[..i]) else Dedup(s[..i]) + [s[i]]
  {
    assert s[..i + 1][..i] == s[..i];
  }

  lemma {:induction false} DedupPrefix(s: seq<Slot>, i: nat)
    requires i <= |s|
    ensures Dedup(s[..i]) <= Dedup(s)
    decreases |s| - i
  {
    if i == |s| {
      assert s[..i] == s;
    } else {
      DedupStep(s, i);
      DedupPrefix(s, i + 1);
    }
  }

  lemma FirstFreshAt(s: seq<Slot>, i: nat, exhausted: set<Slot>)
    requires i < |s|
    ensures FirstFresh(s[i..], exhausted) == if s[i] !in exhausted then Some(s[i])
              else FirstFresh(s[i + 1..], exhausted)
  {
    assert s[i..][1..] == s[i + 1..];
  }

  /** A slot seen for the first time is the next one of the order without repeats. */
  lemma NewComesNext(s: seq<Slot>, i: nat)
    requires i < |s| && s[i] !in Dedup(s[..i])
    ensures |Dedup(s[..i])| < |Dedup(s)| && Dedup(s)[|Dedup(s[..i])|] == s[i]
  {
    DedupStep(s, i);
    DedupPrefix(s, i + 1);
    var seen := Dedup(s[..i]);
    assert (seen + [s[i]])[|seen|] == s[i];
  }

  /** Past the first `i` entries, the first fresh slot is the next one not seen before. */
  lemma {:induction false} FreshIsNew(s: seq<Slot>, i: nat, exhausted: set<Slot>)
    requires i <= |s| && forall x :: x in exhausted <==> x in Dedup(s[..i])
    ensures var d, k := Dedup(s), |Dedup(s[..i])|;
            FirstFresh(s[i..], exhausted) == if k < |d| then Some(d[k]) else None
    decreases |s| - i
  {
    if i == |s| {
      assert s[..i] == s && s[i..] == [];
    } else {
      FirstFreshAt(s, i, exhausted);
      if s[i] in exhausted {
        DedupStep(s, i);
        FreshIsNew(s, i + 1, exhausted);
      } else {
        NewComesNext(s, i);
      }
    }
  }

  lemma {:induction false} FreshOfSum(a: seq<Slot>, b: seq<Slot>, exhausted: set<Slot>)
    ensures FirstFresh(a + b, exhausted) == if FirstFresh(a, exhausted).Some? then FirstFresh(a, exhausted)
              else FirstFresh(b, exhausted)
  {
    if a == [] {
      assert a + b == b;
    } else {
      assert (a + b)[1..] == a[1..] + b;
      FreshOfSum(a[1..], b, exhausted);
    }
  }

  lemma {:induction false} NoneFresh(a: seq<Slot>, exhausted: set<Slot>)
    requires forall x :: x in a ==> x in exhausted
    ensures FirstFresh(a, exhausted) == None
  {
    if a != [] {
      assert a[0] in a;
      NoneFresh(a[1..], exhausted);
    }
  }

  /** When exactly the first `k` different slots are exhausted, the next slot is the `k`-th, if there is one. */
  lemma NextIsInOrder(order: seq<Slot>, k: nat, exhausted: set<Slot>)
    requires 0 < k <= |Dedup(order)|
    requires forall x :: x in exhausted <==> x in Dedup(order)[..k]
    ensures Next(order, Dedup(order)[k - 1], exhausted) == if k < |Dedup(order)| then Some(Dedup(order)[k]) else None
  {
    var d := Dedup(order);
    var current := d[k - 1];
    var i := IndexOf(order, current);
    DedupUpTo(order, k);
    FreshIsNew(order, i + 1, exhausted);
    FreshOfSum(order[i + 1..], order[..i + 1], exhausted);
    forall x | x in order[..i + 1] ensures x in exhausted {
      assert x in Dedup(order[..i + 1]);
    }
    NoneFresh(order[..i + 1], exhausted);
  }

  /** Up to the first occurrence of the `k`-th different slot there are exactly `k` different slots. */
  lemma DedupUpTo(order: seq<Slot>, k: nat)
    requires 0 < k <= |Dedup(order)|
    ensures var current := Dedup(order)[k - 1];
            current in order && Dedup(order[..IndexOf(order, current) + 1]) == Dedup(order)[..k]
  {
    var d := Dedup(order);
    var current := d[k - 1];
    var i := IndexOf(order, current);
    var seen := Dedup(order[..i]);
    NewComesNext(order, i);
    DedupIsDistinct(order);
    assert |seen| == k - 1;
    DedupStep(order, i);
    DedupPrefix(order, i + 1);
    assert |seen + [current]| == k;
  }
}
