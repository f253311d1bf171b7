/** The metadata of the auth slots (`src/auth/storage.ts`). */
module AuthStore {
  import opened Wrappers
  import opened SlotRotation

  datatype Record = Record(
    slot: Slot,
    createdAt: Time,
    updatedAt: Time,
    lastUsedAt: Option<Time>,
    lastQuotaAt: Option<Time>,
    exhaustedAt: Option<Time>)

  datatype Metadata = Metadata(slots: seq<Record>, currentSlot: Option<Slot>)

  datatype Change = Used | Quota

  /** Sorted by name, one record per slot. */
  predicate Ordered(slots: seq<Record>, less: NameOrder) {
    forall i, j :: 0 <= i < j < |slots| ==> less(slots[i].slot, slots[j].slot)
  }

  function Find(slots: seq<Record>, slot: Slot): Option<Record> {
    if slots == [] then None else if slots[0].slot == slot then Some(slots[0]) else Find(slots[1..], slot)
  }

  predicate Marked(m: Metadata, slot: Slot) {
    Find(m.slots, slot).Some? && Find(m.slots, slot).value.exhaustedAt.Some?
  }

  /** A sorted list with one more record. */
  function InsertRecord(r: Record, slots: seq<Record>, less: NameOrder): seq<Record> {
    if slots == [] || less(r.slot, slots[0].slot) then [r] + slots else [slots[0]] + InsertRecord(r, slots[1..], less)
  }

  /** `sort` by name. */
  function SortRecords(slots: seq<Record>, less: NameOrder): seq<Record>
    decreases |slots|
  {
    if slots == [] then [] else InsertRecord(slots[|slots| - 1], SortRecords(slots[..|slots| - 1], less), less)
  }

  function Created(slot: Slot, now: Time): Record { Record(slot, now, now, None, None, None) }

  function Changed(r: Record, change: Change, now: Time): Record {
    match change
    case Used => r.(updatedAt := now, lastUsedAt := Some(now), exhaustedAt := None)
    case Quota => r.(updatedAt := now, lastQuotaAt := Some(now), exhaustedAt := Some(now))
  }

  /** The first record of a slot replaced. */
  function Replace(slots: seq<Record>, r: Record): seq<Record> {
    if slots == [] then []
    else if slots[0].slot == r.slot then [r] + slots[1..]
    else [slots[0]] + Replace(slots[1..], r)
  }

  function Upserted(slots: seq<Record>, slot: Slot, now: Time, less: NameOrder): seq<Record> {
    match Find(slots, slot)
    case Some(r) => Replace(slots, r.(updatedAt := now))
    case None => SortRecords(slots + [Created(slot, now)], less)
  }

  /** `upsertSlotRecord`, and what `useSlot` and `markSlotQuota` do to the record it returns. */
  function AfterChange(m: Metadata, slot: Slot, change: Change, now: Time, less: NameOrder): Metadata {
    var slots := Upserted(m.slots, slot, now, less);
    var r := if Find(slots, slot).Some? then Find(slots, slot).value else Created(slot, now);
    Metadata(Replace(slots, Changed(r, change, now)), if change == Used then Some(slot) else m.currentSlot)
  }

  // ------------------------------------------------------------------ finding, replacing, sorting

  lemma {:induction false} FindReplaced(slots: seq<Record>, r: Record, other: Slot)
    ensures Find(Replace(slots, r), other) ==
              if other == r.slot && Find(slots, other).Some? then Some(r) else Find(slots, other)
  {
    if slots != [] {
      FindReplaced(slots[1..], r, other);
      var rest := Replace(slots[1..], r);
      assert ([slots[0]] + rest)[1..] == rest && ([r] + slots[1..])[1..] == slots[1..];
    }
  }

  lemma {:induction false} ReplaceKeepsNames(slots: seq<Record>, r: Record)
    ensures |Replace(slots, r)| == |slots|
    ensures forall i :: 0 <= i < |slots| ==> Replace(slots, r)[i].slot == slots[i].slot
  {
    if slots != [] {
      ReplaceKeepsNames(slots[1..], r);
    }
  }

  /** Sorted by name, with any repeats side by side. */
  predicate Sorted(slots: seq<Record>, less: NameOrder) {
    forall i, j :: 0 <= i < j < |slots| ==> !less(slots[j].slot, slots[i].slot)
  }

  lemma {:induction false} InsertSorts(r: Record, slots: seq<Record>, less: NameOrder)
    requires StrictTotalOrder(less) && Sorted(slots, less)
    ensures Sorted(InsertRecord(r, slots, less), less)
    ensures forall s :: s in InsertRecord(r, slots, less) ==> s == r || s in slots
  {
    if slots != [] && !less(r.slot, slots[0].slot) {
      InsertSorts(r, slots[1..], less);
      var rest := InsertRecord(r, slots[1..], less);
      forall j | 0 <= j < |rest| ensures !less(rest[j].slot, slots[0].slot) {
        assert rest[j] in rest;
      }
    }
  }

  lemma {:induction false} InsertKeepsOrder(r: Record, slots: seq<Record>, less: NameOrder)
    requires StrictTotalOrder(less) && Ordered(slots, less) && Find(slots, r.slot) == None
    ensures Ordered(InsertRecord(r, slots, less), less)
    ensures forall s :: s in InsertRecord(r, slots, less) ==> s == r || s in slots
  {
    if slots != [] && !less(r.slot, slots[0].slot) {
      InsertKeepsOrder(r, slots[1..], less);
      var rest := InsertRecord(r, slots[1..], less);
      forall j | 0 <= j < |rest| ensures less(slots[0].slot, rest[j].slot) {
        assert rest[j] in rest;
      }
    }
  }

  /** Among sorted records a new one goes behind those of the same name. */
  lemma {:induction false} FindInserted(r: Record, slots: seq<Record>, less: NameOrder, other: Slot)
    requires StrictTotalOrder(less) && Sorted(slots, less)
    ensures Find(InsertRecord(r, slots, less), other) ==
              if other == r.slot && Find(slots, other) == None then Some(r) else Find(slots, other)
  {
    if slots == [] || less(r.slot, slots[0].slot) {
      assert ([r] + slots)[1..] == slots;
      NotAmongGreater(r.slot, slots, less);
    } else {
      FindInserted(r, slots[1..], less, other);
      var rest := InsertRecord(r, slots[1..], less);
      assert ([slots[0]] + rest)[1..] == rest;
    }
  }

  lemma {:induction false} NotAmongGreater(slot: Slot, slots: seq<Record>, less: NameOrder)
    requires StrictTotalOrder(less) && Sorted(slots, less) && (slots != [] ==> less(slot, slots[0].slot))
    ensures Find(slots, slot) == None
  {
    if |slots| > 1 {
      assert !less(slots[1].slot, slots[0].slot);
      NotAmongGreater(slot, slots[1..], less);
    }
  }

  /** Sorting is stable: the first record of every slot stays the first. */
  lemma {:induction false} SortKeepsFirst(slots: seq<Record>, less: NameOrder, other: Slot)
    requires StrictTotalOrder(less)
    ensures Sorted(SortRecords(slots, less), less)
    ensures Find(SortRecords(slots, less), other) == Find(slots, other)
    decreases |slots|
  {
    if slots != [] {
      var front, last := slots[..|slots| - 1], slots[|slots| - 1];
      SortKeepsFirst(front, less, other);
      InsertSorts(last, SortRecords(front, less), less);
      FindInserted(last, SortRecords(front, less), less, other);
      FindLast(front, last, other);
      assert front + [last] == slots;
    }
  }

  lemma {:induction false} FindLast(front: seq<Record>, last: Record, other: Slot)
    ensures Find(front + [last], other) ==
              if other == last.slot && Find(front, other) == None then Some(last) else Find(front, other)
  {
    if front == [] {
      assert front + [last] == [last];
    } else {
      assert (front + [last])[1..] == front[1..] + [last];
      FindLast(front[1..], last, other);
    }
  }

  /** An ordered list is sorted already, so that sorting it with one record more is inserting the record. */
  lemma {:induction false} SortOrdered(slots: seq<Record>, less: NameOrder)
    requires StrictTotalOrder(less) && Ordered(slots, less)
    ensures SortRecords(slots, less) == slots
    decreases |slots|
  {
    if slots != [] {
      var front, last := slots[..|slots| - 1], slots[|slots| - 1];
      SortOrdered(front, less);
      InsertLast(last, front, less);
      assert front + [last] == slots;
    }
  }

  lemma {:induction false} InsertLast(r: Record, slots: seq<Record>, less: NameOrder)
    requires StrictTotalOrder(less) && forall i :: 0 <= i < |slots| ==> less(slots[i].slot, r.slot)
    ensures InsertRecord(r, slots, less) == slots + [r]
  {
    if slots != [] {
      assert less(slots[0].slot, r.slot);
      InsertLast(r, slots[1..], less);
    }
  }

  lemma SortWithOneMore(slots: seq<Record>, r: Record, less: NameOrder)
    requires StrictTotalOrder(less) && Ordered(slots, less)
    ensures SortRecords(slots + [r], less) == InsertRecord(r, slots, less)
  {
    assert (slots + [r])[..|slots|] == slots;
    SortOrdered(slots, less);
  }

  /** An upsert finds or makes the slot's own record, leaves the others alone, and keeps ordered metadata ordered. */
  lemma UpsertKeeps(slots: seq<Record>, slot: Slot, now: Time, less: NameOrder, other: Slot)
    requires StrictTotalOrder(less)
    ensures Find(Upserted(slots, slot, now, less), slot).Some?
    ensures other != slot ==> Find(Upserted(slots, slot, now, less), other) == Find(slots, other)
    ensures Ordered(slots, less) ==> Ordered(Upserted(slots, slot, now, less), less)
  {
    FindHasName(slots, slot);
    match Find(slots, slot)
    case Some(r) =>
      ReplaceKeepsNames(slots, r.(updatedAt := now));
      FindReplaced(slots, r.(updatedAt := now), slot);
      FindReplaced(slots, r.(updatedAt := now), other);
    case None =>
      var r := Created(slot, now);
      SortKeepsFirst(slots + [r], less, slot);
      SortKeepsFirst(slots + [r], less, other);
      FindLast(slots, r, slot);
      FindLast(slots, r, other);
      if Ordered(slots, less) {
        SortWithOneMore(slots, r, less);
        InsertKeepsOrder(r, slots, less);
      }
  }

  lemma {:induction false} FindHasName(slots: seq<Record>, slot: Slot)
    ensures Find(slots, slot).Some? ==> Find(slots, slot).value.slot == slot
  {
    if slots != [] {
      FindHasName(slots[1..], slot);
    }
  }

  /** Using a slot makes it current and unmarked, a quota marks it; no other record changes, and sorted records without
      repeats stay so. */
  lemma ChangeKeeps(m: Metadata, slot: Slot, change: Change, now: Time, less: NameOrder, other: Slot)
    requires StrictTotalOrder(less)
    ensures var after := AfterChange(m, slot, change, now, less);
            && (Ordered(m.slots, less) ==> Ordered(after.slots, less))
            && (Marked(after, slot) <==> change == Quota)
            && (other != slot ==> Find(after.slots, other) == Find(m.slots, other))
            && after.currentSlot == if change == Used then Some(slot) else m.currentSlot
  {
    UpsertKeeps(m.slots, slot, now, less, other);
    var slots := Upserted(m.slots, slot, now, less);
    FindHasName(slots, slot);
    var r := Changed(Find(slots, slot).value, change, now);
    ReplaceKeepsNames(slots, r);
    FindReplaced(slots, r, slot);
    FindReplaced(slots, r, other);
  }

  /** The record of the slot afterwards: made now or long ago, changed now, and with the time of its last use or of its
      last quota. */
  lemma RecordAfter(m: Metadata, slot: Slot, change: Change, now: Time, less: NameOrder)
    requires StrictTotalOrder(less)
    ensures var before, after := Find(m.slots, slot), Find(AfterChange(m, slot, change, now, less).slots, slot);
            && after.Some? && after.value.slot == slot && after.value.updatedAt == now
            && after.value.createdAt == (if before.Some? then before.value.createdAt else now)
            && after.value.lastUsedAt ==
                 (if change == Used then Some(now) else if before.Some? then before.value.lastUsedAt else None)
            && after.value.lastQuotaAt ==
                 (if change == Quota then Some(now) else if before.Some? then before.value.lastQuotaAt else None)
            && after.value.exhaustedAt == (if change == Quota then Some(now) else None)
  {
    var slots := Upserted(m.slots, slot, now, less);
    UpsertedRecord(m.slots, slot, now, less);
    FindReplaced(slots, Changed(Find(slots, slot).value, change, now), slot);
  }

  lemma UpsertedRecord(slots: seq<Record>, slot: Slot, now: Time, less: NameOrder)
    requires StrictTotalOrder(less)
    ensures Find(Upserted(slots, slot, now, less), slot) ==
              match Find(slots, slot)
              case Some(r) => Some(r.(updatedAt := now))
              case None => Some(Record(slot, now, now, None, None, None))
    ensures Find(slots, slot).Some? ==> Find(slots, slot).value.slot == slot
  {
    FindHasName(slots, slot);
    match Find(slots, slot)
    case Some(r) =>
      FindReplaced(slots, r.(updatedAt := now), slot);
    case None =>
      SortKeepsFirst(slots + [Created(slot, now)], less, slot);
      FindLast(slots, Created(slot, now), slot);
  }

  // ------------------------------------------------------------------ the store

  class Store {
    var slots: seq<Record>
    var currentSlot: Option<Slot>

    ghost function Now(): Metadata
      reads this
    {
      Metadata(slots, currentSlot)
    }

    /** `upsertSlotRecord`: where the slot's record is. */
    method UpsertSlotRecord(slot: Slot, now: Time, less: NameOrder) returns (index: nat)
      requires StrictTotalOrder(less)
      modifies this`slots
      ensures slots == Upserted(old(slots), slot, now, less)
      ensures index < |slots| && slots[index].slot == slot && Find(slots, slot) == Some(slots[index])
      ensures forall j :: 0 <= j < index ==> slots[j].slot != slot
    {
      var i := FindIndex(slots, slot);
      UpsertKeeps(slots, slot, now, less, slot);
      if i < |slots| {
        ReplaceAt(slots, i, slots[i].(updatedAt := now));
        slots := slots[i := slots[i].(updatedAt := now)];
      } else {
        slots := slots + [Created(slot, now)];
        slots := SortRecords(slots, less);
      }
      index := FindIndex(slots, slot);
    }

    method Change(slot: Slot, change: Change, now: Time, less: NameOrder)
      requires StrictTotalOrder(less)
      modifies this
      ensures Now() == AfterChange(old(Now()), slot, change, now, less)
    {
      var index := UpsertSlotRecord(slot, now, less);
      ReplaceAt(slots, index, Changed(slots[index], change, now));
      slots := slots[index := Changed(slots[index], change, now)];
      if change == Used {
        currentSlot := Some(slot);
      }
    }

    /** `useSlot`; it throws when the slot's file cannot be read or installed. */
    method UseSlot(slot: Slot, works: bool, now: Time, less: NameOrder) returns (ok: bool)
      requires StrictTotalOrder(less)
      modifies this
      ensures ok == works
      ensures Now() == if works then AfterChange(old(Now()), slot, Used, now, less) else old(Now())
    {
      if works {
        Change(slot, Used, now, less);
      }
      ok := works;
    }

    /** `markSlotQuota`. */
    method MarkSlotQuota(slot: Slot, now: Time, less: NameOrder)
      requires StrictTotalOrder(less)
      modifies this
      ensures Now() == AfterChange(old(Now()), slot, Quota, now, less)
    {
      Change(slot, Quota, now, less);
    }
  }

  method FindIndex(slots: seq<Record>, slot: Slot) returns (i: nat)
    ensures i <= |slots| && (i < |slots| <==> Find(slots, slot).Some?)
    ensures i < |slots| ==> slots[i].slot == slot && Find(slots, slot) == Some(slots[i])
    ensures forall j :: 0 <= j < i ==> slots[j].slot != slot
  {
    i := 0;
    assert slots[0..] == slots;
    while i < |slots|
      invariant i <= |slots| && Find(slots[i..], slot) == Find(slots, slot)
      invariant forall j :: 0 <= j < i ==> slots[j].slot != slot
    {
      assert slots[i..][1..] == slots[i + 1..];
      if slots[i].slot == slot {
        return;
      }
      i := i + 1;
    }
  }

  lemma {:induction false} ReplaceAt(slots: seq<Record>, i: nat, r: Record)
    requires i < |slots| && slots[i].slot == r.slot && forall j :: 0 <= j < i ==> slots[j].slot != r.slot
    ensures Replace(slots, r) == slots[i := r]
  {
    if i == 0 {
      assert slots[0 := r] == [r] + slots[1..];
    } else {
      assert slots[1..][i - 1] == slots[i];
      forall j | 0 <= j < i - 1 ensures slots[1..][j].slot != r.slot {
        assert slots[1..][j] == slots[j + 1];
      }
      ReplaceAt(slots[1..], i - 1, r);
      assert slots[i := r] == [slots[0]] + slots[1..][i - 1 := r];
    }
  }
}
