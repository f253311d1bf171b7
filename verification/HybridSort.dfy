/**
  The adaptive sorting demo: insertion, merge and counting sort, each charging its comparisons
  and moves to a shared counter, and the hybrid that picks one of them.
 */
module HybridSort {
  import opened Wrappers

  // ------------------------------------------------------------------ what sorting means

  predicate Sorted(s: seq<int>) {
    forall i, j :: 0 <= i < j < |s| ==> s[i] <= s[j]
  }

  predicate IsSortOf(out: seq<int>, values: seq<int>) {
    Sorted(out) && multiset(out) == multiset(values)
  }

  lemma LeastFirst(a: seq<int>, b: seq<int>)
    requires Sorted(a) && multiset(a) == multiset(b) && a != [] && b != []
    ensures a[0] <= b[0]
  {
    assert b[0] in multiset(a);
    var i :| 0 <= i < |a| && a[i] == b[0];
  }

  lemma SameLength(a: seq<int>, b: seq<int>)
    requires multiset(a) == multiset(b)
    ensures |a| == |b|
  {
    assert |a| == |multiset(a)| == |multiset(b)| == |b|;
  }

  lemma SplitSort(values: seq<int>, mid: nat, left: seq<int>, right: seq<int>)
    requires mid <= |values| && multiset(left) == multiset(values[..mid]) && multiset(right) == multiset(values[mid..])
    ensures multiset(left) + multiset(right) == multiset(values)
    ensures |left| == mid && |right| == |values| - mid
  {
    assert values == values[..mid] + values[mid..];
    SameLength(left, values[..mid]);
    SameLength(right, values[mid..]);
  }

  /** A list has only one sorted permutation. */
  lemma {:induction false} SortIsUnique(a: seq<int>, b: seq<int>)
    requires Sorted(a) && Sorted(b) && multiset(a) == multiset(b)
    ensures a == b
    decreases |a|
  {
    assert |a| == |multiset(a)| == |multiset(b)| == |b|;
    if a != [] {
      LeastFirst(a, b);
      LeastFirst(b, a);
      assert a == [a[0]] + a[1..] && b == [b[0]] + b[1..];
      assert multiset(a[1..]) == multiset(a) - multiset{a[0]} == multiset(b[1..]);
      SortIsUnique(a[1..], b[1..]);
    }
  }

  // ------------------------------------------------------------------ the costs

  function CountGreater(s: seq<int>, x: int): (n: nat)
    ensures n <= |s|
  {
    if s == [] then 0 else (if s[|s| - 1] > x then 1 else 0) + CountGreater(s[..|s| - 1], x)
  }

  /** The number of pairs out of order. */
  function Inversions(s: seq<int>): nat {
    if s == [] then 0 else Inversions(s[..|s| - 1]) + CountGreater(s[..|s| - 1], s[|s| - 1])
  }

  /** The elements one merge sort of a list of length `n` writes to its outputs. */
  function MergeMoves(n: nat): nat { if n <= 1 then 0 else n + MergeMoves(n / 2) + MergeMoves(n - n / 2) }

  lemma MergeMovesOfHalves(n: nat, mid: nat)
    requires n > 1 && mid == n / 2
    ensures 1 <= mid < n && MergeMoves(n) == n + MergeMoves(mid) + MergeMoves(n - mid)
  {
  }

  /** The base-two logarithm, rounded up: how often `n` elements can be halved. */
  function Halvings(n: nat): nat { if n <= 1 then 0 else 1 + Halvings((n + 1) / 2) }

  function Power(h: nat): nat { if h == 0 then 1 else 2 * Power(h - 1) }

  lemma DoubleWithin(n: nat, c: nat, p: nat)
    requires n >= 2 && (n == 2 * c || n + 1 == 2 * c) && c <= p < 2 * c && (p == 1 || p % 2 == 0)
    ensures n <= 2 * p < 2 * n
  {
  }

  lemma {:induction false} HalvingsIsLog(n: nat)
    requires n >= 1
    ensures n <= Power(Halvings(n)) < 2 * n
  {
    if n > 1 {
      var c := (n + 1) / 2;
      HalvingsIsLog(c);
      EvenPower(Halvings(c));
      DoubleWithin(n, c, Power(Halvings(c)));
    }
  }

  lemma EvenPower(h: nat)
    ensures Power(h) == 1 || Power(h) % 2 == 0
    ensures h >= 1 ==> Power(h) % 2 == 0
  {
  }

  lemma {:induction false} PowerIsLarge(h: nat)
    ensures h > 1 ==> Power(h) > 2
  {
    if h > 2 {
      PowerIsLarge(h - 1);
    }
  }

  lemma Halves(n: nat, h: nat)
    requires n >= 2 && h >= 1 && n <= Power(h) <= 2 * n
    ensures n / 2 <= Power(h - 1) <= 2 * (n / 2)
    ensures n - n / 2 <= Power(h - 1) <= 2 * (n - n / 2)
  {
    EvenPower(h - 1);
  }

  lemma ClosedStep(a: int, b: int, h: int, p: int)
    ensures (a + b) + (a * h + a - p) + (b * h + b - p) == (a + b) * (h + 1) + (a + b) - 2 * p
  {
  }

  /** For every power of two at least `n` and at most twice `n`. */
  lemma {:induction false} MergeMovesWithin(n: nat, h: nat)
    requires n >= 1 && n <= Power(h) <= 2 * n
    ensures MergeMoves(n) == n * h + n - Power(h)
    decreases n
  {
    if n == 1 {
      PowerIsLarge(h);
    } else {
      var m, c := n / 2, n - n / 2;
      Halves(n, h);
      MergeMovesWithin(m, h - 1);
      MergeMovesWithin(c, h - 1);
      ClosedStep(m, c, h - 1, Power(h - 1));
    }
  }

  /** The moves of merge sort in closed form: `n` times the logarithm rounded up, less what `n` is short of a power of
      two. */
  lemma MergeMovesClosed(n: nat)
    requires n >= 1
    ensures MergeMoves(n) == n * Halvings(n) - (Power(Halvings(n)) - n) <= n * Halvings(n)
  {
    HalvingsIsLog(n);
    MergeMovesWithin(n, Halvings(n));
  }

  lemma {:induction false} CountGreaterAppend(a: seq<int>, b: seq<int>, x: int)
    ensures CountGreater(a + b, x) == CountGreater(a, x) + CountGreater(b, x)
    decreases |b|
  {
    if b == [] {
      assert a + b == a;
    } else {
      assert (a + b)[..|a + b| - 1] == a + b[..|b| - 1];
      CountGreaterAppend(a, b[..|b| - 1], x);
    }
  }

  lemma OneGreater(last: int, x: int)
    ensures CountGreater([last], x) == if last > x then 1 else 0
  {
    assert [last][..0] == [];
  }

  /** One occurrence taken out of a list. */
  lemma TakeOut(b: seq<int>, last: int, x: int) returns (rest: seq<int>)
    requires last in b
    ensures multiset(b) == multiset(rest) + multiset{last} && |rest| == |b| - 1
    ensures CountGreater(b, x) == CountGreater(rest, x) + if last > x then 1 else 0
  {
    var k :| 0 <= k < |b| && b[k] == last;
    var front, back := b[..k], b[k + 1..];
    rest := front + back;
    assert b == front + ([last] + back);
    CountGreaterAppend(front, back, x);
    CountGreaterAppend(front, [last] + back, x);
    CountGreaterAppend([last], back, x);
    OneGreater(last, x);
  }

  lemma {:induction false} CountGreaterPermutation(a: seq<int>, b: seq<int>, x: int)
    requires multiset(a) == multiset(b)
    ensures CountGreater(a, x) == CountGreater(b, x)
    decreases |a|
  {
    if a == [] {
      assert |multiset(b)| == 0;
    } else {
      var front, last := a[..|a| - 1], a[|a| - 1];
      assert a == front + [last];
      assert last in multiset(b);
      var rest := TakeOut(b, last, x);
      assert multiset(front) == multiset(a) - multiset{last};
      CountGreaterPermutation(front, rest, x);
    }
  }

  lemma {:induction false} CountGreaterAll(s: seq<int>, x: int, greater: bool)
    requires forall i :: 0 <= i < |s| ==> (s[i] > x <==> greater)
    ensures CountGreater(s, x) == if greater then |s| else 0
    decreases |s|
  {
    if s != [] {
      CountGreaterAll(s[..|s| - 1], x, greater);
    }
  }

  /** Where the key of an insertion stops, everything before is at most the key and everything after is greater. */
  lemma CountGreaterSplit(s: seq<int>, x: int, k: nat)
    requires k <= |s|
    requires forall i :: 0 <= i < k ==> s[i] <= x
    requires forall i :: k <= i < |s| ==> s[i] > x
    ensures CountGreater(s, x) == |s| - k
  {
    assert s == s[..k] + s[k..];
    CountGreaterAppend(s[..k], s[k..], x);
    CountGreaterAll(s[..k], x, false);
    CountGreaterAll(s[k..], x, true);
  }

  lemma InversionsSnoc(s: seq<int>, i: nat)
    requires i < |s|
    ensures Inversions(s[..i + 1]) == Inversions(s[..i]) + CountGreater(s[..i], s[i])
  {
    assert s[..i + 1][..i] == s[..i];
  }

  // ------------------------------------------------------------------ the sorts

  class Ops {
    var comparisons: nat
    var moves: nat

    constructor ()
      ensures comparisons == 0 && moves == 0
    {
      comparisons, moves := 0, 0;
    }

    method Compare(a: int, b: int) returns (r: int)
      modifies this
      ensures (r > 0 <==> a > b) && (r < 0 <==> a < b)
      ensures comparisons == old(comparisons) + 1 && moves == old(moves)
    {
      comparisons := comparisons + 1;
      r := if a > b then 1 else if a < b then -1 else 0;
    }

    method Move(count: nat)
      modifies this
      ensures moves == old(moves) + count && comparisons == old(comparisons)
    {
      moves := moves + count;
    }
  }

  /** Sliding the greater tail of a sorted prefix one place up and dropping the key into the gap. */
  lemma InsertKey(prefix: seq<int>, k: nat, key: int)
    requires Sorted(prefix) && k <= |prefix|
    requires forall i :: 0 <= i < k ==> prefix[i] <= key
    requires forall i :: k <= i < |prefix| ==> prefix[i] > key
    ensures Sorted(prefix[..k] + [key] + prefix[k..])
    ensures multiset(prefix[..k] + [key] + prefix[k..]) == multiset(prefix) + multiset{key}
  {
    assert prefix == prefix[..k] + prefix[k..];
  }

  /** The elements from the gap `g` up to `i` have been slid one place up; all of them exceed the key. */
  predicate Gapped(a: seq<int>, before: seq<int>, i: nat, g: nat, key: int)
    requires g <= i < |before|
  {
    && |a| == |before|
    && (forall m :: 0 <= m < |a| ==> a[m] == before[if g < m <= i then m - 1 else m])
    && (forall m :: g <= m < i ==> before[m] > key)
  }

  /** The key stands at its place `k`: nothing before it is greater, everything it passed is. */
  predicate Placed(a: seq<int>, before: seq<int>, i: nat, k: nat)
    requires k <= i < |before|
  {
    && |a| == |before|
    && (forall m :: 0 <= m < |a| ==> a[m] == before[if k < m <= i then m - 1 else if m == k then i else m])
    && (forall m :: 0 <= m < k ==> before[m] <= before[i])
    && (forall m :: k <= m < i ==> before[m] > before[i])
  }

  lemma GapMoves(a: seq<int>, before: seq<int>, i: nat, g: nat, key: int)
    requires 1 <= g <= i < |before| && Gapped(a, before, i, g, key)
    ensures a[g - 1] == before[g - 1]
    ensures before[g - 1] > key ==> Gapped(a[g := a[g - 1]], before, i, g - 1, key)
  {
  }

  lemma GapCloses(a: seq<int>, before: seq<int>, i: nat, g: nat)
    requires g <= i < |before| && Gapped(a, before, i, g, before[i])
    requires Sorted(before[..i]) && (g > 0 ==> before[g - 1] <= before[i])
    ensures Placed(a[g := before[i]], before, i, g)
  {
    assert forall m :: 0 <= m < g ==> before[..i][m] <= before[..i][g - 1];
  }

  /** One round of the outer loop: slide `arr[i]` into the sorted prefix before it, to place `k`. */
  method Insert(arr: array<int>, i: nat, ops: Ops) returns (ghost k: nat)
    requires 1 <= i < arr.Length && Sorted(arr[..i])
    modifies arr, ops
    ensures k <= i && Placed(arr[..], old(arr[..]), i, k)
    ensures ops.moves == old(ops.moves) + 2 + (i - k)
    ensures old(ops.comparisons) + (i - k) <= ops.comparisons <= old(ops.comparisons) + (i - k) + 1
  {
    ghost var before := arr[..];
    assert before[..i] == arr[..i];
    var key := arr[i];
    ops.Move(1);
    var j := i - 1;
    var stop := false;
    while j >= 0 && !stop
      invariant -1 <= j < i
      invariant Gapped(arr[..], before, i, j + 1, key)
      invariant stop ==> j >= 0 && before[j] <= key
      invariant ops.moves == old(ops.moves) + 1 + (i - 1 - j)
      invariant ops.comparisons == old(ops.comparisons) + (i - 1 - j) + (if stop then 1 else 0)
      decreases j + 1, !stop
    {
      GapMoves(arr[..], before, i, j + 1, key);
      var c := ops.Compare(arr[j], key);
      if c > 0 {
        arr[j + 1] := arr[j];
        ops.Move(1);
        j := j - 1;
      } else {
        stop := true;
      }
    }
    GapCloses(arr[..], before, i, j + 1);
    arr[j + 1] := key;
    ops.Move(1);
    k := j + 1;
  }

  /** The first `i` elements have been sorted among themselves; the rest is untouched. */
  predicate SortedUpTo(a: seq<int>, values: seq<int>, i: nat)
    requires i <= |values|
  {
    && |a| == |values|
    && IsSortOf(a[..i], values[..i])
    && a[i..] == values[i..]
  }

  lemma RoundDone(a: seq<int>, b: seq<int>, values: seq<int>, i: nat, k: nat)
    requires 1 <= i < |values| && SortedUpTo(a, values, i) && k <= i
    requires Placed(b, a, i, k)
    ensures SortedUpTo(b, values, i + 1)
    ensures Inversions(values[..i + 1]) == Inversions(values[..i]) + (i - k)
  {
    var prefix := a[..i];
    assert a[i] == a[i..][0] == values[i];
    InsertKey(prefix, k, a[i]);
    assert b[i + 1..] == a[i + 1..];
    assert b[..i + 1] == prefix[..k] + [a[i]] + prefix[k..];
    TakeOne(values, i);
    assert b[i + 1..] == a[i..][1..] == values[i + 1..];
    CountGreaterSplit(prefix, a[i], k);
    CountGreaterPermutation(prefix, values[..i], a[i]);
    InversionsSnoc(values, i);
  }

  method InsertionSort(values: seq<int>, ops: Ops) returns (out: seq<int>)
    modifies ops
    ensures IsSortOf(out, values)
    ensures |values| >= 1 ==> ops.moves == old(ops.moves) + 2 * (|values| - 1) + Inversions(values)
    ensures |values| >= 1 ==>
              Inversions(values) <= ops.comparisons - old(ops.comparisons) <= Inversions(values) + |values| - 1
    ensures |values| == 0 ==> ops.moves == old(ops.moves) && ops.comparisons == old(ops.comparisons)
  {
    var arr := new int[|values|](i requires 0 <= i < |values| => values[i]);
    assert arr[..] == values;
    if |values| == 0 {
      return arr[..];
    }
    for i := 1 to arr.Length
      invariant SortedUpTo(arr[..], values, i)
      invariant ops.moves == old(ops.moves) + 2 * (i - 1) + Inversions(values[..i])
      invariant Inversions(values[..i]) <= ops.comparisons - old(ops.comparisons) <= Inversions(values[..i]) + i - 1
    {
      ghost var before := arr[..];
      assert arr[..i] == before[..i];
      ghost var k := Insert(arr, i, ops);
      RoundDone(before, arr[..], values, i, k);
    }
    out := arr[..];
    assert out == out[..|values|] && values == values[..|values|];
  }

  method MergeSort(values: seq<int>, ops: Ops) returns (out: seq<int>)
    modifies ops
    ensures IsSortOf(out, values)
    ensures ops.moves == old(ops.moves) + MergeMoves(|values|)
    ensures old(ops.comparisons) <= ops.comparisons <= old(ops.comparisons) + MergeMoves(|values|)
    decreases |values|
  {
    if |values| <= 1 {
      return values;
    }
    var mid := |values| / 2;
    MergeMovesOfHalves(|values|, mid);
    var left := MergeSort(values[..mid], ops);
    var right := MergeSort(values[mid..], ops);
    SplitSort(values, mid, left, right);
    out := Merge(left, right, ops);
  }

  lemma SortedAppend(a: seq<int>, b: seq<int>)
    requires Sorted(a) && Sorted(b)
    requires a != [] && b != [] ==> a[|a| - 1] <= b[0]
    ensures Sorted(a + b)
  {
    forall i, j | 0 <= i < j < |a + b| ensures (a + b)[i] <= (a + b)[j] {
      if i < |a| <= j {
        assert a[i] <= a[|a| - 1] <= b[0] <= b[j - |a|];
      }
    }
  }

  lemma TakeOne(left: seq<int>, i: nat)
    requires i < |left|
    ensures multiset(left[..i + 1]) == multiset(left[..i]) + multiset{left[i]}
  {
    assert left[..i + 1] == left[..i] + [left[i]];
  }

  predicate Merged(out: seq<int>, a: seq<int>, b: seq<int>) {
    Sorted(out) && multiset(out) == multiset(a) + multiset(b)
  }

  /** Nothing written so far exceeds what is still to come. */
  predicate Precedes(out: seq<int>, rest: seq<int>, i: nat) {
    out != [] && i < |rest| ==> out[|out| - 1] <= rest[i]
  }

  lemma MergeOne(out: seq<int>, a: seq<int>, x: int, b: seq<int>)
    requires Merged(out, a, b) && (out != [] ==> out[|out| - 1] <= x)
    ensures Merged(out + [x], a + [x], b) && Merged(out + [x], b, a + [x])
  {
    SortedAppend(out, [x]);
  }

  lemma MergeRest(out: seq<int>, a: seq<int>, i: nat, b: seq<int>)
    requires i < |a| && Sorted(a) && Merged(out, a[..i], b) && Precedes(out, a, i)
    ensures Merged(out + a[i..], a, b)
  {
    SortedAppend(out, a[i..]);
    assert multiset(a) == multiset(a[..i]) + multiset(a[i..]) by {
      assert a == a[..i] + a[i..];
    }
  }

  /** The merging loop after it has taken `i` and `j` elements. */
  predicate Merging(out: seq<int>, left: seq<int>, i: nat, right: seq<int>, j: nat) {
    && i <= |left| && j <= |right| && Merged(out, left[..i], right[..j])
    && Precedes(out, left, i) && Precedes(out, right, j)
  }

  lemma TakeFirst(out: seq<int>, a: seq<int>, i: nat, b: seq<int>, j: nat)
    requires Merging(out, a, i, b, j) && Sorted(a) && i < |a| && (j < |b| ==> a[i] <= b[j])
    ensures Merging(out + [a[i]], a, i + 1, b, j) && Merging(out + [a[i]], b, j, a, i + 1)
  {
    assert a[..i + 1] == a[..i] + [a[i]];
    MergeOne(out, a[..i], a[i], b[..j]);
  }

  lemma Swapped(out: seq<int>, a: seq<int>, i: nat, b: seq<int>, j: nat)
    requires Merging(out, a, i, b, j)
    ensures Merging(out, b, j, a, i)
  {
  }

  lemma MergeTails(out: seq<int>, a: seq<int>, i: nat, b: seq<int>, j: nat)
    requires Merging(out, a, i, b, j) && (i == |a| || j == |b|) && Sorted(a) && Sorted(b)
    ensures i < |a| ==> Merged(out + a[i..], a, b)
    ensures j < |b| ==> Merged(out + b[j..], a, b)
    ensures i == |a| && j == |b| ==> Merged(out, a, b)
  {
    if i < |a| {
      assert b[..j] == b;
      MergeRest(out, a, i, b);
    } else if j < |b| {
      assert a[..i] == a;
      MergeRest(out, b, j, a);
    } else {
      assert a[..i] == a && b[..j] == b;
    }
  }

  /** The merging loop of `merge_sort`. */
  method Merge(left: seq<int>, right: seq<int>, ops: Ops) returns (out: seq<int>)
    requires Sorted(left) && Sorted(right)
    modifies ops
    ensures Merged(out, left, right)
    ensures ops.moves == old(ops.moves) + |left| + |right|
    ensures old(ops.comparisons) <= ops.comparisons <= old(ops.comparisons) + |left| + |right|
  {
    out := [];
    var i, j := 0, 0;
    while i < |left| && j < |right|
      invariant Merging(out, left, i, right, j)
      invariant ops.moves == old(ops.moves) + i + j
      invariant ops.comparisons == old(ops.comparisons) + i + j
    {
      var c := ops.Compare(left[i], right[j]);
      if c <= 0 {
        TakeFirst(out, left, i, right, j);
        out := out + [left[i]];
        ops.Move(1);
        i := i + 1;
      } else {
        Swapped(out, left, i, right, j);
        TakeFirst(out, right, j, left, i);
        out := out + [right[j]];
        ops.Move(1);
        j := j + 1;
      }
    }
    MergeTails(out, left, i, right, j);
    if i < |left| {
      out := out + left[i..];
      ops.Move(|left| - i);
    }
    if j < |right| {
      out := out + right[j..];
      ops.Move(|right| - j);
    }
  }

  function Repeat(value: int, count: nat): (s: seq<int>)
    ensures |s| == count && forall i :: 0 <= i < count ==> s[i] == value
    ensures multiset(s)[value] == count
    ensures forall v :: v != value ==> multiset(s)[v] == 0
  {
    if count == 0 then [] else Repeat(value, count - 1) + [value]
  }

  /** `counts[k]` says how often `k + offset` occurs. */
  predicate Counted(counts: seq<nat>, values: seq<int>, offset: int) {
    forall k :: 0 <= k < |counts| ==> counts[k] == multiset(values)[k + offset]
  }

  lemma CountOne(counts: seq<nat>, values: seq<int>, i: nat, offset: int)
    requires i < |values| && Counted(counts, values[..i], offset) && 0 <= values[i] - offset < |counts|
    ensures Counted(counts[values[i] - offset := counts[values[i] - offset] + 1], values[..i + 1], offset)
  {
    TakeOne(values, i);
  }

  /** All occurrences of values below `limit`, in order, and nothing else. */
  ghost predicate Emitted(out: seq<int>, values: seq<int>, limit: int) {
    && Sorted(out)
    && forall v :: multiset(out)[v] == if v < limit then multiset(values)[v] else 0
  }

  lemma EmitOne(out: seq<int>, values: seq<int>, limit: int)
    requires Emitted(out, values, limit)
    ensures Emitted(out + Repeat(limit, multiset(values)[limit]), values, limit + 1)
  {
    var more := Repeat(limit, multiset(values)[limit]);
    if out != [] {
      assert multiset(out)[out[|out| - 1]] > 0;
    }
    SortedAppend(out, more);
  }

  lemma EmittedAll(out: seq<int>, values: seq<int>, limit: int)
    requires Emitted(out, values, limit) && forall v :: v in values ==> v < limit
    ensures IsSortOf(out, values) && |out| == |values|
  {
    forall v ensures multiset(out)[v] == multiset(values)[v] {
      if v >= limit {
        assert v !in values;
      }
    }
    assert multiset(out) == multiset(values);
    SameLength(out, values);
  }

  /** The counting pass. */
  method Tally(values: seq<int>, offset: int, counts: array<nat>, ops: Ops)
    requires forall v :: v in values ==> 0 <= v - offset < counts.Length
    requires Counted(counts[..], [], offset)
    modifies counts, ops
    ensures Counted(counts[..], values, offset)
    ensures ops.moves == old(ops.moves) + |values| && ops.comparisons == old(ops.comparisons)
  {
    for i := 0 to |values|
      invariant Counted(counts[..], values[..i], offset)
      invariant ops.moves == old(ops.moves) + i && ops.comparisons == old(ops.comparisons)
    {
      assert values[i] in values;
      CountOne(counts[..], values, i, offset);
      counts[values[i] - offset] := counts[values[i] - offset] + 1;
      ops.Move(1);
    }
    assert values[..|values|] == values;
  }

  /** The writing pass. */
  method Emit(counts: seq<nat>, offset: int, ops: Ops, ghost values: seq<int>) returns (out: seq<int>)
    requires Counted(counts, values, offset)
    requires forall v :: v in values ==> 0 <= v - offset < |counts|
    modifies ops
    ensures IsSortOf(out, values) && |out| == |values|
    ensures ops.moves == old(ops.moves) + |values| && ops.comparisons == old(ops.comparisons)
  {
    out := [];
    assert Emitted(out, values, offset) by {
      forall v ensures v < offset ==> multiset(values)[v] == 0 {
        if v < offset {
          assert v !in values;
        }
      }
    }
    for index := 0 to |counts|
      invariant Emitted(out, values, index + offset)
      invariant ops.moves == old(ops.moves) + |out| && ops.comparisons == old(ops.comparisons)
    {
      var count := counts[index];
      EmitOne(out, values, index + offset);
      if count != 0 {
        out := out + Repeat(index + offset, count);
        ops.Move(count);
      } else {
        assert out + Repeat(index + offset, 0) == out;
      }
    }
    EmittedAll(out, values, |counts| + offset);
  }

  method CountingSort(values: seq<int>, minValue: int, maxValue: int, ops: Ops) returns (out: seq<int>)
    requires minValue <= maxValue
    requires forall v :: v in values ==> minValue <= v <= maxValue
    modifies ops
    ensures IsSortOf(out, values)
    ensures ops.moves == old(ops.moves) + (maxValue - minValue) + 1 + 2 * |values|
    ensures ops.comparisons == old(ops.comparisons)
  {
    var counts := new nat[maxValue - minValue + 1](_ => 0);
    ops.Move(counts.Length);
    Tally(values, minValue, counts, ops);
    out := Emit(counts[..], minValue, ops, values);
  }

  // ------------------------------------------------------------------ run detection and the hybrid

  predicate NonDecreasing(values: seq<int>, lo: nat, hi: nat)
    requires lo <= hi <= |values|
  {
    Sorted(values[lo..hi])
  }

  lemma RunExtends(values: seq<int>, lo: nat, hi: nat)
    requires lo < hi < |values| && NonDecreasing(values, lo, hi) && values[hi - 1] <= values[hi]
    ensures NonDecreasing(values, lo, hi + 1)
  {
    assert values[lo..hi + 1] == values[lo..hi] + [values[hi]];
    SortedAppend(values[lo..hi], [values[hi]]);
  }

  /** Dropping the last element of a run leaves a run, and the last two elements are in order. */
  lemma RunPrefix(values: seq<int>, lo: nat, hi: nat)
    requires lo <= hi + 1 <= |values| && NonDecreasing(values, lo, hi + 1)
    ensures lo <= hi ==> NonDecreasing(values, lo, hi)
    ensures lo < hi ==> values[hi - 1] <= values[hi]
  {
    var longer := values[lo..hi + 1];
    if lo <= hi {
      assert values[lo..hi] == longer[..hi - lo];
    }
    if lo < hi {
      assert longer[hi - lo] == values[hi] && longer[hi - lo - 1] == values[hi - 1];
    }
  }

  /** No run that ends at `hi` is longer than `n`. */
  ghost predicate RunsEndingAt(values: seq<int>, hi: nat, n: nat)
    requires hi <= |values|
  {
    forall lo: nat :: lo <= hi && NonDecreasing(values, lo, hi) ==> hi - lo <= n
  }

  lemma RunsEndingNext(values: seq<int>, hi: nat, n: nat)
    requires 1 <= hi < |values| && RunsEndingAt(values, hi, n)
    ensures RunsEndingAt(values, hi + 1, if values[hi - 1] <= values[hi] then n + 1 else 1)
  {
    var next := hi + 1;
    forall lo: nat | lo <= next && NonDecreasing(values, lo, next)
      ensures next - lo <= if values[hi - 1] <= values[hi] then n + 1 else 1
    {
      RunPrefix(values, lo, hi);
    }
  }

  method LongestNonDecreasingRun(values: seq<int>) returns (best: nat)
    ensures best <= |values|
    ensures exists lo: nat, hi: nat :: lo <= hi <= |values| && hi - lo == best && NonDecreasing(values, lo, hi)
    ensures forall hi: nat :: hi <= |values| ==> RunsEndingAt(values, hi, best)
  {
    if values == [] {
      assert NonDecreasing(values, 0, 0);
      return 0;
    }
    best := 1;
    var current := 1;
    ghost var lo: nat, hi: nat := 0, 1;
    for idx := 1 to |values|
      invariant 1 <= current <= idx && 1 <= best <= idx
      invariant NonDecreasing(values, idx - current, idx) && RunsEndingAt(values, idx, current)
      invariant lo <= hi <= idx && hi - lo == best && NonDecreasing(values, lo, hi)
      invariant var longest := if best >= current then best else current;
                forall h: nat :: h <= idx ==> RunsEndingAt(values, h, longest)
    {
      RunsEndingNext(values, idx, current);
      if values[idx - 1] <= values[idx] {
        RunExtends(values, idx - current, idx);
        current := current + 1;
      } else {
        if current > best {
          best, lo, hi := current, idx - current, idx;
        }
        current := 1;
      }
    }
    if current > best {
      best, lo, hi := current, |values| - current, |values|;
    }
  }

  datatype Params = Params(insertionThreshold: Option<int>, runDetectionMin: Option<int>,
    countingSpanLimit: Option<int>)

  function GetOr(o: Option<int>, default: int): int {
    match o
    case Some(v) => v
    case None => default
  }

  method Extremes(values: seq<int>) returns (lo: int, hi: int)
    requires values != []
    ensures lo in values && hi in values
    ensures forall v :: v in values ==> lo <= v <= hi
  {
    lo, hi := values[0], values[0];
    for i := 0 to |values|
      invariant lo in values && hi in values
      invariant forall k :: 0 <= k < i ==> lo <= values[k] <= hi
    {
      if values[i] < lo {
        lo := values[i];
      }
      if values[i] > hi {
        hi := values[i];
      }
    }
  }

  /** What insertion sort costs: the counted moves and comparisons. */
  predicate InsertionCost(values: seq<int>, moves: int, comparisons: int) {
    if values == [] then moves == 0 && comparisons == 0
    else
      && moves == 2 * (|values| - 1) + Inversions(values)
      && Inversions(values) <= comparisons <= Inversions(values) + |values| - 1
  }

  predicate MergeCost(values: seq<int>, moves: int, comparisons: int) {
    moves == MergeMoves(|values|) && 0 <= comparisons <= MergeMoves(|values|)
  }

  /** Counting sort compares nothing and moves once for every number of the span and twice for every value. */
  ghost predicate CountingCost(values: seq<int>, moves: int, comparisons: int) {
    && comparisons == 0
    && exists lo, hi :: lo in values && hi in values && (forall v :: v in values ==> lo <= v <= hi)
                        && moves == hi - lo + 1 + 2 * |values|
  }

  ghost predicate SpanWithin(values: seq<int>, limit: int) {
    values != [] && forall v, w :: v in values && w in values ==> v - w <= limit
  }

  ghost predicate HasRun(values: seq<int>, n: int) {
    exists lo: nat, hi: nat :: lo <= hi <= |values| && hi - lo >= n && NonDecreasing(values, lo, hi)
  }

  /** Whatever the configuration, the hybrid returns the sorted permutation of its input, at the cost of the sort that
      the configuration selects: insertion for few values, counting for a small span, insertion again when there is a
      long run, and merging otherwise. */
  method HybridSort(values: seq<int>, params: Params, ops: Ops) returns (out: seq<int>)
    modifies ops
    ensures IsSortOf(out, values)
    ensures var moves, comparisons := ops.moves - old(ops.moves), ops.comparisons - old(ops.comparisons);
            if |values| <= GetOr(params.insertionThreshold, 12) then InsertionCost(values, moves, comparisons)
            else if SpanWithin(values, GetOr(params.countingSpanLimit, 128)) then
              CountingCost(values, moves, comparisons)
            else if HasRun(values, GetOr(params.runDetectionMin, 10)) then InsertionCost(values, moves, comparisons)
            else MergeCost(values, moves, comparisons)
  {
    if |values| <= GetOr(params.insertionThreshold, 12) {
      out := InsertionSort(values, ops);
      return;
    }
    if values != [] {
      var lo, hi := Extremes(values);
      SpanIs(values, lo, hi, GetOr(params.countingSpanLimit, 128));
      if hi - lo <= GetOr(params.countingSpanLimit, 128) {
        out := CountingSort(values, lo, hi, ops);
        return;
      }
    }
    var run := LongestNonDecreasingRun(values);
    LongestIsEnough(values, run, GetOr(params.runDetectionMin, 10));
    if run >= GetOr(params.runDetectionMin, 10) {
      out := InsertionSort(values, ops);
    } else {
      out := MergeSort(values, ops);
    }
  }

  lemma SpanIs(values: seq<int>, lo: int, hi: int, limit: int)
    requires lo in values && hi in values && forall v :: v in values ==> lo <= v <= hi
    ensures SpanWithin(values, limit) <==> hi - lo <= limit
  {
  }

  lemma LongestIsEnough(values: seq<int>, best: nat, n: int)
    requires exists lo: nat, hi: nat :: lo <= hi <= |values| && hi - lo == best && NonDecreasing(values, lo, hi)
    requires forall hi: nat :: hi <= |values| ==> RunsEndingAt(values, hi, best)
    ensures HasRun(values, n) <==> best >= n
  {
    if HasRun(values, n) {
      var lo: nat, hi: nat :| lo <= hi <= |values| && hi - lo >= n && NonDecreasing(values, lo, hi);
      assert RunsEndingAt(values, hi, best);
    }
  }

  /** The hybrid and the baseline agree on every input under every configuration. */
  method HybridAgreesWithMerge(values: seq<int>, params: Params) returns (hybrid: seq<int>, baseline: seq<int>)
    ensures hybrid == baseline
    ensures IsSortOf(hybrid, values)
  {
    var hybridOps := new Ops();
    var baselineOps := new Ops();
    hybrid := HybridSort(values, params, hybridOps);
    baseline := MergeSort(values, baselineOps);
    SortIsUnique(hybrid, baseline);
  }
}
