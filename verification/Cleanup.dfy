/**
  Selection of orphaned MCP server processes: the protected subtree of the current session,
  older duplicates among siblings, and the ancestor walks over a process table.

  Commands are strings; the text patterns that classify them are uninterpreted functions.
 */
module Cleanup {
  import opened Wrappers

  datatype Process = Process(pid: int, ppid: int, command: string)

  datatype Classifier = Classifier(
    entrypoint: string -> Option<string>,
    isCodex: string -> bool,
    isLauncher: string -> bool)

  type Table = map<int, Process>

  /** The table a `Map` keyed by pid ends up with: a later entry replaces an earlier one. */
  function TableOf(processes: seq<Process>): (t: Table)
    ensures forall p :: p in processes ==> p.pid in t
    ensures forall i :: i in t ==> t[i] in processes && t[i].pid == i
    decreases |processes|
  {
    if processes == [] then map[]
    else
      var last := processes[|processes| - 1];
      TableOf(processes[..|processes| - 1])[last.pid := last]
  }

  predicate UniquePids(processes: seq<Process>) {
    forall i, j :: 0 <= i < j < |processes| ==> processes[i].pid != processes[j].pid
  }

  lemma {:induction false} TableOfUnique(processes: seq<Process>, p: Process)
    requires UniquePids(processes) && p in processes
    ensures TableOf(processes)[p.pid] == p
    decreases |processes|
  {
    var last := processes[|processes| - 1];
    if p != last {
      assert p in processes[..|processes| - 1];
      TableOfUnique(processes[..|processes| - 1], p);
      var i :| 0 <= i < |processes| - 1 && processes[i] == p;
    }
  }

  // ------------------------------------------------------------------ ancestors

  /** The parent a walk moves to: recorded, and positive. */
  function ParentOf(table: Table, pid: int): Option<int> {
    if pid in table && table[pid].ppid > 0 then Some(table[pid].ppid) else None
  }

  /** The `k`-th ancestor of a process. */
  function Ancestor(table: Table, pid: int, k: nat): Option<int> {
    if k == 0 then Some(pid)
    else
      var below := Ancestor(table, pid, k - 1);
      if below.Some? then ParentOf(table, below.value) else None
  }

  /** Some proper ancestor is in the table and satisfies the predicate. */
  ghost predicate AncestorMatches(table: Table, pid: int, matches: string -> bool) {
    exists k: nat :: 1 <= k && MatchAt(table, Ancestor(table, pid, k), matches)
  }

  predicate MatchAt(table: Table, at: Option<int>, matches: string -> bool) {
    at.Some? && at.value in table && matches(table[at.value].command)
  }

  /** Every parent of a visited process is visited too, or is `next`. */
  predicate ClosedUpTo(table: Table, visited: set<int>, next: Option<int>) {
    forall q :: q in visited && ParentOf(table, q).Some? ==>
      ParentOf(table, q) == next || ParentOf(table, q).value in visited
  }

  lemma {:induction false} AncestorsStayVisited(table: Table, pid: int, visited: set<int>, k: nat)
    requires 1 <= k && ClosedUpTo(table, visited, None)
    requires ParentOf(table, pid).Some? ==> ParentOf(table, pid).value in visited
    ensures Ancestor(table, pid, k).Some? ==> Ancestor(table, pid, k).value in visited
  {
    if k > 1 {
      AncestorsStayVisited(table, pid, visited, k - 1);
    }
  }

  /** The walk ends on every table, cyclic ones included, and finds exactly the matching ancestors. */
  method HasAncestorMatching(table: Table, pid: int, matches: string -> bool) returns (found: bool)
    ensures found <==> AncestorMatches(table, pid, matches)
  {
    var seen: set<int> := {};
    var current := ParentOf(table, pid);
    ghost var k: nat := 1;
    assert Ancestor(table, pid, 0) == Some(pid);
    while current.Some? && current.value !in seen
      invariant 1 <= k && current == Ancestor(table, pid, k)
      invariant seen <= table.Keys
      invariant forall q :: q in seen ==> !matches(table[q].command)
      invariant ClosedUpTo(table, seen, current)
      invariant ParentOf(table, pid).Some? ==> ParentOf(table, pid) == current || ParentOf(table, pid).value in seen
      decreases table.Keys - seen
    {
      if current.value !in table {
        NothingAbove(table, pid, k, matches, seen);
        return false;
      }
      if matches(table[current.value].command) {
        assert MatchAt(table, Ancestor(table, pid, k), matches);
        return true;
      }
      seen := seen + {current.value};
      current := ParentOf(table, current.value);
      k := k + 1;
    }
    forall j: nat | 1 <= j ensures !MatchAt(table, Ancestor(table, pid, j), matches) {
      AncestorsStayVisited(table, pid, seen, j);
    }
    return false;
  }

  /** The chain leaves the table at `k`: what came before was visited, and nothing comes after. */
  lemma NothingAbove(table: Table, pid: int, k: nat, matches: string -> bool, seen: set<int>)
    requires 1 <= k && Ancestor(table, pid, k).Some? && Ancestor(table, pid, k).value !in table
    requires seen <= table.Keys && forall q :: q in seen ==> !matches(table[q].command)
    requires ClosedUpTo(table, seen, Ancestor(table, pid, k))
    requires ParentOf(table, pid).Some? ==>
              ParentOf(table, pid) == Ancestor(table, pid, k) || ParentOf(table, pid).value in seen
    ensures !AncestorMatches(table, pid, matches)
  {
    var beyond := seen + {Ancestor(table, pid, k).value};
    forall j: nat | 1 <= j ensures !MatchAt(table, Ancestor(table, pid, j), matches) {
      AncestorsStayVisited(table, pid, beyond, j);
    }
  }

  lemma {:induction false} AncestorAbove(table: Table, pid: int, k: nat)
    ensures Ancestor(table, pid, k + 1) ==
              match ParentOf(table, pid)
              case Some(parent) => Ancestor(table, parent, k)
              case None => None
  {
    if k > 0 {
      AncestorAbove(table, pid, k - 1);
    }
  }

  /** Looking one process up: only a recorded positive parent that is itself recorded counts, or one above it. */
  lemma AncestorMatchesAbove(table: Table, pid: int, matches: string -> bool)
    ensures AncestorMatches(table, pid, matches) <==>
              && pid in table && table[pid].ppid > 0
              && var parent := table[pid].ppid;
                 || (parent in table && matches(table[parent].command))
                 || AncestorMatches(table, parent, matches)
  {
    if AncestorMatches(table, pid, matches) {
      var k: nat :| 1 <= k && MatchAt(table, Ancestor(table, pid, k), matches);
      AncestorAbove(table, pid, k - 1);
      var parent := table[pid].ppid;
      assert k > 1 ==> 1 <= k - 1 && MatchAt(table, Ancestor(table, parent, k - 1), matches);
    }
    if pid in table && table[pid].ppid > 0 {
      var parent := table[pid].ppid;
      AncestorAbove(table, pid, 0);
      if parent in table && matches(table[parent].command) {
        assert 1 <= 1 && MatchAt(table, Ancestor(table, pid, 1), matches);
      }
      if AncestorMatches(table, parent, matches) {
        var k: nat :| 1 <= k && MatchAt(table, Ancestor(table, parent, k), matches);
        AncestorAbove(table, pid, k);
        assert 1 <= k + 1 && MatchAt(table, Ancestor(table, pid, k + 1), matches);
      }
    }
  }

  // ------------------------------------------------------------------ the protected root

  predicate CodexAt(table: Table, pid: int, k: Classifier) {
    pid in table && table[pid].command != "" && k.isCodex(table[pid].command)
  }

  /** The loop of the root search ends at this pid. */
  predicate Stops(table: Table, pid: int, k: Classifier) {
    pid <= 1 || CodexAt(table, pid, k) || pid !in table || table[pid].ppid <= 0 || table[pid].ppid == pid
  }

  /** Where the root search stands after `n` rounds. */
  function Walk(table: Table, pid: int, k: Classifier, n: nat): int {
    if n == 0 then pid
    else
      var at := Walk(table, pid, k, n - 1);
      if Stops(table, at, k) then at else table[at].ppid
  }

  ghost predicate WalkEnds(table: Table, pid: int, k: Classifier) {
    exists n: nat :: Stops(table, Walk(table, pid, k, n), k)
  }

  /** The nearest Codex process at or above the current one, or the current one when there is none. */
  ghost predicate IsRoot(table: Table, current: int, k: Classifier, root: int) {
    exists n: nat ::
      && Stops(table, Walk(table, current, k, n), k)
      && (forall i: nat :: i < n ==> !Stops(table, Walk(table, current, k, i), k))
      && root == if Walk(table, current, k, n) > 1 && CodexAt(table, Walk(table, current, k, n), k)
                 then Walk(table, current, k, n) else current
  }

  lemma RootIsUnique(table: Table, current: int, k: Classifier, a: int, b: int)
    requires IsRoot(table, current, k, a) && IsRoot(table, current, k, b)
    ensures a == b
  {
    var n: nat :| Stops(table, Walk(table, current, k, n), k)
                  && (forall i: nat :: i < n ==> !Stops(table, Walk(table, current, k, i), k))
                  && a == if Walk(table, current, k, n) > 1 && CodexAt(table, Walk(table, current, k, n), k)
                          then Walk(table, current, k, n) else current;
    var m: nat :| Stops(table, Walk(table, current, k, m), k)
                  && (forall i: nat :: i < m ==> !Stops(table, Walk(table, current, k, i), k))
                  && b == if Walk(table, current, k, m) > 1 && CodexAt(table, Walk(table, current, k, m), k)
                          then Walk(table, current, k, m) else current;
    assert n == m;
  }

  /** The protected root, when the walk that looks for it ends. */
  ghost function Root(table: Table, current: int, k: Classifier): (root: int)
    requires WalkEnds(table, current, k)
    ensures IsRoot(table, current, k, root)
  {
    var n: nat :| Stops(table, Walk(table, current, k, n), k);
    RootExists(table, current, k, n);
    var root :| IsRoot(table, current, k, root);
    root
  }

  /** Where the search stops first decides the root. */
  lemma FoundRoot(table: Table, current: int, k: Classifier, n: nat)
    requires WalkEnds(table, current, k)
    requires Stops(table, Walk(table, current, k, n), k)
    requires forall i: nat :: i < n ==> !Stops(table, Walk(table, current, k, i), k)
    ensures var at := Walk(table, current, k, n);
            Root(table, current, k) == if at > 1 && CodexAt(table, at, k) then at else current
  {
    var at := Walk(table, current, k, n);
    RootIsUnique(table, current, k, Root(table, current, k), if at > 1 && CodexAt(table, at, k) then at else current);
  }

  lemma RootExists(table: Table, current: int, k: Classifier, n: nat)
    requires Stops(table, Walk(table, current, k, n), k)
    ensures exists root :: IsRoot(table, current, k, root)
  {
    var m := FirstStop(table, current, k, n);
    var at := Walk(table, current, k, m);
    assert IsRoot(table, current, k, if at > 1 && CodexAt(table, at, k) then at else current);
  }

  lemma {:induction false} WalkAbove(table: Table, pid: int, k: Classifier, n: nat)
    requires !Stops(table, pid, k)
    ensures Walk(table, pid, k, n + 1) == Walk(table, table[pid].ppid, k, n)
  {
    if n > 0 {
      WalkAbove(table, pid, k, n - 1);
    }
  }

  lemma RootHere(table: Table, current: int, k: Classifier)
    requires Stops(table, current, k)
    ensures WalkEnds(table, current, k) && Root(table, current, k) == current
  {
    assert Stops(table, Walk(table, current, k, 0), k);
    FoundRoot(table, current, k, 0);
  }

  ghost predicate FirstStopAt(table: Table, pid: int, k: Classifier, m: nat) {
    Stops(table, Walk(table, pid, k, m), k) && forall i: nat :: i < m ==> !Stops(table, Walk(table, pid, k, i), k)
  }

  lemma FirstStopAbove(table: Table, current: int, k: Classifier) returns (n: nat)
    requires WalkEnds(table, current, k) && !Stops(table, current, k)
    ensures FirstStopAt(table, current, k, n + 1) && FirstStopAt(table, table[current].ppid, k, n)
    ensures Walk(table, current, k, n + 1) == Walk(table, table[current].ppid, k, n)
  {
    var m: nat :| Stops(table, Walk(table, current, k, m), k);
    var first := FirstStop(table, current, k, m);
    assert Walk(table, current, k, 0) == current;
    n := first - 1;
    WalkAbove(table, current, k, n);
    forall i: nat | i < n ensures !Stops(table, Walk(table, table[current].ppid, k, i), k) {
      WalkAbove(table, current, k, i);
      assert !Stops(table, Walk(table, current, k, i + 1), k);
    }
  }

  lemma RootFurtherUp(table: Table, current: int, k: Classifier)
    requires WalkEnds(table, current, k) && !Stops(table, current, k)
    ensures var parent := table[current].ppid;
            && WalkEnds(table, parent, k)
            && var above := Root(table, parent, k);
               Root(table, current, k) == if above > 1 && CodexAt(table, above, k) then above else current
  {
    var parent := table[current].ppid;
    var n := FirstStopAbove(table, current, k);
    FoundRoot(table, current, k, n + 1);
    FoundRoot(table, parent, k, n);
    NoCodexBelow(table, parent, k, n);
  }

  /** A process from which no Codex process is found is none itself. */
  lemma NoCodexBelow(table: Table, pid: int, k: Classifier, n: nat)
    requires FirstStopAt(table, pid, k, n)
    ensures var at := Walk(table, pid, k, n);
            !(at > 1 && CodexAt(table, at, k)) ==> !(pid > 1 && CodexAt(table, pid, k))
  {
    if n > 0 {
      assert !Stops(table, Walk(table, pid, k, 0), k);
    }
  }

  /** The protected root, one process at a time: a Codex process with a pid above 1 is its own root, and so is the
      current process where the chain ends; elsewhere it is the Codex process found from the parent, if there is one,
      and the current process otherwise. */
  lemma RootIs(table: Table, current: int, k: Classifier)
    requires WalkEnds(table, current, k)
    ensures if current <= 1 || current !in table
               || (table[current].command != "" && k.isCodex(table[current].command))
               || table[current].ppid <= 0 || table[current].ppid == current
            then Root(table, current, k) == current
            else
              var parent := table[current].ppid;
              && WalkEnds(table, parent, k)
              && var above := Root(table, parent, k);
                 Root(table, current, k) ==
                   if above > 1 && above in table && table[above].command != "" && k.isCodex(table[above].command)
                   then above else current
  {
    if Stops(table, current, k) {
      RootHere(table, current, k);
    } else {
      RootFurtherUp(table, current, k);
    }
  }

  method ResolveProtectedRoot(processes: seq<Process>, current: int, k: Classifier) returns (root: int)
    requires WalkEnds(TableOf(processes), current, k)
    ensures root == Root(TableOf(processes), current, k)
  {
    var table := TableOf(processes);
    ghost var bound: nat :| Stops(table, Walk(table, current, k, bound), k);
    var pid := current;
    ghost var n: nat := 0;
    while pid > 1
      invariant pid == Walk(table, current, k, n)
      invariant n <= bound
      invariant forall i: nat :: i < n ==> !Stops(table, Walk(table, current, k, i), k)
      decreases bound - n
    {
      if CodexAt(table, pid, k) {
        FoundRoot(table, current, k, n);
        return pid;
      }
      if pid !in table || table[pid].ppid <= 0 || table[pid].ppid == pid {
        break;
      }
      assert !Stops(table, pid, k);
      pid := table[pid].ppid;
      n := n + 1;
      assert pid == Walk(table, current, k, n);
    }
    FoundRoot(table, current, k, n);
    return current;
  }

  lemma {:induction false} WalkShift(table: Table, pid: int, k: Classifier, i: nat, j: nat, t: nat)
    requires Walk(table, pid, k, i) == Walk(table, pid, k, j)
    ensures Walk(table, pid, k, i + t) == Walk(table, pid, k, j + t)
  {
    if t > 0 {
      WalkShift(table, pid, k, i, j, t - 1);
    }
  }

  /** The pids visited in the first `n` rounds. */
  function Visited(table: Table, pid: int, k: Classifier, n: nat): set<int> {
    if n == 0 then {} else Visited(table, pid, k, n - 1) + {Walk(table, pid, k, n - 1)}
  }

  lemma {:induction false} DistinctVisits(table: Table, pid: int, k: Classifier, n: nat)
    requires forall i: nat, j: nat :: i < j < n ==> Walk(table, pid, k, i) != Walk(table, pid, k, j)
    ensures |Visited(table, pid, k, n)| == n
  {
    if n > 0 {
      DistinctVisits(table, pid, k, n - 1);
      if Walk(table, pid, k, n - 1) in Visited(table, pid, k, n - 1) {
        var i := VisitedAt(table, pid, k, n - 1, Walk(table, pid, k, n - 1));
      }
    }
  }

  lemma {:induction false} VisitedAt(table: Table, pid: int, k: Classifier, n: nat, p: int) returns (i: nat)
    requires p in Visited(table, pid, k, n)
    ensures i < n && Walk(table, pid, k, i) == p
  {
    if p == Walk(table, pid, k, n - 1) {
      i := n - 1;
    } else {
      i := VisitedAt(table, pid, k, n - 1, p);
    }
  }

  lemma SubsetSize(a: set<int>, b: set<int>)
    requires a <= b
    ensures |a| <= |b|
  {
    assert b == a + (b - a);
  }

  lemma {:induction false} VisitedInTable(table: Table, pid: int, k: Classifier, n: nat)
    requires forall i: nat :: i < n ==> !Stops(table, Walk(table, pid, k, i), k)
    ensures Visited(table, pid, k, n) <= table.Keys
  {
    if n > 0 {
      VisitedInTable(table, pid, k, n - 1);
      assert !Stops(table, Walk(table, pid, k, n - 1), k);
    }
  }

  lemma NoRepeat(table: Table, pid: int, k: Classifier, m: nat, i: nat, j: nat)
    requires FirstStopAt(table, pid, k, m) && i < j < m
    ensures Walk(table, pid, k, i) != Walk(table, pid, k, j)
  {
    if Walk(table, pid, k, i) == Walk(table, pid, k, j) {
      WalkShift(table, pid, k, i, j, m - j);
    }
  }

  /** Before its first stop a walk visits different pids, all of them in the table. */
  lemma FirstStopIsEarly(table: Table, pid: int, k: Classifier, m: nat)
    requires FirstStopAt(table, pid, k, m)
    ensures m <= |table|
  {
    forall i: nat, j: nat | i < j < m ensures Walk(table, pid, k, i) != Walk(table, pid, k, j) {
      NoRepeat(table, pid, k, m, i, j);
    }
    DistinctVisits(table, pid, k, m);
    VisitedInTable(table, pid, k, m);
    SubsetSize(Visited(table, pid, k, m), table.Keys);
  }

  ghost predicate EndsWithin(table: Table, pid: int, k: Classifier, rounds: nat) {
    exists n: nat :: n <= rounds && Stops(table, Walk(table, pid, k, n), k)
  }

  /** Root resolution ends if and only if it ends within as many rounds as the table has entries. */
  lemma WalkEndsWithinTable(table: Table, pid: int, k: Classifier)
    ensures WalkEnds(table, pid, k) <==> EndsWithin(table, pid, k, |table|)
  {
    if WalkEnds(table, pid, k) {
      var n: nat :| Stops(table, Walk(table, pid, k, n), k);
      var m := FirstStop(table, pid, k, n);
      FirstStopIsEarly(table, pid, k, m);
      assert m <= |table| && Stops(table, Walk(table, pid, k, m), k);
    }
  }

  lemma {:induction false} FirstStop(table: Table, pid: int, k: Classifier, n: nat) returns (m: nat)
    requires Stops(table, Walk(table, pid, k, n), k)
    ensures m <= n && FirstStopAt(table, pid, k, m)
  {
    m := 0;
    while !Stops(table, Walk(table, pid, k, m), k)
      invariant m <= n && forall i: nat :: i < m ==> !Stops(table, Walk(table, pid, k, i), k)
      decreases n - m
    {
      m := m + 1;
    }
  }

  /** Processes among which the root search goes on: none of them ends it, and each has its parent among them. */
  ghost predicate IsTrap(table: Table, trap: set<int>, k: Classifier) {
    forall q :: q in trap ==> !Stops(table, q, k) && table[q].ppid in trap
  }

  ghost predicate Trapped(table: Table, pid: int, k: Classifier) {
    exists trap :: pid in trap && IsTrap(table, trap, k)
  }

  /** The root search comes back to a pid before anything has ended it. */
  ghost predicate MeetsTwice(table: Table, pid: int, k: Classifier, i: nat, j: nat) {
    && i < j && Walk(table, pid, k, i) == Walk(table, pid, k, j)
    && forall m: nat :: m < j ==> !Stops(table, Walk(table, pid, k, m), k)
  }

  lemma {:induction false} StaysTrapped(table: Table, pid: int, k: Classifier, trap: set<int>, n: nat)
    requires pid in trap && IsTrap(table, trap, k)
    ensures Walk(table, pid, k, n) in trap
  {
    if n > 0 {
      StaysTrapped(table, pid, k, trap, n - 1);
    }
  }

  lemma {:induction false} WalkIsVisited(table: Table, pid: int, k: Classifier, i: nat, n: nat)
    requires i < n
    ensures Walk(table, pid, k, i) in Visited(table, pid, k, n)
  {
    if i < n - 1 {
      WalkIsVisited(table, pid, k, i, n - 1);
    }
  }

  /** What was visited before a pid came up again is a trap. */
  lemma RepeatIsTrap(table: Table, pid: int, k: Classifier, i: nat, j: nat)
    requires MeetsTwice(table, pid, k, i, j)
    ensures Trapped(table, pid, k)
  {
    var trap := Visited(table, pid, k, j);
    forall q | q in trap ensures !Stops(table, q, k) && table[q].ppid in trap {
      var m := VisitedAt(table, pid, k, j, q);
      assert !Stops(table, Walk(table, pid, k, m), k) && table[q].ppid == Walk(table, pid, k, m + 1);
      WalkIsVisited(table, pid, k, if m + 1 < j then m + 1 else i, j);
    }
    WalkIsVisited(table, pid, k, 0, j);
    assert pid in trap && IsTrap(table, trap, k);
  }

  /** A search that never ends comes back to a pid, since it stays in the table. */
  lemma EndlessMeetsTwice(table: Table, pid: int, k: Classifier) returns (i: nat, j: nat)
    requires !WalkEnds(table, pid, k)
    ensures MeetsTwice(table, pid, k, i, j)
  {
    var n := |table| + 1;
    VisitedInTable(table, pid, k, n);
    SubsetSize(Visited(table, pid, k, n), table.Keys);
    if forall a: nat, b: nat :: a < b < n ==> Walk(table, pid, k, a) != Walk(table, pid, k, b) {
      DistinctVisits(table, pid, k, n);
      assert false;
    }
    i, j :| 0 <= i < j < n && Walk(table, pid, k, i) == Walk(table, pid, k, j);
  }

  /** Root resolution ends if and only if no processes of the table trap it, which is to say that it meets no pid twice
      before a Codex process, a missing or non-positive parent, or a process that is its own parent. */
  lemma WalkEndsUnlessTrapped(table: Table, pid: int, k: Classifier)
    ensures WalkEnds(table, pid, k) <==> !Trapped(table, pid, k)
    ensures WalkEnds(table, pid, k) <==> !exists i: nat, j: nat :: MeetsTwice(table, pid, k, i, j)
  {
    if WalkEnds(table, pid, k) {
      var n: nat :| Stops(table, Walk(table, pid, k, n), k);
      forall trap | pid in trap ensures !IsTrap(table, trap, k) {
        if IsTrap(table, trap, k) {
          StaysTrapped(table, pid, k, trap, n);
        }
      }
      forall i: nat, j: nat ensures !MeetsTwice(table, pid, k, i, j) {
        if MeetsTwice(table, pid, k, i, j) {
          RepeatIsTrap(table, pid, k, i, j);
        }
      }
    } else {
      var i, j := EndlessMeetsTwice(table, pid, k);
      RepeatIsTrap(table, pid, k, i, j);
    }
  }

  /** Two processes that claim each other as parent, none of them Codex: the root search never ends. */
  lemma {:induction false} CyclicTableNeverEnds(k: Classifier, n: nat)
    requires !k.isCodex("a") && !k.isCodex("b")
    ensures var table := TableOf([Process(2, 3, "a"), Process(3, 2, "b")]);
            !Stops(table, Walk(table, 2, k, n), k) && Walk(table, 2, k, n) == if n % 2 == 0 then 2 else 3
  {
    var table := TableOf([Process(2, 3, "a"), Process(3, 2, "b")]);
    assert [Process(2, 3, "a"), Process(3, 2, "b")][..1] == [Process(2, 3, "a")];
    assert table[2] == Process(2, 3, "a") && table[3] == Process(3, 2, "b");
    if n > 0 {
      CyclicTableNeverEnds(k, n - 1);
    }
  }

  // ------------------------------------------------------------------ the protected subtree

  /** With a process, the set contains its children. */
  predicate ClosedDown(processes: seq<Process>, s: set<int>) {
    forall p :: p in processes && p.ppid in s ==> p.pid in s
  }

  /** In every child-closed set that contains the root: the root and its descendants. */
  ghost predicate IsDescendant(processes: seq<Process>, root: int, pid: int) {
    forall s: set<int> :: ClosedDown(processes, s) && root in s ==> pid in s
  }

  function Children(processes: seq<Process>, parent: int): (c: seq<int>)
    ensures forall i :: i in c <==> exists p :: p in processes && p.ppid == parent && p.pid == i
    decreases |processes|
  {
    if processes == [] then []
    else
      var rest, last := processes[..|processes| - 1], processes[|processes| - 1];
      assert processes == rest + [last];
      if last.ppid == parent then Children(rest, parent) + [last.pid] else Children(rest, parent)
  }

  function KidsOf(children: map<int, seq<int>>, pid: int): seq<int> {
    if pid in children then children[pid] else []
  }

  predicate IsChildIndex(processes: seq<Process>, children: map<int, seq<int>>) {
    forall q :: q in Parents(processes) + children.Keys ==> KidsOf(children, q) == Children(processes, q)
  }

  function Parents(processes: seq<Process>): set<int> {
    set p | p in processes :: p.ppid
  }

  lemma IndexLookup(processes: seq<Process>, children: map<int, seq<int>>, pid: int)
    requires IsChildIndex(processes, children)
    ensures forall q :: q in KidsOf(children, pid) <==> q in Children(processes, pid)
  {
    if pid !in Parents(processes) && pid !in children {
      assert forall p :: p in processes ==> p.ppid in Parents(processes);
    }
  }

  method ChildrenByPid(processes: seq<Process>) returns (children: map<int, seq<int>>)
    ensures IsChildIndex(processes, children)
  {
    children := map[];
    for i := 0 to |processes|
      invariant forall q :: KidsOf(children, q) == Children(processes[..i], q)
    {
      var p := processes[i];
      assert processes[..i + 1][..i] == processes[..i];
      children := children[p.ppid := KidsOf(children, p.ppid) + [p.pid]];
    }
    assert processes[..|processes|] == processes;
  }

  function Pids(processes: seq<Process>): set<int> {
    set p | p in processes :: p.pid
  }

  /** The worklist computes exactly the descendants of its start. */
  method Descendants(processes: seq<Process>, children: map<int, seq<int>>, start: int) returns (protected: set<int>)
    requires IsChildIndex(processes, children)
    ensures forall pid :: pid in protected <==> IsDescendant(processes, start, pid)
  {
    protected := {};
    var stack := [start];
    WorkStarts(processes, start);
    while stack != []
      invariant Worklist(processes, start, protected, stack)
      decreases |Everyone(processes, start) - protected|, |stack|
    {
      var pid := stack[|stack| - 1];
      var below := stack[..|stack| - 1];
      assert stack == below + [pid];
      if pid in protected {
        WorkPop(processes, start, protected, below, pid);
        stack := below;
      } else {
        var more := NewKids(KidsOf(children, pid), protected + {pid});
        IndexLookup(processes, children, pid);
        Expand(processes, start, protected, below, pid, more);
        protected := protected + {pid};
        stack := below + more;
      }
    }
    WorkDone(processes, start, protected);
  }

  /** The current session's subtree: everything at or below the protected root. */
  method BuildProtectedPidSet(processes: seq<Process>, current: int, k: Classifier)
    returns (protected: set<int>)
    requires WalkEnds(TableOf(processes), current, k)
    ensures forall pid :: pid in protected <==> IsDescendant(processes, Root(TableOf(processes), current, k), pid)
  {
    var children := ChildrenByPid(processes);
    var start := ResolveProtectedRoot(processes, current, k);
    protected := Descendants(processes, children, start);
  }

  function Everyone(processes: seq<Process>, root: int): set<int> {
    Pids(processes) + {root}
  }

  /** Everything seen so far is a descendant; the children of the protected are protected or pending. */
  ghost predicate Worklist(processes: seq<Process>, root: int, protected: set<int>, stack: seq<int>) {
    && (forall q :: q in stack || q in protected ==> q in Everyone(processes, root) && q in Subtree(processes, root))
    && (root in protected || root in stack)
    && (forall p :: p in processes && p.ppid in protected ==> p.pid in protected || p.pid in stack)
  }

  lemma WorkStarts(processes: seq<Process>, root: int)
    ensures Worklist(processes, root, {}, [root])
  {
  }

  lemma WorkPop(processes: seq<Process>, root: int, protected: set<int>, below: seq<int>, pid: int)
    requires Worklist(processes, root, protected, below + [pid]) && pid in protected
    ensures Worklist(processes, root, protected, below)
  {
    assert forall q :: q in below ==> q in below + [pid];
  }

  lemma WorkDone(processes: seq<Process>, root: int, protected: set<int>)
    requires Worklist(processes, root, protected, [])
    ensures forall pid :: pid in protected <==> IsDescendant(processes, root, pid)
  {
    SubtreeIsLeast(processes, root, protected);
  }

  lemma Expand(processes: seq<Process>, root: int, protected: set<int>, below: seq<int>, pid: int, more: seq<int>)
    requires Worklist(processes, root, protected, below + [pid]) && pid !in protected
    requires forall q :: q in more <==> q in Children(processes, pid) && q !in protected + {pid}
    ensures Worklist(processes, root, protected + {pid}, below + more)
    ensures |Everyone(processes, root) - (protected + {pid})| < |Everyone(processes, root) - protected|
  {
    var all := Everyone(processes, root);
    assert pid in below + [pid];
    assert all - protected == (all - (protected + {pid})) + {pid};
    SubtreeIsClosed(processes, root);
    forall q | q in more ensures q in all && q in Subtree(processes, root) {
      var p :| p in processes && p.ppid == pid && p.pid == q;
    }
  }

  ghost function Subtree(processes: seq<Process>, root: int): iset<int> {
    iset pid | IsDescendant(processes, root, pid)
  }

  lemma SubtreeIsClosed(processes: seq<Process>, root: int)
    ensures root in Subtree(processes, root)
    ensures forall p :: p in processes && p.ppid in Subtree(processes, root) ==> p.pid in Subtree(processes, root)
  {
  }

  lemma SubtreeIsLeast(processes: seq<Process>, root: int, s: set<int>)
    requires root in s && ClosedDown(processes, s) && forall q :: q in s ==> q in Subtree(processes, root)
    ensures forall pid :: pid in s <==> IsDescendant(processes, root, pid)
  {
    forall pid ensures pid in s <==> IsDescendant(processes, root, pid) {
      assert pid in s ==> pid in Subtree(processes, root);
    }
  }

  /** The children that are not yet protected, pushed in order. */
  method NewKids(kids: seq<int>, protected: set<int>) returns (more: seq<int>)
    ensures forall q :: q in more <==> q in kids && q !in protected
  {
    more := [];
    for i := 0 to |kids|
      invariant forall q :: q in more <==> q in kids[..i] && q !in protected
    {
      if kids[i] !in protected {
        more := more + [kids[i]];
      }
    }
    assert kids[..|kids|] == kids;
  }

  // ------------------------------------------------------------------ candidates

  datatype Reason = Parentless | OutsideSession | DuplicateSibling

  datatype Candidate = Candidate(process: Process, reason: Reason)

  predicate IsMcp(p: Process, k: Classifier) {
    k.entrypoint(p.command).Some?
  }

  /** The group a process belongs to: its parent and a non-empty entrypoint. */
  function GroupOf(p: Process, k: Classifier): Option<(int, string)> {
    match k.entrypoint(p.command)
    case Some(e) => if e == "" then None else Some((p.ppid, e))
    case None => None
  }

  /** A process of the same group has a larger pid. */
  ghost predicate Outlived(processes: seq<Process>, p: Process, k: Classifier) {
    GroupOf(p, k).Some? && exists q :: q in processes && GroupOf(q, k) == GroupOf(p, k) && q.pid > p.pid
  }

  predicate SortedByPid(s: seq<Candidate>) {
    forall i, j :: 0 <= i < j < |s| ==> s[i].process.pid <= s[j].process.pid
  }

  /** Where a stable sort puts a pid: after everything not greater. */
  function Position(sorted: seq<Candidate>, pid: int): (k: nat)
    requires SortedByPid(sorted)
    ensures k <= |sorted|
    ensures forall i :: 0 <= i < k ==> sorted[i].process.pid <= pid
    ensures forall i :: k <= i < |sorted| ==> sorted[i].process.pid > pid
    decreases |sorted|
  {
    if sorted == [] || sorted[|sorted| - 1].process.pid <= pid then |sorted|
    else Position(sorted[..|sorted| - 1], pid)
  }

  function InsertAt(s: seq<Candidate>, k: nat, c: Candidate): (r: seq<Candidate>)
    requires k <= |s|
    ensures |r| == |s| + 1 && forall i :: 0 <= i < |r| ==>
              r[i] == if i < k then s[i] else if i == k then c else s[i - 1]
    ensures multiset(r) == multiset(s + [c])
  {
    assert s == s[..k] + s[k..];
    s[..k] + [c] + s[k..]
  }

  function Placed(sorted: seq<Candidate>, c: Candidate): (r: seq<Candidate>)
    requires SortedByPid(sorted)
    ensures SortedByPid(r)
    ensures multiset(r) == multiset(sorted + [c]) && |r| == |sorted| + 1
  {
    InsertAt(sorted, Position(sorted, c.process.pid), c)
  }

  function SortByPid(candidates: seq<Candidate>): (sorted: seq<Candidate>)
    ensures SortedByPid(sorted)
    ensures multiset(sorted) == multiset(candidates) && |sorted| == |candidates|
    decreases |candidates|
  {
    if candidates == [] then []
    else
      var rest, last := candidates[..|candidates| - 1], candidates[|candidates| - 1];
      assert candidates == rest + [last];
      Placed(SortByPid(rest), last)
  }

  /** No candidate occurs twice. */
  ghost predicate Once(s: seq<Candidate>) {
    forall c :: multiset(s)[c] <= 1
  }

  predicate StrictlyAscending(s: seq<Candidate>) {
    forall i, j :: 0 <= i < j < |s| ==> s[i].process.pid < s[j].process.pid
  }

  lemma OnceMeansDifferent(s: seq<Candidate>, i: nat, j: nat)
    requires Once(s) && i < j < |s|
    ensures s[i] != s[j]
  {
    assert s == s[..j] + s[j..];
    assert s[i] in s[..j] && s[j] in s[j..];
    assert multiset(s)[s[j]] == multiset(s[..j])[s[j]] + multiset(s[j..])[s[j]];
  }

  /** A sorted list of different candidates, one per pid, is strictly ascending. */
  lemma SortedOnceAscends(s: seq<Candidate>)
    requires SortedByPid(s) && Once(s)
    requires forall c, d :: c in s && d in s && c.process.pid == d.process.pid ==> c == d
    ensures StrictlyAscending(s)
  {
    forall i, j | 0 <= i < j < |s| ensures s[i].process.pid < s[j].process.pid {
      OnceMeansDifferent(s, i, j);
    }
  }

  lemma OneProcessPerPid(processes: seq<Process>, p: Process, q: Process)
    requires UniquePids(processes) && p in processes && q in processes && p.pid == q.pid
    ensures p == q
  {
    var i :| 0 <= i < |processes| && processes[i] == p;
    var j :| 0 <= j < |processes| && processes[j] == q;
  }

  /** The members of one sibling group, as candidates, in table order. */
  function Members(processes: seq<Process>, key: (int, string), k: Classifier): (m: seq<Candidate>)
    ensures forall c :: c in m <==>
              c.process in processes && GroupOf(c.process, k) == Some(key) && c.reason == DuplicateSibling
    decreases |processes|
  {
    if processes == [] then []
    else
      var rest, last := processes[..|processes| - 1], processes[|processes| - 1];
      assert processes == rest + [last];
      if GroupOf(last, k) == Some(key) then Members(rest, key, k) + [Candidate(last, DuplicateSibling)]
      else Members(rest, key, k)
  }

  lemma {:induction false} MembersOnce(processes: seq<Process>, key: (int, string), k: Classifier)
    requires UniquePids(processes)
    ensures Once(Members(processes, key, k))
    decreases |processes|
  {
    if processes != [] {
      var rest, last := processes[..|processes| - 1], processes[|processes| - 1];
      MembersOnce(rest, key, k);
      assert Candidate(last, DuplicateSibling) !in Members(rest, key, k) by {
        assert last !in rest;
      }
    }
  }

  /** All but the largest pid of a group. */
  function AllButLargest(group: seq<Candidate>): seq<Candidate> {
    if |group| <= 1 then []
    else
      SortByPid(group)[..|group| - 1]
  }

  lemma SameMembers(a: seq<Candidate>, b: seq<Candidate>)
    requires multiset(a) == multiset(b)
    ensures |a| == |b| && (forall c :: c in a <==> c in b) && (Once(a) ==> Once(b))
  {
    assert |a| == |multiset(a)| == |multiset(b)| == |b|;
    assert forall c :: c in a <==> c in multiset(a);
    assert forall c :: c in b <==> c in multiset(b);
  }

  lemma SortedGroup(processes: seq<Process>, key: (int, string), k: Classifier)
    requires UniquePids(processes)
    ensures var group := Members(processes, key, k);
            var sorted := SortByPid(group);
            |sorted| == |group| && StrictlyAscending(sorted) && Once(sorted) && forall c :: c in sorted <==> c in group
  {
    var group := Members(processes, key, k);
    var sorted := SortByPid(group);
    MembersOnce(processes, key, k);
    SameMembers(group, sorted);
    forall c, d | c in sorted && d in sorted && c.process.pid == d.process.pid ensures c == d {
      OneProcessPerPid(processes, c.process, d.process);
    }
    SortedOnceAscends(sorted);
  }

  /** What is kept of a group: once each, exactly its outlived members. */
  ghost predicate KeepsOutlived(kept: seq<Candidate>, group: seq<Candidate>, processes: seq<Process>, k: Classifier) {
    && Once(kept)
    && forall c :: c in kept <==> c in group && Outlived(processes, c.process, k)
  }

  lemma AllButLargestIsExact(processes: seq<Process>, key: (int, string), k: Classifier)
    requires UniquePids(processes)
    ensures KeepsOutlived(AllButLargest(Members(processes, key, k)), Members(processes, key, k), processes, k)
  {
    var group := Members(processes, key, k);
    if group != [] {
      SortedGroup(processes, key, k);
      LargestStays(processes, key, k, group, SortByPid(group));
      SortedWithoutLast(group);
    }
  }

  lemma SortedWithoutLast(group: seq<Candidate>)
    requires group != []
    ensures AllButLargest(group) == SortByPid(group)[..|group| - 1]
  {
  }

  lemma LargestStays(processes: seq<Process>, key: (int, string), k: Classifier, group: seq<Candidate>,
                     sorted: seq<Candidate>)
    requires group == Members(processes, key, k)
    requires StrictlyAscending(sorted) && Once(sorted) && sorted != []
    requires forall c :: c in sorted <==> c in group
    ensures KeepsOutlived(sorted[..|sorted| - 1], group, processes, k)
  {
    var kept, last := sorted[..|sorted| - 1], sorted[|sorted| - 1];
    assert sorted == kept + [last];
    OnceLast(sorted);
    LargestIsNotOutlived(processes, key, k, sorted);
    forall c | c in kept ensures Outlived(processes, c.process, k) {
      var i :| 0 <= i < |kept| && kept[i] == c;
      assert last.process.pid > c.process.pid && last in group;
    }
    forall c ensures multiset(kept)[c] <= 1 {
      assert multiset(sorted)[c] == multiset(kept)[c] + multiset{last}[c];
    }
  }

  lemma LargestIsNotOutlived(processes: seq<Process>, key: (int, string), k: Classifier, sorted: seq<Candidate>)
    requires StrictlyAscending(sorted) && sorted != []
    requires forall c :: c in sorted <==> c in Members(processes, key, k)
    ensures !Outlived(processes, sorted[|sorted| - 1].process, k)
  {
    var last := sorted[|sorted| - 1];
    assert last in sorted;
    forall q | q in processes && GroupOf(q, k) == Some(key) ensures q.pid <= last.process.pid {
      assert Candidate(q, DuplicateSibling) in sorted;
    }
  }

  lemma OnceLast(s: seq<Candidate>)
    requires Once(s) && s != []
    ensures s[|s| - 1] !in s[..|s| - 1]
  {
    var kept, last := s[..|s| - 1], s[|s| - 1];
    assert s == kept + [last];
    assert multiset(s)[last] == multiset(kept)[last] + 1;
  }

  function GroupAt(groups: map<(int, string), seq<Candidate>>, key: (int, string)): seq<Candidate> {
    if key in groups then groups[key] else []
  }

  /** The groups built from a prefix of the table, and their keys once each in insertion order. */
  ghost predicate Grouped(groups: map<(int, string), seq<Candidate>>, keys: seq<(int, string)>,
                          processes: seq<Process>, k: Classifier) {
    && (forall key :: GroupAt(groups, key) == Members(processes, key, k))
    && (forall key :: key in keys <==> key in groups)
    && (forall i, j :: 0 <= i < j < |keys| ==> keys[i] != keys[j])
  }

  /** One more process joins at most one group, at its end. */
  lemma JoinGroup(groups: map<(int, string), seq<Candidate>>, keys: seq<(int, string)>, processes: seq<Process>,
                  p: Process, k: Classifier)
    requires Grouped(groups, keys, processes, k)
    ensures GroupOf(p, k).None? ==> Grouped(groups, keys, processes + [p], k)
    ensures GroupOf(p, k).Some? ==>
              var key := GroupOf(p, k).value;
              Grouped(groups[key := GroupAt(groups, key) + [Candidate(p, DuplicateSibling)]],
                      if key in groups then keys else keys + [key], processes + [p], k)
  {
    assert (processes + [p])[..|processes|] == processes;
    if GroupOf(p, k).Some? {
      var key := GroupOf(p, k).value;
      var joined := groups[key := GroupAt(groups, key) + [Candidate(p, DuplicateSibling)]];
      var named := if key in groups then keys else keys + [key];
      forall other ensures GroupAt(joined, other) == Members(processes + [p], other, k) {
        assert GroupAt(groups, other) == Members(processes, other, k);
      }
      forall other ensures other in named <==> other in joined {
        assert other in keys <==> other in groups;
      }
    }
  }

  /** The grouping pass: a `Map` from group to members, with its keys in insertion order. */
  method GroupSiblings(processes: seq<Process>, k: Classifier)
    returns (groups: map<(int, string), seq<Candidate>>, keys: seq<(int, string)>)
    ensures Grouped(groups, keys, processes, k)
  {
    groups, keys := map[], [];
    for i := 0 to |processes|
      invariant Grouped(groups, keys, processes[..i], k)
    {
      var p := processes[i];
      JoinGroup(groups, keys, processes[..i], p, k);
      assert processes[..i + 1] == processes[..i] + [p];
      var group := GroupOf(p, k);
      if group.Some? {
        if group.value !in groups {
          keys := keys + [group.value];
        }
        groups := groups[group.value := GroupAt(groups, group.value) + [Candidate(p, DuplicateSibling)]];
      }
    }
    assert processes[..|processes|] == processes;
  }

  /** The candidates are exactly the outlived processes of the groups visited so far. */
  ghost predicate DuplicatesOf(candidates: seq<Candidate>, processes: seq<Process>, keys: seq<(int, string)>,
                               k: Classifier) {
    && Once(candidates)
    && forall c :: c in candidates <==>
         && c.process in processes && c.reason == DuplicateSibling && Outlived(processes, c.process, k)
         && GroupOf(c.process, k).value in keys
  }

  lemma AddGroup(candidates: seq<Candidate>, processes: seq<Process>, keys: seq<(int, string)>, key: (int, string),
                 k: Classifier)
    requires UniquePids(processes) && DuplicatesOf(candidates, processes, keys, k) && key !in keys
    ensures DuplicatesOf(candidates + AllButLargest(Members(processes, key, k)), processes, keys + [key], k)
  {
    var more := AllButLargest(Members(processes, key, k));
    AllButLargestIsExact(processes, key, k);
    forall c ensures multiset(candidates + more)[c] <= 1 {
      assert c in candidates ==> c !in more;
    }
  }

  /** Every process with a larger sibling in its group, once, in ascending pid order. */
  method FindDuplicateSiblings(processes: seq<Process>, k: Classifier) returns (candidates: seq<Candidate>)
    requires UniquePids(processes)
    ensures StrictlyAscending(candidates) && Once(candidates)
    ensures forall c :: c in candidates <==>
              c.process in processes && c.reason == DuplicateSibling && Outlived(processes, c.process, k)
  {
    var groups, keys := GroupSiblings(processes, k);
    var found := [];
    for i := 0 to |keys|
      invariant DuplicatesOf(found, processes, keys[..i], k)
    {
      assert keys[..i + 1] == keys[..i] + [keys[i]];
      assert GroupAt(groups, keys[i]) == Members(processes, keys[i], k);
      AddGroup(found, processes, keys[..i], keys[i], k);
      found := found + AllButLargest(groups[keys[i]]);
    }
    assert keys[..|keys|] == keys;
    candidates := SortByPid(found);
    SameMembers(found, candidates);
    AllGroupsVisited(processes, groups, keys, k);
    forall c, d | c in candidates && d in candidates && c.process.pid == d.process.pid ensures c == d {
      OneProcessPerPid(processes, c.process, d.process);
    }
    SortedOnceAscends(candidates);
  }

  lemma AllGroupsVisited(processes: seq<Process>, groups: map<(int, string), seq<Candidate>>,
                         keys: seq<(int, string)>, k: Classifier)
    requires forall key :: GroupAt(groups, key) == Members(processes, key, k)
    requires forall key :: key in keys <==> key in groups
    ensures forall p :: p in processes && GroupOf(p, k).Some? ==> GroupOf(p, k).value in keys
  {
    forall p | p in processes && GroupOf(p, k).Some? ensures GroupOf(p, k).value in keys {
      assert Candidate(p, DuplicateSibling) in GroupAt(groups, GroupOf(p, k).value);
    }
  }

  // ------------------------------------------------------------------ the selection

  /** What becomes of one process: a duplicate, an orphan, or left alone. */
  ghost function Verdict(processes: seq<Process>, p: Process, current: int, root: int, k: Classifier)
    : Option<Candidate>
  {
    if p.pid == current || !IsMcp(p, k) then None
    else if Outlived(processes, p, k) then Some(Candidate(p, DuplicateSibling))
    else if IsDescendant(processes, root, p.pid) then None
    else Some(Candidate(p, if p.ppid <= 1 then Parentless else OutsideSession))
  }

  /** The orphans among the first processes, in table order. */
  function Orphans(processes: seq<Process>, current: int, duplicates: set<int>, protected: set<int>, k: Classifier)
    : (r: seq<Candidate>)
    ensures forall c :: c in r <==>
              && c.process in processes && c.process.pid != current && IsMcp(c.process, k)
              && c.process.pid !in duplicates && c.process.pid !in protected
              && c.reason == if c.process.ppid <= 1 then Parentless else OutsideSession
    decreases |processes|
  {
    if processes == [] then []
    else
      var rest, p := processes[..|processes| - 1], processes[|processes| - 1];
      assert processes == rest + [p];
      Orphans(rest, current, duplicates, protected, k) +
      if p.pid != current && IsMcp(p, k) && p.pid !in duplicates && p.pid !in protected
      then [Candidate(p, if p.ppid <= 1 then Parentless else OutsideSession)] else []
  }

  lemma {:induction false} OrphansOnce(processes: seq<Process>, current: int, duplicates: set<int>,
                                       protected: set<int>, k: Classifier)
    requires UniquePids(processes)
    ensures Once(Orphans(processes, current, duplicates, protected, k))
    decreases |processes|
  {
    if processes != [] {
      var rest, p := processes[..|processes| - 1], processes[|processes| - 1];
      OrphansOnce(rest, current, duplicates, protected, k);
      assert p !in rest;
    }
  }

  function NotCurrent(candidates: seq<Candidate>, current: int): (r: seq<Candidate>)
    ensures forall c :: c in r <==> c in candidates && c.process.pid != current
    ensures Once(candidates) ==> Once(r)
    decreases |candidates|
  {
    if candidates == [] then []
    else
      var rest, c := candidates[..|candidates| - 1], candidates[|candidates| - 1];
      assert candidates == rest + [c];
      assert Once(candidates) ==> Once(rest) by {
        assert forall d :: multiset(candidates)[d] == multiset(rest)[d] + multiset{c}[d];
      }
      assert Once(candidates) ==> c !in rest by {
        if Once(candidates) {
          OnceLast(candidates);
        }
      }
      if c.process.pid != current then NotCurrent(rest, current) + [c] else NotCurrent(rest, current)
  }

  /** The candidates are exactly the processes with a verdict, each once. */
  ghost predicate Selects(candidates: seq<Candidate>, processes: seq<Process>, current: int, root: int, k: Classifier) {
    && Once(candidates)
    && forall c :: c in candidates <==>
         c.process in processes && Verdict(processes, c.process, current, root, k) == Some(c)
  }

  /**
    With unique pids the selection lists, once each and in ascending pid order, precisely the MCP
    processes other than the current one that have a larger sibling of the same kind, or
    lie outside the protected subtree.
   */
  method FindCleanupCandidates(processes: seq<Process>, current: int, k: Classifier)
    returns (candidates: seq<Candidate>)
    requires UniquePids(processes) && WalkEnds(TableOf(processes), current, k)
    ensures StrictlyAscending(candidates)
    ensures Selects(candidates, processes, current, Root(TableOf(processes), current, k), k)
  {
    var protected := BuildProtectedPidSet(processes, current, k);
    var siblings := FindDuplicateSiblings(processes, k);
    var duplicates := NotCurrent(siblings, current);
    var duplicatePids := set c | c in duplicates :: c.process.pid;
    var orphans := Orphans(processes, current, duplicatePids, protected, k);
    OrphansOnce(processes, current, duplicatePids, protected, k);
    Combine(processes, current, Root(TableOf(processes), current, k), k, duplicates, duplicatePids, protected, orphans);
    candidates := SortByPid(duplicates + orphans);
    SameMembers(duplicates + orphans, candidates);
    forall c, d | c in candidates && d in candidates && c.process.pid == d.process.pid ensures c == d {
      OneProcessPerPid(processes, c.process, d.process);
    }
    SortedOnceAscends(candidates);
  }

  lemma Combine(processes: seq<Process>, current: int, root: int, k: Classifier,
                duplicates: seq<Candidate>, duplicatePids: set<int>, protected: set<int>, orphans: seq<Candidate>)
    requires UniquePids(processes)
    requires forall pid :: pid in protected <==> IsDescendant(processes, root, pid)
    requires Once(duplicates) && Once(orphans)
    requires forall c :: c in duplicates <==>
               c.process in processes && c.reason == DuplicateSibling && Outlived(processes, c.process, k)
                 && c.process.pid != current
    requires duplicatePids == set c | c in duplicates :: c.process.pid
    requires orphans == Orphans(processes, current, duplicatePids, protected, k)
    ensures Selects(duplicates + orphans, processes, current, root, k)
  {
    forall p | p in processes && p.pid != current ensures p.pid in duplicatePids <==> Outlived(processes, p, k) {
      if p.pid in duplicatePids {
        var c :| c in duplicates && c.process.pid == p.pid;
        OneProcessPerPid(processes, c.process, p);
      }
      if Outlived(processes, p, k) {
        assert Candidate(p, DuplicateSibling) in duplicates;
      }
    }
    forall c ensures multiset(duplicates + orphans)[c] <= 1 {
      assert c in duplicates ==> c !in orphans;
    }
    forall c ensures c in duplicates + orphans <==>
                       c.process in processes && Verdict(processes, c.process, current, root, k) == Some(c) {
      if c.process in processes && c.process.pid != current {
        assert IsMcp(c.process, k) || GroupOf(c.process, k).None?;
      }
    }
  }

  /** What the selection says of one process: whether it has a sibling of the same entrypoint with a larger pid, and
      otherwise whether it has a parent, outside the protected subtree. */
  lemma SelectedExactlyWhen(candidates: seq<Candidate>, processes: seq<Process>, current: int, root: int,
                            k: Classifier, p: Process)
    requires Selects(candidates, processes, current, root, k) && p in processes
    ensures var entrypoint := k.entrypoint(p.command);
            var older := entrypoint.Some? && entrypoint.value != ""
                && exists q :: q in processes && q.ppid == p.ppid && k.entrypoint(q.command) == entrypoint
                               && q.pid > p.pid;
            var orphan := p.pid != current && entrypoint.Some? && !older && !IsDescendant(processes, root, p.pid);
            && (Candidate(p, DuplicateSibling) in candidates <==> p.pid != current && older)
            && (Candidate(p, Parentless) in candidates <==> orphan && p.ppid <= 1)
            && (Candidate(p, OutsideSession) in candidates <==> orphan && p.ppid > 1)
  {
    var entrypoint := k.entrypoint(p.command);
    if Outlived(processes, p, k) {
      var q :| q in processes && GroupOf(q, k) == GroupOf(p, k) && q.pid > p.pid;
      assert q.ppid == p.ppid && k.entrypoint(q.command) == entrypoint;
    }
    if entrypoint.Some? && entrypoint.value != "" {
      forall q | q in processes && q.ppid == p.ppid && k.entrypoint(q.command) == entrypoint && q.pid > p.pid
        ensures Outlived(processes, p, k)
      {
        assert GroupOf(q, k) == GroupOf(p, k);
      }
    }
    assert Verdict(processes, p, current, root, k).Some? ==> Verdict(processes, p, current, root, k).value.process == p;
  }

  /** Automatic cleanup keeps precisely the candidates without a live Codex or launcher ancestor, in a table where every
      listed process stands under its own pid. */
  method FindLaunchSafeCandidates(processes: seq<Process>, current: int, k: Classifier)
    returns (safe: seq<Candidate>)
    requires UniquePids(processes) && WalkEnds(TableOf(processes), current, k)
    ensures StrictlyAscending(safe)
    ensures forall c :: c in safe <==>
              && c.process in processes
              && Verdict(processes, c.process, current, Root(TableOf(processes), current, k), k) == Some(c)
              && (c.process.ppid <= 1
                  || (!AncestorMatches(TableOf(processes), c.process.pid, k.isCodex)
                      && !AncestorMatches(TableOf(processes), c.process.pid, k.isLauncher)))
    ensures forall p :: p in processes ==> p.pid in TableOf(processes) && TableOf(processes)[p.pid] == p
  {
    forall p | p in processes ensures TableOf(processes)[p.pid] == p {
      TableOfUnique(processes, p);
    }
    var candidates := FindCleanupCandidates(processes, current, k);
    safe := KeepLaunchSafe(candidates, TableOf(processes), k);
  }

  method KeepLaunchSafe(candidates: seq<Candidate>, table: Table, k: Classifier) returns (safe: seq<Candidate>)
    requires StrictlyAscending(candidates)
    ensures StrictlyAscending(safe)
    ensures forall c :: c in safe <==> c in candidates && LaunchSafe(table, c.process, k)
  {
    safe := [];
    for i := 0 to |candidates|
      invariant StrictlyAscending(safe)
      invariant forall c :: c in safe <==> c in candidates[..i] && LaunchSafe(table, c.process, k)
    {
      var c := candidates[i];
      var keep := c.process.ppid <= 1;
      if !keep {
        var underCodex := HasAncestorMatching(table, c.process.pid, k.isCodex);
        var underLauncher := HasAncestorMatching(table, c.process.pid, k.isLauncher);
        keep := !underCodex && !underLauncher;
      }
      assert candidates[..i + 1] == candidates[..i] + [c];
      if keep {
        AppendAscends(candidates, i, safe);
        safe := safe + [c];
      }
    }
    assert candidates[..|candidates|] == candidates;
  }

  lemma AppendAscends(candidates: seq<Candidate>, i: nat, safe: seq<Candidate>)
    requires StrictlyAscending(candidates) && i < |candidates| && StrictlyAscending(safe)
    requires forall c :: c in safe ==> c in candidates[..i]
    ensures StrictlyAscending(safe + [candidates[i]])
  {
    forall m | 0 <= m < |safe| ensures safe[m].process.pid < candidates[i].process.pid {
      assert safe[m] in safe;
      var n :| 0 <= n < i && candidates[..i][n] == safe[m];
    }
  }

  ghost predicate LaunchSafe(table: Table, p: Process, k: Classifier) {
    p.ppid <= 1 || (!AncestorMatches(table, p.pid, k.isCodex) && !AncestorMatches(table, p.pid, k.isLauncher))
  }

  // ------------------------------------------------------------------ termination of the selected processes

  /** Who is alive at the `t`-th poll. */
  type Liveness = (nat, int) -> bool

  /** `waitForPidsToExit`: what remains was seen alive at every one of the polls. */
  method WaitForPidsToExit(pids: seq<int>, from: nat, rounds: nat, alive: Liveness) returns (remaining: set<int>)
    ensures forall p :: p in remaining ==> p in pids
    ensures forall p :: p in remaining <==>
              p in pids && p > 0 && forall t :: from <= t <= from + rounds + 1 ==> alive(t, p)
  {
    remaining := set p | p in pids && p > 0 && alive(from, p);
    if remaining == {} {
      return;
    }
    for round := 0 to rounds
      invariant forall p :: p in remaining ==> p in pids
      invariant forall p :: p in remaining <==>
                p in pids && p > 0 && forall t :: from <= t <= from + round ==> alive(t, p)
    {
      remaining := set p | p in remaining && alive(from + round + 1, p);
    }
    remaining := set p | p in remaining && alive(from + rounds + 1, p);
  }

  datatype CleanupResult = CleanupResult(terminated: int, forceKilled: int, failed: set<int>)

  ghost predicate AliveUpTo(p: int, last: nat, alive: Liveness) {
    forall t: nat :: t <= last ==> alive(t, p)
  }

  /** The candidates that were alive at every poll up to the `last`. */
  ghost function AliveThrough(candidates: seq<Candidate>, last: nat, alive: Liveness): set<int> {
    set p | p in PidsOf(candidates) && p > 0 && AliveUpTo(p, last, alive)
  }

  /** Failed are exactly the candidates alive at every poll, force-killed those that outlived only the polls of the
      grace period, and terminated all that did not fail. */
  method TerminateCandidates(candidates: seq<Candidate>, graceRounds: nat, killRounds: nat, alive: Liveness)
    returns (result: CleanupResult)
    requires StrictlyAscending(candidates)
    ensures result.failed == AliveThrough(candidates, graceRounds + killRounds + 3, alive)
    ensures result.forceKilled == |AliveThrough(candidates, graceRounds + 1, alive)| - |result.failed|
    ensures result.terminated == |candidates| - |result.failed|
  {
    var pids := PidsOf(candidates);
    PidsOfDistinct(candidates);
    var afterTerm := WaitForPidsToExit(pids, 0, graceRounds, alive);
    OneWait(candidates, graceRounds + 1, alive, afterTerm);
    var stillRunning := Among(pids, afterTerm);
    assert (set p | p in stillRunning) == afterTerm;
    var terminated := |candidates| - |stillRunning|;
    var forceKilled := 0;
    var failed: set<int> := {};
    if |stillRunning| > 0 {
      failed := WaitForPidsToExit(stillRunning, graceRounds + 2, killRounds, alive);
      forceKilled := |stillRunning| - |failed|;
      terminated := terminated + forceKilled;
    }
    TwoWaits(candidates, graceRounds, killRounds, alive, afterTerm, failed);
    result := CleanupResult(terminated, forceKilled, failed);
  }

  lemma OneWait(candidates: seq<Candidate>, last: nat, alive: Liveness, remaining: set<int>)
    requires forall p :: p in remaining <==>
               p in PidsOf(candidates) && p > 0 && forall t :: 0 <= t <= last ==> alive(t, p)
    ensures remaining == AliveThrough(candidates, last, alive)
  {
    forall p ensures p in remaining <==> p in PidsOf(candidates) && p > 0 && AliveUpTo(p, last, alive) {
      if p in remaining {
        assert forall t: nat :: t <= last ==> alive(t, p);
      }
    }
    forall p ensures p in remaining <==> p in AliveThrough(candidates, last, alive) {
    }
  }

  lemma TwoWaits(candidates: seq<Candidate>, graceRounds: nat, killRounds: nat, alive: Liveness, first: set<int>,
                 second: set<int>)
    requires first == AliveThrough(candidates, graceRounds + 1, alive)
    requires forall p :: p in second <==>
               p in first && p > 0
               && forall t :: graceRounds + 2 <= t <= graceRounds + 2 + killRounds + 1 ==> alive(t, p)
    ensures second == AliveThrough(candidates, graceRounds + killRounds + 3, alive)
  {
    forall p ensures p in second <==> p in AliveThrough(candidates, graceRounds + killRounds + 3, alive) {
      assert p in first <==> p in PidsOf(candidates) && p > 0 && AliveUpTo(p, graceRounds + 1, alive);
    }
  }

  /** The pids of a set, in list order; as many as distinct when the list has no repeats. */
  function Among(pids: seq<int>, wanted: set<int>): (r: seq<int>)
    ensures forall p :: p in r <==> p in pids && p in wanted
    ensures |r| <= |pids|
    ensures (forall i, j :: 0 <= i < j < |pids| ==> pids[i] != pids[j]) ==> |r| == |set p | p in r|
    decreases |pids|
  {
    if pids == [] then []
    else
      var rest, p := pids[..|pids| - 1], pids[|pids| - 1];
      assert pids == rest + [p];
      var r := Among(rest, wanted);
      assert p in wanted ==> (set q | q in r + [p]) == (set q | q in r) + {p};
      if p in wanted then r + [p] else r
  }

  function PidsOf(candidates: seq<Candidate>): (r: seq<int>)
    ensures |r| == |candidates| && forall i :: 0 <= i < |r| ==> r[i] == candidates[i].process.pid
  {
    seq(|candidates|, i requires 0 <= i < |candidates| => candidates[i].process.pid)
  }

  lemma PidsOfDistinct(candidates: seq<Candidate>)
    requires StrictlyAscending(candidates)
    ensures forall i, j :: 0 <= i < j < |candidates| ==> PidsOf(candidates)[i] != PidsOf(candidates)[j]
  {
  }
}
