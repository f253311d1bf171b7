/**
  Progress of the cache protocol: a publisher that nobody disturbs publishes, and a reader that
  nobody disturbs verifies what is published.
 */
module NativeCacheProgress {
  import opened Wrappers
  import opened NativeCache
  import opened NativeCacheProofs

  // ------------------------------------------------------------------ inspecting an undisturbed cache

  /** A verified pair whose binary is not empty: what an inspection accepts. */
  predicate HasPair(s: State) { VerifiedPair(s) && s.At(Binary).bytes != [] }

  /** An inspection of a cache with a pair, on its way to `verified`. */
  predicate Succeeding(s: State, i: Inspection)
    requires HasPair(s)
  {
    var bytes := s.At(Binary).bytes;
    match i
    case Begin => true
    case BinaryFound(ino) => ino == s.names[Binary]
    case Reading(ino, soFar) => ino == s.names[Binary] && soFar <= bytes
    case Hashed(ino, hashed) => hashed == bytes
    case SidecarFound(ino, hashed, sum) => hashed == bytes && sum == s.names[Sidecar]
    case Verdict(r) => r == Some(bytes)
  }

  /** An inspection of a cache without one, on its way to `invalid`. */
  predicate Failing(s: State, i: Inspection) {
    && InspectionOk(s, i)
    && (i.Verdict? ==> i.result.None?)
    && (!i.Begin? && !i.Verdict? ==> s.Has(Binary) && s.At(Binary) != Blob([]))
    && (i.BinaryFound? ==> i.ino == s.names[Binary])
  }

  function FileLength(s: State): nat { if s.Has(Binary) && s.At(Binary).Blob? then |s.At(Binary).bytes| else 0 }

  /** How many calls an inspection may still take. */
  function CallsLeft(s: State, i: Inspection): nat {
    match i
    case Begin => FileLength(s) + 5
    case BinaryFound(_) => FileLength(s) + 4
    case Reading(_, soFar) => if |soFar| <= FileLength(s) then FileLength(s) - |soFar| + 3 else 3
    case Hashed(_, _) => 2
    case SidecarFound(_, _, _) => 1
    case Verdict(_) => 0
  }

  lemma InspectionSucceeds(s: State, i: Inspection, chunk: nat)
    requires HasPair(s) && Succeeding(s, i)
    ensures var j := Inspect(s, i, chunk, false);
            Succeeding(s, j) && (i.Verdict? || CallsLeft(s, j) < CallsLeft(s, i))
  {
    if i.Reading? {
      var bytes := s.At(Binary).bytes;
      if |i.soFar| < |bytes| {
        var n := if chunk == 0 then 1 else chunk;
        var end := if |i.soFar| + n < |bytes| then |i.soFar| + n else |bytes|;
        assert i.soFar + bytes[|i.soFar|..end] == bytes[..end];
      }
    }
  }

  lemma InspectionFails(s: State, i: Inspection, chunk: nat)
    requires Files(s) && !HasPair(s) && Failing(s, i)
    ensures var j := Inspect(s, i, chunk, false);
            Failing(s, j) && (i.Verdict? || CallsLeft(s, j) < CallsLeft(s, i))
  {
    InspectOk(s, i, chunk, false);
  }

  // ------------------------------------------------------------------ an undisturbed reader

  /** Calls of one reader, none of which fails. */
  predicate ReaderAlone(events: seq<Event>, r: Pid) {
    forall k :: 0 <= k < |events| ==> events[k].ReadStep? && events[k].r == r && !events[k].fails
  }

  lemma {:induction false} ReaderGoesOn(s: State, events: seq<Event>, r: Pid)
    requires HasPair(s) && r in s.readers && Succeeding(s, s.readers[r]) && ReaderAlone(events, r)
    ensures RunEvents(s, events).Some?
    ensures var t := RunEvents(s, events).value;
            && t.names == s.names && t.data == s.data && r in t.readers && Succeeding(t, t.readers[r])
            && (t.readers[r].Verdict? || |events| + CallsLeft(t, t.readers[r]) <= CallsLeft(s, s.readers[r]))
    decreases |events|
  {
    if events != [] {
      InspectionSucceeds(s, s.readers[r], events[0].chunk);
      var t := Step(s, events[0]).value;
      assert t.names == s.names && t.data == s.data;
      assert forall k :: 0 <= k < |events[1..]| ==> events[1..][k] == events[k + 1];
      ReaderGoesOn(t, events[1..], r);
    }
  }

  lemma {:induction false} ReaderGivesUp(s: State, events: seq<Event>, r: Pid)
    requires Files(s) && !HasPair(s) && r in s.readers && Failing(s, s.readers[r]) && ReaderAlone(events, r)
    ensures RunEvents(s, events).Some?
    ensures var t := RunEvents(s, events).value;
            && t.names == s.names && t.data == s.data && r in t.readers && Failing(t, t.readers[r])
            && (t.readers[r].Verdict? || |events| + CallsLeft(t, t.readers[r]) <= CallsLeft(s, s.readers[r]))
    decreases |events|
  {
    if events != [] {
      InspectionFails(s, s.readers[r], events[0].chunk);
      var t := Step(s, events[0]).value;
      assert t.names == s.names && t.data == s.data;
      assert forall k :: 0 <= k < |events[1..]| ==> events[1..][k] == events[k + 1];
      ReaderGivesUp(t, events[1..], r);
    }
  }

  /** Alone, without a failing call, a reader ends with `verified` and the bytes of the binary if there is a verified
      pair, and with `invalid` if there is none. */
  lemma ReaderVerifies(s: State, events: seq<Event>, r: Pid)
    requires Files(s) && r in s.readers && s.readers[r].Begin? && ReaderAlone(events, r)
    requires |events| >= FileLength(s) + 5
    ensures RunEvents(s, events).Some? && r in RunEvents(s, events).value.readers
    ensures RunEvents(s, events).value.readers[r] ==
              if VerifiedPair(s) && s.At(Binary).bytes != [] then Verdict(Some(s.At(Binary).bytes)) else Verdict(None)
  {
    if HasPair(s) {
      ReaderGoesOn(s, events, r);
    } else {
      ReaderGivesUp(s, events, r);
    }
  }

  // ------------------------------------------------------------------ an undisturbed publisher

  /** A call of this publisher that does not fail. */
  predicate Smooth(e: Event, p: Pid) {
    match e
    case ReadStep(_, _, _) => false
    case GiveUp(_) => false
    case LockBroken(_) => false
    case Fail(_) => false
    case Crash(_) => false
    case InspectStep(q, _, fails) => q == p && !fails
    case RemoveTemps(q, fails) => q == p && !fails
    case CheckLock(q, fails) => q == p && !fails
    case _ => e.p == p
  }

  predicate NoTemps(s: State, p: Pid) { TempBinary(p) !in s.names && TempSidecar(p) !in s.names }

  /** The bytes that the publisher will leave in place: those of a pair that was there, or its own. */
  predicate Wants(s: State, me: Publisher, want: Bytes) {
    want == if HasPair(s) then s.At(Binary).bytes else me.source
  }

  predicate Placed(s: State, want: Bytes) { HasPair(s) && s.At(Binary) == Blob(want) }

  /** Where an undisturbed publisher may stand, and what it is on the way to. */
  predicate OnTheWay(s: State, p: Pid, want: Bytes)
    requires p in s.publishers
  {
    var me := s.publishers[p];
    match me.pc
    case Start => Lock !in s.names && NoTemps(s, p) && Wants(s, me, want)
    case LockOpened => NoTemps(s, p) && Wants(s, me, want)
    case Inspecting(i) =>
      NoTemps(s, p) && Wants(s, me, want) && if HasPair(s) then Succeeding(s, i) else Failing(s, i)
    case Copying => NoTemps(s, p) && want == me.source
    case Copied => TempSidecar(p) !in s.names && want == me.source
    case Digested(_) => TempSidecar(p) !in s.names && want == me.source
    case Staged => want == me.source
    case BinaryMoved => want == me.source
    case Cleared => want == me.source
    case BinaryPlaced => want == me.source
    case Verifying(i) => Placed(s, want) && Succeeding(s, i)
    case Cleaning(ok) => ok && Placed(s, want)
    case TempsRemoved(ok) => ok && Placed(s, want)
    case LockChecked(ok) => ok && Placed(s, want)
    case Returned => Lock !in s.names && Placed(s, want)
    case _ => false
  }

  ghost predicate Solo(s: State, p: Pid, want: Bytes) {
    Inv(s) && p in s.publishers && s.publishers[p].source != [] && OnTheWay(s, p, want)
  }

  /** How many calls the publisher may still make. */
  function StepsLeft(s: State, p: Pid): nat
    requires p in s.publishers
  {
    var me := s.publishers[p];
    match me.pc
    case Start => 50 + |me.source| + FileLength(s)
    case LockOpened => 40 + |me.source| + FileLength(s)
    case Inspecting(i) => 30 + |me.source| + CallsLeft(s, i)
    case Copying => 29 + |me.source|
    case Copied => 28 + |me.source|
    case Digested(_) => 27 + |me.source|
    case Staged => 26 + |me.source|
    case BinaryMoved => 25 + |me.source|
    case Cleared => 24 + |me.source|
    case BinaryPlaced => 23 + |me.source|
    case Verifying(i) => 5 + CallsLeft(s, i)
    case Cleaning(_) => 3
    case TempsRemoved(_) => 2
    case LockChecked(_) => 1
    case _ => 0
  }

  ghost predicate Nearer(s: State, t: State, p: Pid, want: Bytes)
    requires p in s.publishers
  {
    && p in t.publishers && t.publishers[p].source == s.publishers[p].source
    && OnTheWay(t, p, want) && StepsLeft(t, p) < StepsLeft(s, p)
  }

  /** The pair only depends on the files that B and S name. */
  lemma SamePair(s: State, t: State)
    requires forall n :: n in {Binary, Sidecar} ==> (t.Has(n) <==> s.Has(n))
    requires forall n :: n in {Binary, Sidecar} && s.Has(n) ==>
               t.Has(n) && t.names[n] == s.names[n] && t.At(n) == s.At(n)
    ensures HasPair(t) == HasPair(s) && FileLength(t) == FileLength(s)
    ensures HasPair(s) ==> t.At(Binary) == s.At(Binary)
    ensures HasPair(s) ==> forall i :: Succeeding(t, i) == Succeeding(s, i)
  {
  }

  lemma OpenedNearer(s: State, p: Pid, want: Bytes)
    requires Solo(s, p, want) && Step(s, OpenLock(p)).Some?
    ensures Nearer(s, Step(s, OpenLock(p)).value, p, want)
  {
    SamePair(s, Step(s, OpenLock(p)).value);
  }

  lemma WrittenNearer(s: State, p: Pid, want: Bytes)
    requires Solo(s, p, want) && Step(s, WriteLock(p)).Some?
    ensures Nearer(s, Step(s, WriteLock(p)).value, p, want)
  {
    assert OwnsLock(s, p, s.publishers[p]);
    SamePair(s, Step(s, WriteLock(p)).value);
  }

  lemma FirstInspected(s: State, p: Pid, chunk: nat, want: Bytes)
    requires Solo(s, p, want) && s.publishers[p].pc.Inspecting? && !s.publishers[p].pc.first.Verdict?
    ensures Nearer(s, s.To(p, Inspecting(Inspect(s, s.publishers[p].pc.first, chunk, false))), p, want)
  {
    var i := s.publishers[p].pc.first;
    SamePair(s, s.To(p, Inspecting(Inspect(s, i, chunk, false))));
    if HasPair(s) {
      InspectionSucceeds(s, i, chunk);
    } else {
      InspectionFails(s, i, chunk);
    }
  }

  lemma FirstVerdict(s: State, p: Pid, want: Bytes)
    requires Solo(s, p, want) && s.publishers[p].pc.Inspecting? && s.publishers[p].pc.first.Verdict?
    ensures var pc := if s.publishers[p].pc.first.result.Some? then Cleaning(true) else Copying;
            Nearer(s, s.To(p, pc), p, want)
  {
    SamePair(s, s.To(p, if s.publishers[p].pc.first.result.Some? then Cleaning(true) else Copying));
  }

  lemma FinallyInspected(s: State, p: Pid, chunk: nat, want: Bytes)
    requires Solo(s, p, want) && s.publishers[p].pc.Verifying?
    ensures var i := s.publishers[p].pc.final;
            var pc := if i.Verdict? then Cleaning(i.result.Some?) else Verifying(Inspect(s, i, chunk, false));
            Nearer(s, s.To(p, pc), p, want)
  {
    var i := s.publishers[p].pc.final;
    SamePair(s, s.To(p, if i.Verdict? then Cleaning(i.result.Some?) else Verifying(Inspect(s, i, chunk, false))));
    InspectionSucceeds(s, i, chunk);
  }

  lemma InspectedNearer(s: State, p: Pid, chunk: nat, want: Bytes)
    requires Solo(s, p, want) && Step(s, InspectStep(p, chunk, false)).Some?
    ensures Nearer(s, Step(s, InspectStep(p, chunk, false)).value, p, want)
  {
    if s.publishers[p].pc.Verifying? {
      FinallyInspected(s, p, chunk, want);
    } else if s.publishers[p].pc.first.Verdict? {
      FirstVerdict(s, p, want);
    } else {
      FirstInspected(s, p, chunk, want);
    }
  }

  lemma StagedNearer(s: State, e: Event, p: Pid, want: Bytes)
    requires Solo(s, p, want) && Smooth(e, p) && Step(s, e).Some? && (e.CopySource? || e.HashTemp? || e.WriteSum?)
    ensures Nearer(s, Step(s, e).value, p, want)
  {
  }

  lemma MovedNearer(s: State, e: Event, p: Pid, want: Bytes)
    requires Solo(s, p, want) && Smooth(e, p) && Step(s, e).Some?
    requires e.MoveBinary? || e.MoveSidecar? || e.PlaceBinary?
    ensures Nearer(s, Step(s, e).value, p, want)
  {
  }

  lemma PlacedNearer(s: State, p: Pid, want: Bytes)
    requires Solo(s, p, want) && Step(s, PlaceSidecar(p)).Some?
    ensures Nearer(s, Step(s, PlaceSidecar(p)).value, p, want)
  {
    assert PcOk(s, p, s.publishers[p]);
  }

  lemma CleanedNearer(s: State, p: Pid, want: Bytes)
    requires Solo(s, p, want) && s.publishers[p].pc.Cleaning?
    ensures var t := s.Remove(TempBinary(p)).Remove(TempSidecar(p)).To(p, TempsRemoved(s.publishers[p].pc.ok));
            Nearer(s, t, p, want)
  {
    SamePair(s, s.Remove(TempBinary(p)).Remove(TempSidecar(p)).To(p, TempsRemoved(s.publishers[p].pc.ok)));
  }

  lemma CheckedNearer(s: State, p: Pid, want: Bytes)
    requires Solo(s, p, want) && Step(s, CheckLock(p, false)).Some?
    ensures Nearer(s, Step(s, CheckLock(p, false)).value, p, want)
  {
    assert OwnsLock(s, p, s.publishers[p]);
    SamePair(s, Step(s, CheckLock(p, false)).value);
  }

  lemma UnlinkedNearer(s: State, p: Pid, want: Bytes)
    requires Solo(s, p, want) && Step(s, Unlink(p)).Some?
    ensures Nearer(s, Step(s, Unlink(p)).value, p, want)
  {
    SamePair(s, Step(s, Unlink(p)).value);
  }

  /** No call of an undisturbed publisher leads astray, and each brings it nearer to its return. */
  lemma SmoothStep(s: State, e: Event, p: Pid, want: Bytes)
    requires Solo(s, p, want) && Smooth(e, p) && Step(s, e).Some?
    ensures Nearer(s, Step(s, e).value, p, want) && Solo(Step(s, e).value, p, want)
  {
    StepInv(s, e);
    match e
    case OpenLock(_) => OpenedNearer(s, p, want);
    case WriteLock(_) => WrittenNearer(s, p, want);
    case InspectStep(_, chunk, _) => InspectedNearer(s, p, chunk, want);
    case PlaceSidecar(_) => PlacedNearer(s, p, want);
    case RemoveTemps(_, _) => CleanedNearer(s, p, want);
    case CheckLock(_, _) => CheckedNearer(s, p, want);
    case Unlink(_) => UnlinkedNearer(s, p, want);
    case CopySource(_) => StagedNearer(s, e, p, want);
    case HashTemp(_) => StagedNearer(s, e, p, want);
    case WriteSum(_) => StagedNearer(s, e, p, want);
    case _ => MovedNearer(s, e, p, want);
  }

  // ------------------------------------------------------------------ there is always a next call

  lemma {:induction false} FreshQuarantine(names: set<Name>) returns (id: nat)
    ensures forall n :: n in names && n.Quarantine? ==> n.id < id
    decreases names
  {
    if names == {} {
      id := 0;
    } else {
      var n :| n in names;
      id := FreshQuarantine(names - {n});
      if n.Quarantine? && n.id >= id {
        id := n.id + 1;
      }
    }
  }

  /** The call that the publisher makes next. */
  function NextCall(s: State, p: Pid, id: nat): Event
    requires p in s.publishers
  {
    match s.publishers[p].pc
    case Start => OpenLock(p)
    case LockOpened => WriteLock(p)
    case Inspecting(_) => InspectStep(p, 1, false)
    case Copying => CopySource(p)
    case Copied => HashTemp(p)
    case Digested(_) => WriteSum(p)
    case Staged => MoveBinary(p, id)
    case BinaryMoved => MoveSidecar(p, id)
    case Cleared => PlaceBinary(p)
    case BinaryPlaced => PlaceSidecar(p)
    case Verifying(_) => InspectStep(p, 1, false)
    case Cleaning(_) => RemoveTemps(p, false)
    case TempsRemoved(_) => CheckLock(p, false)
    case _ => Unlink(p)
  }

  lemma NextCallHappens(s: State, p: Pid, want: Bytes) returns (e: Event)
    requires Solo(s, p, want) && !s.publishers[p].pc.Returned?
    ensures Smooth(e, p) && Step(s, e).Some?
  {
    var id := FreshQuarantine(s.names.Keys);
    e := NextCall(s, p, id);
    assert Quarantine(id) !in s.names;
    assert PcOk(s, p, s.publishers[p]);
    assert s.publishers[p].held ==> OwnsLock(s, p, s.publishers[p]);
  }

  // ------------------------------------------------------------------ a whole undisturbed run

  predicate Undisturbed(events: seq<Event>, p: Pid) { forall k :: 0 <= k < |events| ==> Smooth(events[k], p) }

  lemma {:induction false} SmoothRun(s: State, events: seq<Event>, p: Pid, want: Bytes)
    requires Solo(s, p, want) && Undisturbed(events, p) && RunEvents(s, events).Some?
    ensures var t := RunEvents(s, events).value;
            Solo(t, p, want) && |events| + StepsLeft(t, p) <= StepsLeft(s, p)
    decreases |events|
  {
    if events != [] {
      SmoothStep(s, events[0], p, want);
      assert forall k :: 0 <= k < |events[1..]| ==> events[1..][k] == events[k + 1];
      SmoothRun(Step(s, events[0]).value, events[1..], p, want);
    }
  }

  lemma {:induction false} RunToReturn(s: State, p: Pid, want: Bytes) returns (events: seq<Event>)
    requires Solo(s, p, want)
    ensures Undisturbed(events, p) && RunEvents(s, events).Some?
    ensures p in RunEvents(s, events).value.publishers && RunEvents(s, events).value.publishers[p].pc.Returned?
    decreases StepsLeft(s, p)
  {
    if s.publishers[p].pc.Returned? {
      events := [];
    } else {
      var e := NextCallHappens(s, p, want);
      SmoothStep(s, e, p, want);
      var rest := RunToReturn(Step(s, e).value, p, want);
      events := [e] + rest;
      assert events[1..] == rest;
    }
  }

  /** What an undisturbed publisher leaves: the pair that was there, or its own. */
  function Left(s: State, p: Pid): Bytes
    requires p in s.publishers
  {
    if VerifiedPair(s) && s.At(Binary).bytes != [] then s.At(Binary).bytes else s.publishers[p].source
  }

  /** A publisher that has not begun has no temporary files. */
  ghost predicate StartersClean(s: State) {
    forall p :: p in s.publishers && s.publishers[p].pc.Start? ==> NoTemps(s, p)
  }

  lemma StepStartersClean(s: State, e: Event)
    requires StartersClean(s) && Step(s, e).Some?
    ensures StartersClean(Step(s, e).value)
  {
    if !e.ReadStep? {
      StepIsOwn(s, e);
      NewTempsAreOwn(s, e);
    }
  }

  lemma NewTempsAreOwn(s: State, e: Event)
    requires !e.ReadStep? && Step(s, e).Some?
    ensures var t := Step(s, e).value;
            && !t.publishers[e.p].pc.Start?
            && forall q :: q != e.p && NoTemps(s, q) ==> NoTemps(t, q)
  {
  }

  lemma {:induction false} RunStartersClean(s: State, events: seq<Event>)
    requires StartersClean(s) && RunEvents(s, events).Some?
    ensures StartersClean(RunEvents(s, events).value)
    decreases |events|
  {
    if events != [] {
      StepStartersClean(s, events[0]);
      RunStartersClean(Step(s, events[0]).value, events[1..]);
    }
  }

  /** A publisher that is about to begin, with no lock in its way, whatever has happened to the cache before. */
  ghost predicate Begins(start: State, before: seq<Event>, s: State, p: Pid) {
    && Init(start) && RunEvents(start, before) == Some(s)
    && Lock !in s.names && p in s.publishers && s.publishers[p].pc.Start? && s.publishers[p].source != []
  }

  lemma BeginsSolo(start: State, before: seq<Event>, s: State, p: Pid)
    requires Begins(start, before, s, p)
    ensures Solo(s, p, Left(s, p))
  {
    InitInv(start);
    RunInv(start, before);
    RunStartersClean(start, before);
  }

  /** After any history, an undisturbed publisher that finds no lock comes to its return, in a bounded number of calls
      and whatever calls it makes; it leaves no lock and a verified pair, its own unless there was one already. */
  lemma UndisturbedPublisherPublishes(start: State, before: seq<Event>, s: State, events: seq<Event>, p: Pid)
    requires Begins(start, before, s, p) && Undisturbed(events, p) && RunEvents(s, events).Some?
    ensures var t := RunEvents(s, events).value;
            && p in t.publishers && !t.publishers[p].pc.Threw? && !t.publishers[p].pc.Dead?
            && |events| <= 50 + |s.publishers[p].source| + FileLength(s)
            && (t.publishers[p].pc.Returned? ==>
                 VerifiedPair(t) && t.At(Binary) == Blob(Left(s, p)) && Lock !in t.names)
            && (!t.publishers[p].pc.Returned? ==> exists e :: Smooth(e, p) && Step(t, e).Some?)
  {
    BeginsSolo(start, before, s, p);
    SmoothRun(s, events, p, Left(s, p));
    var t := RunEvents(s, events).value;
    if !t.publishers[p].pc.Returned? {
      var e := NextCallHappens(t, p, Left(s, p));
    }
  }

  /** And there is such a run. */
  lemma PublisherCanPublish(start: State, before: seq<Event>, s: State, p: Pid) returns (events: seq<Event>)
    requires Begins(start, before, s, p)
    ensures Undisturbed(events, p) && RunEvents(s, events).Some?
    ensures var t := RunEvents(s, events).value;
            && p in t.publishers && t.publishers[p].pc.Returned?
            && VerifiedPair(t) && t.At(Binary) == Blob(Left(s, p)) && Lock !in t.names
  {
    BeginsSolo(start, before, s, p);
    events := RunToReturn(s, p, Left(s, p));
    UndisturbedPublisherPublishes(start, before, s, events, p);
  }

  // ------------------------------------------------------------------ a publisher that fails

  /** The publisher's try block has ended, and the lock on disk is the one it took. */
  ghost predicate HoldsLock(s: State, p: Pid) {
    p in s.publishers && s.Has(Lock) && s.names[Lock] == s.publishers[p].lockIno && s.At(Lock) == LockFile(Some(p))
  }

  lemma TempsGo(s: State, p: Pid) returns (t: State)
    requires HoldsLock(s, p) && s.publishers[p].pc.Cleaning?
    ensures Step(s, RemoveTemps(p, false)) == Some(t) && HoldsLock(t, p)
    ensures t.names == s.names - {TempBinary(p), TempSidecar(p)} && t.data == s.data
    ensures t.publishers[p].pc == TempsRemoved(s.publishers[p].pc.ok)
  {
    t := Step(s, RemoveTemps(p, false)).value;
  }

  lemma LockIsFound(s: State, p: Pid) returns (t: State)
    requires HoldsLock(s, p) && s.publishers[p].pc.TempsRemoved?
    ensures Step(s, CheckLock(p, false)) == Some(t) && HoldsLock(t, p) && t.names == s.names && t.data == s.data
    ensures t.publishers[p].pc == LockChecked(s.publishers[p].pc.ok)
  {
    t := Step(s, CheckLock(p, false)).value;
  }

  lemma LockGoes(s: State, p: Pid) returns (t: State)
    requires HoldsLock(s, p) && s.publishers[p].pc.LockChecked?
    ensures Step(s, Unlink(p)) == Some(t) && t.names == s.names - {Lock} && t.data == s.data
    ensures p in t.publishers && t.publishers[p].pc == if s.publishers[p].pc.ok then Returned else Threw
  {
    t := Step(s, Unlink(p)).value;
  }

  /** Whether the try block returned or threw, a clean-up in which no call fails removes the temporary files and the
      publisher's own lock and nothing else, and passes the result on. */
  lemma CleanUpReleasesLock(s: State, p: Pid) returns (a: State, b: State, t: State)
    requires HoldsLock(s, p) && s.publishers[p].pc.Cleaning?
    ensures Step(s, RemoveTemps(p, false)) == Some(a) && Step(a, CheckLock(p, false)) == Some(b)
    ensures Step(b, Unlink(p)) == Some(t)
    ensures t.names == s.names - {TempBinary(p), TempSidecar(p), Lock} && t.data == s.data
    ensures p in t.publishers && t.publishers[p].pc == if s.publishers[p].pc.ok then Returned else Threw
  {
    a := TempsGo(s, p);
    b := LockIsFound(a, p);
    t := LockGoes(b, p);
    assert s.names - {TempBinary(p), TempSidecar(p)} - {Lock} == s.names - {TempBinary(p), TempSidecar(p), Lock};
  }

  /** A clean-up that cannot remove a temporary file makes the publisher throw, and one that cannot check its lock, or
      finds another in its place, leaves that lock where it is. */
  lemma CleanUpFailures(s: State, p: Pid, fails: bool)
    requires p in s.publishers
    ensures s.publishers[p].pc.Cleaning? ==>
              var t := Step(s, RemoveTemps(p, true));
              t.Some? && t.value.names == s.names && t.value.publishers[p].pc == TempsRemoved(false)
    ensures s.publishers[p].pc.TempsRemoved? && Lock in s.names && (fails || !HoldsLock(s, p)) ==>
              var t := Step(s, CheckLock(p, fails));
              t.Some? && t.value.names == s.names && t.value.publishers[p].pc == Threw
  {
  }
}
