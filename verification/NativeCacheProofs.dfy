/**
  Safety of the cache protocol over every run: mutual exclusion, ownership of the lock,
  consistency of B and S, survival of displaced files, and soundness of lock-free reading.
 */
module NativeCacheProofs {
  import opened Wrappers
  import opened NativeCache

  // ------------------------------------------------------------------ the invariant

  /** The publisher is between the creation of its lock and the end of its call. */
  predicate Active(pc: Pc) {
    pc.LockOpened? || InTry(pc) || pc.Cleaning? || pc.TempsRemoved? || pc.LockChecked?
  }

  predicate Is(s: State, n: Name, d: Data) {
    s.Has(n) && s.At(n) == d
  }

  /** What the lock holder may rely on while it inspects. */
  predicate InspectionOk(s: State, i: Inspection) {
    match i
    case Begin => true
    case BinaryFound(_) => true
    case Reading(ino, soFar) =>
      s.Has(Binary) && s.names[Binary] == ino && s.At(Binary).Blob? && soFar <= s.At(Binary).bytes
    case Hashed(ino, bytes) => Is(s, Binary, Blob(bytes))
    case SidecarFound(ino, bytes, sum) => Is(s, Binary, Blob(bytes))
    case Verdict(r) => r.Some? ==> Is(s, Binary, Blob(r.value)) && Is(s, Sidecar, Sum(Sha256(r.value)))
  }

  /** What each point of the publisher's code guarantees about the cache. */
  predicate PcOk(s: State, p: Pid, me: Publisher) {
    match me.pc
    case Inspecting(i) => InspectionOk(s, i)
    case Copied => Is(s, TempBinary(p), Blob(me.source))
    case Digested(d) => Is(s, TempBinary(p), Blob(me.source)) && d == Sha256(me.source)
    case Staged => TempsOk(s, p, me)
    case BinaryMoved => TempsOk(s, p, me) && Binary !in s.names
    case Cleared => TempsOk(s, p, me) && Binary !in s.names && Sidecar !in s.names
    case BinaryPlaced =>
      && Is(s, Binary, Blob(me.source)) && Sidecar !in s.names
      && Is(s, TempSidecar(p), Sum(Sha256(me.source)))
    case Verifying(i) => InspectionOk(s, i)
    case Cleaning(ok) => ok ==> VerifiedPair(s)
    case TempsRemoved(ok) => ok ==> VerifiedPair(s)
    case LockChecked(ok) => ok ==> VerifiedPair(s)
    case _ => true
  }

  predicate TempsOk(s: State, p: Pid, me: Publisher) {
    Is(s, TempBinary(p), Blob(me.source)) && Is(s, TempSidecar(p), Sum(Sha256(me.source)))
  }

  /** The holder's lock file is at L, under no other name, and carries the holder's record. */
  ghost predicate OwnsLock(s: State, p: Pid, me: Publisher) {
    && s.Has(Lock) && s.names[Lock] == me.lockIno
    && (forall n :: n in s.names && n != Lock ==> s.names[n] != me.lockIno)
    && (me.pc.LockOpened? ==> s.At(Lock) == LockFile(None))
    && (Active(me.pc) && !me.pc.LockOpened? ==> s.At(Lock) == LockFile(Some(p)))
  }

  ghost predicate Files(s: State) {
    (forall n :: n in s.names ==> s.names[n] in s.data) && (forall i :: i in s.data ==> i < s.next)
  }

  ghost predicate Publishers(s: State) {
    forall p :: p in s.publishers ==>
      var me := s.publishers[p];
      && (Active(me.pc) ==> me.held)
      && (me.pc.Start? || me.pc.Returned? ==> !me.held)
      && (me.held ==> OwnsLock(s, p, me))
      && PcOk(s, p, me)
  }

  /** At most one process is between the acquisition and the release of the lock. */
  ghost predicate Exclusive(s: State) {
    forall p, q :: p in s.publishers && q in s.publishers && s.publishers[p].held && s.publishers[q].held ==> p == q
  }

  ghost predicate Inv(s: State) {
    Files(s) && Publishers(s) && Exclusive(s)
  }

  lemma InitInv(s: State)
    requires Init(s)
    ensures Inv(s)
  {
  }

  // ------------------------------------------------------------------ one step

  /** A step of one publisher rearranges only its own entry. */
  predicate OthersUntouched(s: State, t: State, p: Pid) {
    && p in s.publishers && t.publishers.Keys == s.publishers.Keys
    && t.publishers[p].source == s.publishers[p].source
    && forall q :: q in s.publishers && q != p ==> t.publishers[q] == s.publishers[q]
  }

  lemma StepIsOwn(s: State, e: Event)
    requires !e.ReadStep? && Step(s, e).Some?
    ensures OthersUntouched(s, Step(s, e).value, e.p)
  {
  }

  lemma InspectOk(s: State, i: Inspection, chunk: nat, fails: bool)
    requires Files(s) && InspectionOk(s, i)
    ensures InspectionOk(s, Inspect(s, i, chunk, fails))
  {
    if i.Reading? && !fails {
      var bytes := s.At(Binary).bytes;
      if |i.soFar| < |bytes| {
        var n := if chunk == 0 then 1 else chunk;
        var end := if |i.soFar| + n < |bytes| then |i.soFar| + n else |bytes|;
        assert i.soFar + bytes[|i.soFar|..end] == bytes[..end];
      } else {
        assert i.soFar == bytes;
      }
    }
  }

  /** When the acting publisher is the holder, its own obligations are all that has to be rechecked. */
  lemma HolderStep(s: State, t: State, p: Pid)
    requires Inv(s) && OthersUntouched(s, t, p) && s.publishers[p].held
    requires Files(t)
    requires var me := t.publishers[p];
             && (Active(me.pc) ==> me.held)
             && (me.pc.Start? || me.pc.Returned? ==> !me.held)
             && (me.held ==> OwnsLock(t, p, me))
             && PcOk(t, p, me)
    ensures Inv(t)
  {
    forall q | q in t.publishers && q != p ensures !t.publishers[q].held && PcOk(t, q, t.publishers[q]) {
      assert !s.publishers[q].held;
    }
  }

  /** The same files mean the same facts, whatever the counters say. */
  lemma PcFrame(s: State, t: State, p: Pid, me: Publisher)
    requires s.names == t.names && s.data == t.data
    ensures PcOk(s, p, me) <==> PcOk(t, p, me)
  {
  }

  /** The holder changes files first and its counter second. */
  lemma HolderTo(s: State, t: State, p: Pid, pc: Pc)
    requires Inv(s) && p in s.publishers && s.publishers[p].held && t.publishers == s.publishers
    requires !pc.Start? && !pc.Returned?
    requires Files(t) && OwnsLock(t, p, s.publishers[p].(pc := pc)) && PcOk(t, p, s.publishers[p].(pc := pc))
    ensures Inv(t.To(p, pc))
  {
    PcFrame(t, t.To(p, pc), p, s.publishers[p].(pc := pc));
    HolderStep(s, t.To(p, pc), p);
  }

  /** A publisher that holds nothing and changes only its own counter disturbs nobody. */
  lemma BystanderStep(s: State, p: Pid, pc: Pc)
    requires Inv(s) && p in s.publishers && !s.publishers[p].held
    requires pc.Threw? || pc.Dead?
    ensures Inv(s.To(p, pc))
  {
    var t := s.To(p, pc);
    forall q | q in t.publishers && q != p
      ensures t.publishers[q].held ==> OwnsLock(t, q, t.publishers[q])
      ensures PcOk(t, q, t.publishers[q])
    {
      assert t.publishers[q] == s.publishers[q];
    }
  }

  lemma OpenLockInv(s: State, p: Pid)
    requires Inv(s) && Step(s, OpenLock(p)).Some?
    ensures Inv(Step(s, OpenLock(p)).value)
  {
    var t := Step(s, OpenLock(p)).value;
    forall q | q in t.publishers && q != p ensures !t.publishers[q].held && PcOk(t, q, t.publishers[q]) {
      assert t.publishers[q] == s.publishers[q];
      assert !s.publishers[q].held;
    }
  }

  lemma WriteLockInv(s: State, p: Pid)
    requires Inv(s) && p in s.publishers && s.publishers[p].pc.LockOpened?
    ensures Inv(s.(data := s.data[s.publishers[p].lockIno := LockFile(Some(p))]).To(p, Inspecting(Begin)))
  {
    var me := s.publishers[p];
    var t := s.(data := s.data[me.lockIno := LockFile(Some(p))]);
    assert OwnsLock(s, p, me);
    HolderTo(s, t, p, Inspecting(Begin));
  }

  /** Creating a file under a name private to the attempt. */
  lemma CreateInv(s: State, p: Pid, n: Name, d: Data, pc: Pc)
    requires Inv(s) && p in s.publishers && s.publishers[p].held && n !in s.names
    requires Active(s.publishers[p].pc) && !s.publishers[p].pc.LockOpened? && Active(pc) && !pc.LockOpened?
    requires n == TempBinary(p) || n == TempSidecar(p)
    requires PcOk(s.Create(n, d), p, s.publishers[p].(pc := pc))
    ensures Inv(s.Create(n, d).To(p, pc))
  {
    var t := s.Create(n, d);
    assert OwnsLock(s, p, s.publishers[p]);
    assert Files(t) && OwnsLock(t, p, s.publishers[p]);
    HolderTo(s, t, p, pc);
  }

  lemma CopyInv(s: State, p: Pid)
    requires Inv(s) && p in s.publishers && s.publishers[p].pc.Copying? && TempBinary(p) !in s.names
    ensures Inv(s.Create(TempBinary(p), Blob(s.publishers[p].source)).To(p, Copied))
  {
    CreateInv(s, p, TempBinary(p), Blob(s.publishers[p].source), Copied);
  }

  lemma WriteSumInv(s: State, p: Pid)
    requires Inv(s) && p in s.publishers && s.publishers[p].pc.Digested? && TempSidecar(p) !in s.names
    ensures Inv(s.Create(TempSidecar(p), Sum(s.publishers[p].pc.digest)).To(p, Staged))
  {
    assert PcOk(s, p, s.publishers[p]);
    CreateInv(s, p, TempSidecar(p), Sum(s.publishers[p].pc.digest), Staged);
  }

  lemma StagingInv(s: State, e: Event)
    requires Inv(s) && Step(s, e).Some?
    requires e.LockBroken? || e.CopySource? || e.HashTemp? || e.WriteSum?
    ensures Inv(Step(s, e).value)
  {
    var p, me := e.p, s.publishers[e.p];
    match e
    case LockBroken(_) => CounterStep(s, p, Threw);
    case HashTemp(_) =>
      assert PcOk(s, p, me);
      CounterStep(s, p, Digested(Sha256(me.source)));
    case CopySource(_) => CopyInv(s, p);
    case WriteSum(_) => WriteSumInv(s, p);
  }

  /** A step that changes no file keeps everybody's facts except the actor's own. */
  lemma CounterStep(s: State, p: Pid, pc: Pc)
    requires Inv(s) && p in s.publishers && s.publishers[p].held
    requires Active(pc) ==> Active(s.publishers[p].pc)
    requires Active(pc) ==> (pc.LockOpened? <==> s.publishers[p].pc.LockOpened?)
    requires !pc.Start? && !pc.Returned?
    requires PcOk(s, p, s.publishers[p].(pc := pc))
    ensures Inv(s.To(p, pc))
  {
    var me := s.publishers[p];
    assert OwnsLock(s, p, me);
    HolderTo(s, s, p, pc);
  }

  lemma InspectingInv(s: State, e: Event)
    requires Inv(s) && Step(s, e).Some? && e.InspectStep?
    ensures Inv(Step(s, e).value)
  {
    var p, me := e.p, s.publishers[e.p];
    assert PcOk(s, p, me);
    if me.pc.Inspecting? {
      var i := me.pc.first;
      InspectOk(s, i, e.chunk, e.fails);
      CounterStep(s, p, if !i.Verdict? then Inspecting(Inspect(s, i, e.chunk, e.fails))
                        else if i.result.Some? then Cleaning(true) else Copying);
    } else {
      var i := me.pc.final;
      InspectOk(s, i, e.chunk, e.fails);
      CounterStep(s, p, if !i.Verdict? then Verifying(Inspect(s, i, e.chunk, e.fails)) else Cleaning(i.result.Some?));
    }
  }

  /** Renaming anything but the lock keeps the files and the lock in order. */
  lemma RenameKeeps(s: State, p: Pid, from: Name, to: Name)
    requires Inv(s) && p in s.publishers && s.publishers[p].held
    requires from in s.names && from != Lock && to != Lock && from != to
    ensures var t := s.Rename(from, to);
            && Files(t) && OwnsLock(t, p, s.publishers[p])
            && (forall n, d :: n !in {from, to} ==> (Is(t, n, d) <==> Is(s, n, d)))
            && (forall d :: Is(t, to, d) <==> Is(s, from, d))
  {
    assert OwnsLock(s, p, s.publishers[p]);
  }

  lemma MoveInv(s: State, e: Event)
    requires Inv(s) && Step(s, e).Some? && (e.MoveBinary? || e.MoveSidecar?)
    ensures Inv(Step(s, e).value)
  {
    StepIsOwn(s, e);
    var me, n := s.publishers[e.p], if e.MoveBinary? then Binary else Sidecar;
    var pc := if e.MoveBinary? then BinaryMoved else Cleared;
    var t := MoveAside(s, n, e.id);
    if n in s.names {
      RenameKeeps(s, e.p, n, Quarantine(e.id));
    }
    assert OwnsLock(t, e.p, me);
    assert PcOk(s, e.p, me);
    MovedOk(s, e, t, me, n, pc);
    HolderTo(s, t, e.p, pc);
  }

  lemma MovedOk(s: State, e: Event, t: State, me: Publisher, n: Name, pc: Pc)
    requires e.MoveBinary? || e.MoveSidecar?
    requires n == (if e.MoveBinary? then Binary else Sidecar) && pc == (if e.MoveBinary? then BinaryMoved else Cleared)
    requires t == MoveAside(s, n, e.id) && Quarantine(e.id) !in s.names
    requires PcOk(s, e.p, me) && (if e.MoveBinary? then me.pc.Staged? else me.pc.BinaryMoved?)
    ensures PcOk(t, e.p, me.(pc := pc))
  {
  }

  lemma PlaceBinaryInv(s: State, p: Pid)
    requires Inv(s) && p in s.publishers && s.publishers[p].pc.Cleared? && TempBinary(p) in s.names
    ensures Inv(s.Rename(TempBinary(p), Binary).To(p, BinaryPlaced))
  {
    assert PcOk(s, p, s.publishers[p]);
    RenameKeeps(s, p, TempBinary(p), Binary);
    HolderTo(s, s.Rename(TempBinary(p), Binary), p, BinaryPlaced);
  }

  lemma PlaceSidecarInv(s: State, p: Pid)
    requires Inv(s) && p in s.publishers && s.publishers[p].pc.BinaryPlaced? && TempSidecar(p) in s.names
    ensures Inv(s.Rename(TempSidecar(p), Sidecar).To(p, Verifying(Begin)))
  {
    assert PcOk(s, p, s.publishers[p]);
    RenameKeeps(s, p, TempSidecar(p), Sidecar);
    HolderTo(s, s.Rename(TempSidecar(p), Sidecar), p, Verifying(Begin));
  }

  lemma RemoveKeeps(s: State, p: Pid, n: Name)
    requires Files(s) && p in s.publishers && OwnsLock(s, p, s.publishers[p]) && n != Lock
    ensures var t := s.Remove(n); Files(t) && OwnsLock(t, p, s.publishers[p])
    ensures VerifiedPair(s) && n != Binary && n != Sidecar ==> VerifiedPair(s.Remove(n))
  {
  }

  lemma RemoveTempsInv(s: State, p: Pid)
    requires Inv(s) && p in s.publishers && s.publishers[p].pc.Cleaning?
    ensures Inv(s.Remove(TempBinary(p)).Remove(TempSidecar(p)).To(p, TempsRemoved(s.publishers[p].pc.ok)))
  {
    var me := s.publishers[p];
    assert PcOk(s, p, me);
    RemoveKeeps(s, p, TempBinary(p));
    RemoveKeeps(s.Remove(TempBinary(p)), p, TempSidecar(p));
    var t := s.Remove(TempBinary(p)).Remove(TempSidecar(p));
    HolderTo(s, t, p, TempsRemoved(me.pc.ok));
  }

  lemma CheckLockInv(s: State, e: Event)
    requires Inv(s) && Step(s, e).Some? && (e.CheckLock? || e.Fail?)
    ensures Inv(Step(s, e).value)
  {
    var me := s.publishers[e.p];
    assert PcOk(s, e.p, me) && OwnsLock(s, e.p, me);
    var pc := Step(s, e).value.publishers[e.p].pc;
    assert Step(s, e).value == s.To(e.p, pc);
    CounterStep(s, e.p, pc);
  }

  lemma UnlinkInv(s: State, e: Event)
    requires Inv(s) && Step(s, e).Some? && e.Unlink?
    ensures Inv(Step(s, e).value)
  {
    StepIsOwn(s, e);
    HolderStep(s, Step(s, e).value, e.p);
  }

  /** Every event keeps the invariant. */
  lemma CrashInv(s: State, e: Event)
    requires Inv(s) && Step(s, e).Some? && e.Crash?
    ensures Inv(Step(s, e).value)
  {
    StepIsOwn(s, e);
    if s.publishers[e.p].held {
      HolderStep(s, Step(s, e).value, e.p);
    } else {
      BystanderStep(s, e.p, Dead);
    }
  }

  lemma ReadInv(s: State, e: Event)
    requires Inv(s) && Step(s, e).Some? && e.ReadStep?
    ensures Inv(Step(s, e).value)
  {
    var t := Step(s, e).value;
    assert t.publishers == s.publishers && t.names == s.names && t.data == s.data;
    forall p | p in t.publishers
      ensures PcOk(t, p, t.publishers[p]) && (t.publishers[p].held ==> OwnsLock(t, p, t.publishers[p]))
    {
      assert PcOk(s, p, s.publishers[p]);
    }
  }

  lemma StepInv(s: State, e: Event)
    requires Inv(s) && Step(s, e).Some?
    ensures Inv(Step(s, e).value)
  {
    match e
    case OpenLock(p) => OpenLockInv(s, p);
    case GiveUp(p) => BystanderStep(s, p, Threw);
    case Crash(_) => CrashInv(s, e);
    case ReadStep(_, _, _) => ReadInv(s, e);
    case WriteLock(p) => WriteLockInv(s, p);
    case InspectStep(_, _, _) => InspectingInv(s, e);
    case MoveBinary(_, _) => MoveInv(s, e);
    case MoveSidecar(_, _) => MoveInv(s, e);
    case PlaceBinary(p) => PlaceBinaryInv(s, p);
    case PlaceSidecar(p) => PlaceSidecarInv(s, p);
    case Fail(_) => CheckLockInv(s, e);
    case RemoveTemps(p, fails) =>
      if fails {
        CounterStep(s, p, TempsRemoved(false));
      } else {
        RemoveTempsInv(s, p);
      }
    case CheckLock(_, _) => CheckLockInv(s, e);
    case Unlink(_) => UnlinkInv(s, e);
    case _ => StagingInv(s, e);
  }

  lemma {:induction false} RunInv(s: State, events: seq<Event>)
    requires Inv(s) && RunEvents(s, events).Some?
    ensures Inv(RunEvents(s, events).value)
    decreases |events|
  {
    if events != [] {
      StepInv(s, events[0]);
      RunInv(Step(s, events[0]).value, events[1..]);
    }
  }

  // ------------------------------------------------------------------ the lock

  /** Whatever L names when a publisher unlinks it is that publisher's own lock file, with its record. */
  lemma UnlinkRemovesOwnLock(s: State, p: Pid)
    requires Inv(s) && Step(s, Unlink(p)).Some?
    ensures Is(s, Lock, LockFile(Some(p))) && s.names[Lock] == s.publishers[p].lockIno
    ensures Exclusive(s) && s.publishers[p].held && !Step(s, Unlink(p)).value.publishers[p].held
  {
    assert OwnsLock(s, p, s.publishers[p]);
  }

  /** Only the holder is active, so whatever changes the directory is the holder's step. */
  lemma OnlyTheHolderActs(s: State, e: Event, p: Pid)
    requires Inv(s) && Step(s, e).Some? && p in s.publishers && s.publishers[p].held
    ensures e.ReadStep? || e.GiveUp? || e.Crash? || e.p == p
    ensures !e.OpenLock?
  {
    assert OwnsLock(s, p, s.publishers[p]);
    if !e.ReadStep? && e.p != p {
      assert !s.publishers[e.p].held;
      assert !Active(s.publishers[e.p].pc);
    }
  }

  /** The names an event may take away or point elsewhere. */
  predicate Displaces(e: Event, n: Name) {
    match n
    case Lock => e.Unlink?
    case Binary => e.MoveBinary? || e.PlaceBinary?
    case Sidecar => e.MoveSidecar? || e.PlaceSidecar?
    case Quarantine(_) => false
    case _ => true
  }

  /** What each event does to the directory, apart from the names private to one attempt. */
  lemma DirectoryEffect(s: State, e: Event)
    requires Step(s, e).Some?
    ensures var t := Step(s, e).value;
            && (forall n :: n in s.names && !Displaces(e, n) ==> n in t.names && t.names[n] == s.names[n])
            && (e.MoveBinary? && Binary in s.names ==>
                 Quarantine(e.id) in t.names && t.names[Quarantine(e.id)] == s.names[Binary])
            && (e.MoveSidecar? && Sidecar in s.names ==>
                 Quarantine(e.id) in t.names && t.names[Quarantine(e.id)] == s.names[Sidecar])
  {
    match e
    case MoveBinary(_, _) =>
    case MoveSidecar(_, _) =>
    case PlaceBinary(_) =>
    case PlaceSidecar(_) =>
    case _ =>
  }

  lemma DataGrows(s: State, e: Event)
    requires (forall i :: i in s.data ==> i < s.next) && Step(s, e).Some? && !e.WriteLock?
    ensures forall i :: i in s.data ==> i in Step(s, e).value.data && Step(s, e).value.data[i] == s.data[i]
  {
  }

  lemma LockRewritten(s: State, p: Pid)
    requires Inv(s) && Step(s, WriteLock(p)).Some?
    ensures var t := Step(s, WriteLock(p)).value;
            forall i :: i in s.data && !s.data[i].LockFile? ==> i in t.data && t.data[i] == s.data[i]
  {
    assert OwnsLock(s, p, s.publishers[p]);
  }

  /** Files are written once; only a lock file is ever rewritten. */
  lemma DataEffect(s: State, e: Event)
    requires Inv(s) && Step(s, e).Some?
    ensures var t := Step(s, e).value;
            forall i :: i in s.data && !s.data[i].LockFile? ==> i in t.data && t.data[i] == s.data[i]
  {
    if e.WriteLock? {
      LockRewritten(s, e.p);
    } else {
      DataGrows(s, e);
    }
  }

  lemma HeldEffect(s: State, e: Event, p: Pid)
    requires Step(s, e).Some? && !e.OpenLock? && e != Unlink(p) && p in s.publishers && s.publishers[p].held
    ensures var t := Step(s, e).value;
            t.publishers[p].held && t.publishers[p].lockIno == s.publishers[p].lockIno
  {
    if !e.ReadStep? && e.p != p {
      StepIsOwn(s, e);
    }
  }

  /** As long as a publisher holds the lock, only its own unlink takes L away, and nobody else can open it. */
  lemma HeldLockStays(s: State, e: Event, p: Pid)
    requires Inv(s) && Step(s, e).Some? && p in s.publishers && s.publishers[p].held
    ensures e != Unlink(p) ==>
              var t := Step(s, e).value;
              && t.publishers[p].held && t.publishers[p].lockIno == s.publishers[p].lockIno
              && Lock in t.names && t.names[Lock] == s.names[Lock]
    ensures !e.OpenLock?
  {
    assert OwnsLock(s, p, s.publishers[p]);
    OnlyTheHolderActs(s, e, p);
    DirectoryEffect(s, e);
    if e != Unlink(p) {
      HeldEffect(s, e, p);
    }
  }

  // ------------------------------------------------------------------ B and S

  lemma StepConsistent(s: State, e: Event)
    requires Inv(s) && Consistent(s) && Step(s, e).Some?
    ensures Consistent(Step(s, e).value)
  {
    if e.PlaceBinary? {
      PlacedBinaryIsAlone(s, e.p);
    } else if e.PlaceSidecar? {
      PlacedSidecarMatches(s, e.p);
    } else {
      NoNewPair(s, e);
    }
  }

  lemma PlacedBinaryIsAlone(s: State, p: Pid)
    requires Inv(s) && p in s.publishers && s.publishers[p].pc.Cleared? && TempBinary(p) in s.names
    ensures Consistent(s.Rename(TempBinary(p), Binary).To(p, BinaryPlaced))
  {
    assert PcOk(s, p, s.publishers[p]);
  }

  lemma PlacedSidecarMatches(s: State, p: Pid)
    requires Inv(s) && p in s.publishers && s.publishers[p].pc.BinaryPlaced? && TempSidecar(p) in s.names
    ensures Consistent(s.Rename(TempSidecar(p), Sidecar).To(p, Verifying(Begin)))
  {
    assert PcOk(s, p, s.publishers[p]);
  }

  lemma NoNewPair(s: State, e: Event)
    requires Inv(s) && Step(s, e).Some? && !e.PlaceBinary? && !e.PlaceSidecar?
    ensures var t := Step(s, e).value;
            forall n :: n in {Binary, Sidecar} && t.Has(n) ==> s.Has(n) && (t.At(n) == s.At(n) || s.At(n).LockFile?)
  {
    NoNewName(s, e);
    DataEffect(s, e);
  }

  lemma NoNewName(s: State, e: Event)
    requires Step(s, e).Some? && !e.PlaceBinary? && !e.PlaceSidecar?
    ensures var t := Step(s, e).value;
            forall n :: n in {Binary, Sidecar} && n in t.names ==> n in s.names && t.names[n] == s.names[n]
  {
  }

  /**
    From a cache whose B and S are absent or matching, at every point of every run: at most one
    publisher (dead ones included) is between acquiring and releasing the lock, and B and S
    are never both present and in disagreement.
   */
  lemma {:induction false} EveryRunIsConsistent(s: State, events: seq<Event>)
    requires Inv(s) && Consistent(s) && RunEvents(s, events).Some?
    ensures var t := RunEvents(s, events).value; Inv(t) && Exclusive(t) && Consistent(t)
    decreases |events|
  {
    if events != [] {
      StepInv(s, events[0]);
      StepConsistent(s, events[0]);
      EveryRunIsConsistent(Step(s, events[0]).value, events[1..]);
    }
  }

  lemma CacheStaysConsistent(s: State, events: seq<Event>)
    requires Init(s) && Consistent(s) && RunEvents(s, events).Some?
    ensures var t := RunEvents(s, events).value; Inv(t) && Exclusive(t) && Consistent(t)
  {
    InitInv(s);
    EveryRunIsConsistent(s, events);
  }

  /** The event by which a publisher comes to return normally. */
  predicate Returns(s: State, e: Event) {
    && !e.ReadStep? && e.p in s.publishers && !s.publishers[e.p].pc.Returned?
    && Step(s, e).Some? && Step(s, e).value.publishers[e.p].pc.Returned?
  }

  lemma WaysToReturn(s: State, e: Event)
    requires Returns(s, e)
    ensures || (e.Unlink? && s.publishers[e.p].pc == LockChecked(true))
            || (e.CheckLock? && s.publishers[e.p].pc.TempsRemoved? && Lock !in s.names)
  {
  }

  lemma ReturningIsUnlinking(s: State, e: Event)
    requires Inv(s) && Returns(s, e)
    ensures e.Unlink? && s.publishers[e.p].pc == LockChecked(true)
  {
    var me := s.publishers[e.p];
    WaysToReturn(s, e);
    assert me.held ==> OwnsLock(s, e.p, me);
  }

  /** Whatever the cache held at first, a publisher that returns normally leaves a verified pair. */
  lemma ReturnLeavesVerifiedPair(s: State, events: seq<Event>, e: Event)
    requires Init(s) && RunEvents(s, events).Some? && Returns(RunEvents(s, events).value, e)
    ensures var t := Step(RunEvents(s, events).value, e).value;
            && VerifiedPair(t) && Lock !in t.names
            && (e.p in t.publishers && !t.publishers[e.p].held)
  {
    InitInv(s);
    RunInv(s, events);
    var t := RunEvents(s, events).value;
    ReturningIsUnlinking(t, e);
    assert PcOk(t, e.p, t.publishers[e.p]);
  }

  // ------------------------------------------------------------------ nothing is thrown away

  predicate Kept(n: Name) {
    n.Binary? || n.Sidecar? || n.Quarantine?
  }

  /** The file with inode `i` can still be found, unchanged, as B, as S or in quarantine. */
  ghost predicate Survives(s: State, i: Ino, d: Data) {
    exists n :: Kept(n) && n in s.names && s.names[n] == i && i in s.data && s.data[i] == d
  }

  lemma StepKeepsFile(s: State, e: Event, n: Name)
    requires Inv(s) && Step(s, e).Some? && Kept(n) && s.Has(n) && !s.At(n).LockFile?
    ensures Survives(Step(s, e).value, s.names[n], s.At(n))
  {
    var t, i := Step(s, e).value, s.names[n];
    DirectoryEffect(s, e);
    DataEffect(s, e);
    if (e.MoveBinary? && n == Binary) || (e.MoveSidecar? && n == Sidecar) {
      assert Kept(Quarantine(e.id)) && t.names[Quarantine(e.id)] == i;
    } else {
      PlacesOnlyWhereAbsent(s, e);
      assert n in t.names && t.names[n] == i;
    }
  }

  /** A rename into B or S never lands on an existing file. */
  lemma PlacesOnlyWhereAbsent(s: State, e: Event)
    requires Inv(s) && Step(s, e).Some?
    ensures e.PlaceBinary? ==> Binary !in s.names
    ensures e.PlaceSidecar? ==> Sidecar !in s.names
  {
    if e.PlaceBinary? || e.PlaceSidecar? {
      assert PcOk(s, e.p, s.publishers[e.p]);
    }
  }

  /** A file that was ever B or S, or was quarantined, survives the rest of the run. */
  lemma {:induction false} DisplacedFilesSurvive(s: State, events: seq<Event>, n: Name)
    requires Inv(s) && RunEvents(s, events).Some? && Kept(n) && s.Has(n) && !s.At(n).LockFile?
    ensures Survives(RunEvents(s, events).value, s.names[n], s.At(n))
    decreases |events|
  {
    if events != [] {
      var t := Step(s, events[0]).value;
      StepInv(s, events[0]);
      StepKeepsFile(s, events[0], n);
      var m :| Kept(m) && m in t.names && t.names[m] == s.names[n] && t.data[t.names[m]] == s.At(n);
      DisplacedFilesSurvive(t, events[1..], m);
    } else {
      assert s.names[n] == s.names[n];
    }
  }

  // ------------------------------------------------------------------ lock-free reading

  /** Every checksum line was written for one of `sources`, and publishers publish only those. */
  ghost predicate SumsFrom(s: State, sources: iset<Bytes>) {
    && (forall i :: i in s.data && s.data[i].Sum? ==> s.data[i].digest.bytes in sources)
    && (forall p :: p in s.publishers ==> s.publishers[p].source in sources)
  }

  /** A reader that has reached the verdict `verified` hashed a publisher's source bytes. */
  ghost predicate ReadersSound(s: State, sources: iset<Bytes>) {
    forall r :: r in s.readers && s.readers[r].Verdict? && s.readers[r].result.Some? ==>
      s.readers[r].result.value in sources
  }

  /** No event but one writes a checksum line. */
  lemma NoOtherSum(s: State, e: Event)
    requires !e.ReadStep? && !e.WriteSum? && Step(s, e).Some?
    ensures var t := Step(s, e).value;
            forall i :: i in t.data && t.data[i].Sum? ==> i in s.data && t.data[i] == s.data[i]
  {
  }

  lemma WrittenSum(s: State, p: Pid)
    requires Inv(s) && Step(s, WriteSum(p)).Some?
    ensures var t := Step(s, WriteSum(p)).value;
            forall i :: i in t.data && t.data[i].Sum? ==>
              (i in s.data && t.data[i] == s.data[i]) || t.data[i] == Sum(Sha256(s.publishers[p].source))
  {
    assert PcOk(s, p, s.publishers[p]);
  }

  /** The only checksum line an event writes is the digest of its publisher's own source. */
  lemma SumEffect(s: State, e: Event)
    requires Inv(s) && Step(s, e).Some? && !e.ReadStep?
    ensures var t := Step(s, e).value;
            forall i :: i in t.data && t.data[i].Sum? ==>
              (i in s.data && t.data[i] == s.data[i]) || t.data[i] == Sum(Sha256(s.publishers[e.p].source))
  {
    if e.WriteSum? {
      WrittenSum(s, e.p);
    } else {
      NoOtherSum(s, e);
    }
  }

  lemma PublisherKeepsSums(s: State, e: Event, sources: iset<Bytes>)
    requires Inv(s) && SumsFrom(s, sources) && Step(s, e).Some? && !e.ReadStep?
    ensures SumsFrom(Step(s, e).value, sources)
  {
    StepIsOwn(s, e);
    SumEffect(s, e);
  }

  /** `verified` is reached only by comparing the hashed bytes with a checksum line. */
  lemma VerdictComesFromSum(s: State, i: Inspection, chunk: nat, fails: bool)
    ensures var j := Inspect(s, i, chunk, fails);
            j.Verdict? && j.result.Some? ==>
              j == i || (exists k :: k in s.data && s.data[k] == Sum(Sha256(j.result.value)))
  {
  }

  lemma StepReadersSound(s: State, e: Event, sources: iset<Bytes>)
    requires Inv(s) && SumsFrom(s, sources) && ReadersSound(s, sources) && Step(s, e).Some?
    ensures SumsFrom(Step(s, e).value, sources) && ReadersSound(Step(s, e).value, sources)
  {
    if e.ReadStep? {
      VerdictComesFromSum(s, s.readers[e.r], e.chunk, e.fails);
    } else {
      PublisherKeepsSums(s, e, sources);
      PublisherLeavesReaders(s, e);
    }
  }

  lemma PublisherLeavesReaders(s: State, e: Event)
    requires Step(s, e).Some? && !e.ReadStep?
    ensures Step(s, e).value.readers == s.readers
  {
  }

  lemma {:induction false} RunReadersSound(s: State, events: seq<Event>, sources: iset<Bytes>)
    requires Inv(s) && SumsFrom(s, sources) && ReadersSound(s, sources) && RunEvents(s, events).Some?
    ensures ReadersSound(RunEvents(s, events).value, sources)
    decreases |events|
  {
    if events != [] {
      StepInv(s, events[0]);
      StepReadersSound(s, events[0], sources);
      RunReadersSound(Step(s, events[0]).value, events[1..], sources);
    }
  }

  /** `verified` from a reader without the lock, under any interleaving, names some publisher's source bytes. */
  lemma LockFreeReadingIsSound(s: State, events: seq<Event>, sources: iset<Bytes>, r: Pid)
    requires Init(s) && SumsFrom(s, sources) && RunEvents(s, events).Some?
    requires var t := RunEvents(s, events).value;
             r in t.readers && t.readers[r].Verdict? && t.readers[r].result.Some?
    ensures RunEvents(s, events).value.readers[r].result.value in sources
  {
    InitInv(s);
    RunReadersSound(s, events, sources);
  }

  /**
    What a reader hashes is the whole content of the file it opened at B, read in pieces: at
    every step it has seen a prefix of that file, which no publisher ever modifies.
   */
  ghost predicate ReaderFaithful(s: State, i: Inspection) {
    match i
    case BinaryFound(ino) => ino in s.data && s.data[ino].Blob?
    case Reading(ino, soFar) => ino in s.data && s.data[ino].Blob? && soFar <= s.data[ino].bytes
    case Hashed(ino, bytes) => ino in s.data && s.data[ino] == Blob(bytes)
    case SidecarFound(ino, bytes, _) => ino in s.data && s.data[ino] == Blob(bytes)
    case _ => true
  }

  lemma StepReaderFaithful(s: State, e: Event, r: Pid)
    requires Inv(s) && Step(s, e).Some? && r in s.readers && ReaderFaithful(s, s.readers[r])
    ensures ReaderFaithful(Step(s, e).value, Step(s, e).value.readers[r])
  {
    if e.ReadStep? {
      var i := s.readers[e.r];
      if e.r == r && i.Reading? && !e.fails {
        var bytes := s.data[i.ino].bytes;
        if |i.soFar| < |bytes| {
          var n := if e.chunk == 0 then 1 else e.chunk;
          var end := if |i.soFar| + n < |bytes| then |i.soFar| + n else |bytes|;
          assert i.soFar + bytes[|i.soFar|..end] == bytes[..end];
        } else {
          assert i.soFar == bytes;
        }
      }
    } else {
      DataEffect(s, e);
    }
  }

  ghost predicate ReadersFaithful(s: State) {
    forall r :: r in s.readers ==> ReaderFaithful(s, s.readers[r])
  }

  lemma {:induction false} RunReadersFaithful(s: State, events: seq<Event>)
    requires Inv(s) && ReadersFaithful(s) && RunEvents(s, events).Some?
    ensures ReadersFaithful(RunEvents(s, events).value)
    decreases |events|
  {
    if events != [] {
      var t := Step(s, events[0]).value;
      StepInv(s, events[0]);
      forall r | r in t.readers ensures ReaderFaithful(t, t.readers[r]) {
        ReadersStay(s, events[0], r);
        StepReaderFaithful(s, events[0], r);
      }
      RunReadersFaithful(t, events[1..]);
    }
  }

  lemma ReadersStay(s: State, e: Event, r: Pid)
    requires Step(s, e).Some?
    ensures r in Step(s, e).value.readers <==> r in s.readers
  {
  }

  /** In every run, whatever publishers do between its steps, what a reader has hashed so far is a prefix of one file
      that still exists, and all of that file once it is done hashing. */
  lemma ReadersHashOneFile(s: State, events: seq<Event>, r: Pid)
    requires Init(s) && RunEvents(s, events).Some? && r in RunEvents(s, events).value.readers
    ensures var t := RunEvents(s, events).value;
            match t.readers[r]
            case Reading(ino, soFar) => ino in t.data && t.data[ino].Blob? && soFar <= t.data[ino].bytes
            case Hashed(ino, bytes) => ino in t.data && t.data[ino] == Blob(bytes)
            case SidecarFound(ino, bytes, _) => ino in t.data && t.data[ino] == Blob(bytes)
            case _ => true
  {
    InitInv(s);
    RunReadersFaithful(s, events);
    assert ReaderFaithful(RunEvents(s, events).value, RunEvents(s, events).value.readers[r]);
  }
}
