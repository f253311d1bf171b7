/**
  Publication of a native binary into the shared cache: a binary B, its checksum sidecar S and an
  exclusive lock L. Publishers quarantine and rename in a fixed order under the lock; readers
  inspect B and S without it.

  A state holds the directory, the files and the program counter of every publisher and reader.
  Every file-system call is one step; any call may fail, and a publisher may die between any
  two steps. A digest is an injective wrapper around the digested bytes, and the names made from
  uuids (temporary files, quarantine names) are unique.
 */
module NativeCache {
  import opened Wrappers

  type Bytes = seq<int>
  type Ino = nat
  type Pid = nat

  datatype Digest = Sha256(bytes: Bytes)

  datatype Name =
    | Binary
    | Sidecar
    | Lock
    | TempBinary(attempt: Pid)
    | TempSidecar(attempt: Pid)
    | Quarantine(id: nat)

  /** A file: bytes, a well-formed checksum line, a lock file (empty until its record is written), or junk. */
  datatype Data = Blob(bytes: Bytes) | Sum(digest: Digest) | LockFile(record: Option<Pid>) | Junk

  /** Progress of `inspectManagedNativeBinary`. `Verdict(Some(b))` is `verified`, having hashed `b`. */
  datatype Inspection =
    | Begin
    | BinaryFound(ino: Ino)
    | Reading(ino: Ino, soFar: Bytes)
    | Hashed(ino: Ino, bytes: Bytes)
    | SidecarFound(ino: Ino, bytes: Bytes, sum: Ino)
    | Verdict(result: Option<Bytes>)

  /** Progress of `publishManagedNativeBinary`; `ok` says whether the try block ended normally. */
  datatype Pc =
    | Start
    | LockOpened
    | Inspecting(first: Inspection)
    | Copying
    | Copied
    | Digested(digest: Digest)
    | Staged
    | BinaryMoved
    | Cleared
    | BinaryPlaced
    | Verifying(final: Inspection)
    | Cleaning(ok: bool)
    | TempsRemoved(ok: bool)
    | LockChecked(ok: bool)
    | Returned
    | Threw
    | Dead

  /** `held` is true from the creation of the lock to its removal, also for a process that died between. */
  datatype Publisher = Publisher(source: Bytes, pc: Pc, held: bool, lockIno: Ino)

  datatype State = State(
    names: map<Name, Ino>,
    data: map<Ino, Data>,
    next: Ino,
    publishers: map<Pid, Publisher>,
    readers: map<Pid, Inspection>)
  {
    predicate Has(n: Name) {
      n in names && names[n] in data
    }

    function At(n: Name): Data
      requires Has(n)
    {
      data[names[n]]
    }

    function Create(n: Name, d: Data): State {
      this.(names := names[n := next], data := data[next := d], next := next + 1)
    }

    function Rename(from: Name, to: Name): State
      requires from in names
    {
      this.(names := (names - {from})[to := names[from]])
    }

    function Remove(n: Name): State {
      this.(names := names - {n})
    }

    function To(p: Pid, pc: Pc): State
      requires p in publishers
    {
      this.(publishers := publishers[p := publishers[p].(pc := pc)])
    }
  }

  /** One call of an inspection; `chunk` bytes are read at a time, and any call may fail. */
  function Inspect(s: State, i: Inspection, chunk: nat, fails: bool): Inspection {
    if fails then Verdict(None)
    else match i
      case Begin =>
        if s.Has(Binary) && s.At(Binary).Blob? && s.At(Binary).bytes != [] then BinaryFound(s.names[Binary])
          else Verdict(None)
      case BinaryFound(ino) =>
        if s.Has(Binary) && s.names[Binary] == ino && s.At(Binary).Blob? then Reading(ino, []) else Verdict(None)
      case Reading(ino, soFar) =>
        if ino !in s.data || !s.data[ino].Blob? || |soFar| > |s.data[ino].bytes| then Verdict(None)
        else
          var bytes := s.data[ino].bytes;
          if |soFar| < |bytes| then
            var n := if chunk == 0 then 1 else chunk;
            var end := if |soFar| + n < |bytes| then |soFar| + n else |bytes|;
            Reading(ino, soFar + bytes[|soFar|..end])
          else if s.Has(Binary) && s.names[Binary] == ino then Hashed(ino, soFar)
          else Verdict(None)
      case Hashed(ino, bytes) =>
        if s.Has(Sidecar) then SidecarFound(ino, bytes, s.names[Sidecar]) else Verdict(None)
      case SidecarFound(ino, bytes, sum) =>
        if s.Has(Sidecar) && s.names[Sidecar] == sum && s.data[sum] == Sum(Sha256(bytes)) then Verdict(Some(bytes))
        else Verdict(None)
      case Verdict(_) => i
  }

  datatype Event =
    | OpenLock(p: Pid)                             // open(L, O_CREAT | O_EXCL)
    | WriteLock(p: Pid)                            // record written, read back and checked
    | GiveUp(p: Pid)                               // EEXIST until the deadline
    | LockBroken(p: Pid)                           // an error after L was created: L is retained
    | InspectStep(p: Pid, chunk: nat, fails: bool) // one call of the publisher's own inspection
    | CopySource(p: Pid)
    | HashTemp(p: Pid)
    | WriteSum(p: Pid)
    | MoveBinary(p: Pid, id: nat)                  // quarantineInvalid(B)
    | MoveSidecar(p: Pid, id: nat)                 // quarantineInvalid(S)
    | PlaceBinary(p: Pid)
    | PlaceSidecar(p: Pid)
    | Fail(p: Pid)                                 // any call of the try block throws
    | RemoveTemps(p: Pid, fails: bool)
    | CheckLock(p: Pid, fails: bool)               // releaseCacheLock up to the unlink
    | Unlink(p: Pid)                               // unlink(L), whatever L names at that moment
    | Crash(p: Pid)
    | ReadStep(r: Pid, chunk: nat, fails: bool)    // one call of a lock-free reader

  predicate InTry(pc: Pc) {
    pc.Inspecting? || pc.Copying? || pc.Copied? || pc.Digested? || pc.Staged? || pc.BinaryMoved? || pc.Cleared?
    || pc.BinaryPlaced? || pc.Verifying?
  }

  /** The state after moving `n`, if it is there, to a fresh quarantine name. */
  function MoveAside(s: State, n: Name, id: nat): State {
    if n in s.names then s.Rename(n, Quarantine(id)) else s
  }

  /** The successor state, or `None` when the event cannot happen. */
  function Step(s: State, e: Event): Option<State> {
    if e.ReadStep? then
      if e.r in s.readers then
        Some(s.(readers := s.readers[e.r := Inspect(s, s.readers[e.r], e.chunk, e.fails)]))
      else None
    else if e.p !in s.publishers then None
    else PublisherStep(s, e, e.p, s.publishers[e.p])
  }

  function PublisherStep(s: State, e: Event, p: Pid, me: Publisher): Option<State>
    requires p in s.publishers
  {
    match e
    case OpenLock(_) =>
      if me.pc.Start? && Lock !in s.names then
        var t := s.Create(Lock, LockFile(None));
        Some(t.(publishers := t.publishers[p := me.(pc := LockOpened, held := true, lockIno := s.next)]))
      else None
    case WriteLock(_) =>
      if me.pc.LockOpened? then
        Some(s.(data := s.data[me.lockIno := LockFile(Some(p))]).To(p, Inspecting(Begin)))
      else None
    case GiveUp(_) => if me.pc.Start? && Lock in s.names then Some(s.To(p, Threw)) else None
    case LockBroken(_) => if me.pc.LockOpened? then Some(s.To(p, Threw)) else None
    case InspectStep(_, chunk, fails) =>
      if me.pc.Inspecting? then
        if me.pc.first.Verdict? then
          Some(s.To(p, if me.pc.first.result.Some? then Cleaning(true) else Copying))
        else Some(s.To(p, Inspecting(Inspect(s, me.pc.first, chunk, fails))))
      else if me.pc.Verifying? then
        if me.pc.final.Verdict? then Some(s.To(p, Cleaning(me.pc.final.result.Some?)))
        else Some(s.To(p, Verifying(Inspect(s, me.pc.final, chunk, fails))))
      else None
    case CopySource(_) =>
      if me.pc.Copying? && TempBinary(p) !in s.names then
        Some(s.Create(TempBinary(p), Blob(me.source)).To(p, Copied))
      else None
    case HashTemp(_) =>
      if me.pc.Copied? && s.Has(TempBinary(p)) && s.At(TempBinary(p)).Blob? && s.At(TempBinary(p)).bytes != [] then
        Some(s.To(p, Digested(Sha256(s.At(TempBinary(p)).bytes))))
      else None
    case WriteSum(_) =>
      if me.pc.Digested? && TempSidecar(p) !in s.names then
        Some(s.Create(TempSidecar(p), Sum(me.pc.digest)).To(p, Staged))
      else None
    case MoveBinary(_, id) =>
      if me.pc.Staged? && Quarantine(id) !in s.names then Some(MoveAside(s, Binary, id).To(p, BinaryMoved)) else None
    case MoveSidecar(_, id) =>
      if me.pc.BinaryMoved? && Quarantine(id) !in s.names then Some(MoveAside(s, Sidecar, id).To(p, Cleared)) else None
    case PlaceBinary(_) =>
      if me.pc.Cleared? && TempBinary(p) in s.names then
        Some(s.Rename(TempBinary(p), Binary).To(p, BinaryPlaced))
      else None
    case PlaceSidecar(_) =>
      if me.pc.BinaryPlaced? && TempSidecar(p) in s.names then
        Some(s.Rename(TempSidecar(p), Sidecar).To(p, Verifying(Begin)))
      else None
    case Fail(_) => if InTry(me.pc) then Some(s.To(p, Cleaning(false))) else None
    case RemoveTemps(_, fails) =>
      if !me.pc.Cleaning? then None
      else if fails then Some(s.To(p, TempsRemoved(false)))
      else Some(s.Remove(TempBinary(p)).Remove(TempSidecar(p)).To(p, TempsRemoved(me.pc.ok)))
    case CheckLock(_, fails) =>
      if me.pc.TempsRemoved? then
        if !fails && s.Has(Lock) && s.names[Lock] == me.lockIno && s.At(Lock) == LockFile(Some(p)) then
          Some(s.To(p, LockChecked(me.pc.ok)))
        else if !fails && Lock !in s.names then
          Some(s.To(p, if me.pc.ok then Returned else Threw))
        else Some(s.To(p, Threw))
      else None
    case Unlink(_) =>
      if me.pc.LockChecked? then
        var t := s.Remove(Lock);
        Some(t.(publishers := t.publishers[p := me.(pc := if me.pc.ok then Returned else Threw, held := false)]))
      else None
    case Crash(_) => if me.pc.Returned? || me.pc.Threw? then None else Some(s.To(p, Dead))
    case ReadStep(_, _, _) => None
  }

  /** The state after a sequence of events, or `None` when one of them cannot happen. */
  function RunEvents(s: State, events: seq<Event>): Option<State>
    decreases |events|
  {
    if events == [] then Some(s)
    else
      var t := Step(s, events[0]);
      if t.Some? then RunEvents(t.value, events[1..]) else None
  }

  /** Publishers and readers have not begun; the cache itself may hold anything. */
  ghost predicate Init(s: State) {
    && (forall n :: n in s.names ==> s.names[n] in s.data)
    && (forall i :: i in s.data ==> i < s.next)
    && (forall p :: p in s.publishers ==> s.publishers[p].pc.Start? && !s.publishers[p].held)
    && (forall p :: p in s.publishers ==> TempBinary(p) !in s.names && TempSidecar(p) !in s.names)
    && (forall r :: r in s.readers ==> s.readers[r].Begin?)
  }

  /** B and S are not both present with S different from the digest of B. */
  predicate Consistent(s: State) {
    s.Has(Binary) && s.Has(Sidecar) ==> s.At(Binary).Blob? && s.At(Sidecar) == Sum(Sha256(s.At(Binary).bytes))
  }

  predicate VerifiedPair(s: State) {
    s.Has(Binary) && s.Has(Sidecar) && s.At(Binary).Blob? && s.At(Sidecar) == Sum(Sha256(s.At(Binary).bytes))
  }
}
