/** The attempt loop of an auth hotswap run (`src/auth/hotswap.ts`). */
module AuthHotswap {
  import opened Wrappers
  import opened SlotRotation
  import opened AuthStore
  import opened ResumeArgs

  /** What the outside world answers to one attempt. */
  datatype Attempt = Attempt(
    useWorks: bool,             // the slot can be installed
    status: int,                // exit status of the child
    quota: bool,                // its output says quota
    authInvalid: bool,          // its output says the token is invalid
    session: Option<string>)    // the latest rollout session after it

  datatype Exit =
    | Succeeded
    | NoSlots
    | NotLaunched               // the launch was aborted before the first attempt
    | ChildFailed(status: int)
    | ManualStop
    | Exhausted
    | NoSession
    | UseFailed
    | FellThrough

  predicate Rotates(a: Attempt) { a.status != 0 && (a.quota || a.authInvalid) }

  /** What lets a run go on after an attempt, if there is another slot. */
  predicate GoesOn(a: Attempt, mode: Mode) {
    && a.status != 0 && (a.authInvalid || (a.quota && a.session.Some?)) && mode != Manual
  }

  predicate HitQuota(a: Attempt) { a.status != 0 && a.quota }

  /** The arguments of the attempt after one that ended with `a`. */
  function ArgsAfter(a: Attempt, before: seq<string>, normalized: seq<string>, t: Options): seq<string> {
    if a.authInvalid || a.session.None? then before else Resumed(normalized, a.session.value, t)
  }

  /** The arguments of an attempt: rebuilt for the session found after the last quota, if there was one. */
  function ArgsOf(k: nat, attempts: nat -> Attempt, normalized: seq<string>, t: Options): seq<string> {
    if k == 0 then normalized
    else ArgsAfter(attempts(k - 1), ArgsOf(k - 1, attempts, normalized, t), normalized, t)
  }

  /** Attempts that end with an invalid token or leave no session do not change the arguments. */
  lemma {:induction false} ArgsStay(i: nat, k: nat, attempts: nat -> Attempt, normalized: seq<string>, t: Options)
    requires i <= k && forall j :: i <= j < k ==> attempts(j).authInvalid || attempts(j).session == None
    ensures ArgsOf(k, attempts, normalized, t) == ArgsOf(i, attempts, normalized, t)
    decreases k
  {
    if i < k {
      ArgsStay(i, k - 1, attempts, normalized, t);
    }
  }

  /** After the first quota that left a session they resume the session of the last such quota. */
  lemma ArgsResume(i: nat, k: nat, attempts: nat -> Attempt, normalized: seq<string>, t: Options)
    requires i < k && !attempts(i).authInvalid && attempts(i).session.Some?
    requires forall j :: i < j < k ==> attempts(j).authInvalid || attempts(j).session == None
    ensures ArgsOf(k, attempts, normalized, t) == Resumed(normalized, attempts(i).session.value, t)
  {
    ArgsStay(i + 1, k, attempts, normalized, t);
  }

  /** The metadata marks exactly the launched slots that hit a quota. */
  ghost predicate MarksQuotas(m: Metadata, launched: seq<Slot>, attempts: nat -> Attempt) {
    forall i :: 0 <= i < |launched| ==>
      (Marked(m, launched[i]) <==> attempts(i).status != 0 && attempts(i).quota)
  }

  /** The slots launched so far are the first ones of the order without repeats. */
  ghost predicate InOrder(launched: seq<Slot>, order: seq<Slot>) { launched <= Dedup(order) }

  /** Between attempts: the next slot is installed, current and unmarked. */
  ghost predicate Ready(m: Metadata, launched: seq<Slot>, current: Slot, order: seq<Slot>, attempts: nat -> Attempt) {
    && MarksQuotas(m, launched, attempts) && InOrder(launched + [current], order)
    && m.currentSlot == Some(current) && !Marked(m, current)
  }

  /** After an attempt: what was launched last is current, and the marks are right. */
  ghost predicate Settled(m: Metadata, launched: seq<Slot>, order: seq<Slot>, attempts: nat -> Attempt) {
    && MarksQuotas(m, launched, attempts) && InOrder(launched, order) && launched != []
    && m.currentSlot == Some(launched[|launched| - 1])
  }

  lemma DistinctLaunches(launched: seq<Slot>, order: seq<Slot>)
    requires InOrder(launched, order)
    ensures forall i, j :: 0 <= i < j < |launched| ==> launched[i] != launched[j]
    ensures |launched| <= |order|
  {
    DedupIsDistinct(order);
  }

  /** An attempt that hit no quota changes nothing. */
  lemma SettleUnmarked(m: Metadata, launched: seq<Slot>, current: Slot, order: seq<Slot>, attempts: nat -> Attempt)
    requires Ready(m, launched, current, order, attempts) && !HitQuota(attempts(|launched|))
    ensures Settled(m, launched + [current], order, attempts)
  {
  }

  /** An attempt that hit a quota marks its slot and no other. */
  lemma SettleMarked(m: Metadata, launched: seq<Slot>, current: Slot, order: seq<Slot>, now: Time, less: NameOrder,
                     attempts: nat -> Attempt)
    requires StrictTotalOrder(less) && Ready(m, launched, current, order, attempts) && HitQuota(attempts(|launched|))
    ensures Settled(AfterChange(m, current, Quota, now, less), launched + [current], order, attempts)
  {
    var after := AfterChange(m, current, Quota, now, less);
    ChangeKeeps(m, current, Quota, now, less, current);
    DistinctLaunches(launched + [current], order);
    forall i | 0 <= i < |launched| ensures Marked(after, launched[i]) <==> HitQuota(attempts(i)) {
      assert (launched + [current])[i] != (launched + [current])[|launched|];
      ChangeKeeps(m, current, Quota, now, less, launched[i]);
    }
  }

  /** Installing the next slot of the order gets ready for the next attempt. */
  lemma ReadyNext(m: Metadata, launched: seq<Slot>, next: Slot, order: seq<Slot>, now: Time, less: NameOrder,
                  attempts: nat -> Attempt)
    requires StrictTotalOrder(less) && MarksQuotas(m, launched, attempts) && InOrder(launched, order)
    requires |launched| < |Dedup(order)| && next == Dedup(order)[|launched|]
    ensures Ready(AfterChange(m, next, Used, now, less), launched, next, order, attempts)
  {
    var after := AfterChange(m, next, Used, now, less);
    ChangeKeeps(m, next, Used, now, less, next);
    DedupIsDistinct(order);
    forall i | 0 <= i < |launched| ensures Marked(after, launched[i]) <==> HitQuota(attempts(i)) {
      assert launched[i] == Dedup(order)[i];
      ChangeKeeps(m, next, Used, now, less, launched[i]);
    }
  }

  lemma AllTried(launched: seq<Slot>, order: seq<Slot>)
    requires InOrder(launched, order)
    ensures (forall slot :: slot in order <==> slot in launched) <==> |launched| == |Dedup(order)|
  {
    var d := Dedup(order);
    if |launched| < |d| {
      DedupIsDistinct(order);
      assert d[|launched|] in order && d[|launched|] !in launched;
    } else {
      assert launched == d;
    }
  }

  lemma FirstInOrder(order: seq<Slot>)
    requires order != []
    ensures |Dedup(order)| > 0 && Dedup(order)[0] == order[0]
  {
    assert order[..1] == [order[0]];
    assert order[..1][..0] == [];
    DedupPrefix(order, 1);
  }

  /** Which slot comes after the one launched last. */
  lemma NextAfterLast(launched: seq<Slot>, order: seq<Slot>, exhausted: set<Slot>)
    requires InOrder(launched, order) && launched != [] && forall x :: x in exhausted <==> x in launched
    ensures Next(order, launched[|launched| - 1], exhausted) ==
              if |launched| < |Dedup(order)| then Some(Dedup(order)[|launched|]) else None
  {
    assert launched == Dedup(order)[..|launched|];
    NextIsInOrder(order, |launched|, exhausted);
  }

  /** How a run ends: the reason fits the last attempt, and exhaustion means that every slot was tried. */
  ghost predicate EndsBecause(exit: Exit, launched: seq<Slot>, order: seq<Slot>, mode: Mode, attempts: nat -> Attempt)
    requires launched != []
  {
    var last := attempts(|launched| - 1);
    var more := mode != Manual && |launched| < |Dedup(order)|;
    && exit !in {NoSlots, NotLaunched, FellThrough}
    && (exit == Succeeded <==> last.status == 0)
    && (exit.ChildFailed? <==> last.status != 0 && !Rotates(last))
    && (exit.ChildFailed? ==> exit.status == last.status)
    && (exit == ManualStop <==> Rotates(last) && mode == Manual)
    && (exit == Exhausted <==> Rotates(last) && mode != Manual && |launched| == |Dedup(order)|)
    && (exit == NoSession <==> Rotates(last) && more && !last.authInvalid && last.session == None)
    && (exit == UseFailed <==> Rotates(last) && more && (last.authInvalid || last.session.Some?))
    && (exit == UseFailed ==> !attempts(|launched|).useWorks)
  }

  /** After the child has ended: a slot that hit a quota is marked. */
  method Settle(store: Store, currentSlot: Slot, result: Attempt, now: Time, less: NameOrder,
                ghost launched: seq<Slot>, ghost order: seq<Slot>, ghost attempts: nat -> Attempt)
    requires StrictTotalOrder(less) && Ready(store.Now(), launched, currentSlot, order, attempts)
    requires result == attempts(|launched|)
    modifies store
    ensures Settled(store.Now(), launched + [currentSlot], order, attempts)
    ensures Ordered(old(store.slots), less) ==> Ordered(store.slots, less)
  {
    if HitQuota(result) {
      ChangeKeeps(store.Now(), currentSlot, Quota, now, less, currentSlot);
      SettleMarked(store.Now(), launched, currentSlot, order, now, less, attempts);
      store.MarkSlotQuota(currentSlot, now, less);
    } else {
      SettleUnmarked(store.Now(), launched, currentSlot, order, attempts);
    }
  }

  /** The next slot is installed, if it can be, and after a quota the arguments are rebuilt for the latest session. */
  method Rotate(store: Store, next: Slot, works: bool, now: Time, less: NameOrder,
                result: Attempt, before: seq<string>, normalized: seq<string>, t: Options,
                ghost launched: seq<Slot>, ghost order: seq<Slot>, ghost attempts: nat -> Attempt)
    returns (ok: bool, resumeArgs: seq<string>)
    requires StrictTotalOrder(less) && Settled(store.Now(), launched, order, attempts)
    requires |launched| < |Dedup(order)| && next == Dedup(order)[|launched|]
    modifies store
    ensures ok == works
    ensures if ok then Ready(store.Now(), launched, next, order, attempts) else store.Now() == old(store.Now())
    ensures Ordered(old(store.slots), less) ==> Ordered(store.slots, less)
    ensures resumeArgs == if ok then ArgsAfter(result, before, normalized, t) else before
  {
    ChangeKeeps(store.Now(), next, Used, now, less, next);
    ReadyNext(store.Now(), launched, next, order, now, less, attempts);
    resumeArgs := before;
    ok := store.UseSlot(next, works, now, less);
    if ok && !result.authInvalid && result.session.Some? {
      resumeArgs := BuildResumeArgs(normalized, result.session.value, t);
    }
  }

  /** What the loop has done so far: every slot launched could be installed, and every attempt but the last let the run
      go on. */
  ghost predicate Attempted(launched: seq<Slot>, args: seq<seq<string>>, attempts: nat -> Attempt, mode: Mode,
                            normalized: seq<string>, t: Options) {
    && |args| == |launched|
    && (forall i :: 0 <= i < |args| ==> args[i] == ArgsOf(i, attempts, normalized, t))
    && (forall i :: 0 <= i < |launched| ==> attempts(i).useWorks)
    && (forall i :: 0 <= i < |launched| - 1 ==> GoesOn(attempts(i), mode))
  }

  lemma AttemptedNext(launched: seq<Slot>, slot: Slot, args: seq<seq<string>>, next: seq<string>,
                      attempts: nat -> Attempt, mode: Mode, normalized: seq<string>, t: Options)
    requires Attempted(launched, args, attempts, mode, normalized, t)
    requires next == ArgsOf(|launched|, attempts, normalized, t) && attempts(|launched|).useWorks
    requires launched != [] ==> GoesOn(attempts(|launched| - 1), mode)
    ensures Attempted(launched + [slot], args + [next], attempts, mode, normalized, t)
  {
  }

  /** What follows an attempt: the run ends, or it goes on with another slot. */
  function Verdict(result: Attempt, mode: Mode, next: Option<Slot>): Option<Exit> {
    if result.status == 0 then Some(Succeeded)
    else if !result.quota && !result.authInvalid then Some(ChildFailed(result.status))
    else if mode == Manual then Some(ManualStop)
    else if next.None? then Some(Exhausted)
    else if !result.authInvalid && result.session.None? then Some(NoSession)
    else None
  }

  lemma VerdictEnds(launched: seq<Slot>, order: seq<Slot>, mode: Mode, attempts: nat -> Attempt, next: Option<Slot>)
    requires InOrder(launched, order) && launched != []
    requires next == if |launched| < |Dedup(order)| then Some(Dedup(order)[|launched|]) else None
    ensures var verdict := Verdict(attempts(|launched| - 1), mode, next);
            if verdict.Some? then EndsBecause(verdict.value, launched, order, mode, attempts)
            else next.Some? && GoesOn(attempts(|launched| - 1), mode)
                 && (!attempts(|launched|).useWorks ==> EndsBecause(UseFailed, launched, order, mode, attempts))
  {
  }

  /** After a settled attempt: the run ends, or the slot to go on with is the next one of the order without repeats. */
  method Decide(order: seq<Slot>, currentSlot: Slot, exhausted: set<Slot>, mode: Mode, result: Attempt,
                ghost launched: seq<Slot>, ghost attempts: nat -> Attempt)
    returns (verdict: Option<Exit>, next: Option<Slot>)
    requires InOrder(launched, order) && launched != [] && launched[|launched| - 1] == currentSlot
    requires forall x :: x in exhausted <==> x in launched
    requires result == attempts(|launched| - 1)
    ensures verdict.Some? ==> EndsBecause(verdict.value, launched, order, mode, attempts)
    ensures verdict.None? ==>
              && |launched| < |Dedup(order)| && next == Some(Dedup(order)[|launched|])
              && GoesOn(result, mode)
              && (!attempts(|launched|).useWorks ==> EndsBecause(UseFailed, launched, order, mode, attempts))
  {
    NextAfterLast(launched, order, exhausted);
    next := NextSlotAfter(order, currentSlot, exhausted);
    VerdictEnds(launched, order, mode, attempts, next);
    verdict := Verdict(result, mode, next);
  }

  /** The attempt loop. */
  method RunAttempts(store: Store, order: seq<Slot>, mode: Mode, less: NameOrder,
                     normalized: seq<string>, t: Options, attempts: nat -> Attempt, clock: nat -> Time)
    returns (exit: Exit, launched: seq<Slot>, args: seq<seq<string>>)
    requires StrictTotalOrder(less) && order != []
    requires Ready(store.Now(), [], order[0], order, attempts) && attempts(0).useWorks
    modifies store
    ensures Settled(store.Now(), launched, order, attempts)
    ensures Attempted(launched, args, attempts, mode, normalized, t)
    ensures EndsBecause(exit, launched, order, mode, attempts)
    ensures Ordered(old(store.slots), less) ==> Ordered(store.slots, less)
  {
    launched, args := [], [];
    var currentSlot := order[0];
    var exhausted: set<Slot> := {};
    var resumeArgs := normalized;
    for attempt := 0 to |order|
      invariant attempt == |launched| < |Dedup(order)| && Attempted(launched, args, attempts, mode, normalized, t)
      invariant attempts(|launched|).useWorks
      invariant launched != [] ==> GoesOn(attempts(|launched| - 1), mode)
      invariant forall x :: x in exhausted <==> x in launched
      invariant Ready(store.Now(), launched, currentSlot, order, attempts)
      invariant Ordered(old(store.slots), less) ==> Ordered(store.slots, less)
      invariant resumeArgs == ArgsOf(|launched|, attempts, normalized, t)
    {
      var result := attempts(attempt);
      AttemptedNext(launched, currentSlot, args, resumeArgs, attempts, mode, normalized, t);
      Settle(store, currentSlot, result, clock(2 * attempt + 1), less, launched, order, attempts);
      launched, args := launched + [currentSlot], args + [resumeArgs];
      exhausted := exhausted + {currentSlot};
      var verdict, next := Decide(order, currentSlot, exhausted, mode, result, launched, attempts);
      if verdict.Some? {
        return verdict.value, launched, args;
      }
      currentSlot := next.value;
      var ok;
      ok, resumeArgs := Rotate(store, currentSlot, attempts(attempt + 1).useWorks, clock(2 * attempt + 2), less,
                               result, resumeArgs, normalized, t, launched, order, attempts);
      if !ok {
        return UseFailed, launched, args;
      }
    }
    exit := FellThrough;
  }

  lemma ReadyFirst(m: Metadata, order: seq<Slot>, now: Time, less: NameOrder, attempts: nat -> Attempt)
    requires StrictTotalOrder(less) && order != []
    ensures Ready(AfterChange(m, order[0], Used, now, less), [], order[0], order, attempts)
  {
    FirstInOrder(order);
    ReadyNext(m, [], order[0], order, now, less, attempts);
    assert [] + [order[0]] == [order[0]];
  }

  /** `runAuthHotswap` from the listed slots on. Each slot of the order is launched at most once, in order; the last
      one launched stays current, and exactly the slots that hit a quota are marked. Sorted metadata without repeats
      stays so. */
  method Run(store: Store, available: seq<Slot>, config: Config, less: NameOrder, launchWorks: bool,
             normalized: seq<string>, t: Options, attempts: nat -> Attempt, clock: nat -> Time)
    returns (exit: Exit, launched: seq<Slot>, args: seq<seq<string>>)
    requires StrictTotalOrder(less)
    modifies store
    ensures var order := RotationOrder(available, config, old(store.currentSlot), less);
            && (launched != [] ==>
                 && Settled(store.Now(), launched, order, attempts)
                 && EndsBecause(exit, launched, order, config.mode, attempts))
            && (launched == [] ==> store.Now() == old(store.Now()) && exit in {NoSlots, NotLaunched, UseFailed})
            && (exit == NoSlots <==> available == [] || order == [])
            && (exit == NotLaunched <==> available != [] && order != [] && !launchWorks)
            && (launched == [] <==> available == [] || order == [] || !launchWorks || !attempts(0).useWorks)
    ensures Attempted(launched, args, attempts, config.mode, normalized, t)
    ensures Ordered(old(store.slots), less) ==> Ordered(store.slots, less)
  {
    var order := RotationOrder(available, config, store.currentSlot, less);
    if |available| == 0 || |order| == 0 {
      return NoSlots, [], [];
    }
    if !launchWorks {
      return NotLaunched, [], [];
    }
    ReadyFirst(store.Now(), order, clock(0), less, attempts);
    ChangeKeeps(store.Now(), order[0], Used, clock(0), less, order[0]);
    var ok := store.UseSlot(order[0], attempts(0).useWorks, clock(0), less);
    if !ok {
      return UseFailed, [], [];
    }
    exit, launched, args := RunAttempts(store, order, config.mode, less, normalized, t, attempts, clock);
  }

  /** Exhaustion is reported exactly when rotation was asked for and every slot of the order has been launched. */
  lemma ExhaustedMeansAllTried(exit: Exit, launched: seq<Slot>, order: seq<Slot>, mode: Mode, m: Metadata,
                               attempts: nat -> Attempt)
    requires Settled(m, launched, order, attempts) && EndsBecause(exit, launched, order, mode, attempts)
    ensures exit == Exhausted <==>
              && mode != Manual && Rotates(attempts(|launched| - 1))
              && forall slot :: slot in order <==> slot in launched
    ensures forall i, j :: 0 <= i < j < |launched| ==> launched[i] != launched[j]
  {
    AllTried(launched, order);
    DistinctLaunches(launched, order);
  }
}
