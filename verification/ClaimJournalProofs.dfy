/**
  What the claim journal guarantees: recovery never clobbers and never loses the original, and
  it can be crashed and rerun any number of times from every state the owner can leave behind.
 */
module ClaimJournalProofs {
  import opened Wrappers
  import opened ClaimJournal

  // ------------------------------------------------------------------ link counting

  lemma LinksAfterRemove(v: Volume, w: Volume, n: Name)
    requires n in v.names && w.names == v.names - {n}
    ensures w.Links(v.names[n]) == v.Links(v.names[n]) - 1
    ensures forall j :: j != v.names[n] ==> w.Links(j) == v.Links(j)
  {
    var i := v.names[n];
    assert v.NamesOf(i) == w.NamesOf(i) + {n};
    forall j | j != i ensures w.Links(j) == v.Links(j) {
      assert w.NamesOf(j) == v.NamesOf(j);
    }
  }

  lemma FreshHasNoLinks(v: Volume)
    requires v.Valid()
    ensures v.Links(v.next) == 0
  {
    forall n | n in v.names ensures v.names[n] != v.next {
    }
    assert v.NamesOf(v.next) == {};
  }

  lemma TwoNamesTwoLinks(v: Volume, a: Name, b: Name)
    requires a != b
    ensures a in v.names && b in v.names && v.names[a] == v.names[b] ==> v.Links(v.names[a]) >= 2
  {
    if a in v.names && b in v.names && v.names[a] == v.names[b] {
      assert v.NamesOf(v.names[a]) == {a, b} + (v.NamesOf(v.names[a]) - {a, b});
    }
  }

  // ------------------------------------------------------------------ safety of one call

  /** The record names three different files. */
  predicate Separate(journal: Name, e: Entry) {
    e.canonical != e.claim && e.canonical != journal && e.claim != journal
  }

  /** `w` still has the file that `v` has under a name: same inode, same bytes. */
  predicate Keeps(v: Volume, w: Volume, n: Name) {
    n in v.names && v.names[n] in v.inodes ==>
      n in w.names && w.names[n] == v.names[n] && w.names[n] in w.inodes && w.inodes[w.names[n]] == v.inodes[v.names[n]]
  }

  /** The digest of the file under a name. */
  function DigestOf(v: Volume, n: Name): Option<Digest> {
    if n in v.names && v.names[n] in v.inodes then Some(Sha256(v.File(n).content)) else None
  }

  /** Nothing is overwritten, nothing foreign is touched, and the claimed bytes outlive every step. */
  ghost predicate Preserves(v: Volume, w: Volume, journal: Name, e: Entry) {
    && w.Valid()
    && (forall n :: n !in {e.canonical, e.claim, journal} ==> Keeps(v, w, n) && (n in w.names ==> n in v.names))
    && Keeps(v, w, e.canonical)
    && (|| Keeps(v, w, e.claim)
        || DigestOf(w, e.canonical) == DigestOf(v, e.claim)
        || (DigestOf(w, e.canonical).Some? && DigestOf(w, e.canonical) == e.afterHash))
  }

  /** A finished recovery: record and claim gone, canonical at the recorded before or after. */
  ghost predicate Settled(w: Volume, journal: Name, e: Entry) {
    && journal !in w.names
    && e.claim !in w.names
    && (e.canonical !in w.names ==> e.afterHash.None?)
    && (e.canonical in w.names ==> DigestOf(w, e.canonical) in {Some(e.beforeHash), e.afterHash})
  }

  lemma RemovalPreserves(v: Volume, u: Volume, journal: Name, e: Entry, n: Name)
    requires Preserves(v, u, journal, e) && Separate(journal, e)
    requires n == journal || (n == e.claim && DigestOf(u, e.canonical).Some?
             && DigestOf(u, e.canonical) in {DigestOf(v, e.claim), e.afterHash})
    ensures Preserves(v, u.Remove(n), journal, e)
  {
    assert DigestOf(u.Remove(n), e.canonical) == DigestOf(u, e.canonical);
  }

  lemma RestorePreserves(v: Volume, journal: Name, e: Entry, link: LinkSupport)
    requires v.Valid() && Separate(journal, e)
    requires e.claim in v.names && e.canonical !in v.names && !link.Failing?
    ensures var run := RestoreRun(v, e.claim, e.canonical, link);
            run.steps != [] ==>
              Preserves(v, run.steps[0], journal, e) && DigestOf(run.steps[0], e.canonical) == DigestOf(v, e.claim)
  {
  }

  /** A recovery call does one of three things, or refuses without touching anything. */
  lemma RecoveryShape(v: Volume, journal: Name, e: Entry, link: LinkSupport)
    requires v.Valid() && journal in v.names && Separate(journal, e)
    ensures var run := RecoverEntry(v, journal, e, link);
            if !run.outcome.Recovered? then run.steps == []
            else if e.claim !in v.names then
              && run.steps == [v.Remove(journal)]
              && (e.canonical !in v.names ==> e.afterHash.None?)
              && (e.canonical in v.names ==> DigestOf(v, e.canonical) in {Some(e.beforeHash), e.afterHash})
            else if e.canonical in v.names then
              && run.steps == [v.Remove(e.claim), v.Remove(e.claim).Remove(journal)]
              && DigestOf(v, e.claim) == Some(e.beforeHash)
              && DigestOf(v, e.canonical) in {Some(e.beforeHash), e.afterHash}
            else
              var u := RestoreRun(v, e.claim, e.canonical, link);
              && u.outcome.Recovered?
              && run.steps == u.steps + [u.steps[1].Remove(journal)]
              && DigestOf(v, e.claim) == Some(e.beforeHash)
  {
    if LinkedPair(v, e.canonical, e.claim) {
    } else if UnsafeRead(v, e.canonical) || UnsafeRead(v, e.claim) {
    } else if e.claim !in v.names {
    } else if e.canonical in v.names {
    } else {
      var u := RestoreRun(v, e.claim, e.canonical, link);
      if u.outcome.Recovered? {
        assert journal in u.steps[1].names;
      }
    }
  }

  lemma ShortRun(v: Volume, run: Run, journal: Name, e: Entry)
    requires forall i :: 0 <= i < |run.steps| ==> Preserves(v, run.steps[i], journal, e)
    requires v.Valid()
    ensures forall k :: 0 <= k <= |run.steps| ==> Preserves(v, run.At(v, k), journal, e)
  {
  }

  /**
    At every crash point of a recovery call nothing has been clobbered or lost; success settles
    the claim; a refusal has changed nothing.
   */
  lemma RecoveryIsSafe(v: Volume, journal: Name, e: Entry, link: LinkSupport)
    requires v.Valid() && journal in v.names && Separate(journal, e)
    ensures var run := RecoverEntry(v, journal, e, link);
            && (forall k :: 0 <= k <= |run.steps| ==> Preserves(v, run.At(v, k), journal, e))
            && (run.outcome.Recovered? ==> Settled(run.Final(v), journal, e))
            && (!run.outcome.Recovered? ==> run.steps == [])
  {
    var run := RecoverEntry(v, journal, e, link);
    RecoveryShape(v, journal, e, link);
    if run.outcome.Recovered? {
      if e.claim !in v.names {
        RemovalPreserves(v, v, journal, e, journal);
      } else if e.canonical in v.names {
        RemovalPreserves(v, v, journal, e, e.claim);
        RemovalPreserves(v, v.Remove(e.claim), journal, e, journal);
      } else {
        RestorePreserves(v, journal, e, link);
        var u := RestoreRun(v, e.claim, e.canonical, link).steps;
        RemovalPreserves(v, u[0], journal, e, e.claim);
        RemovalPreserves(v, u[1], journal, e, journal);
      }
    }
    ShortRun(v, run, journal, e);
  }

  /** A live owner, or a volume without a record, is left exactly as it was found. */
  lemma LiveOwnerIsUndisturbed(v: Volume, root: Root, alive: set<int>, link: LinkSupport)
    requires v.Valid()
    requires forall e :: v.Holds(root.journal, Record(e)) ==> e.ownerPid in alive
    ensures RecoverRun(v, root, alive, link).steps == []
    ensures !RecoverRun(v, root, alive, link).outcome.Recovered?
  {
    if root.journal in v.names && v.File(root.journal).content.Record? {
      assert v.Holds(root.journal, Record(v.File(root.journal).content.entry));
    }
  }

  // ------------------------------------------------------------------ crashing and rerunning

  /** One recovery attempt: how `link` behaves, and after how many of its mutations it is cut. */
  datatype Attempt = Attempt(link: LinkSupport, crashAfter: nat)

  function CutRun(v: Volume, run: Run, crashAfter: nat): Volume {
    run.At(v, if crashAfter < |run.steps| then crashAfter else |run.steps|)
  }

  function AfterAttempts(v: Volume, root: Root, alive: set<int>, attempts: seq<Attempt>): Volume
    decreases |attempts|
  {
    if attempts == [] then v
    else
      var w := CutRun(v, RecoverRun(v, root, alive, attempts[0].link), attempts[0].crashAfter);
      AfterAttempts(w, root, alive, attempts[1..])
  }

  /** A record the recovering process may act on. */
  predicate Actionable(root: Root, alive: set<int>, e: Entry) {
    && Separate(root.journal, e)
    && e.version == 1
    && e.canonical in root.controlled && e.claim in root.controlled
    && e.ownerPid !in alive
  }

  function ContentAt(v: Volume, n: Name): Option<Content> {
    if n in v.names && v.names[n] in v.inodes then Some(v.File(n).content) else None
  }

  ghost predicate Finished(v: Volume, journal: Name, e: Entry, t: Option<Content>) {
    v.Valid() && journal !in v.names && e.claim !in v.names && ContentAt(v, e.canonical) == t
  }

  ghost predicate Recorded(v: Volume, journal: Name, e: Entry) {
    v.Valid() && v.Single(journal) && v.Holds(journal, Record(e))
  }

  /** The claim is gone: what remains is to drop the record. */
  ghost predicate Unclaimed(v: Volume, e: Entry, t: Option<Content>) {
    && e.claim !in v.names
    && ContentAt(v, e.canonical) == t
    && if t.None? then e.canonical !in v.names && e.afterHash.None?
       else v.Single(e.canonical) && Some(Sha256(t.value)) in {Some(e.beforeHash), e.afterHash}
  }

  ghost predicate Parked(v: Volume, e: Entry) {
    v.Single(e.claim) && DigestOf(v, e.claim) == Some(e.beforeHash)
  }

  ghost predicate Claimed(v: Volume, e: Entry, t: Option<Content>) {
    Parked(v, e) && e.canonical !in v.names && ContentAt(v, e.claim) == t
  }

  ghost predicate Linked(v: Volume, e: Entry, t: Option<Content>) {
    LinkedPair(v, e.canonical, e.claim) && DigestOf(v, e.canonical) == Some(e.beforeHash)
      && ContentAt(v, e.canonical) == t
  }

  ghost predicate Installed(v: Volume, e: Entry, t: Option<Content>) {
    && Parked(v, e) && v.Single(e.canonical)
    && DigestOf(v, e.canonical) == e.afterHash && ContentAt(v, e.canonical) == t
  }

  /** Every file state from which recovery brings the canonical file to `t`. */
  ghost predicate OnTrack(v: Volume, journal: Name, e: Entry, t: Option<Content>) {
    || Finished(v, journal, e, t)
    || (Recorded(v, journal, e) && (Unclaimed(v, e, t) || Claimed(v, e, t) || Linked(v, e, t) || Installed(v, e, t)))
  }

  /** The original sits both under the claim and, as a separate copy, under the canonical name. */
  ghost predicate CutCopy(v: Volume, journal: Name, e: Entry) {
    && Recorded(v, journal, e) && Parked(v, e)
    && v.Single(e.canonical) && DigestOf(v, e.canonical) == Some(e.beforeHash)
  }

  lemma SingleAfterRemove(v: Volume, n: Name, m: Name)
    requires v.Valid() && n in v.names && n != m
    ensures v.Remove(n).Valid()
    ensures ContentAt(v.Remove(n), m) == ContentAt(v, m)
    ensures v.Single(m) ==> v.Remove(n).Single(m)
    ensures LinkedPair(v, m, n) ==> v.Remove(n).Single(m)
  {
    LinksAfterRemove(v, v.Remove(n), n);
    TwoNamesTwoLinks(v, m, n);
  }

  lemma SingleAfterAdd(v: Volume, w: Volume, n: Name, i: Ino, m: Name)
    requires v.Valid() && n !in v.names && m in v.names && v.Single(m)
    requires w.names == v.names[n := i] && (forall j :: j in v.inodes ==> j in w.inodes && w.inodes[j] == v.inodes[j])
    requires i != v.names[m]
    ensures w.Single(m) && ContentAt(w, m) == ContentAt(v, m)
  {
    LinksAfterAdd(v, w, n, i);
  }

  lemma DropRecord(v: Volume, journal: Name, e: Entry, t: Option<Content>)
    requires Recorded(v, journal, e) && Separate(journal, e) && Unclaimed(v, e, t)
    ensures Finished(v.Remove(journal), journal, e, t)
  {
    if e.canonical in v.names {
      SingleAfterRemove(v, journal, e.canonical);
    }
  }

  lemma DropClaim(v: Volume, journal: Name, e: Entry, t: Option<Content>)
    requires Recorded(v, journal, e) && Separate(journal, e)
    requires Linked(v, e, t) || Installed(v, e, t) || (CutCopy(v, journal, e) && ContentAt(v, e.canonical) == t)
    ensures var w := v.Remove(e.claim);
            Recorded(w, journal, e) && Unclaimed(w, e, t)
  {
    SingleAfterRemove(v, e.claim, journal);
    SingleAfterRemove(v, e.claim, e.canonical);
  }

  lemma ParkedElsewhere(v: Volume, journal: Name, e: Entry)
    requires Recorded(v, journal, e) && Parked(v, e) && Separate(journal, e)
    ensures v.names[journal] != v.names[e.claim]
  {
    TwoNamesTwoLinks(v, journal, e.claim);
  }

  lemma LinkBack(v: Volume, journal: Name, e: Entry, t: Option<Content>)
    requires Recorded(v, journal, e) && Separate(journal, e) && Claimed(v, e, t)
    ensures var w := v.Link(e.claim, e.canonical);
            Recorded(w, journal, e) && Linked(w, e, t)
  {
    var w := v.Link(e.claim, e.canonical);
    ParkedElsewhere(v, journal, e);
    LinksAfterAdd(v, w, e.canonical, v.names[e.claim]);
    SingleAfterAdd(v, w, e.canonical, v.names[e.claim], journal);
  }

  lemma CopyBack(v: Volume, journal: Name, e: Entry, t: Option<Content>)
    requires Recorded(v, journal, e) && Separate(journal, e) && Claimed(v, e, t)
    ensures var w := v.Create(e.canonical, v.File(e.claim).content);
            CutCopy(w, journal, e) && ContentAt(w, e.canonical) == t
  {
    var w := v.Create(e.canonical, v.File(e.claim).content);
    FreshHasNoLinks(v);
    LinksAfterAdd(v, w, e.canonical, v.next);
    SingleAfterAdd(v, w, e.canonical, v.next, journal);
    SingleAfterAdd(v, w, e.canonical, v.next, e.claim);
  }

  /** From an on-track state a call with working links ends finished, and every cut of it stays on track. */
  lemma RecoveryKeepsTrack(v: Volume, root: Root, alive: set<int>, e: Entry, t: Option<Content>)
    requires OnTrack(v, root.journal, e, t) && Actionable(root, alive, e)
    ensures var run := RecoverRun(v, root, alive, Supported);
            && (forall k :: 0 <= k <= |run.steps| ==> OnTrack(run.At(v, k), root.journal, e, t))
            && Finished(run.Final(v), root.journal, e, t)
            && (run.outcome.Recovered? || run.outcome.NoJournal?)
  {
    var journal := root.journal;
    if Finished(v, journal, e, t) {
      return;
    }
    var run := RecoverRun(v, root, alive, Supported);
    assert run == RecoverEntry(v, journal, e, Supported);
    if Unclaimed(v, e, t) {
      assert run.steps == [v.Remove(journal)];
      DropRecord(v, journal, e, t);
    } else if Claimed(v, e, t) {
      var u := v.Link(e.claim, e.canonical);
      assert run.steps == [u, u.Remove(e.claim), u.Remove(e.claim).Remove(journal)];
      LinkBack(v, journal, e, t);
      DropClaim(u, journal, e, t);
      DropRecord(u.Remove(e.claim), journal, e, t);
    } else {
      assert run.steps == [v.Remove(e.claim), v.Remove(e.claim).Remove(journal)];
      DropClaim(v, journal, e, t);
      DropRecord(v.Remove(e.claim), journal, e, t);
    }
  }

  /** Any number of cut attempts with working links leaves the same target reachable. */
  lemma {:induction false} AttemptsKeepTrack(v: Volume, root: Root, alive: set<int>, e: Entry, t: Option<Content>,
                                             attempts: seq<Attempt>)
    requires OnTrack(v, root.journal, e, t) && Actionable(root, alive, e)
    requires forall a :: a in attempts ==> a.link == Supported
    ensures OnTrack(AfterAttempts(v, root, alive, attempts), root.journal, e, t)
    decreases |attempts|
  {
    if attempts != [] {
      RecoveryKeepsTrack(v, root, alive, e, t);
      var w := CutRun(v, RecoverRun(v, root, alive, attempts[0].link), attempts[0].crashAfter);
      AttemptsKeepTrack(w, root, alive, e, t, attempts[1..]);
    }
  }

  /**
    The copy fallback cut between the copy and the removal of the claim: the rerun finishes
    exactly when the record's before and after agree, and otherwise refuses without a change.
   */
  lemma CutCopyOutcome(v: Volume, root: Root, alive: set<int>, e: Entry, link: LinkSupport)
    requires CutCopy(v, root.journal, e) && Actionable(root, alive, e)
    ensures var run := RecoverRun(v, root, alive, link);
            && (run.outcome.Recovered? <==> e.afterHash == Some(e.beforeHash))
            && (e.afterHash != Some(e.beforeHash) ==> run == Run([], Refused(UnrecognizedCanonical)))
            && (e.afterHash == Some(e.beforeHash) ==> OnTrack(v, root.journal, e, ContentAt(v, e.canonical)))
  {
    assert RecoverRun(v, root, alive, link) == RecoverEntry(v, root.journal, e, link);
  }

  /** A state cut inside the copy fallback is a dead end: no number of reruns changes it. */
  lemma {:induction false} CutCopyIsForever(v: Volume, root: Root, alive: set<int>, e: Entry, attempts: seq<Attempt>)
    requires CutCopy(v, root.journal, e) && Actionable(root, alive, e) && e.afterHash != Some(e.beforeHash)
    ensures AfterAttempts(v, root, alive, attempts) == v
    decreases |attempts|
  {
    if attempts != [] {
      CutCopyOutcome(v, root, alive, e, attempts[0].link);
      CutCopyIsForever(v, root, alive, e, attempts[1..]);
    }
  }

  /** With arbitrary link behaviour a cut call either stays on track or is cut inside the copy fallback. */
  lemma AnyAttempt(v: Volume, root: Root, alive: set<int>, e: Entry, t: Option<Content>, link: LinkSupport, k: nat)
    requires OnTrack(v, root.journal, e, t) && Actionable(root, alive, e)
    ensures var run := RecoverRun(v, root, alive, link);
            var w := CutRun(v, run, k);
            || OnTrack(w, root.journal, e, t)
            || (CutCopy(w, root.journal, e) && Claimed(v, e, t) && link == Unsupported && k == 1)
    ensures var run := RecoverRun(v, root, alive, link);
            link == Unsupported ==> Finished(run.Final(v), root.journal, e, t)
  {
    var journal := root.journal;
    RecoveryKeepsTrack(v, root, alive, e, t);
    if Recorded(v, journal, e) && Claimed(v, e, t) {
      if link == Unsupported {
        var u := v.Create(e.canonical, v.File(e.claim).content);
        var run := RecoverRun(v, root, alive, link);
        assert run == RecoverEntry(v, journal, e, link);
        assert run.steps == [u, u.Remove(e.claim), u.Remove(e.claim).Remove(journal)];
        CopyBack(v, journal, e, t);
        DropClaim(u, journal, e, t);
        DropRecord(u.Remove(e.claim), journal, e, t);
      }
    } else {
      assert RecoverRun(v, root, alive, link) == RecoverRun(v, root, alive, Supported);
    }
  }

  /** Over any attempts whatever, the run is on track or stuck in a cut copy of the original. */
  lemma {:induction false} AnyAttempts(v: Volume, root: Root, alive: set<int>, e: Entry, t: Option<Content>,
                                       attempts: seq<Attempt>)
    requires OnTrack(v, root.journal, e, t) && Actionable(root, alive, e)
    ensures var w := AfterAttempts(v, root, alive, attempts);
            OnTrack(w, root.journal, e, t) || (CutCopy(w, root.journal, e) && e.afterHash != Some(e.beforeHash))
    decreases |attempts|
  {
    if attempts != [] {
      var a := attempts[0];
      var w := CutRun(v, RecoverRun(v, root, alive, a.link), a.crashAfter);
      AnyAttempt(v, root, alive, e, t, a.link, a.crashAfter);
      if OnTrack(w, root.journal, e, t) {
        AnyAttempts(w, root, alive, e, t, attempts[1..]);
      } else {
        CutCopyIsForever(w, root, alive, e, attempts[1..]);
      }
    }
  }

  // ------------------------------------------------------------------ from the owner's crash points

  /** The owner is about to replace (or delete) a canonical file holding `before`. */
  ghost predicate OwnerStart(v: Volume, root: Root, e: Entry, before: Content, after: Option<Content>) {
    && v.Valid()
    && CanPersist(v, root, e) && Separate(root.journal, e)
    && v.Single(e.canonical) && v.Holds(e.canonical, before)
    && e.claim !in v.names
    && e.version == 1
    && e.beforeHash == Sha256(before)
    && e.afterHash == (if after.Some? then Some(Sha256(after.value)) else None)
  }

  function OwnerCrash(v: Volume, root: Root, e: Entry, after: Option<Content>, check: Check, k: nat): Volume
    requires e.canonical in v.names && e.canonical != root.journal
    requires k <= |OwnerSteps(v, root, e, after, check)|
  {
    if k == 0 then v else OwnerSteps(v, root, e, after, check)[k - 1]
  }

  lemma RecordWritten(v: Volume, root: Root, e: Entry, before: Content, after: Option<Content>)
    requires OwnerStart(v, root, e, before, after)
    ensures var s := PersistSteps(v, root, e);
            && s[0].Valid() && s[0].Single(root.journal) && s[0].Holds(root.journal, Bytes([]))
            && s[0].Single(e.canonical) && s[0].Holds(e.canonical, before)
            && Recorded(s[1], root.journal, e) && Unclaimed(s[1], e, Some(before))
            && s[1].names[root.journal] != s[1].names[e.canonical]
  {
    var s := PersistSteps(v, root, e);
    FreshHasNoLinks(v);
    LinksAfterAdd(v, s[0], root.journal, v.next);
    SingleAfterAdd(v, s[0], root.journal, v.next, e.canonical);
    assert forall i :: s[1].NamesOf(i) == s[0].NamesOf(i);
  }

  lemma ClaimTaken(v: Volume, journal: Name, e: Entry, before: Content)
    requires Recorded(v, journal, e) && Separate(journal, e) && Unclaimed(v, e, Some(before))
    requires e.beforeHash == Sha256(before) && v.names[journal] != v.names[e.canonical]
    ensures var w := v.Rename(e.canonical, e.claim);
            Recorded(w, journal, e) && Claimed(w, e, Some(before))
  {
    var u := v.Remove(e.canonical);
    var w := v.Rename(e.canonical, e.claim);
    SingleAfterRemove(v, e.canonical, journal);
    LinksAfterRemove(v, u, e.canonical);
    LinksAfterAdd(u, w, e.claim, v.names[e.canonical]);
    SingleAfterAdd(u, w, e.claim, v.names[e.canonical], journal);
  }

  lemma SuccessorInstalled(v: Volume, journal: Name, e: Entry, before: Content, after: Content)
    requires Recorded(v, journal, e) && Separate(journal, e) && Claimed(v, e, Some(before))
    requires e.afterHash == Some(Sha256(after))
    ensures var w := v.Create(e.canonical, after);
            Recorded(w, journal, e) && Installed(w, e, Some(after))
  {
    var w := v.Create(e.canonical, after);
    FreshHasNoLinks(v);
    LinksAfterAdd(v, w, e.canonical, v.next);
    SingleAfterAdd(v, w, e.canonical, v.next, journal);
    SingleAfterAdd(v, w, e.canonical, v.next, e.claim);
  }

  /** A rollback of a parked original is on track at every step, but for the cut inside its copy fallback; it ends
      with the original back and the record gone unless restoring failed, and then it took no step. */
  lemma RollbackKeepsTrack(v: Volume, root: Root, e: Entry, t: Option<Content>, link: LinkSupport)
    requires Recorded(v, root.journal, e) && Separate(root.journal, e) && Claimed(v, e, t)
    ensures var run := RollbackRun(v, root, e, link);
            && (forall k :: 0 <= k <= |run.steps| ==>
                  || OnTrack(run.At(v, k), root.journal, e, t)
                  || (CutCopy(run.At(v, k), root.journal, e) && link == Unsupported && k == 1))
            && (if link == Failing then run.steps == [] else Finished(run.Final(v), root.journal, e, t))
  {
    var journal, run := root.journal, RollbackRun(v, root, e, link);
    if link == Supported {
      var u := v.Link(e.claim, e.canonical);
      assert run.steps == [u, u.Remove(e.claim), u.Remove(e.claim).Remove(journal)];
      LinkBack(v, journal, e, t);
      DropClaim(u, journal, e, t);
      DropRecord(u.Remove(e.claim), journal, e, t);
    } else if link == Unsupported {
      var u := v.Create(e.canonical, v.File(e.claim).content);
      assert run.steps == [u, u.Remove(e.claim), u.Remove(e.claim).Remove(journal)];
      CopyBack(v, journal, e, t);
      DropClaim(u, journal, e, t);
      DropRecord(u.Remove(e.claim), journal, e, t);
    }
  }

  /** What the owner is on the way to after `k` steps. */
  function Target(before: Content, after: Option<Content>, check: Check, k: nat): Option<Content> {
    if k <= 3 || check.ClaimRejected? then Some(before) else after
  }

  lemma PassedIsOnTrack(v: Volume, root: Root, e: Entry, before: Content, after: Option<Content>, k: nat)
    requires OwnerStart(v, root, e, before, after)
    requires k <= |OwnerSteps(v, root, e, after, Passed)| && k != 1
    ensures OnTrack(OwnerCrash(v, root, e, after, Passed, k), root.journal, e, Target(before, after, Passed, k))
  {
    var journal := root.journal;
    var s := OwnerSteps(v, root, e, after, Passed);
    RecordWritten(v, root, e, before, after);
    ClaimTaken(s[1], journal, e, before);
    if after.Some? {
      SuccessorInstalled(s[2], journal, e, before, after.value);
      DropClaim(s[3], journal, e, after);
      DropRecord(s[4], journal, e, after);
    } else {
      SingleAfterRemove(s[2], e.claim, journal);
      DropRecord(s[3], journal, e, None);
    }
  }

  /** Until its checks reject something the owner does what it always does; a rejected successor stands in the way of
      the rollback, which then takes no step. */
  lemma RejectedSteps(v: Volume, root: Root, e: Entry, before: Content, after: Option<Content>, check: Check)
    requires OwnerStart(v, root, e, before, after) && !check.Passed?
    ensures var s, passed := OwnerSteps(v, root, e, after, check), OwnerSteps(v, root, e, after, Passed);
            && Recorded(passed[2], root.journal, e) && Claimed(passed[2], e, Some(before))
            && if check.ClaimRejected? then s == passed[..3] + RollbackRun(passed[2], root, e, check.link).steps
               else if after.Some? then s == passed[..4] else s == passed
  {
    var s := OwnerSteps(v, root, e, after, Passed);
    RecordWritten(v, root, e, before, after);
    ClaimTaken(s[1], root.journal, e, before);
  }

  /** Every crash point of the owner but one is on track, rollbacks included: back to `before` until the successor
      stands or the parked original is rejected. A rollback by copying may also be cut in its copy. */
  lemma OwnerCrashIsOnTrack(v: Volume, root: Root, e: Entry, before: Content, after: Option<Content>, check: Check,
                            k: nat)
    requires OwnerStart(v, root, e, before, after)
    requires k <= |OwnerSteps(v, root, e, after, check)| && k != 1
    ensures var u := OwnerCrash(v, root, e, after, check, k);
            || OnTrack(u, root.journal, e, Target(before, after, check, k))
            || (CutCopy(u, root.journal, e) && check == ClaimRejected(Unsupported) && k == 4)
  {
    if check.Passed? {
      PassedIsOnTrack(v, root, e, before, after, k);
    } else {
      var passed := OwnerSteps(v, root, e, after, Passed);
      RejectedSteps(v, root, e, before, after, check);
      if k <= 3 || !check.ClaimRejected? {
        PassedIsOnTrack(v, root, e, before, after, k);
      } else {
        var run := RollbackRun(passed[2], root, e, check.link);
        RollbackKeepsTrack(passed[2], root, e, Some(before), check.link);
        assert OwnerCrash(v, root, e, after, check, k) == run.At(passed[2], k - 3);
      }
    }
  }

  lemma PassedFinishes(v: Volume, root: Root, e: Entry, before: Content, after: Option<Content>)
    requires OwnerStart(v, root, e, before, after)
    ensures var s := OwnerSteps(v, root, e, after, Passed);
            s != [] && Finished(s[|s| - 1], root.journal, e, after)
    ensures after.Some? ==> var s := OwnerSteps(v, root, e, after, Passed);
                            |s| > 3 && Recorded(s[3], root.journal, e) && Installed(s[3], e, after)
  {
    var journal := root.journal;
    var s := OwnerSteps(v, root, e, after, Passed);
    RecordWritten(v, root, e, before, after);
    ClaimTaken(s[1], journal, e, before);
    if after.Some? {
      SuccessorInstalled(s[2], journal, e, before, after.value);
      DropClaim(s[3], journal, e, after);
      DropRecord(s[4], journal, e, after);
    } else {
      SingleAfterRemove(s[2], e.claim, journal);
      DropRecord(s[3], journal, e, None);
    }
  }

  /** An owner that lives to its end leaves the successor, or nothing for a deletion, without claim and record. When it
      rejects the original that it parked it puts it back, or leaves it parked and recorded if restoring fails; when it
      rejects the successor, both files stay as they are with their record. */
  lemma OwnerFinishes(v: Volume, root: Root, e: Entry, before: Content, after: Option<Content>, check: Check)
    requires OwnerStart(v, root, e, before, after)
    ensures var s := OwnerSteps(v, root, e, after, check);
            && s != []
            && var u := s[|s| - 1];
               match check
               case Passed => Finished(u, root.journal, e, after)
               case ClaimRejected(link) =>
                 if link == Failing then Recorded(u, root.journal, e) && Claimed(u, e, Some(before))
                 else Finished(u, root.journal, e, Some(before))
               case InstallRejected(_) =>
                 if after.Some? then Recorded(u, root.journal, e) && Installed(u, e, after)
                 else Finished(u, root.journal, e, None)
  {
    var passed := OwnerSteps(v, root, e, after, Passed);
    PassedFinishes(v, root, e, before, after);
    if !check.Passed? {
      RejectedSteps(v, root, e, before, after, check);
      if check.ClaimRejected? {
        var run := RollbackRun(passed[2], root, e, check.link);
        RollbackKeepsTrack(passed[2], root, e, Some(before), check.link);
        LastOfSum(passed[..3], run.steps);
      }
    }
  }

  lemma LastOfSum(a: seq<Volume>, b: seq<Volume>)
    requires a != []
    ensures var s := a + b; s[|s| - 1] == if b == [] then a[|a| - 1] else b[|b| - 1]
  {
  }

  /**
    The owner dies after any of its steps, in a rollback too; recovery is then cut any number of
    times and finally runs through. Record and claim end up gone, and the canonical file holds
    the original if the owner died before the successor stood or was rolling back, and the
    successor (or nothing) otherwise.
   */
  lemma EveryCrashRecovers(v: Volume, root: Root, e: Entry, before: Content, after: Option<Content>, check: Check,
                           k: nat, alive: set<int>, attempts: seq<Attempt>)
    requires OwnerStart(v, root, e, before, after) && e.ownerPid !in alive
    requires k <= |OwnerSteps(v, root, e, after, check)| && k != 1 && (check == ClaimRejected(Unsupported) ==> k != 4)
    requires forall a :: a in attempts ==> a.link == Supported
    ensures var w := AfterAttempts(OwnerCrash(v, root, e, after, check, k), root, alive, attempts);
            var run := RecoverRun(w, root, alive, Supported);
            Finished(run.Final(w), root.journal, e, Target(before, after, check, k))
  {
    var t, u := Target(before, after, check, k), OwnerCrash(v, root, e, after, check, k);
    OwnerCrashIsOnTrack(v, root, e, before, after, check, k);
    AttemptsKeepTrack(u, root, alive, e, t, attempts);
    RecoveryKeepsTrack(AfterAttempts(u, root, alive, attempts), root, alive, e, t);
  }

  /**
    The exception: a crash between creating the record and writing it. Every recovery then
    refuses the empty record; the original is still in place and nothing ever changes.
   */
  lemma {:induction false} EmptyRecordBlocksRecovery(v: Volume, root: Root, e: Entry, before: Content,
                                                     after: Option<Content>, check: Check, alive: set<int>,
                                                     attempts: seq<Attempt>)
    requires OwnerStart(v, root, e, before, after)
    ensures var u := OwnerCrash(v, root, e, after, check, 1);
            && AfterAttempts(u, root, alive, attempts) == u
            && u.Holds(e.canonical, before)
            && forall link :: RecoverRun(u, root, alive, link) == Run([], Refused(MalformedJournal))
    decreases |attempts|
  {
    RecordWritten(v, root, e, before, after);
    if attempts != [] {
      EmptyRecordBlocksRecovery(v, root, e, before, after, check, alive, attempts[1..]);
    }
  }

  /** A successor that was only partly written is refused and left, with the original, as found. */
  lemma TornInstallIsRefused(v: Volume, root: Root, e: Entry, alive: set<int>, link: LinkSupport)
    requires Recorded(v, root.journal, e) && Actionable(root, alive, e)
    requires Parked(v, e) && v.Single(e.canonical) && DigestOf(v, e.canonical) != e.afterHash
    ensures RecoverRun(v, root, alive, link) == Run([], Refused(UnrecognizedCanonical))
  {
    assert RecoverRun(v, root, alive, link) == RecoverEntry(v, root.journal, e, link);
  }

  /** The safety lemma at the level of the whole call. */
  lemma RecoverCallIsSafe(v: Volume, root: Root, alive: set<int>, link: LinkSupport)
    requires v.Valid()
    ensures var run := RecoverRun(v, root, alive, link);
            && (!run.outcome.Recovered? ==> run.steps == [])
            && (run.outcome.Recovered? ==>
                  && root.journal in v.names && v.File(root.journal).content.Record?
                  && var e := v.File(root.journal).content.entry;
                     && e.ownerPid !in alive
                     && (Separate(root.journal, e) ==>
                          && Settled(run.Final(v), root.journal, e)
                          && forall k :: 0 <= k <= |run.steps| ==> Preserves(v, run.At(v, k), root.journal, e)))
  {
    if root.journal in v.names && v.File(root.journal).content.Record? {
      var e := v.File(root.journal).content.entry;
      if Separate(root.journal, e) {
        RecoveryIsSafe(v, root.journal, e, link);
      }
    }
  }

  // ------------------------------------------------------------------ when a call recovers, and when it refuses

  lemma OneName(v: Volume, n: Name)
    requires n in v.names
    ensures v.Links(v.names[n]) == 1 <==> forall m :: m in v.names && m != n ==> v.names[m] != v.names[n]
  {
    var names := v.NamesOf(v.names[n]);
    assert n in names;
    if |names| == 1 {
      var rest := names - {n};
      assert |rest| == 0;
      forall m | m in v.names && m != n ensures v.names[m] != v.names[n] {
        assert m !in rest;
      }
    }
    if forall m :: m in v.names && m != n ==> v.names[m] != v.names[n] {
      assert names == {n};
    }
  }

  /** No call is made without a record; one that is not a file of its own is unsafe, and one that is not the text of a
      record of version 1 is malformed. */
  lemma RecordIsRefused(v: Volume, root: Root, alive: set<int>, link: LinkSupport)
    requires v.Valid()
    ensures var outcome := RecoverRun(v, root, alive, link).outcome;
            && (outcome == NoJournal <==> root.journal !in v.names)
            && (outcome == Refused(UnsafeJournal) <==>
                 && root.journal in v.names
                 && (!v.File(root.journal).regular
                     || exists n :: n in v.names && n != root.journal && v.names[n] == v.names[root.journal]))
            && (outcome == Refused(MalformedJournal) <==>
                 v.Single(root.journal) && forall e :: v.Holds(root.journal, Record(e)) ==> e.version != 1)
  {
    if root.journal in v.names {
      OneName(v, root.journal);
      if v.Single(root.journal) {
        var text := v.File(root.journal).content;
        assert text.Record? ==> v.Holds(root.journal, Record(text.entry));
        if text.Record? && text.entry.version == 1 {
          EntryOutcome(v, root.journal, text.entry, link);
        }
      }
    }
  }

  /** What a call on an entry can answer. */
  lemma EntryOutcome(v: Volume, journal: Name, e: Entry, link: LinkSupport)
    ensures RecoverEntry(v, journal, e, link).outcome !in {NoJournal, Refused(UnsafeJournal), Refused(MalformedJournal),
              Refused(OutsideRoot), Refused(OwnerAlive)}
  {
  }

  /** A readable record is acted on exactly when both its paths are inside the root and its owner is dead; then the call
      succeeds exactly in one of four states: the claim is gone and the canonical file is as it was before or after, the
      original is parked and can be linked or copied back, it is linked back already, or the successor is in place. */
  lemma RecoversExactlyWhen(v: Volume, root: Root, alive: set<int>, link: LinkSupport, e: Entry)
    requires Recorded(v, root.journal, e) && Separate(root.journal, e) && e.version == 1
    ensures var outcome := RecoverRun(v, root, alive, link).outcome;
            var inside := e.canonical in root.controlled && e.claim in root.controlled;
            && (outcome == Refused(OutsideRoot) <==> !inside)
            && (outcome == Refused(OwnerAlive) <==> inside && e.ownerPid in alive)
            && (outcome == Recovered <==>
                 && inside && e.ownerPid !in alive
                 && (|| Unclaimed(v, e, ContentAt(v, e.canonical))
                     || (Claimed(v, e, ContentAt(v, e.claim)) && link != Failing)
                     || Linked(v, e, ContentAt(v, e.canonical))
                     || Installed(v, e, ContentAt(v, e.canonical))))
  {
    EntryOutcome(v, root.journal, e, link);
    EntryRecovers(v, root.journal, e, link);
  }

  lemma EntryRecovers(v: Volume, journal: Name, e: Entry, link: LinkSupport)
    requires v.Valid() && Separate(journal, e)
    ensures RecoverEntry(v, journal, e, link).outcome == Recovered <==>
              || Unclaimed(v, e, ContentAt(v, e.canonical))
              || (Claimed(v, e, ContentAt(v, e.claim)) && link != Failing)
              || Linked(v, e, ContentAt(v, e.canonical))
              || Installed(v, e, ContentAt(v, e.canonical))
  {
    if LinkedPair(v, e.canonical, e.claim) {
    } else if UnsafeRead(v, e.canonical) || UnsafeRead(v, e.claim) {
    } else if e.claim !in v.names {
    } else if e.canonical in v.names {
    } else {
      var run := RestoreRun(v, e.claim, e.canonical, link);
      assert run.outcome.Recovered? <==> !link.Failing?;
    }
  }
}
