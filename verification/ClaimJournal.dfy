/**
  The native hook claim journal: a write-ahead record that lets a later process finish or
  roll back a file replacement whose owner died part-way.

  A volume maps names to inodes and inodes to contents; the link count of an inode is the number
  of names that reach it. Every file-system call is one atomic step, and a crash may fall
  between any two of them. A digest is an injective wrapper around the digested content.
 */
module ClaimJournal {
  import opened Wrappers

  type Name = string
  type Ino = nat

  /** What a file holds: plain bytes, or the JSON text of a claim record. */
  datatype Content = Bytes(data: seq<int>) | Record(entry: Entry)

  datatype Digest = Sha256(content: Content)

  datatype Entry = Entry(
    version: int,
    ownerPid: int,
    canonical: Name,
    claim: Name,
    beforeHash: Digest,
    afterHash: Option<Digest>)

  datatype Inode = Inode(regular: bool, content: Content)

  datatype Volume = Volume(names: map<Name, Ino>, inodes: map<Ino, Inode>, next: Ino) {
    ghost predicate Valid() {
      && (forall n :: n in names ==> names[n] in inodes)
      && (forall i :: i in inodes ==> i < next)
    }

    function NamesOf(i: Ino): set<Name> {
      set n | n in names && names[n] == i
    }

    function Links(i: Ino): nat {
      |NamesOf(i)|
    }

    function File(n: Name): Inode
      requires n in names && names[n] in inodes
    {
      inodes[names[n]]
    }

    /** A regular file reached by exactly one name: what the code accepts as a safe artifact. */
    predicate Single(n: Name) {
      && n in names
      && names[n] in inodes
      && inodes[names[n]].regular
      && Links(names[n]) == 1
    }

    predicate Holds(n: Name, c: Content) {
      n in names && names[n] in inodes && inodes[names[n]].content == c
    }

    /** The volume after `link(from, to)`. */
    function Link(from: Name, to: Name): Volume
      requires from in names
    {
      this.(names := names[to := names[from]])
    }

    /** The volume after creating a fresh regular file. */
    function Create(n: Name, c: Content): Volume {
      Volume(names[n := next], inodes[next := Inode(true, c)], next + 1)
    }

    function Write(n: Name, c: Content): Volume
      requires n in names && names[n] in inodes
    {
      this.(inodes := inodes[names[n] := inodes[names[n]].(content := c)])
    }

    function Rename(from: Name, to: Name): Volume
      requires from in names
    {
      this.(names := (names - {from})[to := names[from]])
    }

    function Remove(n: Name): Volume {
      this.(names := names - {n})
    }
  }

  /** Where the journal lives and which paths lie inside the controlled root. */
  datatype Root = Root(journal: Name, controlled: set<Name>)

  /** How the volume answers `link`: it works, is unsupported (EPERM, ENOTSUP, EOPNOTSUPP, EXDEV), or fails. */
  datatype LinkSupport = Supported | Unsupported | Failing

  datatype Reason =
    | UnsafeJournal | MalformedJournal | OutsideRoot | OwnerAlive
    | ChangedLinkedRestore | UnsafeArtifact | MissingClaim | ForeignClaim
    | UnsafeClaim | DestinationExists | LinkFailed | ChangedDuringRestore | UnrecognizedCanonical

  datatype Outcome = NoJournal | Recovered | Refused(reason: Reason)

  /** One call: the volumes after each of its mutations, and how it ended. */
  datatype Run = Run(steps: seq<Volume>, outcome: Outcome) {
    /** The volume after the first `k` mutations of a call that started from `v`. */
    function At(v: Volume, k: nat): Volume
      requires k <= |steps|
    {
      if k == 0 then v else steps[k - 1]
    }

    function Final(v: Volume): Volume {
      At(v, |steps|)
    }
  }

  /** `readRegularBytes` refuses a symlink, a non-file and a file with another link. */
  predicate UnsafeRead(v: Volume, n: Name) {
    n in v.names && !v.Single(n)
  }

  function Read(v: Volume, n: Name): (r: Option<Content>)
    requires !UnsafeRead(v, n)
    ensures r.Some? <==> n in v.names
    ensures r.Some? ==> v.Holds(n, r.value)
  {
    if n in v.names then Some(v.File(n).content) else None
  }

  /** `restoreNativeHookClaimNoClobber`. */
  function RestoreRun(v: Volume, claim: Name, destination: Name, link: LinkSupport): Run {
    if !v.Single(claim) then Run([], Refused(UnsafeClaim))
    else if link.Failing? then Run([], Refused(LinkFailed))
    else if destination in v.names then Run([], Refused(DestinationExists))
    else
      var v1 := if link.Supported? then v.Link(claim, destination) else v.Create(destination, v.File(claim).content);
      Run([v1, v1.Remove(claim)], Recovered)
  }

  /** Both names reach one regular inode and nothing else does. */
  predicate LinkedPair(v: Volume, a: Name, b: Name) {
    && a in v.names && b in v.names
    && v.names[a] == v.names[b]
    && v.names[a] in v.inodes
    && v.inodes[v.names[a]].regular
    && v.Links(v.names[a]) == 2
  }

  /** `recoverNativeHookClaimJournal` for a dead or live owner, run to its end without interference. */
  function RecoverRun(v: Volume, root: Root, alive: set<int>, link: LinkSupport): Run {
    if root.journal !in v.names then Run([], NoJournal)
    else if !v.Single(root.journal) then Run([], Refused(UnsafeJournal))
    else
      var text := v.File(root.journal).content;
      if text.Bytes? || text.entry.version != 1 then Run([], Refused(MalformedJournal))
      else if text.entry.canonical !in root.controlled || text.entry.claim !in root.controlled then
        Run([], Refused(OutsideRoot))
      else if text.entry.ownerPid in alive then Run([], Refused(OwnerAlive))
      else RecoverEntry(v, root.journal, text.entry, link)
  }

  function RecoverEntry(v: Volume, journal: Name, e: Entry, link: LinkSupport): Run {
    if LinkedPair(v, e.canonical, e.claim) then
      if Sha256(v.File(e.canonical).content) != e.beforeHash then Run([], Refused(ChangedLinkedRestore))
      else Finish(v, [v.Remove(e.claim)], journal)
    else if UnsafeRead(v, e.canonical) || UnsafeRead(v, e.claim) then Run([], Refused(UnsafeArtifact))
    else
      var canonical, claim := Read(v, e.canonical), Read(v, e.claim);
      if claim.None? then
        if canonical.None? then
          if e.afterHash.None? then Finish(v, [], journal) else Run([], Refused(MissingClaim))
        else if Some(Sha256(canonical.value)) == e.afterHash || Sha256(canonical.value) == e.beforeHash then
          Finish(v, [], journal)
        else Run([], Refused(MissingClaim))
      else if Sha256(claim.value) != e.beforeHash then Run([], Refused(ForeignClaim))
      else if canonical.None? then
        var restored := RestoreRun(v, e.claim, e.canonical, link);
        if restored.outcome.Recovered? then Finish(v, restored.steps, journal) else restored
      else if Some(Sha256(canonical.value)) == e.afterHash then Finish(v, [v.Remove(e.claim)], journal)
      else Run([], Refused(UnrecognizedCanonical))
  }

  /** `clearNativeHookClaimJournal` after the given mutations. */
  function Finish(v: Volume, steps: seq<Volume>, journal: Name): Run {
    var last := Run(steps, Recovered).Final(v);
    Run(if journal in last.names then steps + [last.Remove(journal)] else steps, Recovered)
  }

  // ----------------------------------------------------------------------------------------
  // The code itself, one file-system call at a time.

  /** The mutable volume. `history` records the volume after every mutation. */
  class Disk {
    var volume: Volume
    ghost var history: seq<Volume>

    constructor (v: Volume)
      ensures volume == v && history == []
    {
      volume := v;
      history := [];
    }

    method LinkFile(from: Name, to: Name)
      requires from in volume.names && to !in volume.names
      modifies this
      ensures volume == old(volume).Link(from, to) && history == old(history) + [volume]
      ensures volume.names.Keys == old(volume).names.Keys + {to}
                && volume.names[to] == volume.names[from] == old(volume).names[from]
      ensures volume.Links(volume.names[from]) == old(volume).Links(volume.names[from]) + 1
      ensures forall j :: j != volume.names[from] ==> volume.Links(j) == old(volume).Links(j)
    {
      LinksAfterAdd(volume, volume.Link(from, to), to, volume.names[from]);
      volume := volume.Link(from, to);
      history := history + [volume];
    }

    method CreateExclusive(n: Name, c: Content) returns (created: bool)
      modifies this
      ensures created <==> n !in old(volume).names
      ensures created ==> volume == old(volume).Create(n, c) && history == old(history) + [volume]
      ensures !created ==> volume == old(volume) && history == old(history)
    {
      created := n !in volume.names;
      if created {
        volume := volume.Create(n, c);
        history := history + [volume];
      }
    }

    method WriteFile(n: Name, c: Content)
      requires n in volume.names && volume.names[n] in volume.inodes
      modifies this
      ensures volume == old(volume).Write(n, c)
      ensures history == old(history) + [volume]
    {
      volume := volume.Write(n, c);
      history := history + [volume];
    }

    method RemoveFile(n: Name) returns (removed: bool)
      modifies this
      ensures removed <==> n in old(volume).names
      ensures removed ==> volume == old(volume).Remove(n) && history == old(history) + [volume]
      ensures !removed ==> volume == old(volume) && history == old(history)
    {
      removed := n in volume.names;
      if removed {
        volume := volume.Remove(n);
        history := history + [volume];
      }
    }

    method RenameFile(from: Name, to: Name)
      requires from in volume.names
      modifies this
      ensures volume == old(volume).Rename(from, to)
      ensures history == old(history) + [volume]
    {
      volume := volume.Rename(from, to);
      history := history + [volume];
    }

    method Restore(claim: Name, destination: Name, link: LinkSupport) returns (outcome: Outcome)
      requires volume.Valid()
      modifies this
      ensures var run := RestoreRun(old(volume), claim, destination, link);
              && outcome == run.outcome
              && volume == run.Final(old(volume))
              && history == old(history) + run.steps
    {
      if !volume.Single(claim) {
        return Refused(UnsafeClaim);
      }
      var claimIno := volume.names[claim];
      var claimContent := volume.File(claim).content;
      var linked := false;
      match link {
        case Failing =>
          return Refused(LinkFailed);
        case Supported =>
          if destination in volume.names {
            return Refused(DestinationExists);
          }
          LinkFile(claim, destination);
          linked := true;
        case Unsupported =>
          var created := CreateExclusive(destination, claimContent);
          if !created {
            return Refused(DestinationExists);
          }
      }
      if volume.names[claim] != claimIno || volume.File(claim).content != claimContent
         || volume.File(destination).content != claimContent
         || (linked && volume.names[destination] != claimIno)
      {
        return Refused(ChangedDuringRestore);
      }
      var _ := RemoveFile(claim);
      return Recovered;
    }

    method Recover(root: Root, alive: set<int>, link: LinkSupport) returns (outcome: Outcome)
      requires volume.Valid()
      modifies this
      ensures var run := RecoverRun(old(volume), root, alive, link);
              && outcome == run.outcome
              && volume == run.Final(old(volume))
              && history == old(history) + run.steps
    {
      if root.journal !in volume.names {
        return NoJournal;
      }
      if !volume.Single(root.journal) {
        return Refused(UnsafeJournal);
      }
      var text := volume.File(root.journal).content;
      if text.Bytes? || text.entry.version != 1 {
        return Refused(MalformedJournal);
      }
      var e := text.entry;
      if e.canonical !in root.controlled || e.claim !in root.controlled {
        return Refused(OutsideRoot);
      }
      if e.ownerPid in alive {
        return Refused(OwnerAlive);
      }
      if LinkedPair(volume, e.canonical, e.claim) {
        if Sha256(volume.File(e.canonical).content) != e.beforeHash {
          return Refused(ChangedLinkedRestore);
        }
        var _ := RemoveFile(e.claim);
        var _ := RemoveFile(root.journal);
        return Recovered;
      }
      if UnsafeRead(volume, e.canonical) || UnsafeRead(volume, e.claim) {
        return Refused(UnsafeArtifact);
      }
      var canonical, claim := Read(volume, e.canonical), Read(volume, e.claim);
      if claim.None? {
        if (canonical.None? && e.afterHash.None?)
           || (canonical.Some? && e.afterHash == Some(Sha256(canonical.value)))
           || (canonical.Some? && Sha256(canonical.value) == e.beforeHash)
        {
          var _ := RemoveFile(root.journal);
          return Recovered;
        }
        return Refused(MissingClaim);
      }
      if Sha256(claim.value) != e.beforeHash {
        return Refused(ForeignClaim);
      }
      if canonical.None? {
        outcome := Restore(e.claim, e.canonical, link);
        if outcome.Recovered? {
          var _ := RemoveFile(root.journal);
        }
        return;
      }
      if e.afterHash == Some(Sha256(canonical.value)) {
        var _ := RemoveFile(e.claim);
        var _ := RemoveFile(root.journal);
        return Recovered;
      }
      return Refused(UnrecognizedCanonical);
    }

    /** `persistNativeHookClaimJournal`: the record is created empty, then written; a failed write removes it. */
    method Persist(root: Root, e: Entry, writeFails: bool) returns (persisted: bool)
      requires volume.Valid()
      modifies this
      ensures persisted <==> CanPersist(old(volume), root, e) && !writeFails
      ensures !CanPersist(old(volume), root, e) ==> volume == old(volume) && history == old(history)
      ensures persisted ==>
                && volume == PersistSteps(old(volume), root, e)[1]
                && history == old(history) + PersistSteps(old(volume), root, e)
      ensures volume.names - {root.journal} == old(volume).names - {root.journal}
      ensures CanPersist(old(volume), root, e) && writeFails ==> volume.names == old(volume).names
    {
      if e.canonical !in root.controlled || e.claim !in root.controlled {
        return false;
      }
      var created := CreateExclusive(root.journal, Bytes([]));
      if !created {
        return false;
      }
      if writeFails {
        var _ := RemoveFile(root.journal);
        return false;
      }
      WriteFile(root.journal, Record(e));
      return true;
    }

    /** The owner's rollback: the parked original is restored, and with it the record goes. */
    method RollBack(root: Root, e: Entry, link: LinkSupport)
      requires volume.Valid()
      modifies this
      ensures var run := RollbackRun(old(volume), root, e, link);
              volume == run.Final(old(volume)) && history == old(history) + run.steps
    {
      var outcome := Restore(e.claim, e.canonical, link);
      if outcome.Recovered? {
        var _ := RemoveFile(root.journal);
      }
    }

    /** The owner records the claim and parks the original under the claim name. */
    method Park(root: Root, e: Entry)
      requires volume.Valid() && CanPersist(volume, root, e)
      requires e.canonical in volume.names && e.canonical != root.journal
      modifies this
      ensures volume == Parking(old(volume), root, e)
      ensures history == old(history) + PersistSteps(old(volume), root, e) + [volume]
    {
      var _ := Persist(root, e, false);
      RenameFile(e.canonical, e.claim);
    }

    /** The owner drops the parked original, then the record. */
    method Drop(root: Root, e: Entry)
      requires e.claim in volume.names && root.journal in volume.names && e.claim != root.journal
      modifies this
      ensures volume == DropSteps(old(volume), root, e)[1]
      ensures history == old(history) + DropSteps(old(volume), root, e)
    {
      var _ := RemoveFile(e.claim);
      var _ := RemoveFile(root.journal);
    }

    /**
      The owner's side: record the claim, park the original under the claim name, install the
      successor (nothing for a deletion), drop the parked original, drop the record. When the
      parked original or the installed successor is rejected, roll back.
     */
    method ClaimAndReplace(root: Root, e: Entry, after: Option<Content>, check: Check)
      requires volume.Valid() && CanPersist(volume, root, e)
      requires e.canonical in volume.names && e.claim !in volume.names
      requires e.canonical != e.claim && root.journal !in {e.canonical, e.claim}
      modifies this
      ensures history == old(history) + OwnerSteps(old(volume), root, e, after, check)
      ensures volume == history[|history| - 1]
    {
      ParkingIsValid(volume, root, e);
      Park(root, e);
      if check.ClaimRejected? {
        RollBack(root, e, check.link);
        return;
      }
      if after.Some? {
        var _ := CreateExclusive(e.canonical, after.value);
        if check.InstallRejected? {
          RollBack(root, e, check.link);
          return;
        }
      }
      Drop(root, e);
    }
  }

  /** What the owner's checks say: of the parked original, and of the installed successor. */
  datatype Check = Passed | ClaimRejected(link: LinkSupport) | InstallRejected(link: LinkSupport)

  function RollbackRun(v: Volume, root: Root, e: Entry, link: LinkSupport): Run {
    var restored := RestoreRun(v, e.claim, e.canonical, link);
    if restored.outcome.Recovered? then Finish(v, restored.steps, root.journal) else restored
  }

  lemma LinksAfterAdd(v: Volume, w: Volume, n: Name, i: Ino)
    requires n !in v.names && w.names == v.names[n := i]
    ensures w.Links(i) == v.Links(i) + 1
    ensures forall j :: j != i ==> w.Links(j) == v.Links(j)
  {
    assert w.NamesOf(i) == v.NamesOf(i) + {n};
    forall j | j != i ensures w.Links(j) == v.Links(j) {
      assert w.NamesOf(j) == v.NamesOf(j);
    }
  }

  predicate CanPersist(v: Volume, root: Root, e: Entry) {
    && e.canonical in root.controlled
    && e.claim in root.controlled
    && root.journal !in v.names
  }

  function PersistSteps(v: Volume, root: Root, e: Entry): (s: seq<Volume>)
    ensures |s| == 2
  {
    var blank := v.Create(root.journal, Bytes([]));
    [blank, blank.Write(root.journal, Record(e))]
  }

  /** The volume after the owner has parked the original. */
  function Parking(v: Volume, root: Root, e: Entry): Volume
    requires e.canonical in v.names && e.canonical != root.journal
  {
    PersistSteps(v, root, e)[1].Rename(e.canonical, e.claim)
  }

  lemma ParkingIsValid(v: Volume, root: Root, e: Entry)
    requires v.Valid() && root.journal !in v.names
    requires e.canonical in v.names && e.canonical != e.claim && root.journal !in {e.canonical, e.claim}
    ensures var w := Parking(v, root, e);
            w.Valid() && e.claim in w.names && root.journal in w.names && e.canonical !in w.names
  {
  }

  /** The volumes after each call of the owner. */
  function OwnerSteps(v: Volume, root: Root, e: Entry, after: Option<Content>, check: Check): (s: seq<Volume>)
    requires e.canonical in v.names && e.canonical != root.journal
  {
    var persisted := PersistSteps(v, root, e);
    var claimed := Parking(v, root, e);
    if check.ClaimRejected? then persisted + [claimed] + RollbackRun(claimed, root, e, check.link).steps
    else if after.Some? then
      var installed := claimed.Create(e.canonical, after.value);
      persisted + [claimed, installed]
      + if check.InstallRejected? then RollbackRun(installed, root, e, check.link).steps
        else DropSteps(installed, root, e)
    else persisted + [claimed] + DropSteps(claimed, root, e)
  }

  /** Dropping the parked original, then the record. */
  function DropSteps(v: Volume, root: Root, e: Entry): (s: seq<Volume>)
    ensures |s| == 2
  {
    [v.Remove(e.claim), v.Remove(e.claim).Remove(root.journal)]
  }
}
