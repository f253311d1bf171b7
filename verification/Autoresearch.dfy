/** The autoresearch supervisor (`src/autoresearch/runtime.ts`): a keep-or-discard loop over a git worktree. */
module Autoresearch {
  import opened Wrappers

  type Commit = string

  datatype KeepPolicy = ScoreImprovement | PassOnly

  datatype CandidateStatus = Candidate | Noop | Abort | Interrupted

  datatype Decision = Baseline | Keep | Discard | Ambiguous | Noop | Abort | Interrupted | Error

  datatype RunStatus = Running | Stopped | Failed

  /** What the launched session leaves in the candidate file. */
  datatype Artifact = Artifact(status: CandidateStatus, candidateCommit: Option<Commit>, baseCommit: Commit)

  datatype Evaluation = EvaluatorError | Evaluated(pass: bool, score: Option<real>)

  datatype Manifest = Manifest(
    policy: KeepPolicy,
    baselineCommit: Commit,
    iteration: nat,
    lastKeptCommit: Commit,
    lastKeptScore: Option<real>,
    latestCandidateCommit: Option<Commit>,
    status: RunStatus)

  datatype Row = Row(iteration: nat, commit: Commit, pass: Option<bool>, score: Option<real>, status: Decision)

  datatype Entry = Entry(
    iteration: nat,
    decision: Decision,
    candidateStatus: Option<CandidateStatus>,
    baseCommit: Commit,
    candidateCommit: Option<Commit>,
    keptCommit: Commit,
    evaluator: Option<Evaluation>)

  /** Manifest in memory and on disk, results table, ledger, and the worktree's HEAD; `live` until a call throws. */
  datatype State = State(manifest: Manifest, saved: Manifest, rows: seq<Row>, ledger: seq<Entry>, head: Commit,
    live: bool)

  /** Everything one call reads from the outside world. */
  datatype Input = Input(
    artifact: Option<Artifact>,          // None: missing or malformed candidate file
    sessionHead: Commit,                 // HEAD as the session left it
    resolve: Commit -> Option<Commit>,   // `git rev-parse --verify`
    short: Commit -> Commit,             // `git rev-parse --short`
    evaluation: Evaluation,
    evaluatorHead: Commit,               // HEAD as the evaluator left it
    clean: bool,                         // the worktree is safe to reset
    resetWorks: bool)                    // `git reset --hard` succeeds

  datatype Outcome = Decided(decision: Decision) | Thrown

  // ------------------------------------------------------------------ decisions

  /** `decideAutoresearchOutcome`. */
  function DecideOutcome(policy: KeepPolicy, lastKeptScore: Option<real>, status: CandidateStatus,
                         evaluation: Option<Evaluation>): Decision {
    match status
    case Abort => Decision.Abort
    case Noop => Decision.Noop
    case Interrupted => Decision.Interrupted
    case Candidate =>
      if evaluation.None? || evaluation.value.EvaluatorError? then Discard
      else if !evaluation.value.pass then Discard
      else if policy == PassOnly then Keep
      else if lastKeptScore.None? || evaluation.value.score.None? then Ambiguous
      else if evaluation.value.score.value > lastKeptScore.value then Keep
      else Discard
  }

  /** `validateAutoresearchCandidate`: the candidate with its commits resolved, or nothing when it is refused. */
  function Validate(m: Manifest, artifact: Artifact, input: Input): (r: Option<Artifact>)
  {
    var base := input.resolve(artifact.baseCommit);
    if base.None? || base.value != m.lastKeptCommit then None
    else if artifact.status != CandidateStatus.Candidate then Some(artifact.(baseCommit := base.value))
    else if artifact.candidateCommit.None? || artifact.candidateCommit.value == "" then None
    else
      var candidate := input.resolve(artifact.candidateCommit.value);
      if candidate.None? || candidate.value != input.sessionHead then None
      else Some(artifact.(baseCommit := base.value, candidateCommit := candidate))
  }

  // ------------------------------------------------------------------ one call, as a function of the state

  function Scored(e: Option<Evaluation>): Option<real> {
    if e.Some? && e.value.Evaluated? then e.value.score else None
  }

  function Passed(e: Option<Evaluation>): Option<bool> {
    if e.Some? && e.value.Evaluated? then Some(e.value.pass) else None
  }

  function Recorded(s: State, decision: Decision, a: Artifact, evaluation: Option<Evaluation>, input: Input): State {
    s.(rows := s.rows + [Row(s.manifest.iteration, input.short(s.head), Passed(evaluation), Scored(evaluation),
                             decision)],
       ledger := s.ledger + [Entry(s.manifest.iteration, decision, Some(a.status), a.baseCommit, a.candidateCommit,
                                   s.manifest.lastKeptCommit, evaluation)])
  }

  function Finalized(s: State, status: RunStatus): State {
    var m := s.manifest.(status := status);
    s.(manifest := m, saved := m)
  }

  function Saved(s: State): State { s.(saved := s.manifest) }

  function AfterFailure(s: State, artifact: Option<Artifact>, input: Input): State {
    var shown := if artifact.Some? then artifact.value
        else Artifact(CandidateStatus.Candidate, None, s.manifest.lastKeptCommit);
    Finalized(Recorded(s, Error, shown, None, input), Failed)
  }

  function AfterNonEvaluated(s: State, a: Artifact, input: Input): (State, Outcome) {
    match a.status
    case Abort => (Finalized(Recorded(s, Decision.Abort, a, None, input), Stopped), Decided(Decision.Abort))
    case Interrupted =>
      if !input.clean then (Finalized(s, Failed), Decided(Error))
      else (Saved(Recorded(s, Decision.Interrupted, a, None, input)), Decided(Decision.Interrupted))
    case _ => (Saved(Recorded(s, Decision.Noop, a, None, input)), Decided(Decision.Noop))
  }

  function AfterEvaluation(s: State, a: Artifact, input: Input): (State, Outcome) {
    var m := s.manifest;
    var decision := DecideOutcome(m.policy, m.lastKeptScore, a.status, Some(input.evaluation));
    if decision == Keep then
      var score := Scored(Some(input.evaluation));
      var kept := m.(lastKeptCommit := input.evaluatorHead,
                     lastKeptScore := if score.Some? then score else m.lastKeptScore);
      (Saved(Recorded(s.(manifest := kept, head := input.evaluatorHead), decision, a, Some(input.evaluation), input)),
        Decided(decision))
    else if !input.clean || !input.resetWorks then
      (s.(head := input.evaluatorHead, live := false), Thrown)
    else
      (Saved(Recorded(s.(head := m.lastKeptCommit), decision, a, Some(input.evaluation), input)), Decided(decision))
  }

  /** `processAutoresearchCandidate`. */
  function Process(s: State, input: Input): (State, Outcome) {
    var t := s.(manifest := s.manifest.(iteration := s.manifest.iteration + 1), head := input.sessionHead);
    if input.artifact.None? then (AfterFailure(t, None, input), Decided(Error))
    else
      var valid := Validate(t.manifest, input.artifact.value, input);
      if valid.None? then (AfterFailure(t, input.artifact, input), Decided(Error))
      else
        var u := t.(manifest := t.manifest.(latestCandidateCommit := valid.value.candidateCommit));
        if valid.value.status != CandidateStatus.Candidate then AfterNonEvaluated(u, valid.value, input)
        else AfterEvaluation(u, valid.value, input)
  }

  /** `prepareAutoresearchRuntime` up to and including `seedBaseline`. */
  function Seed(policy: KeepPolicy, baseline: Commit, head: Commit, evaluation: Evaluation, evaluatorHead: Commit,
                short: Commit -> Commit): State {
    var decision := if evaluation.EvaluatorError? then Error else Baseline;
    var score := if evaluation.Evaluated? && evaluation.pass then evaluation.score else None;
    var m := Manifest(policy, baseline, 0, head, score, None, Running);
    State(m, m,
          [Row(0, short(evaluatorHead), Passed(Some(evaluation)), Scored(Some(evaluation)), decision)],
          [Entry(0, decision, None, baseline, None, head, Some(evaluation))],
          evaluatorHead, true)
  }

  // ------------------------------------------------------------------ the supervisor

  class Supervisor {
    var manifest: Manifest
    var saved: Manifest
    var rows: seq<Row>
    var ledger: seq<Entry>
    var head: Commit
    var live: bool

    ghost function Now(): State
      reads this
    {
      State(manifest, saved, rows, ledger, head, live)
    }

    constructor (policy: KeepPolicy, baseline: Commit, head: Commit, evaluation: Evaluation, evaluatorHead: Commit,
                 short: Commit -> Commit)
      ensures Now() == Seed(policy, baseline, head, evaluation, evaluatorHead, short)
    {
      var decision := if evaluation == EvaluatorError then Error else Baseline;
      var m := Manifest(policy, baseline, 0, head, None, None, Running);
      rows := [Row(0, short(evaluatorHead), Passed(Some(evaluation)), Scored(Some(evaluation)), decision)];
      ledger := [Entry(0, decision, None, baseline, None, head, Some(evaluation))];
      if evaluation.Evaluated? && evaluation.pass && evaluation.score.Some? {
        m := m.(lastKeptScore := evaluation.score);
      }
      manifest, saved := m, m;
      this.head, live := evaluatorHead, true;
    }

    method RecordIteration(decision: Decision, a: Artifact, evaluation: Option<Evaluation>, input: Input)
      modifies this
      ensures Now() == Recorded(old(Now()), decision, a, evaluation, input)
    {
      rows := rows + [Row(manifest.iteration, input.short(head), Passed(evaluation), Scored(evaluation), decision)];
      ledger := ledger + [Entry(manifest.iteration, decision, Some(a.status), a.baseCommit, a.candidateCommit,
                                manifest.lastKeptCommit, evaluation)];
    }

    method FinalizeRun(status: RunStatus)
      modifies this
      ensures Now() == Finalized(old(Now()), status)
    {
      manifest := manifest.(status := status);
      saved := manifest;
    }

    method FailIteration(artifact: Option<Artifact>, input: Input) returns (outcome: Outcome)
      modifies this
      ensures Now() == AfterFailure(old(Now()), artifact, input) && outcome == Decided(Error)
    {
      var shown := if artifact.Some? then artifact.value
          else Artifact(CandidateStatus.Candidate, None, manifest.lastKeptCommit);
      RecordIteration(Error, shown, None, input);
      FinalizeRun(Failed);
      outcome := Decided(Error);
    }

    method RecordNonEvaluatedStatus(a: Artifact, input: Input) returns (outcome: Outcome)
      requires a.status != CandidateStatus.Candidate
      modifies this
      ensures (Now(), outcome) == AfterNonEvaluated(old(Now()), a, input)
    {
      if a.status == CandidateStatus.Abort {
        RecordIteration(Decision.Abort, a, None, input);
        FinalizeRun(Stopped);
        return Decided(Decision.Abort);
      }
      if a.status == CandidateStatus.Interrupted {
        if !input.clean {
          FinalizeRun(Failed);
          return Decided(Error);
        }
        RecordIteration(Decision.Interrupted, a, None, input);
        saved := manifest;
        return Decided(Decision.Interrupted);
      }
      RecordIteration(Decision.Noop, a, None, input);
      saved := manifest;
      outcome := Decided(Decision.Noop);
    }

    method ResetToLastKeptCommit(input: Input) returns (ok: bool)
      modifies this
      ensures ok == (input.clean && input.resetWorks)
      ensures Now() == old(Now()).(head := if ok then manifest.lastKeptCommit else old(head))
    {
      ok := input.clean && input.resetWorks;
      if ok {
        head := manifest.lastKeptCommit;
      }
    }

    method ProcessCandidate(input: Input) returns (outcome: Outcome)
      modifies this
      ensures (Now(), outcome) == Process(old(Now()), input)
    {
      head := input.sessionHead;
      manifest := manifest.(iteration := manifest.iteration + 1);
      if input.artifact.None? {
        outcome := FailIteration(None, input);
        return;
      }
      var validation := Validate(manifest, input.artifact.value, input);
      if validation.None? {
        outcome := FailIteration(input.artifact, input);
        return;
      }
      var candidate := validation.value;
      manifest := manifest.(latestCandidateCommit := candidate.candidateCommit);
      if candidate.status != CandidateStatus.Candidate {
        outcome := RecordNonEvaluatedStatus(candidate, input);
        return;
      }
      var evaluation := input.evaluation;
      head := input.evaluatorHead;
      var decision := DecideOutcome(manifest.policy, manifest.lastKeptScore, candidate.status, Some(evaluation));
      if decision == Keep {
        manifest := manifest.(lastKeptCommit := head);
        if evaluation.Evaluated? && evaluation.score.Some? {
          manifest := manifest.(lastKeptScore := evaluation.score);
        }
      } else {
        var ok := ResetToLastKeptCommit(input);
        if !ok {
          live := false;
          return Thrown;
        }
      }
      RecordIteration(decision, candidate, Some(evaluation), input);
      saved := manifest;
      outcome := Decided(decision);
    }

    /** `resumeAutoresearchRuntime`: only a run still marked running, in a clean worktree, is taken up again. */
    method Resume(clean: bool) returns (ok: bool)
      modifies this
      ensures ok == (old(saved).status == Running && clean)
      ensures Now() == if ok then Resumed(old(Now())) else old(Now())
    {
      ok := saved.status == Running && clean;
      if ok {
        manifest, live := saved, true;
      }
    }
  }

  function Resumed(s: State): State { s.(manifest := s.saved, live := true) }

  /** `countTrailingAutoresearchNoops`: the longest run of noops that ends the ledger. */
  method CountTrailingNoops(ledger: seq<Entry>) returns (count: nat)
    ensures count <= |ledger|
    ensures forall i :: |ledger| - count <= i < |ledger| ==> IsNoop(ledger[i])
    ensures count < |ledger| ==> !IsNoop(ledger[|ledger| - count - 1])
  {
    count := 0;
    var index := |ledger| - 1;
    while index >= 0
      invariant -1 <= index < |ledger| && count == |ledger| - 1 - index
      invariant forall i :: index < i < |ledger| ==> IsNoop(ledger[i])
    {
      if !IsNoop(ledger[index]) {
        break;
      }
      count := count + 1;
      index := index - 1;
    }
  }

  predicate IsNoop(e: Entry) { e.candidateStatus.Some? && e.decision == Decision.Noop }

  // ------------------------------------------------------------------ runs

  datatype Event =
    | Session(input: Input)     // a candidate is processed
    | Exit                      // the supervisor process ends between two calls
    | Crash(input: Input, stop: Stop)   // it dies inside a call
    | Restart(clean: bool)

  /** How far a call got: the row is appended before the entry, and the manifest is saved last. */
  datatype Stop = BeforeRow | AfterRow | AfterEntry

  /** What a call leaves behind when the supervisor dies inside it, before the manifest is saved. */
  function CutShort(s: State, input: Input, stop: Stop): State {
    var t := Process(s, input).0;
    s.(rows := if stop == BeforeRow then s.rows else t.rows,
       ledger := if stop == AfterEntry then t.ledger else s.ledger,
       head := t.head, live := false)
  }

  function Apply(s: State, event: Event): State {
    match event
    case Session(input) => if s.live && s.manifest.status == Running then Process(s, input).0 else s
    case Exit => s.(live := false)
    case Crash(input, stop) => if s.live && s.manifest.status == Running then CutShort(s, input, stop) else s
    case Restart(clean) => if s.saved.status == Running && clean then Resumed(s) else s
  }

  function Run(s: State, events: seq<Event>): State
    decreases |events|
  {
    if events == [] then s else Apply(Run(s, events[..|events| - 1]), events[|events| - 1])
  }

  /** The score a ledger says is the best kept so far. */
  function ReplayedScore(ledger: seq<Entry>): Option<real>
    decreases |ledger|
  {
    if ledger == [] then None
    else
      var last := ledger[|ledger| - 1];
      var score := Scored(last.evaluator);
      if last.decision == Baseline then (if Passed(last.evaluator) == Some(true) then score else None)
      else if last.decision == Keep && score.Some? then score
      else ReplayedScore(ledger[..|ledger| - 1])
  }

  /** Iterations 0, 1, 2, …, each with its results row. */
  ghost predicate Numbered(s: State) {
    && |s.rows| == |s.ledger| > 0
    && forall i :: 0 <= i < |s.ledger| ==>
         && s.ledger[i].iteration == i == s.rows[i].iteration && s.rows[i].status == s.ledger[i].decision
         && s.rows[i].pass == Passed(s.ledger[i].evaluator) && s.rows[i].score == Scored(s.ledger[i].evaluator)
  }

  /** The baseline comes first and only first; each later entry builds on its predecessor. */
  ghost predicate Chained(ledger: seq<Entry>) {
    && ledger != []
    && ledger[0].decision in {Baseline, Error}
    && forall i :: 0 < i < |ledger| ==> Follows(ledger[i - 1], ledger[i])
  }

  ghost predicate Follows(previous: Entry, e: Entry) {
    && e.decision != Baseline
    && (e.decision != Error ==> e.baseCommit == previous.keptCommit)
    && (e.decision != Keep ==> e.keptCommit == previous.keptCommit)
    && (e.decision == Keep ==> Passed(e.evaluator) == Some(true))
  }

  /** What the saved manifest and the ledger agree on. */
  ghost predicate Replays(s: State) {
    && Numbered(s) && Chained(s.ledger)
    && s.ledger[|s.ledger| - 1].keptCommit == s.saved.lastKeptCommit
    && ReplayedScore(s.ledger) == s.saved.lastKeptScore
    && (s.saved.status == Running ==> |s.ledger| == s.saved.iteration + 1)
    && s.saved.iteration <= |s.ledger| <= s.saved.iteration + 1
    && (s.live ==> s.manifest == s.saved)
    && (forall i :: 0 < i < |s.ledger| && s.ledger[i].decision in {Error, Decision.Abort} ==>
          i == |s.ledger| - 1 && s.saved.status != Running)
  }

  lemma SeedReplays(policy: KeepPolicy, baseline: Commit, head: Commit, evaluation: Evaluation, evaluatorHead: Commit,
                    short: Commit -> Commit)
    ensures Replays(Seed(policy, baseline, head, evaluation, evaluatorHead, short))
  {
    var s := Seed(policy, baseline, head, evaluation, evaluatorHead, short);
    assert s.ledger[..0] == [];
    assert ReplayedScore(s.ledger[..0]) == None;
  }

  lemma AppendNumbered(s: State, row: Row, e: Entry, t: State)
    requires Numbered(s) && t.rows == s.rows + [row] && t.ledger == s.ledger + [e]
    requires e.iteration == row.iteration == |s.ledger| && row.status == e.decision
    requires row.pass == Passed(e.evaluator) && row.score == Scored(e.evaluator)
    ensures Numbered(t)
  {
  }

  lemma AppendChained(ledger: seq<Entry>, e: Entry)
    requires Chained(ledger) && Follows(ledger[|ledger| - 1], e)
    ensures Chained(ledger + [e])
  {
  }

  /** Appending one entry that follows the last keeps the ledger replayable. */
  lemma AppendReplays(s: State, row: Row, e: Entry, m: Manifest, t: State)
    requires Replays(s) && s.saved.status == Running
    requires t.rows == s.rows + [row] && t.ledger == s.ledger + [e] && t.saved == m && (t.live ==> t.manifest == m)
    requires e.iteration == row.iteration == |s.ledger| == m.iteration && row.status == e.decision
    requires row.pass == Passed(e.evaluator) && row.score == Scored(e.evaluator)
    requires Follows(s.ledger[|s.ledger| - 1], e) && e.keptCommit == m.lastKeptCommit
    requires m.lastKeptScore == if e.decision == Keep && Scored(e.evaluator).Some? then Scored(e.evaluator)
              else s.saved.lastKeptScore
    requires e.decision in {Error, Decision.Abort} ==> m.status != Running
    ensures Replays(t)
  {
    AppendNumbered(s, row, e, t);
    AppendChained(s.ledger, e);
    assert t.ledger[..|t.ledger| - 1] == s.ledger;
  }

  /** A call in progress: the iteration is counted, nothing is recorded yet. */
  ghost predicate Entered(s: State, u: State) {
    && Replays(s) && s.live && s.saved.status == Running
    && u.rows == s.rows && u.ledger == s.ledger && u.saved == s.saved && u.live
    && u.manifest ==
         s.saved.(iteration := s.saved.iteration + 1, latestCandidateCommit := u.manifest.latestCandidateCommit)
  }

  lemma FailureReplays(s: State, u: State, artifact: Option<Artifact>, input: Input)
    requires Entered(s, u)
    ensures Replays(AfterFailure(u, artifact, input))
  {
    var t := AfterFailure(u, artifact, input);
    AppendReplays(s, t.rows[|s.rows|], t.ledger[|s.ledger|], t.saved, t);
  }

  lemma NonEvaluatedReplays(s: State, u: State, a: Artifact, input: Input)
    requires Entered(s, u) && a.status != CandidateStatus.Candidate && a.baseCommit == s.saved.lastKeptCommit
    ensures Replays(AfterNonEvaluated(u, a, input).0)
  {
    var t := AfterNonEvaluated(u, a, input).0;
    if t.ledger != s.ledger {
      AppendReplays(s, t.rows[|s.rows|], t.ledger[|s.ledger|], t.saved, t);
    }
  }

  lemma EvaluationReplays(s: State, u: State, a: Artifact, input: Input)
    requires Entered(s, u) && a.status == CandidateStatus.Candidate && a.baseCommit == s.saved.lastKeptCommit
    ensures Replays(AfterEvaluation(u, a, input).0)
  {
    var (t, outcome) := AfterEvaluation(u, a, input);
    if outcome.Decided? {
      AppendReplays(s, t.rows[|s.rows|], t.ledger[|s.ledger|], t.saved, t);
    }
  }

  // ------------------------------------------------------------------ what a single call may do

  predicate DirtyInterruption(s: State, input: Input) {
    && input.artifact.Some? && input.artifact.value.status == CandidateStatus.Interrupted
    && Validate(s.manifest, input.artifact.value, input).Some? && !input.clean
  }

  predicate RecordsNothing(s: State, input: Input) { Process(s, input).1.Thrown? || DirtyInterruption(s, input) }

  ghost predicate KeptEntry(m: Manifest, input: Input, e: Entry) {
    && e.evaluator == Some(input.evaluation) && e.candidateCommit == Some(input.sessionHead)
         && e.keptCommit == input.evaluatorHead
    && Passed(e.evaluator) == Some(true)
    && (m.policy == ScoreImprovement ==> Beats(m.lastKeptScore, Scored(e.evaluator)))
  }

  predicate Beats(best: Option<real>, score: Option<real>) { best.Some? && score.Some? && score.value > best.value }

  /** What a call from `s` to `t` records: one entry and one row, or nothing. */
  ghost predicate Records(s: State, t: State, outcome: Outcome, e: Option<Entry>) {
    && t.ledger == (if e.Some? then s.ledger + [e.value] else s.ledger)
    && |t.rows| == |s.rows| + (if e.Some? then 1 else 0)
    && t.manifest.policy == s.manifest.policy
    && (outcome.Decided? ==> t.saved == t.manifest && t.live == s.live)
    && (outcome.Thrown? ==> e.None? && t.saved == s.saved && !t.live)
    && (e.Some? ==> outcome == Decided(e.value.decision) && e.value.decision != Baseline)
    && (outcome.Decided? ==> t.manifest.lastKeptScore == NextScore(s.manifest.lastKeptScore, e))
  }

  /** The best score after an entry. */
  function NextScore(best: Option<real>, e: Option<Entry>): Option<real> {
    if e.Some? && e.value.decision == Keep && Scored(e.value.evaluator).Some? then Scored(e.value.evaluator) else best
  }

  lemma EvaluationEntry(s: State, a: Artifact, input: Input) returns (e: Option<Entry>)
    requires a.status == CandidateStatus.Candidate && a.candidateCommit == Some(input.sessionHead)
    ensures Records(s, AfterEvaluation(s, a, input).0, AfterEvaluation(s, a, input).1, e)
    ensures e.Some? && e.value.decision == Keep ==> KeptEntry(s.manifest, input, e.value)
    ensures e.None? <==> AfterEvaluation(s, a, input).1.Thrown?
    ensures e.Some? ==> e.value.iteration == s.manifest.iteration
  {
    var (t, outcome) := AfterEvaluation(s, a, input);
    e := if outcome.Thrown? then None else Some(t.ledger[|s.ledger|]);
  }

  lemma NonEvaluatedEntry(s: State, a: Artifact, input: Input) returns (e: Option<Entry>)
    requires a.status != CandidateStatus.Candidate
    ensures var (t, outcome) := AfterNonEvaluated(s, a, input);
            && Records(s, t, outcome, e) && outcome.Decided?
            && (e.Some? ==> e.value.decision != Keep && e.value.iteration == s.manifest.iteration)
            && (e.None? <==> a.status == CandidateStatus.Interrupted && !input.clean)
            && (e.None? ==> outcome == Decided(Error) && t.saved.status == Failed)
  {
    var t := AfterNonEvaluated(s, a, input).0;
    e := if a.status == CandidateStatus.Interrupted && !input.clean then None else Some(t.ledger[|s.ledger|]);
  }

  /** A call records one iteration, unless it throws or meets an interruption that left a dirty worktree; the latter
      ends the run. A kept entry is the candidate under evaluation, judged by the policy. */
  lemma CallRecordsOnce(s: State, input: Input) returns (e: Option<Entry>)
    ensures Records(s, Process(s, input).0, Process(s, input).1, e)
    ensures e.Some? && e.value.decision == Keep ==> KeptEntry(s.manifest, input, e.value)
    ensures e.None? <==> RecordsNothing(s, input)
    ensures e.Some? ==> e.value.iteration == s.manifest.iteration + 1
    ensures DirtyInterruption(s, input) ==>
              Process(s, input).1 == Decided(Error) && Process(s, input).0.saved.status == Failed
  {
    var t := s.(manifest := s.manifest.(iteration := s.manifest.iteration + 1), head := input.sessionHead);
    if input.artifact.None? || Validate(t.manifest, input.artifact.value, input).None? {
      e := Some(AfterFailure(t, input.artifact, input).ledger[|s.ledger|]);
    } else {
      var valid := Validate(t.manifest, input.artifact.value, input).value;
      var u := t.(manifest := t.manifest.(latestCandidateCommit := valid.candidateCommit));
      if valid.status == CandidateStatus.Candidate {
        e := EvaluationEntry(u, valid, input);
      } else {
        e := NonEvaluatedEntry(u, valid, input);
      }
    }
  }

  /** A crash inside a call is harmless exactly when nothing had been appended. */
  lemma CutShortReplays(s: State, input: Input, stop: Stop)
    requires Replays(s) && s.live && s.saved.status == Running
    ensures Replays(CutShort(s, input, stop)) <==> stop == BeforeRow || RecordsNothing(s, input)
  {
    var e := CallRecordsOnce(s, input);
    RowsStay(s, input);
  }

  lemma RowsStay(s: State, input: Input)
    ensures RecordsNothing(s, input) ==> Process(s, input).0.rows == s.rows
  {
    var e := CallRecordsOnce(s, input);
  }

  /** A crash that happened before anything was appended, or in a call that appends nothing. */
  predicate Harmless(s: State, event: Event) {
    event.Crash? && s.live && s.manifest.status == Running ==> event.stop == BeforeRow || RecordsNothing(s, event.input)
  }

  lemma CallReplays(s: State, input: Input)
    requires Replays(s) && s.live && s.manifest.status == Running
    ensures Replays(Process(s, input).0)
  {
    var t := s.(manifest := s.manifest.(iteration := s.manifest.iteration + 1), head := input.sessionHead);
    if input.artifact.None? {
      FailureReplays(s, t, None, input);
    } else {
      var valid := Validate(t.manifest, input.artifact.value, input);
      if valid.None? {
        FailureReplays(s, t, input.artifact, input);
      } else {
        var u := t.(manifest := t.manifest.(latestCandidateCommit := valid.value.candidateCommit));
        if valid.value.status == CandidateStatus.Candidate {
          EvaluationReplays(s, u, valid.value, input);
        } else {
          NonEvaluatedReplays(s, u, valid.value, input);
        }
      }
    }
  }

  /** One event keeps the ledger replayable, unless it is a crash that had appended something. */
  lemma StepReplays(s: State, event: Event)
    requires Replays(s)
    ensures Replays(Apply(s, event)) <==> Harmless(s, event)
  {
    if event.Crash? && s.live && s.manifest.status == Running {
      CutShortReplays(s, event.input, event.stop);
    } else if event.Session? && s.live && s.manifest.status == Running {
      CallReplays(s, event.input);
    }
  }

  predicate HarmlessRun(s: State, events: seq<Event>)
    decreases |events|
  {
    events == [] ||
    var front := events[..|events| - 1];
    HarmlessRun(s, front) && Harmless(Run(s, front), events[|events| - 1])
  }

  /** Every run replays whose crashes are harmless: the ledger and the results table tell the whole story of the
      manifest. */
  lemma {:induction false} EveryRunReplays(s: State, events: seq<Event>)
    requires Replays(s) && HarmlessRun(s, events)
    ensures Replays(Run(s, events))
    decreases |events|
  {
    if events != [] {
      EveryRunReplays(s, events[..|events| - 1]);
      StepReplays(Run(s, events[..|events| - 1]), events[|events| - 1]);
    }
  }

  /** A call keeps exactly a valid candidate that passed and, unless passing is enough, beat a known score. */
  lemma KeptExactlyWhen(s: State, input: Input)
    ensures Process(s, input).1 == Decided(Keep) <==>
              && input.artifact.Some? && input.artifact.value.status == CandidateStatus.Candidate
              && Validate(s.manifest, input.artifact.value, input).Some?
              && Passed(Some(input.evaluation)) == Some(true)
              && (s.manifest.policy == PassOnly || Beats(s.manifest.lastKeptScore, Scored(Some(input.evaluation))))
  {
    if input.artifact.Some? {
      var m := s.manifest.(iteration := s.manifest.iteration + 1);
      assert Validate(m, input.artifact.value, input) == Validate(s.manifest, input.artifact.value, input);
    }
  }

  /** The candidate that a call accepts, with its commits resolved. */
  predicate Accepts(s: State, input: Input) {
    input.artifact.Some? && Validate(s.manifest, input.artifact.value, input).Some?
  }

  /** A candidate is accepted when its base is the last kept commit and, unless it reports no candidate, its own commit
      is HEAD. */
  lemma AcceptedExactlyWhen(s: State, input: Input)
    ensures Accepts(s, input) <==>
              && input.artifact.Some?
              && input.resolve(input.artifact.value.baseCommit) == Some(s.manifest.lastKeptCommit)
              && (input.artifact.value.status == CandidateStatus.Candidate ==>
                   && input.artifact.value.candidateCommit.Some? && input.artifact.value.candidateCommit.value != ""
                   && input.resolve(input.artifact.value.candidateCommit.value) == Some(input.sessionHead))
  {
  }

  lemma SameAcceptance(s: State, input: Input)
    requires input.artifact.Some?
    ensures Validate(s.manifest.(iteration := s.manifest.iteration + 1), input.artifact.value, input)
            == Validate(s.manifest, input.artifact.value, input)
  {
  }

  /** How a call leaves the run. It fails exactly for a missing or refused candidate and for an interruption that left
      a dirty worktree, it stops exactly for an accepted abort, and otherwise it goes on, whatever was decided; a call
      that throws has saved nothing. */
  lemma StatusAfterCall(s: State, input: Input)
    requires s.live && s.manifest.status == Running && s.saved.status == Running
    ensures var (t, outcome) := Process(s, input);
            && (t.saved.status == Failed <==>
                 || !Accepts(s, input)
                 || (input.artifact.value.status == CandidateStatus.Interrupted && !input.clean))
            && (t.saved.status == Stopped <==>
                 Accepts(s, input) && input.artifact.value.status == CandidateStatus.Abort)
            && (outcome.Thrown? ==> t.saved == s.saved && !t.live)
            && (outcome.Decided? ==> t.saved == t.manifest && t.live)
  {
    if input.artifact.Some? {
      SameAcceptance(s, input);
    }
  }

  /** What a call decides, from its input: every decision and when it is taken. */
  lemma DecidedExactlyWhen(s: State, input: Input)
    ensures var (t, outcome) := Process(s, input);
            var best, score := s.manifest.lastKeptScore, Scored(Some(input.evaluation));
            var passed := Passed(Some(input.evaluation)) == Some(true);
            if !Accepts(s, input) then outcome == Decided(Error)
            else match input.artifact.value.status
              case Abort => outcome == Decided(Decision.Abort)
              case Noop => outcome == Decided(Decision.Noop)
              case Interrupted => outcome == if input.clean then Decided(Decision.Interrupted) else Decided(Error)
              case Candidate =>
                if passed && (s.manifest.policy == PassOnly || Beats(best, score)) then outcome == Decided(Keep)
                else if !input.clean || !input.resetWorks then outcome == Thrown
                else if passed && (best.None? || score.None?) then outcome == Decided(Ambiguous)
                else outcome == Decided(Discard)
  {
    if input.artifact.Some? {
      SameAcceptance(s, input);
    }
  }

  /** The row and the entry that a call appends, field by field. */
  ghost predicate Appended(s: State, input: Input, t: State, decision: Decision) {
    && |t.ledger| == |s.ledger| + 1 && |t.rows| == |s.rows| + 1
    && var e, row := t.ledger[|s.ledger|], t.rows[|s.rows|];
       var evaluated := Accepts(s, input) && input.artifact.value.status == CandidateStatus.Candidate;
       && e.iteration == row.iteration == s.manifest.iteration + 1 && e.decision == row.status == decision
       && e.evaluator == (if evaluated then Some(input.evaluation) else None)
       && row.pass == Passed(e.evaluator) && row.score == Scored(e.evaluator)
       && row.commit == input.short(if evaluated then t.head else input.sessionHead)
       && e.keptCommit == (if decision == Keep then input.evaluatorHead else s.manifest.lastKeptCommit)
       && (Accepts(s, input) ==>
            && e.candidateStatus == Some(input.artifact.value.status) && e.baseCommit == s.manifest.lastKeptCommit
            && e.candidateCommit ==
                 if evaluated then Some(input.sessionHead) else input.artifact.value.candidateCommit)
  }

  /** The manifest after a call that decides: only a keep moves the kept commit and score. */
  ghost predicate Advanced(s: State, input: Input, m: Manifest, decision: Decision) {
    && m.iteration == s.manifest.iteration + 1
    && m.lastKeptCommit == (if decision == Keep then input.evaluatorHead else s.manifest.lastKeptCommit)
    && m.lastKeptScore == (if decision == Keep && Scored(Some(input.evaluation)).Some? then
                             Scored(Some(input.evaluation)) else s.manifest.lastKeptScore)
    && m.policy == s.manifest.policy && m.baselineCommit == s.manifest.baselineCommit
    && (Accepts(s, input) && input.artifact.value.status == CandidateStatus.Candidate ==>
         m.latestCandidateCommit == Some(input.sessionHead))
  }

  lemma EvaluationRecorded(s: State, input: Input)
    requires Accepts(s, input) && input.artifact.value.status == CandidateStatus.Candidate
    requires Process(s, input).1.Decided?
    ensures var (t, outcome) := Process(s, input);
            Appended(s, input, t, outcome.decision) && Advanced(s, input, t.manifest, outcome.decision)
  {
    SameAcceptance(s, input);
  }

  lemma StatusRecorded(s: State, input: Input)
    requires Accepts(s, input) && input.artifact.value.status != CandidateStatus.Candidate
    ensures var (t, outcome) := Process(s, input);
            && outcome.Decided? && Advanced(s, input, t.manifest, outcome.decision)
            && (RecordsNothing(s, input) || Appended(s, input, t, outcome.decision))
  {
    SameAcceptance(s, input);
  }

  lemma FailureRecorded(s: State, input: Input)
    requires !Accepts(s, input)
    ensures Process(s, input).1 == Decided(Error)
    ensures Appended(s, input, Process(s, input).0, Error) && Advanced(s, input, Process(s, input).0.manifest, Error)
  {
    if input.artifact.Some? {
      SameAcceptance(s, input);
    }
  }

  /** What a call that decides appends and what it does to the manifest; only a dirty interruption appends nothing. */
  lemma RecordedExactly(s: State, input: Input)
    requires Process(s, input).1.Decided?
    ensures var (t, outcome) := Process(s, input);
            && Advanced(s, input, t.manifest, outcome.decision)
            && (RecordsNothing(s, input) || Appended(s, input, t, outcome.decision))
  {
    if !Accepts(s, input) {
      FailureRecorded(s, input);
    } else if input.artifact.value.status == CandidateStatus.Candidate {
      EvaluationRecorded(s, input);
    } else {
      StatusRecorded(s, input);
    }
  }

  // ------------------------------------------------------------------ what a whole run may do

  /** Nothing is recorded after the run has ended. */
  lemma {:induction false} EndedRunIsFrozen(s: State, events: seq<Event>)
    requires s.saved.status != Running && (s.live ==> s.manifest.status != Running)
    ensures var t := Run(s, events);
            && t.ledger == s.ledger && t.rows == s.rows && t.saved == s.saved
            && (t.live ==> t.manifest.status != Running)
    decreases |events|
  {
    if events != [] {
      EndedRunIsFrozen(s, events[..|events| - 1]);
    }
  }

  /** However the run went, an evaluated candidate whose call returns leaves the worktree at the last kept commit. */
  lemma HeadIsLastKept(s: State, events: seq<Event>, input: Input)
    requires var t := Run(s, events);
             && t.live && t.manifest.status == Running
             && input.artifact.Some? && input.artifact.value.status == CandidateStatus.Candidate
             && Validate(t.manifest, input.artifact.value, input).Some?
    ensures var u := Run(s, events + [Session(input)]);
            if u.live then
              u.head == u.saved.lastKeptCommit == u.ledger[|u.ledger| - 1].keptCommit
            else
              u.ledger == Run(s, events).ledger && !(input.clean && input.resetWorks)
  {
    var all := events + [Session(input)];
    assert all[..|all| - 1] == events && all[|all| - 1] == Session(input);
  }

  /** In a run where no evaluator moves HEAD. */
  predicate Quiet(events: seq<Event>) {
    forall i :: 0 <= i < |events| && (events[i].Session? || events[i].Crash?) ==>
      events[i].input.evaluatorHead == events[i].input.sessionHead
  }

  ghost predicate KeepsCandidates(ledger: seq<Entry>) {
    forall i :: 0 <= i < |ledger| && ledger[i].decision == Keep ==>
      ledger[i].candidateCommit == Some(ledger[i].keptCommit)
  }

  /** What is kept is the candidate that was evaluated. */
  lemma {:induction false} QuietRunKeepsCandidates(s: State, events: seq<Event>)
    requires KeepsCandidates(s.ledger) && Quiet(events)
    ensures KeepsCandidates(Run(s, events).ledger)
    decreases |events|
  {
    if events != [] {
      var front := events[..|events| - 1];
      QuietRunKeepsCandidates(s, front);
      var t, event := Run(s, front), events[|events| - 1];
      if (event.Session? || event.Crash?) && t.live && t.manifest.status == Running {
        var e := CallRecordsOnce(t, event.input);
      }
    }
  }

  /** Every keep strictly beats the best score kept before it. */
  ghost predicate Improving(ledger: seq<Entry>) {
    forall i :: 0 <= i < |ledger| && ledger[i].decision == Keep ==>
      Beats(ReplayedScore(ledger[..i]), Scored(ledger[i].evaluator))
  }

  lemma AppendImproves(ledger: seq<Entry>, e: Entry)
    requires Improving(ledger) && (e.decision == Keep ==> Beats(ReplayedScore(ledger), Scored(e.evaluator)))
    ensures Improving(ledger + [e])
  {
    forall i | 0 <= i < |ledger + [e]| && (ledger + [e])[i].decision == Keep
      ensures Beats(ReplayedScore((ledger + [e])[..i]), Scored((ledger + [e])[i].evaluator))
    {
      assert (ledger + [e])[..i] == ledger[..i];
      assert ledger[..|ledger|] == ledger;
    }
  }

  /** What an appended entry does to the best score. */
  lemma AppendScore(ledger: seq<Entry>, e: Entry)
    requires e.decision != Baseline
    ensures ReplayedScore(ledger + [e]) == NextScore(ReplayedScore(ledger), Some(e))
  {
    assert (ledger + [e])[..|ledger|] == ledger;
  }

  /** The manifest knows the best score of the ledger, whose keeps improve on it one after another. */
  ghost predicate ScoreAgrees(s: State) {
    && s.ledger != [] && Improving(s.ledger) && ReplayedScore(s.ledger) == s.saved.lastKeptScore
    && (s.live ==> s.manifest == s.saved) && s.saved.policy == ScoreImprovement
  }

  /** A crash after a kept entry was appended and before the manifest was saved. */
  predicate LosesKeep(s: State, event: Event) {
    && event.Crash? && s.live && s.manifest.status == Running
    && event.stop == AfterEntry && Process(s, event.input).1 == Decided(Keep)
  }

  /** A recorded call: the ledger's best score follows the manifest's. */
  lemma CallAgrees(s: State, input: Input)
    requires ScoreAgrees(s) && s.live
    ensures ScoreAgrees(Process(s, input).0)
    ensures forall stop :: ScoreAgrees(CutShort(s, input, stop)) <==>
              stop != AfterEntry || Process(s, input).1 != Decided(Keep)
  {
    var e := CallRecordsOnce(s, input);
    if e.Some? {
      AppendImproves(s.ledger, e.value);
      AppendScore(s.ledger, e.value);
    }
  }

  /** One event keeps the scores in agreement exactly when it is not a crash that loses a keep. */
  lemma StepAgrees(s: State, event: Event)
    requires ScoreAgrees(s)
    ensures ScoreAgrees(Apply(s, event)) <==> !LosesKeep(s, event)
  {
    if (event.Session? || event.Crash?) && s.live && s.manifest.status == Running {
      CallAgrees(s, event.input);
    }
  }

  /** A run in which no keep is lost. */
  predicate NoKeepLost(s: State, events: seq<Event>)
    decreases |events|
  {
    events == [] ||
    var front := events[..|events| - 1];
    NoKeepLost(s, front) && !LosesKeep(Run(s, front), events[|events| - 1])
  }

  lemma {:induction false} RunAgrees(s: State, events: seq<Event>)
    requires ScoreAgrees(s) && NoKeepLost(s, events)
    ensures ScoreAgrees(Run(s, events))
    decreases |events|
  {
    if events != [] {
      var front := events[..|events| - 1];
      RunAgrees(s, front);
      StepAgrees(Run(s, front), events[|events| - 1]);
    }
  }

  /** Only the first entry is a baseline. */
  ghost predicate OneBaseline(ledger: seq<Entry>) { forall i :: 0 < i < |ledger| ==> ledger[i].decision != Baseline }

  lemma {:induction false} RunHasOneBaseline(s: State, events: seq<Event>)
    requires s.ledger != [] && OneBaseline(s.ledger)
    ensures OneBaseline(Run(s, events).ledger)
    decreases |events|
  {
    if events != [] {
      var front := events[..|events| - 1];
      RunHasOneBaseline(s, front);
      BaselineStays(s, front);
      var t, event := Run(s, front), events[|events| - 1];
      if (event.Session? || event.Crash?) && t.live && t.manifest.status == Running {
        var e := CallRecordsOnce(t, event.input);
      }
    }
  }

  /** Under either policy, once the manifest knows a kept score it knows one for the rest of the run, wherever the
      supervisor crashes. */
  lemma {:induction false} ScoreIsNeverLost(s: State, events: seq<Event>)
    requires s.saved.lastKeptScore.Some? && (s.live ==> s.manifest.lastKeptScore.Some?)
    ensures var t := Run(s, events);
            t.saved.lastKeptScore.Some? && (t.live ==> t.manifest.lastKeptScore.Some?)
    decreases |events|
  {
    if events != [] {
      ScoreIsNeverLost(s, events[..|events| - 1]);
    }
  }

  lemma {:induction false} BestScoreGrows(ledger: seq<Entry>, i: nat, j: nat)
    requires OneBaseline(ledger) && Improving(ledger) && 0 < i <= j <= |ledger|
    ensures ReplayedScore(ledger[..i]).None? ==> ReplayedScore(ledger[..j]).None?
    ensures ReplayedScore(ledger[..i]).Some? ==>
              ReplayedScore(ledger[..j]).Some? && ReplayedScore(ledger[..i]).value <= ReplayedScore(ledger[..j]).value
    decreases j - i
  {
    if i < j {
      BestScoreGrows(ledger, i, j - 1);
      AppendScore(ledger[..j - 1], ledger[j - 1]);
      assert ledger[..j] == ledger[..j - 1] + [ledger[j - 1]];
    }
  }

  /** In a ledger of improving keeps each keep beats the baseline and every keep before it. */
  lemma KeptScoresOf(ledger: seq<Entry>)
    requires ledger != [] && OneBaseline(ledger) && Improving(ledger) && ledger[0].decision != Keep
    ensures forall j :: 0 <= j < |ledger| && ledger[j].decision == Keep ==>
              Beats(ReplayedScore(ledger[..1]), Scored(ledger[j].evaluator))
    ensures forall i, j :: 0 <= i < j < |ledger| && ledger[i].decision == Keep && ledger[j].decision == Keep ==>
              Beats(Scored(ledger[i].evaluator), Scored(ledger[j].evaluator))
  {
    forall j | 0 <= j < |ledger| && ledger[j].decision == Keep
      ensures Beats(ReplayedScore(ledger[..1]), Scored(ledger[j].evaluator))
    {
      BestScoreGrows(ledger, 1, j);
    }
    forall i, j | 0 <= i < j < |ledger| && ledger[i].decision == Keep && ledger[j].decision == Keep
      ensures Beats(Scored(ledger[i].evaluator), Scored(ledger[j].evaluator))
    {
      assert ledger[..i + 1][..i] == ledger[..i];
      BestScoreGrows(ledger, i + 1, j);
    }
  }

  /** Under score improvement the kept scores strictly increase, and without a scored baseline nothing is ever kept,
      in every run in which no crash comes between a kept entry and its manifest. */
  lemma KeptScoresStrictlyIncrease(baseline: Commit, head: Commit, evaluation: Evaluation, evaluatorHead: Commit,
                                   short: Commit -> Commit, events: seq<Event>)
    requires NoKeepLost(Seed(ScoreImprovement, baseline, head, evaluation, evaluatorHead, short), events)
    ensures var start := Seed(ScoreImprovement, baseline, head, evaluation, evaluatorHead, short);
            var ledger := Run(start, events).ledger;
            && (forall i, j :: 0 <= i < j < |ledger| && ledger[i].decision == Keep && ledger[j].decision == Keep ==>
                  Beats(Scored(ledger[i].evaluator), Scored(ledger[j].evaluator)))
            && (forall j :: 0 <= j < |ledger| && ledger[j].decision == Keep ==>
                  Beats(start.saved.lastKeptScore, Scored(ledger[j].evaluator)))
  {
    var start := Seed(ScoreImprovement, baseline, head, evaluation, evaluatorHead, short);
    var ledger := Run(start, events).ledger;
    SeedReplays(ScoreImprovement, baseline, head, evaluation, evaluatorHead, short);
    RunAgrees(start, events);
    RunHasOneBaseline(start, events);
    BaselineStays(start, events);
    assert ledger[..1] == start.ledger && ledger[0] == start.ledger[0];
    KeptScoresOf(ledger);
  }

  /** What is recorded stays recorded. */
  lemma {:induction false} BaselineStays(s: State, events: seq<Event>)
    ensures s.ledger <= Run(s, events).ledger
    decreases |events|
  {
    if events != [] {
      var front := events[..|events| - 1];
      BaselineStays(s, front);
      var t, event := Run(s, front), events[|events| - 1];
      if (event.Session? || event.Crash?) && t.live && t.manifest.status == Running {
        var e := CallRecordsOnce(t, event.input);
      }
    }
  }

  // ------------------------------------------------------------------ a crash inside a call

  lemma RecordedNumber(v: State, next: Input)
    requires !RecordsNothing(v, next)
    ensures var r := Process(v, next).0;
            && |r.ledger| == |v.ledger| + 1 && |r.rows| == |v.rows| + 1
            && r.ledger[|v.ledger|].iteration == v.manifest.iteration + 1
  {
    var e := CallRecordsOnce(v, next);
  }

  lemma RestartAndCall(w: State, next: Input)
    requires w.saved.status == Running
    ensures Run(w, [Restart(true), Session(next)]) == Process(Resumed(w), next).0
  {
    RunTwo(w, Restart(true), Session(next));
    var v := Apply(w, Restart(true));
    assert v == Resumed(w) && v.live && v.manifest.status == Running;
  }

  /** What the first call after a restart records. */
  lemma AfterRestart(w: State, next: Input)
    requires w.saved.status == Running && !RecordsNothing(Resumed(w), next)
    ensures var r := Run(w, [Restart(true), Session(next)]);
            && r == Process(Resumed(w), next).0
            && |r.ledger| == |w.ledger| + 1 && |r.rows| == |w.rows| + 1
            && r.ledger[|w.ledger|].iteration == w.saved.iteration + 1
  {
    RestartAndCall(w, next);
    RecordedNumber(Resumed(w), next);
  }

  lemma AfterCrash(s: State, input: Input, stop: Stop)
    requires Replays(s) && s.live && s.saved.status == Running
    ensures var w := CutShort(s, input, stop);
            && w.saved == s.saved && |s.ledger| == s.saved.iteration + 1
            && if stop == BeforeRow || RecordsNothing(s, input) then Replays(w)
               else |w.rows| == |s.rows| + 1 && |w.ledger| == |s.ledger| + (if stop == AfterEntry then 1 else 0)
  {
    var e := CallRecordsOnce(s, input);
    CutShortReplays(s, input, stop);
  }

  lemma NumberedAfterRestart(w: State, next: Input)
    requires Replays(w) && w.saved.status == Running
    ensures Numbered(Process(Resumed(w), next).0)
  {
    var v := Resumed(w);
    assert v.manifest.status == Running && Replays(v);
    StepReplays(v, Session(next));
    assert Apply(v, Session(next)) == Process(v, next).0;
  }

  lemma Misnumbered(r: State, i: nat)
    requires |r.rows| != |r.ledger| || (i < |r.ledger| && r.ledger[i].iteration != i)
    ensures !Numbered(r)
  {
  }

  /** After a restart the next recorded iteration is numbered right exactly when the crash had appended nothing. */
  lemma CrashAndNumbering(s: State, input: Input, stop: Stop, next: Input)
    requires Replays(s) && s.live && s.saved.status == Running
    requires !RecordsNothing(Resumed(CutShort(s, input, stop)), next)
    ensures Numbered(Run(CutShort(s, input, stop), [Restart(true), Session(next)])) <==>
              stop == BeforeRow || RecordsNothing(s, input)
  {
    var w := CutShort(s, input, stop);
    AfterCrash(s, input, stop);
    AfterRestart(w, next);
    if stop == BeforeRow || RecordsNothing(s, input) {
      NumberedAfterRestart(w, next);
    } else {
      Misnumbered(Process(Resumed(w), next).0, |w.ledger|);
    }
  }

  lemma RunTwo(s: State, first: Event, second: Event)
    ensures Run(s, [first, second]) == Apply(Apply(s, first), second)
  {
    assert [first, second][..1] == [first] && [first][..0] == [];
    assert Run(s, [first]) == Apply(Run(s, []), first);
  }

  /** A session that reports no change, on a worktree where every name is a commit. */
  function QuietInput(base: Commit): Input {
    Input(Some(Artifact(CandidateStatus.Noop, None, base)), base, c => Some(c), c => c, EvaluatorError, base,
          true, true)
  }

  /** The supervisor dies after appending iteration 1 and before saving the manifest; the next session is iteration 1
      again. */
  lemma CrashRepeatsIteration(base: Commit, evaluation: Evaluation)
    ensures var s := Seed(PassOnly, base, base, evaluation, base, c => c);
            var t := Run(CutShort(s, QuietInput(base), AfterEntry), [Restart(true), Session(QuietInput(base))]);
            |t.ledger| == 3 && t.ledger[1].iteration == t.ledger[2].iteration == 1 && !Numbered(t)
  {
    var s := Seed(PassOnly, base, base, evaluation, base, c => c);
    SeedReplays(PassOnly, base, base, evaluation, base, c => c);
    RunTwo(CutShort(s, QuietInput(base), AfterEntry), Restart(true), Session(QuietInput(base)));
  }

  /** After a lost keep and a restart the next keep improves on the ledger exactly when it beats the lost score. */
  lemma LostKeepAndNext(s: State, input: Input, next: Input)
    requires ScoreAgrees(s) && LosesKeep(s, Crash(input, AfterEntry)) && s.saved.status == Running
    requires Process(Resumed(CutShort(s, input, AfterEntry)), next).1 == Decided(Keep)
    ensures Improving(Run(CutShort(s, input, AfterEntry), [Restart(true), Session(next)]).ledger) <==>
              Beats(Scored(Some(input.evaluation)), Scored(Some(next.evaluation)))
  {
    var w := CutShort(s, input, AfterEntry);
    var e := CallRecordsOnce(s, input);
    AppendImproves(s.ledger, e.value);
    AppendScore(s.ledger, e.value);
    RestartAndCall(w, next);
    var f := CallRecordsOnce(Resumed(w), next);
    ImprovesWithNext(w.ledger, f.value);
  }

  lemma ImprovesWithNext(ledger: seq<Entry>, e: Entry)
    requires Improving(ledger) && e.decision == Keep
    ensures Improving(ledger + [e]) <==> Beats(ReplayedScore(ledger), Scored(e.evaluator))
  {
    var all := ledger + [e];
    assert all[..|ledger|] == ledger && all[|ledger|] == e;
    if Beats(ReplayedScore(ledger), Scored(e.evaluator)) {
      AppendImproves(ledger, e);
    }
  }

  /** A session that offers a passing candidate with a score. */
  function Offer(base: Commit, candidate: Commit, score: real): Input {
    Input(Some(Artifact(CandidateStatus.Candidate, Some(candidate), base)), candidate, c => Some(c), c => c,
          Evaluated(true, Some(score)), candidate, true, true)
  }

  lemma OfferIsKept(s: State, base: Commit, candidate: Commit, score: real)
    requires s.manifest.policy == ScoreImprovement && s.manifest.lastKeptCommit == base && candidate != ""
    requires s.manifest.lastKeptScore.Some? && s.manifest.lastKeptScore.value < score
    ensures var t := Process(s, Offer(base, candidate, score)).0;
            && |t.ledger| == |s.ledger| + 1 && t.ledger[..|s.ledger|] == s.ledger
            && t.ledger[|s.ledger|].decision == Keep && Scored(t.ledger[|s.ledger|].evaluator) == Some(score)
            && t.saved.lastKeptScore == Some(score)
  {
  }

  lemma RunThree(s: State, first: Event, second: Event, third: Event)
    ensures Run(s, [first, second, third]) == Apply(Apply(Apply(s, first), second), third)
  {
    var events := [first, second, third];
    assert events[..2] == [first, second];
    RunTwo(s, first, second);
  }

  /** The supervisor keeps 3.0, dies before saving the manifest, and then keeps 2.0. */
  lemma CrashKeepsAWorseScore(base: Commit, candidate: Commit, next: Commit)
    requires candidate != "" && next != ""
    ensures var s := Seed(ScoreImprovement, base, base, Evaluated(true, Some(1.0)), base, c => c);
            var t := Run(s, [Crash(Offer(base, candidate, 3.0), AfterEntry), Restart(true),
                             Session(Offer(base, next, 2.0))]);
            && |t.ledger| == 3 && t.ledger[1].decision == t.ledger[2].decision == Keep
            && Scored(t.ledger[1].evaluator) == Some(3.0) && Scored(t.ledger[2].evaluator) == Some(2.0)
            && t.saved.lastKeptScore == Some(2.0)
  {
    var s := Seed(ScoreImprovement, base, base, Evaluated(true, Some(1.0)), base, c => c);
    var w := CutShort(s, Offer(base, candidate, 3.0), AfterEntry);
    RunThree(s, Crash(Offer(base, candidate, 3.0), AfterEntry), Restart(true), Session(Offer(base, next, 2.0)));
    OfferIsKept(s, base, candidate, 3.0);
    assert w.saved == s.saved;
    OfferIsKept(Resumed(w), base, next, 2.0);
  }
}
