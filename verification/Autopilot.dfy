/** The autopilot completion gate (`src/autopilot/completion-gate.ts`, `src/autopilot/fsm.ts`). */
module Autopilot {
  import opened Wrappers
  import TomlText

  datatype Phase =
    | DeepInterview | Ralplan | Ultragoal | Rework | Team | Ralph | CodeReview | Ultraqa
    | WaitingForUser | Complete | Failed

  datatype RunOutcome = Finish | RunFailed | Cancelled | BlockedOnUser | OtherOutcome

  datatype Lifecycle = Finished | LifecycleFailed | LifecycleBlocked | UserInterlude | AskUserQuestion | OtherLifecycle

  /** A verdict record, field by field as text; a field that is absent or not a string is empty. */
  datatype Verdict = Verdict(
    clean: bool,
    stage: string,
    recommendation: string,
    architecturalStatus: string,
    source: string,
    artifactPath: string,
    url: string,
    reviewUrl: string,
    qaUrl: string,
    threadId: string,
    toolCallId: string,
    agentId: string,
    skipped: bool,
    reason: string,
    skipReason: string)

  /** A mode state. The outcomes are what the outcome inference says of it. */
  datatype State = State(
    active: Option<bool>,
    currentPhase: string,
    previousPhase: string,           // of the pending deep-interview question
    completedAt: string,
    runOutcome: RunOutcome,
    lifecycle: Lifecycle,
    review: Option<Verdict>,         // at the top level
    qa: Option<Verdict>,
    nestedReview: Verdict,           // under `state`
    nestedQa: Verdict)

  /** Case mapping and the textual classifiers, about which nothing is assumed. */
  datatype Text = Text(
    lower: string -> string,
    upper: string -> string,
    looksLikeUltraqa: Verdict -> bool,
    looksLikeReview: Verdict -> bool,
    looksLikeCi: string -> bool,
    namesQa: string -> bool)

  function Clean(s: string): string { TomlText.Trim(s) }

  /** `includes`. */
  predicate Includes(s: string, part: string) { part <= s || (s != "" && Includes(s[1..], part)) }

  predicate Blank(s: string) { Clean(s) == "" }

  // ------------------------------------------------------------------ phases

  function Dashed(s: string): string { if s == "" then "" else [if s[0] == '_' then '-' else s[0]] + Dashed(s[1..]) }

  const PREFIX := "autopilot:"

  function WithoutPrefix(s: string): string { if PREFIX <= s then s[|PREFIX|..] else s }

  /** `normalizeAutopilotPhase`. */
  function NormalizePhase(value: string, k: Text): Option<Phase> {
    match WithoutPrefix(Dashed(k.lower(Clean(value))))
    case "deep-interview" => Some(DeepInterview)
    case "ralplan" => Some(Ralplan)
    case "planning" => Some(Ralplan)
    case "replan" => Some(Ralplan)
    case "ultragoal" => Some(Ultragoal)
    case "rework" => Some(Rework)
    case "fix" => Some(Rework)
    case "review-fix" => Some(Rework)
    case "implementation-fix" => Some(Rework)
    case "team" => Some(Team)
    case "ralph" => Some(Ralph)
    case "code-review" => Some(CodeReview)
    case "ultraqa" => Some(Ultraqa)
    case "waiting-for-user" => Some(WaitingForUser)
    case "complete" => Some(Complete)
    case "completed" => Some(Complete)
    case "failed" => Some(Failed)
    case _ => None
  }

  predicate IsChild(p: Phase) { p !in {WaitingForUser, Complete, Failed} }

  predicate IsImplementation(p: Option<Phase>) { p in {Some(Ultragoal), Some(Rework), Some(Team), Some(Ralph)} }

  predicate IsActive(s: State) { s.active == Some(true) }

  function ChildOnly(p: Option<Phase>): Option<Phase> { if p.Some? && IsChild(p.value) then p else None }

  /** `deriveAutopilotChildPhase`: while waiting for the user, the phase that was waiting. */
  function ChildPhase(s: State, k: Text): Option<Phase> {
    if !IsActive(s) then None
    else
      var phase := NormalizePhase(s.currentPhase, k);
      if phase == Some(WaitingForUser) then ChildOnly(NormalizePhase(s.previousPhase, k)) else ChildOnly(phase)
  }

  // ------------------------------------------------------------------ evidence

  function Locators(v: Verdict): set<string> {
    var fields := [v.artifactPath, v.url, v.reviewUrl, v.qaUrl, v.threadId, v.toolCallId, v.agentId];
    set l | l in fields && !Blank(l) :: Clean(l)
  }

  predicate HasReviewLocator(v: Verdict, k: Text) {
    if !Blank(v.artifactPath) then k.looksLikeReview(v)
    else !Blank(v.reviewUrl) || !Blank(v.threadId) || !Blank(v.agentId) || !Blank(v.toolCallId) || !Blank(v.url)
  }

  predicate HasQaLocator(v: Verdict, k: Text) {
    if !Blank(v.artifactPath) then k.looksLikeUltraqa(v) || k.namesQa(v.artifactPath)
    else !Blank(v.qaUrl) || (!Blank(v.url) && k.looksLikeCi(Clean(v.url))) || !Blank(v.toolCallId) || !Blank(v.threadId)
  }

  /** `hasCleanCodeReviewEvidence`. */
  predicate CleanReview(v: Verdict, k: Text) {
    && v.clean && Clean(v.stage) == "code-review"
    && k.upper(Clean(v.recommendation)) == "APPROVE" && k.upper(Clean(v.architecturalStatus)) == "CLEAR"
    && !k.looksLikeUltraqa(v)
    && (Blank(v.url) || !k.looksLikeCi(Clean(v.url)))
    && HasReviewLocator(v, k)
  }

  /** `hasCleanUltraqaEvidence`. */
  predicate CleanQa(v: Verdict, k: Text) {
    var source := k.lower(Clean(v.source));
    && v.clean && Clean(v.stage) == "ultraqa"
    && source != "leader" && !Includes(source, "code-review") && !k.looksLikeReview(v)
    && (v.skipped ==> !Blank(v.reason) || !Blank(v.skipReason))
    && HasQaLocator(v, k)
  }

  function ReviewOf(s: State): Verdict { if s.review.Some? then s.review.value else s.nestedReview }

  function QaOf(s: State): Verdict { if s.qa.Some? then s.qa.value else s.nestedQa }

  predicate CleanEvidence(s: State, k: Text) {
    CleanReview(ReviewOf(s), k) && CleanQa(QaOf(s), k) && Locators(ReviewOf(s)) !! Locators(QaOf(s))
  }

  /** `hasCleanAutopilotReviewAndQaEvidence`. */
  method HasCleanEvidence(s: State, k: Text) returns (r: bool)
    ensures r == CleanEvidence(s, k)
  {
    var review, qa := ReviewOf(s), QaOf(s);
    if !CleanReview(review, k) || !CleanQa(qa, k) {
      return false;
    }
    var reviewLocators, qaLocators := Locators(review), Locators(qa);
    var rest := reviewLocators;
    while rest != {}
      invariant rest <= reviewLocators && (reviewLocators - rest) !! qaLocators
      decreases rest
    {
      var locator :| locator in rest;
      if locator in qaLocators {
        return false;
      }
      rest := rest - {locator};
    }
    r := true;
  }

  // ------------------------------------------------------------------ the gate

  /** `isAutopilotSuccessfulTerminalState`. */
  predicate SuccessfulTerminal(s: State, k: Text) {
    var phase := NormalizePhase(s.currentPhase, k);
    if phase == Some(Failed) || s.runOutcome in {RunFailed, Cancelled, BlockedOnUser} then false
    else if s.lifecycle in {LifecycleFailed, LifecycleBlocked, UserInterlude, AskUserQuestion} then false
    else phase == Some(Complete) || s.runOutcome == Finish || s.lifecycle == Finished || !Blank(s.completedAt)
         || s.active == Some(false)
  }

  datatype Refusal =
    | UnknownActivePhase | BeforeRalplan | BeforeUltragoal | BeforeCodeReview | SkipsCodeReview | BeforeUltraqa
    | WithoutEvidence

  /** The gate, in terms of the phases on both sides. */
  function Gate(phase: Option<Phase>, active: bool, nextPhase: Option<Phase>, terminal: bool, evidence: bool,
                allowUnknown: bool): Option<Refusal> {
    if terminal && active && phase == None && !allowUnknown then Some(UnknownActivePhase)
    else if phase == Some(DeepInterview) && terminal then Some(BeforeRalplan)
    else if phase == Some(Ralplan) && terminal then Some(BeforeUltragoal)
    else if IsImplementation(phase) && terminal then Some(BeforeCodeReview)
    else if IsImplementation(phase) && nextPhase == Some(Ultraqa) then Some(SkipsCodeReview)
    else if phase == Some(CodeReview) && terminal then Some(BeforeUltraqa)
    else if phase == Some(Ultraqa) && terminal && !evidence then Some(WithoutEvidence)
    else None
  }

  /** `validateAutopilotCompletionTransition`. */
  function Validate(current: State, next: State, allowUnknown: bool, k: Text): Option<Refusal> {
    Gate(ChildPhase(current, k), IsActive(current), ChildPhase(next, k), SuccessfulTerminal(next, k),
      CleanEvidence(next, k), allowUnknown)
  }

  predicate Accepted(current: State, next: State, allowUnknown: bool, k: Text) {
    Validate(current, next, allowUnknown, k) == None
  }

  /** A completion is accepted exactly from `ultraqa` with clean evidence, or past the gate: from a state that is not
      active, or from an unknown phase when that is allowed. */
  lemma CompletionIsGated(current: State, next: State, allowUnknown: bool, k: Text)
    requires SuccessfulTerminal(next, k)
    ensures Accepted(current, next, allowUnknown, k) <==>
              || (ChildPhase(current, k) == Some(Ultraqa) && CleanEvidence(next, k))
              || (ChildPhase(current, k) == None && (allowUnknown || !IsActive(current)))
  {
    ChildPhaseIsChild(current, k);
    GateIsExact(ChildPhase(current, k), IsActive(current), ChildPhase(next, k), CleanEvidence(next, k), allowUnknown);
  }

  const NO_VERDICT := Verdict(false, "", "", "", "", "", "", "", "", "", "", "", false, "", "")

  const NEVER_ACTIVE := State(None, "", "", "", OtherOutcome, OtherLifecycle, None, None, NO_VERDICT, NO_VERDICT)

  /** A state that never said it was active may be completed without any evidence. */
  lemma InactiveCompletesWithoutEvidence(k: Text)
    requires k.lower("") == ""
    ensures var current, next := NEVER_ACTIVE, NEVER_ACTIVE.(runOutcome := Finish);
            && current.active == None && SuccessfulTerminal(next, k)
            && Accepted(current, next, false, k) && !CleanEvidence(next, k)
  {
    assert Clean("") == "";
    assert Dashed("") == "" && WithoutPrefix("") == "";
  }

  lemma GateIsExact(phase: Option<Phase>, active: bool, nextPhase: Option<Phase>, evidence: bool, allowUnknown: bool)
    requires phase.Some? ==> active && IsChild(phase.value)
    ensures Gate(phase, active, nextPhase, true, evidence, allowUnknown) == None <==>
              (phase == Some(Ultraqa) && evidence) || (phase == None && (allowUnknown || !active))
  {
    if phase.Some? && phase.value !in {DeepInterview, Ralplan, CodeReview, Ultraqa} {
      ImplementationPhases(phase.value);
    }
  }

  lemma ImplementationPhases(p: Phase)
    ensures IsChild(p) ==> IsImplementation(Some(p)) || p in {DeepInterview, Ralplan, CodeReview, Ultraqa}
  {
    match p {
      case DeepInterview =>
      case Ralplan =>
      case Ultragoal =>
      case Rework =>
      case Team =>
      case Ralph =>
      case CodeReview =>
      case Ultraqa =>
      case WaitingForUser =>
      case Complete =>
      case Failed =>
    }
  }

  /** From an implementation phase nothing goes straight to `ultraqa`. */
  lemma ReviewIsNotSkipped(current: State, next: State, allowUnknown: bool, k: Text)
    requires Accepted(current, next, allowUnknown, k) && IsImplementation(ChildPhase(current, k))
    ensures ChildPhase(next, k) != Some(Ultraqa)
  {
  }

  lemma ChildPhaseIsChild(s: State, k: Text)
    ensures ChildPhase(s, k).Some? ==> IsActive(s) && IsChild(ChildPhase(s, k).value)
  {
  }

  /** Clean evidence names at least one place for the review and at least one for the QA, and no place for both. */
  lemma EvidenceHasDisjointLocators(s: State, k: Text)
    requires CleanEvidence(s, k)
    ensures Locators(ReviewOf(s)) != {} && Locators(QaOf(s)) != {} && Locators(ReviewOf(s)) !! Locators(QaOf(s))
  {
    var review, qa := ReviewOf(s), QaOf(s);
    var r := if !Blank(review.artifactPath) then review.artifactPath
             else if !Blank(review.reviewUrl) then review.reviewUrl
             else if !Blank(review.threadId) then review.threadId else if !Blank(review.agentId) then review.agentId
             else if !Blank(review.toolCallId) then review.toolCallId else review.url;
    var q := if !Blank(qa.artifactPath) then qa.artifactPath else if !Blank(qa.qaUrl) then qa.qaUrl
             else if !Blank(qa.toolCallId) then qa.toolCallId else if !Blank(qa.threadId) then qa.threadId else qa.url;
    assert Clean(r) in Locators(review);
    assert Clean(q) in Locators(qa);
  }

  // ------------------------------------------------------------------ runs

  /** Accepted steps through supervised states; the last state may be anything. */
  ghost predicate SupervisedRun(states: seq<State>, allowUnknown: bool, k: Text) {
    && (forall i :: 0 <= i < |states| - 1 ==> ChildPhase(states[i], k).Some?)
    && (forall i, j :: 0 <= i < |states| - 1 && j == i + 1 ==> Accepted(states[i], states[j], allowUnknown, k))
  }

  /** A run enters a successful terminal state only from `ultraqa` and with clean evidence, and between its last
      implementation phase and that `ultraqa` there is a state that is neither. */
  lemma RunIsReviewed(states: seq<State>, allowUnknown: bool, k: Text, i: nat)
    requires SupervisedRun(states, allowUnknown, k) && |states| >= 2
    requires SuccessfulTerminal(states[|states| - 1], k)
    requires i < |states| - 1 && IsImplementation(ChildPhase(states[i], k))
    requires forall j :: i < j < |states| - 1 ==> !IsImplementation(ChildPhase(states[j], k))
    ensures ChildPhase(states[|states| - 2], k) == Some(Ultraqa) && CleanEvidence(states[|states| - 1], k)
    ensures exists j :: i < j < |states| - 2 && !IsImplementation(ChildPhase(states[j], k))
              && ChildPhase(states[j], k) != Some(Ultraqa)
  {
    var n := |states|;
    CompletionFromUltraqa(states, allowUnknown, k);
    ReviewIsNotSkipped(states[i], states[i + 1], allowUnknown, k);
  }

  lemma CompletionFromUltraqa(states: seq<State>, allowUnknown: bool, k: Text)
    requires SupervisedRun(states, allowUnknown, k) && |states| >= 2
    requires SuccessfulTerminal(states[|states| - 1], k)
    ensures ChildPhase(states[|states| - 2], k) == Some(Ultraqa) && CleanEvidence(states[|states| - 1], k)
  {
    CompletionIsGated(states[|states| - 2], states[|states| - 1], allowUnknown, k);
  }

  // ------------------------------------------------------------------ what the texts mean

  lemma {:induction false} DashedIs(s: string)
    ensures |Dashed(s)| == |s| && forall i :: 0 <= i < |s| ==> Dashed(s)[i] == if s[i] == '_' then '-' else s[i]
  {
    if s != "" {
      DashedIs(s[1..]);
    }
  }

  /** The word in a phase text: lower case, with dashes, after the prefix if it has one. */
  ghost predicate HasWord(value: string, word: string, k: Text) {
    var text := k.lower(Clean(value));
    var wanted := if |text| == |word| then word else PREFIX + word;
    && |text| == |wanted| && !(PREFIX <= word)
    && forall i :: 0 <= i < |text| ==> (if text[i] == '_' then '-' else text[i]) == wanted[i]
  }

  lemma WordIs(value: string, word: string, k: Text)
    requires HasWord(value, word, k)
    ensures WithoutPrefix(Dashed(k.lower(Clean(value)))) == word
  {
    var text := k.lower(Clean(value));
    DashedIs(text);
    var wanted := if |text| == |word| then word else PREFIX + word;
    assert Dashed(text) == wanted;
    assert (PREFIX + word)[|PREFIX|..] == word;
  }

  /** Which words name which phase. */
  lemma PhaseOfWord(value: string, word: string, k: Text)
    requires HasWord(value, word, k)
    ensures NormalizePhase(value, k) == Some(DeepInterview) <==> word == "deep-interview"
    ensures NormalizePhase(value, k) == Some(Ralplan) <==> word in ["ralplan", "planning", "replan"]
    ensures NormalizePhase(value, k) == Some(Ultragoal) <==> word == "ultragoal"
    ensures NormalizePhase(value, k) == Some(Rework) <==> word in ["rework", "fix", "review-fix", "implementation-fix"]
    ensures NormalizePhase(value, k) == Some(Team) <==> word == "team"
    ensures NormalizePhase(value, k) == Some(Ralph) <==> word == "ralph"
    ensures NormalizePhase(value, k) == Some(CodeReview) <==> word == "code-review"
    ensures NormalizePhase(value, k) == Some(Ultraqa) <==> word == "ultraqa"
    ensures NormalizePhase(value, k) == Some(WaitingForUser) <==> word == "waiting-for-user"
    ensures NormalizePhase(value, k) == Some(Complete) <==> word in ["complete", "completed"]
    ensures NormalizePhase(value, k) == Some(Failed) <==> word == "failed"
  {
    WordIs(value, word, k);
  }

  lemma NoPrefix(word: string)
    requires word != "" && word[0] != 'a'
    ensures !(PREFIX <= word)
  {
    assert PREFIX[0] == 'a';
  }

  lemma PrefixedReview()
    ensures var text, wanted := "autopilot:code_review", PREFIX + "code-review";
            && |text| == |wanted| && |text| != |"code-review"| && !(PREFIX <= "code-review")
            && forall i :: 0 <= i < |text| ==> (if text[i] == '_' then '-' else text[i]) == wanted[i]
  {
    NoPrefix("code-review");
  }

  /** For example `code-review` and `autopilot:code_review` are the same phase. */
  lemma ReviewTexts(value: string, k: Text)
    requires k.lower(Clean(value)) in ["code-review", "autopilot:code_review"]
    ensures NormalizePhase(value, k) == Some(CodeReview)
  {
    NoPrefix("code-review");
    PrefixedReview();
    PhaseOfWord(value, "code-review", k);
  }

  /** And `review-fix` is rework. */
  lemma FixText(value: string, k: Text)
    requires k.lower(Clean(value)) == "review-fix"
    ensures NormalizePhase(value, k) == Some(Rework)
  {
    NoPrefix("review-fix");
    PhaseOfWord(value, "review-fix", k);
  }

  /** A failed phase, a failed, cancelled or blocked outcome and an end that is a failure or a question are never a
      success, whatever else the state says; otherwise one sign of an end is enough. */
  lemma SuccessNeedsNoFailure(s: State, k: Text)
    ensures NormalizePhase(s.currentPhase, k) == Some(Failed) ==> !SuccessfulTerminal(s, k)
    ensures s.runOutcome in {RunFailed, Cancelled, BlockedOnUser} ==> !SuccessfulTerminal(s, k)
    ensures s.lifecycle in {LifecycleFailed, LifecycleBlocked, UserInterlude, AskUserQuestion} ==>
              !SuccessfulTerminal(s, k)
    ensures NormalizePhase(s.currentPhase, k) != Some(Failed) && s.runOutcome in {Finish, OtherOutcome}
            && s.lifecycle in {Finished, OtherLifecycle} ==>
              (SuccessfulTerminal(s, k) <==>
                || NormalizePhase(s.currentPhase, k) == Some(Complete)
                || s.runOutcome == Finish || s.lifecycle == Finished
                || Clean(s.completedAt) != "" || s.active == Some(false))
  {
  }

  lemma {:induction false} IncludesExactlyWhen(s: string, part: string)
    ensures Includes(s, part) <==> exists i :: 0 <= i <= |s| && part <= s[i..]
  {
    assert s[0..] == s;
    if s != "" {
      IncludesExactlyWhen(s[1..], part);
      if i :| 0 <= i <= |s[1..]| && part <= s[1..][i..] {
        assert s[i + 1..] == s[1..][i..];
      }
      if i :| 0 <= i <= |s| && part <= s[i..] {
        assert i > 0 ==> s[i..] == s[1..][i - 1..];
      }
    }
  }

  /** From `ultraqa` a completion is refused when either verdict is not clean, names another stage, or lacks a place;
      when the review does not approve, is not clear of architectural findings, or looks like QA or a CI run; when the
      QA is signed by the leader or by the review, looks like a review, or is skipped without a reason; and when the two
      share a place. */
  lemma RefusedFromUltraqa(current: State, next: State, allowUnknown: bool, k: Text)
    requires ChildPhase(current, k) == Some(Ultraqa) && SuccessfulTerminal(next, k)
    requires var review, qa := ReviewOf(next), QaOf(next);
             || !review.clean || !qa.clean || Clean(review.stage) != "code-review" || Clean(qa.stage) != "ultraqa"
             || k.upper(Clean(review.recommendation)) != "APPROVE"
             || k.upper(Clean(review.architecturalStatus)) != "CLEAR"
             || k.looksLikeUltraqa(review) || (Clean(review.url) != "" && k.looksLikeCi(Clean(review.url)))
             || k.lower(Clean(qa.source)) == "leader" || k.looksLikeReview(qa)
             || (exists i :: 0 <= i <= |k.lower(Clean(qa.source))| && "code-review" <= k.lower(Clean(qa.source))[i..])
             || (qa.skipped && Clean(qa.reason) == "" && Clean(qa.skipReason) == "")
             || Locators(review) == {} || Locators(qa) == {} || Locators(review) * Locators(qa) != {}
    ensures Validate(current, next, allowUnknown, k) == Some(WithoutEvidence)
  {
    if CleanEvidence(next, k) {
      EvidenceHasDisjointLocators(next, k);
      IncludesExactlyWhen(k.lower(Clean(QaOf(next).source)), "code-review");
    }
  }

  /** A completion from an earlier phase is refused with the name of the gate that is missing. */
  lemma RefusedBeforeUltraqa(current: State, next: State, allowUnknown: bool, k: Text)
    requires SuccessfulTerminal(next, k) && ChildPhase(current, k).Some? && ChildPhase(current, k) != Some(Ultraqa)
    ensures var phase := ChildPhase(current, k).value;
            Validate(current, next, allowUnknown, k) == Some(
              if phase == DeepInterview then BeforeRalplan
              else if phase == Ralplan then BeforeUltragoal
              else if phase == CodeReview then BeforeUltraqa
              else BeforeCodeReview)
  {
    ChildPhaseIsChild(current, k);
    ImplementationPhases(ChildPhase(current, k).value);
  }

  /** While the user is asked, an active state stays in the phase that asked. */
  lemma WaitingKeepsThePhase(s: State, k: Text)
    requires s.active == Some(true) && NormalizePhase(s.currentPhase, k) == Some(WaitingForUser)
    ensures NormalizePhase(s.previousPhase, k) !in {None, Some(WaitingForUser), Some(Complete), Some(Failed)}
            ==> ChildPhase(s, k) == NormalizePhase(s.previousPhase, k)
    ensures NormalizePhase(s.previousPhase, k) in {None, Some(WaitingForUser), Some(Complete), Some(Failed)}
            ==> ChildPhase(s, k) == None
  {
  }
}
