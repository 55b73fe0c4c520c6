/** The fail-closed wrapper around an adapter's verifier, and what its verdict leads to. */
module Verification {
  import opened Options
  import opened Events
  import opened StateMachine

  const MAX_VERDICT_CHARS := 500

  datatype Verdict = Verdict(accepted: bool, reason: string, retryable: bool, verifier: string)

  /** What came of asking the adapter; only Answer is a proper verdict. */
  datatype AdapterAnswer =
    | LoadFailed(error: string)
    | NoVerifier
    | Raised(error: string)
    | NotAVerdict
    | Answer(accepted: bool, reason: string, retryable: bool)

  function Truncated(s: string): string {
    if |s| <= MAX_VERDICT_CHARS then s else s[..MAX_VERDICT_CHARS]
  }

  /** The reason before truncation. */
  function FullReason(answer: AdapterAnswer, task: TaskState, report: Event): string
    requires report.kind.ResultReady?
  {
    if !report.payload.outcome.Success? then
      if report.payload.note.Some? && report.payload.note.value != "" then report.payload.note.value
      else "worker reported failure"
    else match answer
      case LoadFailed(e) => "verifier for adapter '" + task.adapter + "' failed to load: " + e
      case NoVerifier => "no verifier registered for adapter '" + task.adapter + "'"
      case Raised(e) => "verifier raised " + e
      case NotAVerdict => "verifier returned an invalid verdict"
      case Answer(_, reason, _) => reason
  }

  /** What the worker or the adapter says about retrying, before the timeout rule. */
  function ClaimsRetryable(answer: AdapterAnswer, task: TaskState, report: Event): bool
    requires report.kind.ResultReady?
  {
    if !report.payload.outcome.Success? then
      if report.payload.retryable.Some? then report.payload.retryable.value else MayAutoRetry(task.effectClass)
    else answer.Answer? && answer.retryable
  }

  function RunVerifier(answer: AdapterAnswer, task: TaskState, report: Event): Verdict
    requires report.kind.ResultReady?
  {
    var full := FullReason(answer, task, report);
    if !report.payload.outcome.Success? then
      var retryable := if Mentions(full, "timeout") && !MayAutoRetry(task.effectClass) then false
                       else ClaimsRetryable(answer, task, report);
      Verdict(false, Truncated(full), retryable, "worker_reported_failure")
    else match answer
      case LoadFailed(_) => Verdict(false, full, false, "verifier_load_failed")
      case NoVerifier => Verdict(false, full, false, "no_verifier")
      case Raised(_) => Verdict(false, full, false, task.adapter)
      case NotAVerdict => Verdict(false, full, false, task.adapter)
      case Answer(accepted, _, claims) =>
        var allowed := if Mentions(full, "timeout") && !MayAutoRetry(task.effectClass) then false else claims;
        Verdict(accepted, Truncated(full), allowed, task.adapter)
  }

  /** The state of a verifying task once a negative verdict is journaled. */
  function AfterRejection(task: TaskState, v: Verdict): TaskState {
    task.(status := RetryPending, pendingResult := None, failureKind := Some(Rejected),
          retryable := Some(v.retryable), lastReason := Some(RecordedReason(v)))
  }

  function RecordedReason(v: Verdict): string {
    if v.reason != "" then v.reason else "rejected"
  }

  /** Acceptance needs a worker-reported success and an explicit positive verdict: there is no default pass. */
  lemma AcceptedOnlyByVerdict(answer: AdapterAnswer, task: TaskState, report: Event)
    requires report.kind.ResultReady?
    ensures RunVerifier(answer, task, report).accepted <==>
            report.payload.outcome.Success? && answer.Answer? && answer.accepted
  {
  }

  /** The reason the worker or the adapter gives for what it says. */
  predicate ReasonGiven(answer: AdapterAnswer, task: TaskState, report: Event, text: string)
    requires report.kind.ResultReady?
  {
    if report.payload.outcome.Success? then
      match answer
      case LoadFailed(e) => text == "verifier for adapter '" + task.adapter + "' failed to load: " + e
      case NoVerifier => text == "no verifier registered for adapter '" + task.adapter + "'"
      case Raised(e) => text == "verifier raised " + e
      case NotAVerdict => text == "verifier returned an invalid verdict"
      case Answer(_, reason, _) => text == reason
    else if report.payload.note == None || report.payload.note == Some("") then text == "worker reported failure"
    else report.payload.note == Some(text)
  }

  /** The worker claims a failure to be retryable, or leaves it to the effect class; an adapter claims it in a verdict. */
  predicate RetryClaimed(answer: AdapterAnswer, task: TaskState, report: Event)
    requires report.kind.ResultReady?
  {
    if report.payload.outcome.Success? then answer.Answer? && answer.retryable
    else if report.payload.retryable.Some? then report.payload.retryable.value
    else task.effectClass == Idempotent
  }

  /** What is recorded of the reason: a worker's or an adapter's own words are cut to 500 characters. */
  predicate ReasonRecorded(answer: AdapterAnswer, report: Event, text: string, recorded: string)
    requires report.kind.ResultReady?
  {
    if |text| > 500 && (!report.payload.outcome.Success? || answer.Answer?) then recorded == text[..500]
    else recorded == text
  }

  /** The verdict, in terms of what the worker reported and the adapter answered. */
  lemma VerdictMeans(answer: AdapterAnswer, task: TaskState, report: Event, text: string)
    requires report.kind.ResultReady? && ReasonGiven(answer, task, report, text)
    ensures var v := RunVerifier(answer, task, report);
            && (v.accepted <==> report.payload.outcome.Success? && answer.Answer? && answer.accepted)
            && ReasonRecorded(answer, report, text, v.reason)
            && (v.retryable <==> RetryClaimed(answer, task, report)
                                 && (task.effectClass == Idempotent || !Says(text, "timeout")))
  {
    UncertainAnyCase(text);
    hide Says, Mentions;
  }

  /** When a rejected attempt of a non-idempotent task is retried without a human, in terms of what the worker
      reported or the adapter answered: it is claimed to be retryable, no timeout is mentioned anywhere, no lost lease
      within the part that is recorded, and the task may be attempted again. */
  lemma RejectionRetriedExactlyWhen(answer: AdapterAnswer, task: TaskState, report: Event, text: string)
    requires report.kind.ResultReady? && task.effectClass != Idempotent
    requires !RunVerifier(answer, task, report).accepted && ReasonGiven(answer, task, report, text)
    ensures DecideAfterFailure(AfterRejection(task, RunVerifier(answer, task, report))).Retry? <==>
            && RetryClaimed(answer, task, report)
            && !Says(text, "timeout")
            && (task.started ==> !SaysUncertain(if |text| <= 500 then text else text[..500]))
            && !task.cancelRequested && task.attempt < task.maxAttempts
  {
    VerdictMeans(answer, task, report, text);
    NothingToMention();
    UncertainAnyCase("rejected");
    UncertainAnyCase("");
    var s := AfterRejection(task, RunVerifier(answer, task, report));
    DecisionMeans(s);
    hide Says, RunVerifier, DecideAfterFailure, ReasonUncertain, ReasonGiven;
    assert DecideAfterFailure(s).Retry? <==> DecisionStatus(DecideAfterFailure(s)) == Queued;
  }

  lemma NothingToMention()
    ensures !ReasonUncertain("") && !ReasonUncertain("rejected")
  {
    forall word | word == "timeout" || word == "lease-lost" || word == "lease_lost"
      ensures !Mentions("", word) && !Mentions("rejected", word)
    {
      forall i | OccursAt(Lower("rejected"), i, word) ensures false {
        OccursLetter(Lower("rejected"), i, word, if word == "timeout" then 1 else 0);
      }
    }
  }

  /** A reason that mentions a timeout anywhere, in any letter case, even beyond the part that is recorded, never leads
      to an automatic retry of a non-idempotent task. */
  lemma TimeoutNeverRetried(answer: AdapterAnswer, task: TaskState, report: Event, text: string)
    requires report.kind.ResultReady? && task.effectClass != Idempotent
    requires !RunVerifier(answer, task, report).accepted
    requires ReasonGiven(answer, task, report, text) && Says(text, "timeout")
    ensures !DecideAfterFailure(AfterRejection(task, RunVerifier(answer, task, report))).Retry?
  {
    RejectionRetriedExactlyWhen(answer, task, report, text);
  }

  /** A lost lease that is mentioned within the recorded part of the reason is never retried either. */
  lemma EarlyLeaseLostNeverRetried(answer: AdapterAnswer, task: TaskState, report: Event, text: string, word: string,
                                   i: nat)
    requires report.kind.ResultReady? && task.started && task.effectClass != Idempotent
    requires !RunVerifier(answer, task, report).accepted && ReasonGiven(answer, task, report, text)
    requires word == "lease-lost" || word == "lease_lost"
    requires SpelledAt(text, i, word) && i + |word| <= 500
    ensures !DecideAfterFailure(AfterRejection(task, RunVerifier(answer, task, report))).Retry?
  {
    assert SpelledAt(if |text| <= 500 then text else text[..500], i, word);
    RejectionRetriedExactlyWhen(answer, task, report, text);
  }

  /** Truncation hides the mention of a lost lease that lies beyond the recorded part: such an attempt of a
      non-idempotent task is retried. */
  lemma LateLeaseLostIsRetried(task: TaskState, report: Event, long: string)
    requires report.kind.ResultReady? && task.effectClass != Idempotent && !task.cancelRequested
    requires task.attempt < task.maxAttempts
    requires |long| == 500 && forall c | c in long :: c == '.'
    requires report.payload.outcome.Failure? && report.payload.note == Some(long + "lease-lost")
    requires report.payload.retryable == Some(true)
    ensures SpelledAt(long + "lease-lost", 500, "lease-lost")
    ensures DecideAfterFailure(AfterRejection(task, RunVerifier(NoVerifier, task, report))).Retry?
  {
    var text := long + "lease-lost";
    assert text[..500] == long;
    forall k: nat | k < |text| ensures !SpellsAs(text[k], 'm') {
      assert k < 500 ==> text[k] == long[k] && long[k] in long;
    }
    forall i | SpelledAt(text, i, "timeout") ensures false {
      SpelledLetter(text, i, "timeout", 2);
    }
    NotInDots(long, "timeout");
    NotInDots(long, "lease-lost");
    NotInDots(long, "lease_lost");
    hide Says;
    RejectionRetriedExactlyWhen(NoVerifier, task, report, text);
  }

  lemma SpelledLetter(text: string, i: int, word: string, k: nat)
    requires SpelledAt(text, i, word) && k < |word|
    ensures SpellsAs(text[i + k], word[k])
  {
  }

  lemma NotInDots(s: string, word: string)
    requires (forall c | c in s :: c == '.') && word != "" && 'a' <= word[0] <= 'z'
    ensures !Says(s, word)
  {
    forall k: nat | k < |s| ensures !SpellsAs(s[k], word[0]) {
      assert s[k] in s;
    }
    forall i | SpelledAt(s, i, word) ensures false {
      SpelledLetter(s, i, word, 0);
    }
  }

  lemma OccursLetter(s: string, i: int, word: string, k: nat)
    requires OccursAt(s, i, word) && k < |word|
    ensures word[k] in s
  {
    assert s[i..i + |word|][k] == s[i + k];
  }
}
