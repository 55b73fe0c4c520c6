/** The events the controller builds, each with the state it leads to. */
module ControllerSteps {
  import opened Options
  import opened Events
  import opened StateMachine
  import opened Verification

  /** Two states that differ only in when they were last updated. */
  predicate Same(a: TaskState, b: TaskState) {
    a.(updatedSeq := 0) == b.(updatedSeq := 0)
  }

  /** The event is well formed, carries the controller's key, and takes s to next. */
  predicate Effect(s: TaskState, e: EventData, at: int, next: TaskState) {
    && e.Valid() && WellKeyed(e)
    && e.taskId == Some(s.taskId) && !IsSystem(e.kind) && !e.kind.TaskCreated? && !e.kind.LateResultDiscarded?
    && (!NamesDispatch(e.kind) ==> e.dispatchId.None?)
    && Apply(Some(s), e, at) == Ok(Some(next.(updatedSeq := at)))
  }

  predicate Sound(s: TaskState) {
    StateInv(s) && Minted(Some(s.taskId)) && Minted(s.dispatchId)
  }

  function About(s: TaskState, kind: Kind, attempt: Option<int>, payload: Payload): EventData {
    EventData(kind, Some(s.taskId), attempt, None, None, None, payload, None).WithKey()
  }

  function OnDispatch(s: TaskState, kind: Kind, worker: Option<Id>, result: Option<Id>, payload: Payload): EventData {
    EventData(kind, Some(s.taskId), Some(s.attempt), s.dispatchId, worker, result, payload, None).WithKey()
  }

  lemma ShortKeys(s: TaskState)
    requires Sound(s)
    ensures |Digits(s.attempt)| <= 3 && (s.attempt < MAX_ATTEMPTS_LIMIT ==> |Digits(s.attempt + 1)| <= 3)
    ensures |Digits(s.attempt)| > 0
  {
    DigitsNonEmpty(s.attempt);
    DigitsNonEmpty(s.attempt + 1);
  }

  // ------------------------------------------------------------- completing, expiring, deciding

  function CompleteEvent(s: TaskState): EventData {
    OnDispatch(s, TaskComplete, None, s.acceptedResult, Info(""))
  }

  lemma CompleteEffect(s: TaskState, at: int)
    requires Sound(s) && s.status.Accepted?
    ensures Effect(s, CompleteEvent(s), at, s.(status := Complete))
  {
  }

  function ExpireEvent(s: TaskState, reason: string): EventData {
    OnDispatch(s, LeaseExpired, s.workerId, None, Because(reason, None))
  }

  function Expired(s: TaskState, reason: string): TaskState {
    s.(status := RetryPending, failureKind := Some(LeaseLost), retryable := None,
       lastReason := Some("lease_expired:" + reason))
  }

  lemma ExpireEffect(s: TaskState, reason: string, at: int)
    requires Sound(s) && ActiveLease(s.status) && reason in {"ttl", "restart_grace"}
    ensures ExpireEvent(s, reason).Valid() && Effect(s, ExpireEvent(s, reason), at, Expired(s, reason))
  {
  }

  function EffectName(c: EffectClass): string {
    match c
    case Idempotent => "idempotent"
    case NonIdempotent => "non_idempotent"
    case OtherClass(name) => name
  }

  function StatusName(s: Status): string {
    match s
    case Queued => "QUEUED"
    case Claimed => "CLAIMED"
    case Running => "RUNNING"
    case Verifying => "VERIFYING"
    case Accepted => "ACCEPTED"
    case RetryPending => "RETRY_PENDING"
    case Complete => "COMPLETE"
    case Failed => "FAILED"
    case Blocked => "BLOCKED"
    case Cancelled => "CANCELLED"
  }

  function FailureReason(s: TaskState): string {
    if s.lastReason.Some? && s.lastReason.value != "" then s.lastReason.value else "attempt failed"
  }

  function BlockReason(s: TaskState): string {
    "outcome of " + EffectName(s.effectClass) + " attempt " + Digits(s.attempt) + " is unknown ("
    + FailureReason(s) + "); needs a human decision"
  }

  /** The event that carries out the decision on a failed attempt. */
  function DecideEvent(s: TaskState): EventData
    requires s.status.RetryPending?
  {
    match DecideAfterFailure(s)
    case Retry => About(s, TaskRetryScheduled, Some(s.attempt), Because(FailureReason(s), None))
    case Fail => About(s, TaskFailed, None, Because(FailureReason(s), None))
    case Block => About(s, TaskBlocked, None, Because(BlockReason(s), None))
    case Cancel => About(s, TaskCancelled, None, Because("cancelled", None))
  }

  function Decided(s: TaskState): TaskState
    requires s.status.RetryPending?
  {
    match DecideAfterFailure(s)
    case Retry => s.(status := Queued, dispatchId := None, workerId := None, started := false)
    case Fail => s.(status := Failed, lastReason := Some(FailureReason(s)))
    case Block => s.(status := Blocked, lastReason := Some(BlockReason(s)))
    case Cancel => s.(status := Cancelled)
  }

  lemma DecideEffect(s: TaskState, at: int)
    requires Sound(s) && s.status.RetryPending?
    ensures Effect(s, DecideEvent(s), at, Decided(s))
    ensures Settled(Decided(s)) && !ActiveLease(Decided(s).status) && !Decided(s).status.Verifying?
    ensures DecideEvent(s).dedupeKey.None? && !DecideEvent(s).kind.TaskClaimed? && !DecideEvent(s).kind.ResultReady?
  {
    DecideSettles(s);
    hide OutcomeUnknown, Settled, BlockReason, FailureReason, StatusName, EffectName;
    hide NumbersInv, ResultInv;
    match DecideAfterFailure(s) {
      case Retry => assert Effect(s, DecideEvent(s), at, Decided(s));
      case Fail => assert Effect(s, DecideEvent(s), at, Decided(s));
      case Block => assert Effect(s, DecideEvent(s), at, Decided(s));
      case Cancel =>
    }
  }

  lemma DecideSettles(s: TaskState)
    requires s.status.RetryPending?
    ensures Settled(Decided(s)) && !ActiveLease(Decided(s).status) && !Decided(s).status.Verifying?
    ensures DecideEvent(s).dedupeKey.None? && !DecideEvent(s).kind.TaskClaimed? && !DecideEvent(s).kind.ResultReady?
  {
    hide OutcomeUnknown, BlockReason, FailureReason;
  }

  /** The statuses a task may have between two operations of the controller. */
  predicate Settled(s: TaskState) {
    !s.status.RetryPending? && !s.status.Accepted? && (s.status.Queued? ==> !s.cancelRequested)
  }

  /** Where recovery takes a task: the unfinished second half of an operation is completed. */
  function Settle(s: TaskState): TaskState {
    if s.status.Accepted? then s.(status := Complete)
    else if s.status.RetryPending? then Decided(s)
    else if s.status.Queued? && s.cancelRequested then s.(status := Cancelled)
    else s
  }

  /** Equal up to the time of the last update and the name of who decided. */
  predicate SameOutcome(a: TaskState, b: TaskState) {
    a.(updatedSeq := 0, decidedBy := None) == b.(updatedSeq := 0, decidedBy := None)
  }

  // ------------------------------------------------------------- claiming, starting, reporting

  function ClaimEvent(s: TaskState, d: Id, worker: Id, input: Option<Input>): EventData {
    EventData(TaskClaimed, Some(s.taskId), Some(s.attempt + 1), Some(d), Some(worker), None,
              Claiming(s.leaseTtl, input), None).WithKey()
  }

  function ClaimedState(s: TaskState, d: Id, worker: Id, input: Option<Input>): TaskState {
    s.(status := Claimed, attempt := s.attempt + 1, dispatchId := Some(d), workerId := Some(worker), started := false,
       pendingResult := None, failureKind := None, retryable := None, lastReason := None, input := input)
  }

  /** What the fold asks of the input of a claim. */
  predicate InputFits(s: TaskState, input: Option<Input>) {
    && (s.dependsOn.None? <==> input.None?)
    && (input.Some? ==> input.value.taskId == s.dependsOn.value && InputValid(input.value))
  }

  lemma ClaimEffect(s: TaskState, d: Id, worker: Id, input: Option<Input>, at: int)
    requires Sound(s) && s.status.Queued? && !s.cancelRequested
    requires Minted(Some(d)) && IsId(worker) && InputFits(s, input)
    ensures Effect(s, ClaimEvent(s, d, worker, input), at, ClaimedState(s, d, worker, input))
  {
    ShortKeys(s);
  }

  function StartEvent(s: TaskState): EventData {
    OnDispatch(s, TaskStarted, s.workerId, None, Info(""))
  }

  lemma StartEffect(s: TaskState, at: int)
    requires Sound(s) && s.status.Claimed?
    ensures Effect(s, StartEvent(s), at, s.(status := Running, started := true))
  {
  }

  function ReadyEvent(s: TaskState, r: Id, payload: Payload): EventData {
    OnDispatch(s, ResultReady, s.workerId, Some(r), payload)
  }

  lemma ReadyEffect(s: TaskState, r: Id, payload: Payload, at: int)
    requires Sound(s) && s.status.Running? && ReadyEvent(s, r, payload).Valid()
    ensures Effect(s, ReadyEvent(s, r, payload), at, s.(status := Verifying, pendingResult := Some(r)))
  {
  }

  /** A report for a dispatch that is no longer active, kept as evidence under its own key. */
  function LateEvent(s: TaskState, d: Id, r: Id, p: Payload, attempt: int): EventData
    requires p.Report?
  {
    EventData(LateResultDiscarded, Some(s.taskId), None, Some(d), None, Some(r),
              Late(p.artifacts, p.outcome, p.retryable, p.note, attempt,
                   "dispatch is not the active attempt (task " + StatusName(s.status) + ")"),
              LateKey(Some(d), Some(r)))
  }

  lemma LateEventValid(s: TaskState, d: Id, r: Id, p: Payload, attempt: int)
    requires Sound(s) && Minted(Some(d)) && IsId(r) && p.Report?
    requires |d| + |r| <= MAX_ID_LENGTH - 8
    ensures LateEvent(s, d, r, p, attempt).Valid() && WellKeyed(LateEvent(s, d, r, p, attempt))
  {
    assert |LateKey(Some(d), Some(r)).value| == 6 + |d| + |r|;
  }

  function VerdictEvent(s: TaskState, v: Verdict): EventData {
    if v.accepted then OnDispatch(s, ResultAccepted, None, s.pendingResult, Info(v.reason))
    else OnDispatch(s, ResultRejected, None, s.pendingResult, Rejection(RecordedReason(v), v.retryable, v.verifier))
  }

  function AfterVerdict(s: TaskState, v: Verdict): TaskState {
    if v.accepted then
      s.(status := Accepted, acceptedResult := s.pendingResult, pendingResult := None, resolution := Some(Verified))
    else AfterRejection(s, v)
  }

  lemma VerdictEffect(s: TaskState, v: Verdict, at: int)
    requires Sound(s) && s.status.Verifying?
    ensures VerdictEvent(s, v).Valid() && Effect(s, VerdictEvent(s, v), at, AfterVerdict(s, v))
  {
  }

  // ------------------------------------------------------------- cancelling and human decisions

  function FailEvent(s: TaskState, why: string): EventData {
    About(s, TaskFailed, None, Because(why, None))
  }

  lemma FailEffect(s: TaskState, why: string, at: int)
    requires Sound(s) && s.status.Queued?
    ensures Effect(s, FailEvent(s, why), at, s.(status := Failed, lastReason := Some(why)))
  {
  }

  function CancelRequestEvent(s: TaskState, actor: Option<Id>, why: string): EventData {
    About(s, TaskCancelRequested, None, Because(why, actor))
  }

  lemma CancelRequestEffect(s: TaskState, actor: Option<Id>, why: string, at: int)
    requires Sound(s) && !Terminal(s.status) && !s.cancelRequested && ValidId(actor)
    ensures Effect(s, CancelRequestEvent(s, actor, why), at, s.(cancelRequested := true))
  {
  }

  function CancelledEvent(s: TaskState, actor: Option<Id>, why: string): EventData {
    About(s, TaskCancelled, None, Because(why, actor))
  }

  function CancelledState(s: TaskState, actor: Option<Id>): TaskState {
    if s.status.Blocked? then
      s.(status := Cancelled, resolution := Some(CancelledEffectUnknown), decidedBy := actor)
    else s.(status := Cancelled, decidedBy := if actor.Some? then actor else s.decidedBy)
  }

  lemma CancelledEffect(s: TaskState, actor: Option<Id>, why: string, at: int)
    requires Sound(s) && s.cancelRequested && ValidId(actor)
    requires s.status.Queued? || ActiveLease(s.status) || (s.status.Blocked? && actor.Some?)
    ensures Effect(s, CancelledEvent(s, actor, why), at, CancelledState(s, actor))
  {
  }

  function HumanEvent(s: TaskState, kind: Kind, attempt: int, actor: Id, why: string): EventData {
    About(s, kind, Some(attempt), Because(why, Some(actor)))
  }

  function HumanState(s: TaskState, kind: Kind, actor: Id, why: string): TaskState {
    if kind.EffectConfirmed? then
      s.(status := Complete, resolution := Some(ConfirmedByHuman), decidedBy := Some(actor), lastReason := Some(why))
    else
      s.(status := Queued, maxAttempts := if s.maxAttempts < s.attempt + 1 then s.attempt + 1 else s.maxAttempts,
         dispatchId := None, workerId := None, started := false, failureKind := None, retryable := None,
         lastReason := Some(why), decidedBy := Some(actor))
  }

  lemma HumanEventValid(s: TaskState, kind: Kind, attempt: int, actor: Id, why: string)
    requires Sound(s) && IsHumanDecision(kind) && IsId(actor) && !Blank(why) && 1 <= attempt <= MAX_ATTEMPTS_LIMIT
    ensures HumanEvent(s, kind, attempt, actor, why).Valid()
    ensures WellKeyed(HumanEvent(s, kind, attempt, actor, why))
  {
    DigitsNonEmpty(attempt);
  }

  lemma HumanEffect(s: TaskState, kind: Kind, actor: Id, why: string, at: int)
    requires Sound(s) && s.status.Blocked? && IsHumanDecision(kind) && IsId(actor) && !Blank(why)
    requires 1 <= s.attempt
    requires kind.RetryAuthorized? ==> !s.cancelRequested && s.attempt < MAX_ATTEMPTS_LIMIT
    ensures Effect(s, HumanEvent(s, kind, s.attempt, actor, why), at, HumanState(s, kind, actor, why))
  {
    HumanEventValid(s, kind, s.attempt, actor, why);
  }

  datatype HumanChoice = ConfirmEffect | AuthorizeRetry | CancelTask

  function ChoiceKind(c: HumanChoice): Kind {
    match c
    case ConfirmEffect => EffectConfirmed
    case AuthorizeRetry => RetryAuthorized
    case CancelTask => TaskCancelled
  }

  /** The event of a human decision on task t. */
  function DecisionOf(t: Id, c: HumanChoice, attempt: int, actor: Id, why: string): EventData {
    EventData(ChoiceKind(c), Some(t), Some(attempt), None, None, None, Because(why, Some(actor)), None).WithKey()
  }

  /** What a cancel request makes of a task: cancelled at once if nobody works on it, otherwise marked. */
  function AfterCancel(s: TaskState, actor: Option<Id>): TaskState {
    var c := s.(cancelRequested := true);
    if s.status.Queued? || s.status.Blocked? then CancelledState(c, actor) else c
  }

  function AfterResolve(s: TaskState, c: HumanChoice, actor: Id, why: string): TaskState {
    if c.CancelTask? then AfterCancel(s, Some(actor)) else HumanState(s, ChoiceKind(c), actor, why)
  }
}
