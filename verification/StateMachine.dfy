/** The task state machine: a pure partial fold from events to the state of one task.
    The journal calls Apply inside its append, replay calls the same function. */
module StateMachine {
  import opened Options
  import opened Events

  datatype Status =
    | Queued | Claimed | Running | Verifying | Accepted | RetryPending | Complete | Failed | Blocked | Cancelled

  datatype FailureKind = LeaseLost | Rejected

  datatype Resolution = Verified | ConfirmedByHuman | CancelledEffectUnknown

  datatype Decision = Retry | Fail | Block | Cancel

  datatype TaskState = TaskState(
    taskId: Id, status: Status, adapter: Id, params: string, effectClass: EffectClass,
    maxAttempts: int, leaseTtl: int, timeout: Option<int>,
    attempt: int, dispatchId: Option<Id>, workerId: Option<Id>, started: bool,
    pendingResult: Option<Id>, acceptedResult: Option<Id>, cancelRequested: bool,
    failureKind: Option<FailureKind>, retryable: Option<bool>, lastReason: Option<string>,
    lateResults: nat, resolution: Option<Resolution>, decidedBy: Option<Id>,
    dependsOn: Option<Id>, input: Option<Input>, createdSeq: int, updatedSeq: int)

  /** Why an event is not a legal next step. */
  datatype Refusal =
    | AlreadyExists | UnknownTask | OtherTask | NotLate | TaskIsTerminal | NeedsHumanDecision | NotBlocked
    | WrongStatus | WrongAttempt | WrongDispatch | WrongWorker | WrongResult | CancelPending | AttemptsExhausted
    | InputUnexpected | InputMissing | RetryForbidden | MustBlock | AlreadyRequested | NotRequested | ActorRequired

  predicate Terminal(s: Status) {
    s.Complete? || s.Failed? || s.Cancelled?
  }

  predicate ActiveLease(s: Status) {
    s.Claimed? || s.Running?
  }

  predicate MayAutoRetry(c: EffectClass) {
    c.Idempotent?
  }

  // ------------------------------------------------------------- reasons

  function LowerChar(c: char): char {
    if 'A' <= c <= 'Z' then 'a' + (c - 'A') else c
  }

  function Lower(s: string): (r: string)
    ensures |r| == |s|
  {
    seq(|s|, i requires 0 <= i < |s| => LowerChar(s[i]))
  }

  predicate Contains(s: string, word: string) {
    exists i :: 0 <= i <= |s| - |word| && OccursAt(s, i, word)
  }

  predicate OccursAt(s: string, i: int, word: string) {
    0 <= i && i + |word| <= |s| && s[i..i + |word|] == word
  }

  predicate Mentions(reason: string, word: string) {
    Contains(Lower(reason), word)
  }

  /** A recorded reason that leaves the effect of the attempt unknown. */
  predicate ReasonUncertain(reason: string) {
    Mentions(reason, "timeout") || Mentions(reason, "lease-lost") || Mentions(reason, "lease_lost")
  }

  /** The character is the one asked for, or its capital form, whose code is 32 less. */
  predicate SpellsAs(c: char, w: char) {
    c == w || ('a' <= w <= 'z' && c as int == w as int - 32)
  }

  /** The word stands at position i of the text, in any mixture of small and capital letters. */
  predicate SpelledAt(text: string, i: int, word: string) {
    0 <= i && i + |word| <= |text| && forall k: nat | k < |word| :: SpellsAs(text[i + k], word[k])
  }

  predicate Says(text: string, word: string) {
    exists i :: 0 <= i <= |text| - |word| && SpelledAt(text, i, word)
  }

  /** The text leaves open whether an attempt had its effect. */
  predicate SaysUncertain(text: string) {
    Says(text, "timeout") || Says(text, "lease-lost") || Says(text, "lease_lost")
  }

  /** A word without capitals is found in any letter case. */
  lemma MentionsAnyCase(text: string, word: string)
    requires forall c | c in word :: !('A' <= c <= 'Z')
    ensures Mentions(text, word) <==> Says(text, word)
    ensures forall i :: OccursAt(Lower(text), i, word) <==> SpelledAt(text, i, word)
  {
    var low := Lower(text);
    forall i ensures OccursAt(low, i, word) <==> SpelledAt(text, i, word) {
      if 0 <= i && i + |word| <= |text| {
        forall k: nat | k < |word| ensures low[i..i + |word|][k] == word[k] <==> SpellsAs(text[i + k], word[k]) {
          assert word[k] in word && low[i..i + |word|][k] == LowerChar(text[i + k]);
        }
      }
    }
  }

  lemma UncertainAnyCase(text: string)
    ensures ReasonUncertain(text) <==> SaysUncertain(text)
    ensures Mentions(text, "timeout") <==> Says(text, "timeout")
  {
    MentionsAnyCase(text, "timeout");
    MentionsAnyCase(text, "lease-lost");
    MentionsAnyCase(text, "lease_lost");
  }

  // ------------------------------------------------------------- decisions

  /** The recorded failure leaves open whether the attempt had its effect. */
  predicate OutcomeUnknown(s: TaskState) {
    || s.failureKind == Some(LeaseLost)
    || (s.failureKind == Some(Rejected) && s.lastReason.Some? && ReasonUncertain(s.lastReason.value))
  }

  /** How a failed attempt goes on: a human is asked first of all if its effect may have happened. */
  function DecideAfterFailure(s: TaskState): Decision
    requires s.status.RetryPending?
  {
    if OutcomeUnknown(s) && s.started && !MayAutoRetry(s.effectClass) then Block
    else if s.cancelRequested then Cancel
    else if s.failureKind == Some(Rejected) && s.retryable != Some(true) then Fail
    else if s.attempt >= s.maxAttempts then Fail
    else Retry
  }

  /** How an attempt goes on whose lease was lost. */
  function LostStatus(s: TaskState): Status {
    if s.started && s.effectClass != Idempotent then Blocked
    else if s.cancelRequested then Cancelled
    else if s.attempt >= s.maxAttempts then Failed
    else Queued
  }

  /** How a rejected attempt goes on, given the recorded reason and whether it may be retried. */
  function RejectedStatus(s: TaskState, reason: string, mayRetry: bool): Status {
    if s.started && s.effectClass != Idempotent && SaysUncertain(reason) then Blocked
    else if s.cancelRequested then Cancelled
    else if !mayRetry || s.attempt >= s.maxAttempts then Failed
    else Queued
  }

  function DecisionStatus(d: Decision): Status {
    match d
    case Retry => Queued
    case Fail => Failed
    case Block => Blocked
    case Cancel => Cancelled
  }

  /** What the decision on a failed attempt comes to. */
  lemma DecisionMeans(s: TaskState)
    requires s.status.RetryPending?
    ensures s.failureKind == Some(LeaseLost) ==> DecisionStatus(DecideAfterFailure(s)) == LostStatus(s)
    ensures s.failureKind == Some(Rejected) && s.lastReason.Some? ==>
              DecisionStatus(DecideAfterFailure(s)) == RejectedStatus(s, s.lastReason.value, s.retryable == Some(true))
  {
    if s.lastReason.Some? {
      UncertainAnyCase(s.lastReason.value);
    }
    hide ReasonUncertain, SaysUncertain;
  }

  // ------------------------------------------------------------- the fold step

  /** The current attempt, dispatch and (when the event names one) worker. */
  function Fence(s: TaskState, e: Event, checkWorker: bool): Option<Refusal> {
    if e.attempt != Some(s.attempt) then Some(WrongAttempt)
    else if e.dispatchId != s.dispatchId then Some(WrongDispatch)
    else if checkWorker && e.workerId.Some? && e.workerId != s.workerId then Some(WrongWorker)
    else None
  }

  function NewTask(e: Event, at: int): TaskState
    requires e.kind.TaskCreated?
  {
    var p := e.payload;
    TaskState(e.taskId.value, Queued, p.adapter, p.params, p.effectClass, p.maxAttempts, p.leaseTtl, p.timeout,
              0, None, None, false, None, None, false, None, None, None, 0, None, None, p.dependsOn, None, at, at)
  }

  /** The state of one task after an event stored at sequence number at, or why it is illegal. */
  function Apply(state: Option<TaskState>, e: Event, at: int): Result<Option<TaskState>, Refusal> {
    if IsSystem(e.kind) then Ok(state)
    else if e.kind.TaskCreated? then
      if state.Some? then Err(AlreadyExists) else Ok(Some(NewTask(e, at)))
    else if state.None? then Err(UnknownTask)
    else if e.taskId != Some(state.value.taskId) then Err(OtherTask)
    else
      match Transition(state.value, e)
      case Err(why) => Err(why)
      case Ok(s) => Ok(Some(s.(updatedSeq := at)))
  }

  function Transition(s: TaskState, e: Event): Result<TaskState, Refusal>
    requires !IsSystem(e.kind) && !e.kind.TaskCreated?
  {
    if e.kind.LateResultDiscarded? then
      if ActiveLease(s.status) && e.dispatchId == s.dispatchId then Err(NotLate)
      else Ok(s.(lateResults := s.lateResults + 1))
    else if Terminal(s.status) then Err(TaskIsTerminal)
    else if s.status.Blocked? && !(e.kind.TaskCancelRequested? || e.kind.TaskCancelled? || IsHumanDecision(e.kind))
    then Err(NeedsHumanDecision)
    else match e.kind
      case EffectConfirmed => HumanDecision(s, e)
      case RetryAuthorized => HumanDecision(s, e)
      case TaskClaimed => Claim(s, e)
      case TaskStarted =>
        if !s.status.Claimed? then Err(WrongStatus)
        else Fenced(s, e, true, s.(status := Running, started := true))
      case TaskProgress =>
        if !s.status.Running? then Err(WrongStatus) else Fenced(s, e, true, s)
      case ResultReady =>
        if !s.status.Running? then Err(WrongStatus)
        else Fenced(s, e, true, s.(status := Verifying, pendingResult := e.resultId))
      case ResultAccepted =>
        if !s.status.Verifying? then Err(WrongStatus)
        else if Fence(s, e, false).Some? then Err(Fence(s, e, false).value)
        else if e.resultId != s.pendingResult then Err(WrongResult)
        else Ok(s.(status := Accepted, acceptedResult := e.resultId, pendingResult := None,
                   resolution := Some(Verified)))
      case ResultRejected =>
        if !s.status.Verifying? then Err(WrongStatus)
        else if Fence(s, e, false).Some? then Err(Fence(s, e, false).value)
        else if e.resultId != s.pendingResult then Err(WrongResult)
        else Ok(s.(status := RetryPending, pendingResult := None, failureKind := Some(Rejected),
                   retryable := Some(e.payload.mayRetry), lastReason := Some(e.payload.reason)))
      case TaskComplete =>
        if !s.status.Accepted? then Err(WrongStatus)
        else if Fence(s, e, false).Some? then Err(Fence(s, e, false).value)
        else if e.resultId != s.acceptedResult then Err(WrongResult)
        else Ok(s.(status := Complete))
      case LeaseExpired =>
        if !ActiveLease(s.status) then Err(WrongStatus)
        else Fenced(s, e, true, s.(status := RetryPending, failureKind := Some(LeaseLost), retryable := None,
                                   lastReason := Some("lease_expired:" + e.payload.reason)))
      case TaskRetryScheduled =>
        if !s.status.RetryPending? then Err(WrongStatus)
        else if e.attempt != Some(s.attempt) then Err(WrongAttempt)
        else if !DecideAfterFailure(s).Retry? then Err(RetryForbidden)
        else Ok(s.(status := Queued, dispatchId := None, workerId := None, started := false))
      case TaskFailed =>
        if !(s.status.RetryPending? || s.status.Queued?) then Err(WrongStatus)
        else if s.status.RetryPending? && DecideAfterFailure(s).Block? then Err(MustBlock)
        else Ok(s.(status := Failed, lastReason := Some(e.payload.reason)))
      case TaskBlocked =>
        if !(s.status.RetryPending? || s.status.Queued?) then Err(WrongStatus)
        else Ok(s.(status := Blocked, lastReason := Some(e.payload.reason)))
      case TaskCancelRequested =>
        if s.cancelRequested then Err(AlreadyRequested) else Ok(s.(cancelRequested := true))
      case TaskCancelled => CancelNow(s, e)
  }

  /** The next state when the event is fenced to the current dispatch. */
  function Fenced(s: TaskState, e: Event, checkWorker: bool, next: TaskState): Result<TaskState, Refusal> {
    var f := Fence(s, e, checkWorker);
    if f.Some? then Err(f.value) else Ok(next)
  }

  function Claim(s: TaskState, e: Event): Result<TaskState, Refusal>
    requires e.kind.TaskClaimed?
  {
    var bound := e.payload.input;
    if !s.status.Queued? then Err(WrongStatus)
    else if s.cancelRequested then Err(CancelPending)
    else if e.attempt != Some(s.attempt + 1) then Err(WrongAttempt)
    else if e.attempt.value > s.maxAttempts then Err(AttemptsExhausted)
    else if s.dependsOn.None? && bound.Some? then Err(InputUnexpected)
    else if s.dependsOn.Some? && (bound.None? || bound.value.taskId != s.dependsOn.value) then Err(InputMissing)
    else Ok(s.(status := Claimed, attempt := e.attempt.value, dispatchId := e.dispatchId, workerId := e.workerId,
               started := false, pendingResult := None, failureKind := None, retryable := None,
               lastReason := None, input := bound))
  }

  function CancelNow(s: TaskState, e: Event): Result<TaskState, Refusal>
    requires e.kind.TaskCancelled?
  {
    if !s.cancelRequested then Err(NotRequested)
    else if s.status.Verifying? || s.status.Accepted? then Err(WrongStatus)
    else if s.status.RetryPending? && DecideAfterFailure(s).Block? then Err(MustBlock)
    else if s.status.Blocked? then
      if e.payload.actor.None? then Err(ActorRequired)
      else Ok(s.(status := Cancelled, resolution := Some(CancelledEffectUnknown), decidedBy := e.payload.actor))
    else
      Ok(s.(status := Cancelled,
            decidedBy := if e.payload.actor.Some? then e.payload.actor else s.decidedBy))
  }

  function HumanDecision(s: TaskState, e: Event): Result<TaskState, Refusal>
    requires IsHumanDecision(e.kind)
  {
    if !s.status.Blocked? then Err(NotBlocked)
    else if e.attempt != Some(s.attempt) then Err(WrongAttempt)
    else if e.kind.EffectConfirmed? then
      Ok(s.(status := Complete, resolution := Some(ConfirmedByHuman), decidedBy := e.payload.actor,
            lastReason := Some(e.payload.reason)))
    else if s.cancelRequested then Err(CancelPending)
    else if s.attempt >= MAX_ATTEMPTS_LIMIT then Err(AttemptsExhausted)
    else
      Ok(s.(status := Queued,
            maxAttempts := if s.maxAttempts < s.attempt + 1 then s.attempt + 1 else s.maxAttempts,
            dispatchId := None, workerId := None, started := false, failureKind := None, retryable := None,
            lastReason := Some(e.payload.reason), decidedBy := e.payload.actor))
  }

  // ------------------------------------------------------------- what every legal step keeps

  /** The facts about one task that hold after every accepted history. */
  predicate StateInv(s: TaskState) {
    NumbersInv(s) && ResultInv(s) && AttemptInv(s)
  }

  predicate NumbersInv(s: TaskState) {
    && 0 <= s.attempt <= s.maxAttempts <= MAX_ATTEMPTS_LIMIT
    && 1 <= s.leaseTtl
    && IsId(s.taskId) && ValidId(s.dispatchId) && ValidId(s.workerId)
    && ValidId(s.pendingResult) && ValidId(s.acceptedResult)
    && (s.dependsOn.None? ==> s.input.None?)
    && (s.dependsOn.Some? ==> IsId(s.dependsOn.value))
    && (s.dispatchId.Some? ==> 1 <= s.attempt)
    && (s.status.Queued? ==> s.attempt < s.maxAttempts)
  }

  /** Which results a status carries, and how the task was resolved. */
  predicate ResultInv(s: TaskState) {
    && (s.pendingResult.Some? <==> s.status.Verifying?)
    && (s.acceptedResult.Some? <==> s.resolution == Some(Verified))
    && (s.status.Accepted? ==> s.resolution == Some(Verified))
    && (s.resolution == Some(Verified) ==> s.status.Accepted? || s.status.Complete?)
    && (s.status.Complete? ==> s.resolution == Some(Verified) || s.resolution == Some(ConfirmedByHuman))
    && (s.status.Cancelled? ==> s.cancelRequested)
  }

  /** What a status says about the current attempt. */
  predicate AttemptInv(s: TaskState) {
    && (s.status.Queued? ==> s.dispatchId.None? && !s.started)
    && (s.status.Claimed? ==> !s.started)
    && (s.status.Running? || s.status.Verifying? || s.status.Accepted? ==> s.started)
    && (Dispatched(s) ==> s.dispatchId.Some? && s.workerId.Some?)
    && (s.status.RetryPending? ==> s.failureKind.Some? && s.lastReason.Some?)
  }

  predicate Dispatched(s: TaskState) {
    || ActiveLease(s.status) || s.status.Verifying? || s.status.Accepted? || s.status.RetryPending?
    || s.acceptedResult.Some?
  }

  lemma ClaimKeepsInv(s: TaskState, e: Event)
    requires e.kind.TaskClaimed? && StateInv(s) && Claim(s, e).Ok?
    ensures StateInv(Claim(s, e).value)
  {
  }

  lemma CancelKeepsInv(s: TaskState, e: Event)
    requires e.kind.TaskCancelled? && StateInv(s) && !Terminal(s.status) && CancelNow(s, e).Ok?
    ensures StateInv(CancelNow(s, e).value)
  {
  }

  lemma HumanDecisionKeepsInv(s: TaskState, e: Event)
    requires IsHumanDecision(e.kind) && StateInv(s) && HumanDecision(s, e).Ok?
    ensures StateInv(HumanDecision(s, e).value)
  {
  }

  lemma ReportKeepsInv(s: TaskState, e: Event)
    requires e.kind.ResultReady? || e.kind.ResultAccepted? || e.kind.ResultRejected? || e.kind.TaskComplete?
    requires StateInv(s) && Transition(s, e).Ok?
    ensures StateInv(Transition(s, e).value)
  {
    var r := Transition(s, e).value;
    if e.kind.ResultReady? {
      assert StateInv(r);
    } else if e.kind.ResultAccepted? {
      assert StateInv(r);
    } else if e.kind.ResultRejected? {
      assert StateInv(r);
    }
  }

  lemma FailureKeepsInv(s: TaskState, e: Event)
    requires e.kind.LeaseExpired? || e.kind.TaskRetryScheduled? || e.kind.TaskBlocked? || e.kind.TaskFailed?
    requires StateInv(s) && Transition(s, e).Ok?
    ensures StateInv(Transition(s, e).value)
  {
    var r := Transition(s, e).value;
    if e.kind.LeaseExpired? {
      assert StateInv(r);
    } else if e.kind.TaskRetryScheduled? {
      assert StateInv(r);
    } else if e.kind.TaskBlocked? {
      assert StateInv(r);
    }
  }

  lemma NoteKeepsInv(s: TaskState, e: Event)
    requires e.kind.TaskStarted? || e.kind.TaskProgress? || e.kind.TaskCancelRequested? || e.kind.LateResultDiscarded?
    requires StateInv(s) && Transition(s, e).Ok?
    ensures StateInv(Transition(s, e).value)
  {
  }

  lemma TransitionKeepsInv(s: TaskState, e: Event)
    requires !IsSystem(e.kind) && !e.kind.TaskCreated?
    requires StateInv(s) && Transition(s, e).Ok?
    ensures StateInv(Transition(s, e).value)
  {
    if IsHumanDecision(e.kind) {
      HumanDecisionKeepsInv(s, e);
    } else if e.kind.TaskClaimed? {
      ClaimKeepsInv(s, e);
    } else if e.kind.TaskCancelled? {
      CancelKeepsInv(s, e);
    } else {
      hide StateInv, Transition;
      if e.kind.ResultReady? || e.kind.ResultAccepted? || e.kind.ResultRejected? || e.kind.TaskComplete? {
        ReportKeepsInv(s, e);
      } else if e.kind.LeaseExpired? || e.kind.TaskRetryScheduled? || e.kind.TaskBlocked? || e.kind.TaskFailed? {
        FailureKeepsInv(s, e);
      } else {
        NoteKeepsInv(s, e);
      }
    }
  }

  /** A worker's event is accepted only for the current attempt, dispatch and worker. */
  lemma WorkerIsFenced(s: TaskState, e: Event)
    requires e.kind.TaskStarted? || e.kind.TaskProgress? || e.kind.ResultReady? || e.kind.LeaseExpired?
    requires Transition(s, e).Ok?
    ensures e.attempt == Some(s.attempt) && e.dispatchId == s.dispatchId
    ensures e.workerId.Some? ==> e.workerId == s.workerId
  {
  }

  // ------------------------------------------------------------- what each status takes

  /** Where a failed attempt has to go. */
  function FailureStatus(s: TaskState): Status {
    if s.failureKind == Some(LeaseLost) || s.lastReason.None? then LostStatus(s)
    else RejectedStatus(s, s.lastReason.value, s.retryable == Some(true))
  }

  predicate OfThisDispatch(s: TaskState, e: Event) {
    e.attempt == Some(s.attempt) && e.dispatchId == s.dispatchId
  }

  predicate FromItsWorker(s: TaskState, e: Event) {
    OfThisDispatch(s, e) && (e.workerId == None || e.workerId == s.workerId)
  }

  /** The events a task takes in its status, late reports aside. */
  predicate Takes(s: TaskState, e: Event) {
    var k := e.kind;
    var newRequest := k.TaskCancelRequested? && !s.cancelRequested;
    var requested := k.TaskCancelled? && s.cancelRequested;
    match s.status
    case Queued =>
      || k.TaskFailed? || k.TaskBlocked? || newRequest || requested
      || (k.TaskClaimed? && !s.cancelRequested && e.attempt == Some(s.attempt + 1)
          && if s.dependsOn.None? then e.payload.input.None?
             else e.payload.input.Some? && Some(e.payload.input.value.taskId) == s.dependsOn)
    case Claimed => newRequest || requested || ((k.TaskStarted? || k.LeaseExpired?) && FromItsWorker(s, e))
    case Running =>
      newRequest || requested || ((k.TaskProgress? || k.ResultReady? || k.LeaseExpired?) && FromItsWorker(s, e))
    case Verifying =>
      newRequest || ((k.ResultAccepted? || k.ResultRejected?) && OfThisDispatch(s, e) && e.resultId == s.pendingResult)
    case Accepted => newRequest || (k.TaskComplete? && OfThisDispatch(s, e) && e.resultId == s.acceptedResult)
    case RetryPending =>
      || newRequest || k.TaskBlocked?
      || ((k.TaskFailed? || requested) && FailureStatus(s) != Blocked)
      || (k.TaskRetryScheduled? && e.attempt == Some(s.attempt) && FailureStatus(s) == Queued)
    case Blocked =>
      || newRequest
      || (requested && e.payload.actor.Some?)
      || (k.EffectConfirmed? && e.attempt == Some(s.attempt))
      || (k.RetryAuthorized? && e.attempt == Some(s.attempt) && !s.cancelRequested && s.attempt < 100)
    case _ => false
  }

  /** The status an event leads to. */
  function Becomes(s: TaskState, k: Kind): Status {
    match k
    case TaskClaimed => Claimed
    case TaskStarted => Running
    case ResultReady => Verifying
    case ResultAccepted => Accepted
    case ResultRejected => RetryPending
    case LeaseExpired => RetryPending
    case TaskRetryScheduled => Queued
    case RetryAuthorized => Queued
    case TaskComplete => Complete
    case EffectConfirmed => Complete
    case TaskFailed => Failed
    case TaskBlocked => Blocked
    case TaskCancelled => Cancelled
    case _ => s.status
  }

  /** What no event changes, and which events count attempts, grant more of them or end a cancellation request. */
  predicate KeepsIdentity(s: TaskState, r: TaskState, k: Kind) {
    && r.taskId == s.taskId && r.adapter == s.adapter && r.params == s.params && r.effectClass == s.effectClass
    && r.leaseTtl == s.leaseTtl && r.timeout == s.timeout && r.dependsOn == s.dependsOn && r.createdSeq == s.createdSeq
    && r.attempt == (if k.TaskClaimed? then s.attempt + 1 else s.attempt)
    && (!k.RetryAuthorized? ==> r.maxAttempts == s.maxAttempts)
    && r.cancelRequested == (s.cancelRequested || k.TaskCancelRequested?)
    && r.lateResults == (if k.LateResultDiscarded? then s.lateResults + 1 else s.lateResults)
  }

  lemma MustBlockMeans(s: TaskState)
    requires StateInv(s) && s.status.RetryPending?
    ensures DecisionStatus(DecideAfterFailure(s)) == FailureStatus(s)
  {
    DecisionMeans(s);
    hide LostStatus, RejectedStatus, DecisionStatus, DecideAfterFailure, NumbersInv, ResultInv;
    assert s.failureKind.value.LeaseLost? || s.failureKind.value.Rejected?;
  }

  predicate IsReporting(k: Kind) {
    || k.TaskStarted? || k.TaskProgress? || k.ResultReady? || k.LeaseExpired?
    || k.ResultAccepted? || k.ResultRejected? || k.TaskComplete?
  }

  predicate IsChoice(k: Kind) {
    k.TaskClaimed? || k.TaskCancelled? || IsHumanDecision(k)
  }

  /** The event is legal exactly if the status takes it, and leads where it should. */
  predicate StepsAsPlanned(s: TaskState, e: Event)
    requires !IsSystem(e.kind) && !e.kind.TaskCreated?
  {
    var late := e.kind.LateResultDiscarded? && !(s.status in {Claimed, Running} && e.dispatchId == s.dispatchId);
    && (Transition(s, e).Ok? <==> late || Takes(s, e))
    && (Transition(s, e).Ok? ==>
          && Transition(s, e).value.status == Becomes(s, e.kind)
          && KeepsIdentity(s, Transition(s, e).value, e.kind))
  }

  lemma ReportSteps(s: TaskState, e: Event)
    requires IsReporting(e.kind)
    ensures StepsAsPlanned(s, e)
  {
    hide FailureStatus, DecideAfterFailure, MayAutoRetry;
  }

  lemma ClaimSteps(s: TaskState, e: Event)
    requires e.kind.TaskClaimed? && NumbersInv(s)
    ensures StepsAsPlanned(s, e)
  {
    hide FailureStatus, DecideAfterFailure, Fence, FromItsWorker, OfThisDispatch, HumanDecision, CancelNow;
  }

  lemma CancelSteps(s: TaskState, e: Event)
    requires e.kind.TaskCancelled?
    requires s.status.RetryPending? ==> DecisionStatus(DecideAfterFailure(s)) == FailureStatus(s)
    ensures StepsAsPlanned(s, e)
  {
    hide FailureStatus, DecideAfterFailure, Fence, FromItsWorker, OfThisDispatch, HumanDecision, Claim;
  }

  lemma HumanSteps(s: TaskState, e: Event)
    requires IsHumanDecision(e.kind)
    ensures StepsAsPlanned(s, e)
  {
    hide FailureStatus, DecideAfterFailure, Fence, FromItsWorker, OfThisDispatch, Claim, CancelNow;
  }

  lemma OtherSteps(s: TaskState, e: Event)
    requires !IsSystem(e.kind) && !e.kind.TaskCreated? && !IsReporting(e.kind) && !IsChoice(e.kind)
    requires s.status.RetryPending? ==> DecisionStatus(DecideAfterFailure(s)) == FailureStatus(s)
    ensures StepsAsPlanned(s, e)
  {
    hide FailureStatus, DecideAfterFailure, Fence, FromItsWorker, OfThisDispatch, HumanDecision, Claim, CancelNow;
  }

  /** The legal next events, status by status, where they lead, and what they leave alone. */
  lemma StepsExactly(s: TaskState, e: Event)
    requires StateInv(s) && !IsSystem(e.kind) && !e.kind.TaskCreated?
    ensures StepsAsPlanned(s, e)
  {
    hide StepsAsPlanned, Transition, NumbersInv, ResultInv, AttemptInv, DecideAfterFailure, FailureStatus;
    if s.status.RetryPending? {
      MustBlockMeans(s);
    }
    if IsReporting(e.kind) {
      ReportSteps(s, e);
    } else if e.kind.TaskClaimed? {
      ClaimSteps(s, e);
    } else if e.kind.TaskCancelled? {
      CancelSteps(s, e);
    } else if IsHumanDecision(e.kind) {
      HumanSteps(s, e);
    } else {
      OtherSteps(s, e);
    }
  }

  lemma ApplyKeepsInv(state: Option<TaskState>, e: Event, at: int)
    requires state.Some? ==> StateInv(state.value)
    ensures var r := Apply(state, e, at);
            r.Ok? && r.value.Some? ==> StateInv(r.value.value)
  {
    var r := Apply(state, e, at);
    if r.Ok? && state.Some? && !IsSystem(e.kind) {
      TransitionKeepsInv(state.value, e);
    }
  }

  /** A queued task without a pending cancellation is claimable: with the next attempt number, any dispatch
      and worker, and an input exactly when the task has a dependency. */
  lemma QueuedIsClaimable(s: TaskState, e: Event, at: int)
    requires StateInv(s) && s.status.Queued?
    requires e.kind.TaskClaimed? && e.taskId == Some(s.taskId) && e.attempt == Some(s.attempt + 1)
    ensures Apply(Some(s), e, at).Ok? <==>
            && !s.cancelRequested
            && (if s.dependsOn.None? then e.payload.input.None?
                else e.payload.input.Some? && e.payload.input.value.taskId == s.dependsOn.value)
  {
  }
}
