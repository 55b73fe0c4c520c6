/** Accepted histories of one task, and what holds of every one of them. */
module Histories {
  import opened Options
  import opened Events
  import opened Records
  import opened StateMachine

  /** The i-th event takes the i-th state to the next one. */
  predicate Legal(h: seq<Sealed>, ss: seq<Option<TaskState>>, i: nat) {
    && i < |h| && i + 1 < |ss|
    && Apply(ss[i], h[i].event, h[i].seqNo) == Ok(ss[i + 1])
  }

  /** An accepted history of task t: ss[i] is its state before event i, from the absent task on. */
  predicate Run(h: seq<Sealed>, ss: seq<Option<TaskState>>, t: Id) {
    && |ss| == |h| + 1
    && ss[0] == None
    && (forall i: nat | i < |h| :: Legal(h, ss, i))
    && (forall i: nat | i < |h| :: KindAt(h, i) == h[i].event.kind && h[i].event.taskId == Some(t))
  }

  function KindAt(h: seq<Sealed>, i: nat): Kind
    requires i < |h|
  {
    h[i].event.kind
  }

  /** The state before event i of an existing task. */
  function At(ss: seq<Option<TaskState>>, i: nat): TaskState
    requires i < |ss| && ss[i].Some?
  {
    ss[i].value
  }

  lemma StateExists(before: Option<TaskState>, e: Event, at: int, after: Option<TaskState>)
    requires e.taskId.Some? && Apply(before, e, at) == Ok(after) && (before.Some? ==> StateInv(before.value))
    ensures after.Some? && StateInv(after.value) && (e.kind.TaskCreated? <==> before.None?)
  {
    ApplyKeepsInv(before, e, at);
    hide StateInv, Transition;
  }

  lemma StatesExist(h: seq<Sealed>, ss: seq<Option<TaskState>>, t: Id)
    requires Run(h, ss, t)
    ensures forall i: nat | 0 < i < |ss| :: ss[i].Some?
    ensures forall i: nat | 0 < i < |ss| :: StateInv(At(ss, i))
    ensures forall i: nat | i < |h| :: KindAt(h, i).TaskCreated? <==> i == 0
  {
    hide StateInv, Apply;
    var i := 0;
    while i < |h|
      invariant 0 <= i <= |h|
      invariant forall k: nat | 0 < k <= i :: ss[k].Some?
      invariant forall k: nat | 0 < k <= i :: StateInv(At(ss, k))
      invariant forall k: nat | k < i :: KindAt(h, k).TaskCreated? <==> k == 0
    {
      assert Legal(h, ss, i);
      assert i > 0 ==> StateInv(At(ss, i));
      assert KindAt(h, i) == h[i].event.kind;
      StateExists(ss[i], h[i].event, h[i].seqNo, ss[i + 1]);
      i := i + 1;
    }
  }

  // ------------------------------------------------------------- terminal states

  /** A state without the two fields a terminal task may still change. */
  function Frozen(s: TaskState): TaskState {
    s.(lateResults := 0, updatedSeq := 0)
  }

  /** Once terminal, a task accepts only late reports, each of which is counted; nothing else ever changes. */
  lemma {:induction false} TerminalIsFinal(h: seq<Sealed>, ss: seq<Option<TaskState>>, t: Id, i: nat, j: nat)
    requires Run(h, ss, t) && i <= j <= |h|
    requires ss[i].Some? && Terminal(At(ss, i).status)
    ensures ss[j].Some? && Frozen(At(ss, j)) == Frozen(At(ss, i))
    ensures forall k: nat | i <= k < j :: KindAt(h, k).LateResultDiscarded?
    ensures At(ss, j).lateResults == At(ss, i).lateResults + (j - i)
    decreases j - i
  {
    if i < j {
      TerminalIsFinal(h, ss, t, i, j - 1);
      assert Legal(h, ss, j - 1);
    }
  }

  // ------------------------------------------------------------- exactly-once completion

  predicate Completing(k: Kind) {
    k.TaskComplete? || k.EffectConfirmed?
  }

  lemma AcceptedResultKept(s: TaskState, e: Event, r: TaskState)
    requires StateInv(s) && s.acceptedResult.Some?
    requires !IsSystem(e.kind) && !e.kind.TaskCreated? && Transition(s, e) == Ok(r)
    ensures r.acceptedResult == s.acceptedResult && !e.kind.ResultAccepted? && !e.kind.EffectConfirmed?
  {
  }

  /** An accepted result is never replaced or forgotten, and nothing is accepted after it. */
  lemma {:induction false} AcceptedResultStays(h: seq<Sealed>, ss: seq<Option<TaskState>>, t: Id, i: nat, j: nat)
    requires Run(h, ss, t) && i <= j <= |h|
    requires ss[i].Some? && At(ss, i).acceptedResult.Some?
    ensures ss[j].Some? && At(ss, j).acceptedResult == At(ss, i).acceptedResult
    ensures forall k: nat | i <= k < j :: !KindAt(h, k).ResultAccepted? && !KindAt(h, k).EffectConfirmed?
    decreases j - i
  {
    StatesExist(h, ss, t);
    if i < j {
      AcceptedResultStays(h, ss, t, i, j - 1);
      assert Legal(h, ss, j - 1);
      assert StateInv(At(ss, j - 1));
      AcceptedResultKept(At(ss, j - 1), h[j - 1].event, Transition(At(ss, j - 1), h[j - 1].event).value);
    }
  }

  /** At most one result is accepted, at most one event completes the task, and never both by a
      verified result and by a human. */
  lemma ExactlyOnce(h: seq<Sealed>, ss: seq<Option<TaskState>>, t: Id, i: nat, j: nat)
    requires Run(h, ss, t) && i < j < |h|
    ensures !(KindAt(h, i).ResultAccepted? && KindAt(h, j).ResultAccepted?)
    ensures !(Completing(KindAt(h, i)) && Completing(KindAt(h, j)))
    ensures !(KindAt(h, i).ResultAccepted? && KindAt(h, j).EffectConfirmed?)
  {
    assert Legal(h, ss, i);
    if KindAt(h, i).ResultAccepted? {
      AcceptedResultStays(h, ss, t, i + 1, |h|);
    } else if Completing(KindAt(h, i)) {
      TerminalIsFinal(h, ss, t, i + 1, |h|);
    }
  }

  predicate UnderClaim(s: TaskState) {
    ActiveLease(s.status) || s.status.Verifying? || s.status.Accepted?
  }

  /** The event is about the current attempt and dispatch of s. */
  predicate Names(e: Event, s: TaskState) {
    e.attempt == Some(s.attempt) && e.dispatchId == s.dispatchId
  }

  predicate NoClaimBetween(h: seq<Sealed>, c: nat, i: nat) {
    forall k: nat | c < k < i && k < |h| :: !KindAt(h, k).TaskClaimed?
  }

  /** The events that brought a task under its current claim to its current status. */
  datatype Steps = Steps(claim: nat, start: nat, ready: nat, accept: nat)

  predicate ClaimTrace(h: seq<Sealed>, s: TaskState, i: nat, p: Steps) {
    && p.claim < i <= |h| && KindAt(h, p.claim).TaskClaimed? && Names(h[p.claim].event, s)
    && h[p.claim].event.workerId == s.workerId && NoClaimBetween(h, p.claim, i)
    && (!s.status.Claimed? ==>
        p.claim < p.start < i && KindAt(h, p.start).TaskStarted? && Names(h[p.start].event, s))
    && (s.status.Verifying? || s.status.Accepted? ==>
        && p.start < p.ready < i && KindAt(h, p.ready).ResultReady? && Names(h[p.ready].event, s)
        && h[p.ready].event.resultId == (if s.status.Verifying? then s.pendingResult else s.acceptedResult))
    && (s.status.Accepted? ==>
        && p.ready < p.accept < i && KindAt(h, p.accept).ResultAccepted? && Names(h[p.accept].event, s)
        && h[p.accept].event.resultId == s.acceptedResult)
  }

  /** How one legal step moves the trace of the current claim. */
  function Advance(p: Steps, k: Kind, i: nat): Steps {
    match k
    case TaskClaimed => Steps(i, i, i, i)
    case TaskStarted => p.(start := i)
    case ResultReady => p.(ready := i)
    case ResultAccepted => p.(accept := i)
    case _ => p
  }

  /** A step either opens a claim or stays under the claim that was open before it. */
  lemma ClaimStep(s: TaskState, e: Event, r: TaskState)
    requires !IsSystem(e.kind) && !e.kind.TaskCreated?
    requires StateInv(s) && Transition(s, e) == Ok(r) && UnderClaim(r)
    ensures e.kind.TaskClaimed? ==> Names(e, r) && e.workerId == r.workerId && r.status.Claimed?
    ensures !e.kind.TaskClaimed? ==>
              UnderClaim(s) && r.attempt == s.attempt && r.dispatchId == s.dispatchId && r.workerId == s.workerId
    ensures match e.kind
            case TaskClaimed => true
            case TaskStarted => s.status.Claimed? && r.status.Running? && Names(e, r)
            case ResultReady => s.status.Running? && r.status.Verifying? && Names(e, r) && e.resultId == r.pendingResult
            case ResultAccepted => s.status.Verifying? && r.status.Accepted? && Names(e, r)
                                   && e.resultId == s.pendingResult == r.acceptedResult
            case _ => r.status == s.status && r.pendingResult == s.pendingResult && r.acceptedResult == s.acceptedResult
  {
    hide DecideAfterFailure, NumbersInv, ResultInv;
    match e.kind {
      case TaskClaimed =>
      case RetryAuthorized =>
      case TaskCancelled =>
      case _ =>
    }
  }

  lemma {:induction false} TraceBack(h: seq<Sealed>, ss: seq<Option<TaskState>>, t: Id, i: nat) returns (p: Steps)
    requires Run(h, ss, t) && 0 < i <= |h|
    requires ss[i].Some? && UnderClaim(At(ss, i))
    ensures ClaimTrace(h, At(ss, i), i, p)
  {
    StatesExist(h, ss, t);
    assert Legal(h, ss, i - 1);
    assert i > 1;
    assert StateInv(At(ss, i - 1));
    var e := h[i - 1].event;
    var r := Transition(At(ss, i - 1), e).value;
    assert UnderClaim(r);
    ClaimStep(At(ss, i - 1), e, r);
    if e.kind.TaskClaimed? {
      p := Steps(i - 1, i - 1, i - 1, i - 1);
    } else {
      p := TraceBack(h, ss, t, i - 1);
      TraceAdvance(h, At(ss, i - 1), At(ss, i), i - 1, p);
      p := Advance(p, e.kind, i - 1);
    }
  }

  lemma TraceAdvance(h: seq<Sealed>, s: TaskState, r: TaskState, i: nat, p: Steps)
    requires i < |h| && ClaimTrace(h, s, i, p) && !KindAt(h, i).TaskClaimed?
    requires r.attempt == s.attempt && r.dispatchId == s.dispatchId && r.workerId == s.workerId
    requires UnderClaim(s) && UnderClaim(r)
    requires var e := h[i].event;
             match e.kind
             case TaskStarted => s.status.Claimed? && r.status.Running? && Names(e, r)
             case ResultReady => s.status.Running? && r.status.Verifying? && Names(e, r) && e.resultId == r.pendingResult
             case ResultAccepted => s.status.Verifying? && r.status.Accepted? && Names(e, r)
                                    && e.resultId == s.pendingResult == r.acceptedResult
             case _ => r.status == s.status && r.pendingResult == s.pendingResult && r.acceptedResult == s.acceptedResult
    ensures ClaimTrace(h, r, i + 1, Advance(p, KindAt(h, i), i))
  {
  }

  /** The two events are about the same attempt and dispatch. */
  predicate SameClaim(a: Event, b: Event) {
    a.attempt == b.attempt && a.dispatchId == b.dispatchId
  }

  /** TASK_COMPLETE names an attempt, dispatch and result that were claimed, started, reported and accepted
      in this order, with no other claim since. */
  lemma CompletionIsEarned(h: seq<Sealed>, ss: seq<Option<TaskState>>, t: Id, i: nat) returns (p: Steps)
    requires Run(h, ss, t) && i < |h| && KindAt(h, i).TaskComplete?
    ensures p.claim < p.start < p.ready < p.accept < i && NoClaimBetween(h, p.claim, i)
    ensures KindAt(h, p.claim).TaskClaimed? && SameClaim(h[p.claim].event, h[i].event)
    ensures KindAt(h, p.start).TaskStarted? && SameClaim(h[p.start].event, h[i].event)
    ensures KindAt(h, p.ready).ResultReady? && SameClaim(h[p.ready].event, h[i].event)
            && h[p.ready].event.resultId == h[i].event.resultId
    ensures KindAt(h, p.accept).ResultAccepted? && SameClaim(h[p.accept].event, h[i].event)
            && h[p.accept].event.resultId == h[i].event.resultId
  {
    assert Legal(h, ss, i);
    p := TraceBack(h, ss, t, i);
  }

  // ------------------------------------------------------------- no blind re-execution

  /** The i-th event ends a started, non-idempotent attempt without telling whether its effect happened. */
  predicate UncertainEnd(h: seq<Sealed>, ss: seq<Option<TaskState>>, i: nat)
    requires i < |h| && i < |ss|
  {
    && ss[i].Some? && At(ss, i).started && At(ss, i).effectClass != Idempotent
    && (KindAt(h, i).LeaseExpired? || (KindAt(h, i).ResultRejected? && SaysUncertain(h[i].event.payload.reason)))
  }

  /** Only a human can release attempt n. */
  predicate Quarantined(s: TaskState, n: int) {
    && s.attempt == n && s.effectClass != Idempotent
    && (Terminal(s.status) || s.status.Blocked?
        || (s.status.RetryPending? && s.started && OutcomeUnknown(s)))
  }

  lemma QuarantineHolds(s: TaskState, e: Event, r: TaskState, n: int)
    requires Quarantined(s, n) && !IsSystem(e.kind) && !e.kind.TaskCreated?
    requires Transition(s, e) == Ok(r)
    ensures !e.kind.TaskClaimed? && !e.kind.TaskRetryScheduled?
    ensures (e.kind.RetryAuthorized? && e.attempt == Some(n)) || Quarantined(r, n)
  {
    assert s.status.RetryPending? ==> DecideAfterFailure(s).Block?;
    match e.kind {
      case TaskCancelRequested => assert OutcomeUnknown(r) == OutcomeUnknown(s);
      case LateResultDiscarded => assert OutcomeUnknown(r) == OutcomeUnknown(s);
      case _ =>
    }
  }

  predicate AuthorizedBetween(h: seq<Sealed>, i: nat, j: nat, n: int) {
    exists k: nat :: i < k < j && k < |h| && KindAt(h, k).RetryAuthorized? && h[k].event.attempt == Some(n)
  }

  lemma UncertainEndQuarantines(h: seq<Sealed>, ss: seq<Option<TaskState>>, t: Id, i: nat)
    requires Run(h, ss, t) && i < |h| && UncertainEnd(h, ss, i)
    ensures ss[i + 1].Some? && Quarantined(At(ss, i + 1), At(ss, i).attempt) && Held(At(ss, i + 1), At(ss, i).attempt)
  {
    assert Legal(h, ss, i);
    if KindAt(h, i).ResultRejected? {
      UncertainAnyCase(h[i].event.payload.reason);
    }
    hide ReasonUncertain, SaysUncertain;
  }

  /** Attempt n ended uncertainly, and nobody has decided about it. */
  predicate Held(s: TaskState, n: int) {
    && s.attempt == n && s.effectClass != Idempotent
    && (s.status.Blocked? || (s.status.RetryPending? && s.started && OutcomeUnknown(s)))
  }

  /** A human confirms the effect of attempt n, authorizes another attempt after it, or cancels in their own name. */
  predicate HumanDecides(e: Event, n: int) {
    || ((e.kind.EffectConfirmed? || e.kind.RetryAuthorized?) && e.attempt == Some(n) && e.payload.actor.Some?)
    || (e.kind.TaskCancelled? && e.payload.actor.Some?)
  }

  lemma HeldStep(s: TaskState, x: Sealed, r: TaskState, n: int)
    requires Held(s, n) && !IsSystem(x.event.kind) && !x.event.kind.TaskCreated?
    requires Apply(Some(s), x.event, x.seqNo) == Ok(Some(r))
    ensures HumanDecides(x.event, n) || Held(r, n)
  {
    assert s.status.RetryPending? ==> DecideAfterFailure(s).Block?;
    var q := Transition(s, x.event).value;
    assert x.event.kind.TaskCancelRequested? || x.event.kind.LateResultDiscarded? ==> OutcomeUnknown(q) == OutcomeUnknown(s);
    assert OutcomeUnknown(q) == OutcomeUnknown(r);
    hide OutcomeUnknown;
  }

  predicate DecidedBetween(h: seq<Sealed>, i: nat, j: nat, n: int) {
    exists k: nat :: i < k < j && k < |h| && HumanDecides(h[k].event, n)
  }

  /** After an uncertain end of attempt n the task is neither failed nor completed nor cancelled nor tried again
      before a human has decided. */
  lemma {:induction false} HeldForHuman(h: seq<Sealed>, ss: seq<Option<TaskState>>, t: Id, i: nat, j: nat)
    requires Run(h, ss, t) && i < j <= |h| && UncertainEnd(h, ss, i)
    ensures ss[j].Some?
    ensures var n := At(ss, i).attempt; DecidedBetween(h, i, j, n) || Held(At(ss, j), n)
    decreases j - i
  {
    StatesExist(h, ss, t);
    hide Apply, StateInv, Held, UncertainEnd, HumanDecides, Quarantined;
    var n := At(ss, i).attempt;
    if j == i + 1 {
      UncertainEndQuarantines(h, ss, t, i);
    } else {
      HeldForHuman(h, ss, t, i, j - 1);
      if !DecidedBetween(h, i, j - 1, n) {
        assert Legal(h, ss, j - 1) && KindAt(h, j - 1) == h[j - 1].event.kind;
        HeldStep(At(ss, j - 1), h[j - 1], At(ss, j), n);
      }
    }
  }

  /** After an uncertain end of attempt n, either a human has authorized a retry of attempt n, or the task
      is still held back. */
  lemma QuarantineStep(s: TaskState, x: Sealed, r: TaskState, n: int)
    requires Quarantined(s, n) && !IsSystem(x.event.kind) && !x.event.kind.TaskCreated?
    requires Apply(Some(s), x.event, x.seqNo) == Ok(Some(r))
    ensures (x.event.kind.RetryAuthorized? && x.event.attempt == Some(n)) || Quarantined(r, n)
  {
    var q := Transition(s, x.event).value;
    QuarantineHolds(s, x.event, q, n);
    assert OutcomeUnknown(q) == OutcomeUnknown(r);
    hide Transition;
  }

  lemma {:induction false} HeldUntilAuthorized(h: seq<Sealed>, ss: seq<Option<TaskState>>, t: Id, i: nat, j: nat)
    requires Run(h, ss, t) && i < j <= |h| && UncertainEnd(h, ss, i)
    ensures ss[j].Some?
    ensures var n := At(ss, i).attempt; AuthorizedBetween(h, i, j, n) || Quarantined(At(ss, j), n)
    decreases j - i
  {
    StatesExist(h, ss, t);
    hide Apply, StateInv, Quarantined, UncertainEnd;
    var n := At(ss, i).attempt;
    if j == i + 1 {
      UncertainEndQuarantines(h, ss, t, i);
    } else {
      HeldUntilAuthorized(h, ss, t, i, j - 1);
      if !AuthorizedBetween(h, i, j - 1, n) {
        assert Legal(h, ss, j - 1) && KindAt(h, j - 1) == h[j - 1].event.kind;
        QuarantineStep(At(ss, j - 1), h[j - 1], At(ss, j), n);
      }
    }
  }

  /** No claim follows an uncertain end of attempt n before a RETRY_AUTHORIZED that names attempt n. */
  lemma NoBlindReexecution(h: seq<Sealed>, ss: seq<Option<TaskState>>, t: Id, i: nat, j: nat)
    requires Run(h, ss, t) && i < j < |h| && UncertainEnd(h, ss, i) && KindAt(h, j).TaskClaimed?
    ensures AuthorizedBetween(h, i, j, At(ss, i).attempt)
  {
    HeldUntilAuthorized(h, ss, t, i, j);
    assert Legal(h, ss, j);
  }

  // ------------------------------------------------------------- attempts

  /** How many of the first i events are of kind k. */
  function Count(h: seq<Sealed>, k: Kind, i: nat): nat
    requires i <= |h|
  {
    if i == 0 then 0 else Count(h, k, i - 1) + if KindAt(h, i - 1) == k then 1 else 0
  }

  lemma AttemptStep(s: TaskState, e: Event, r: TaskState)
    requires !IsSystem(e.kind) && !e.kind.TaskCreated?
    requires StateInv(s) && Transition(s, e) == Ok(r)
    ensures r.attempt == s.attempt + (if e.kind.TaskClaimed? then 1 else 0)
    ensures e.kind.TaskClaimed? ==> e.attempt == Some(r.attempt)
    ensures r.maxAttempts <= s.maxAttempts + (if e.kind.RetryAuthorized? then 1 else 0)
  {
    match e.kind {
      case TaskClaimed => assert r.attempt == s.attempt + 1;
      case RetryAuthorized => assert r.attempt == s.attempt && r.maxAttempts <= s.maxAttempts + 1;
      case TaskCreated =>
      case ControllerStarted =>
      case ControllerStopped =>
      case _ => assert r.attempt == s.attempt && r.maxAttempts == s.maxAttempts;
    }
  }

  /** Attempts are claimed as 1, 2, 3, ... without gaps, and never beyond the created budget plus the
      attempts humans have granted, nor beyond the global limit. */
  lemma {:induction false} AttemptsInOrder(h: seq<Sealed>, ss: seq<Option<TaskState>>, t: Id, i: nat)
    requires Run(h, ss, t) && 0 < i <= |h|
    ensures KindAt(h, 0).TaskCreated? && ss[i].Some?
    ensures At(ss, i).attempt == Count(h, TaskClaimed, i)
    ensures KindAt(h, i - 1).TaskClaimed? ==> h[i - 1].event.attempt == Some(Count(h, TaskClaimed, i))
    ensures At(ss, i).attempt <= At(ss, i).maxAttempts <= MAX_ATTEMPTS_LIMIT
    ensures At(ss, i).maxAttempts <= h[0].event.payload.maxAttempts + Count(h, RetryAuthorized, i)
  {
    StatesExist(h, ss, t);
    assert Legal(h, ss, i - 1);
    assert StateInv(At(ss, i));
    assert KindAt(h, 0) == h[0].event.kind;
    if i > 1 {
      AttemptsInOrder(h, ss, t, i - 1);
      assert StateInv(At(ss, i - 1));
      AttemptStep(At(ss, i - 1), h[i - 1].event, Transition(At(ss, i - 1), h[i - 1].event).value);
    }
  }
}
