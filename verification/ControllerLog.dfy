/** What holds of every log that only the controller has written, at every moment between two appends. */
module ControllerLog {
  import opened Options
  import opened Events
  import opened Records
  import opened Chain
  import opened StateMachine
  import opened Projection
  import opened Journal
  import opened ControllerSteps

  /** The task each dispatch was issued for. */
  function Issued(log: seq<Sealed>): map<Id, Id> {
    if log == [] then map[]
    else
      var before := Issued(log[..|log| - 1]);
      var e := log[|log| - 1].event;
      if e.kind.TaskClaimed? then before[e.dispatchId.value := e.taskId.value] else before
  }

  predicate Owns(log: seq<Sealed>, t: Option<Id>, d: Option<Id>) {
    t.Some? && d.Some? && d.value in Issued(log) && Issued(log)[d.value] == t.value
  }

  lemma IssuedSnoc(log: seq<Sealed>, x: Sealed)
    ensures Issued(log + [x]) ==
            if x.event.kind.TaskClaimed? then Issued(log)[x.event.dispatchId.value := x.event.taskId.value]
            else Issued(log)
  {
    assert (log + [x])[..|log|] == log;
  }

  /** What a stored event still says about the state of its task. */
  predicate StillTrue(e: Event, s: TaskState) {
    match e.kind
    case TaskClaimed =>
      e.attempt.value <= s.attempt
      && (s.dispatchId == e.dispatchId ==> e.attempt == Some(s.attempt) && e.workerId == s.workerId)
    case TaskStarted => s.dispatchId == e.dispatchId ==> !s.status.Claimed?
    case LeaseExpired => s.dispatchId == e.dispatchId ==> !ActiveLease(s.status)
    case ResultAccepted => s.acceptedResult.Some?
    case TaskComplete => s.status.Complete?
    case _ => true
  }

  predicate IsReport(x: Sealed, t: Id, d: Option<Id>, r: Option<Id>) {
    && x.event.kind.ResultReady? && x.event.taskId == Some(t)
    && x.event.dispatchId == d && x.event.resultId == r
  }

  predicate Reported(log: seq<Sealed>, t: Id, d: Option<Id>, r: Option<Id>) {
    exists x :: x in log && IsReport(x, t, d, r)
  }

  predicate EventFact(log: seq<Sealed>, table: Table, e: Event) {
    && WellKeyed(e)
    && (e.taskId.Some? ==> e.taskId.value in table && StillTrue(e, table[e.taskId.value]))
    && (e.dispatchId.Some? ==> Owns(log, e.taskId, e.dispatchId))
  }

  predicate StateFact(log: seq<Sealed>, table: Table, t: Id)
    requires t in table
  {
    var s := table[t];
    && (s.dispatchId.Some? ==> Owns(log, Some(t), s.dispatchId))
    && (s.pendingResult.Some? ==> Reported(log, t, s.dispatchId, s.pendingResult))
    && (s.acceptedResult.Some? ==> Reported(log, t, s.dispatchId, s.acceptedResult))
    && (s.dependsOn.Some? ==>
        s.dependsOn.value in table && table[s.dependsOn.value].createdSeq < s.createdSeq)
    && Minted(Some(t)) && Minted(s.dispatchId)
  }

  /** The invariant of a controller-written log and its table. */
  predicate Facts(log: seq<Sealed>, table: Table) {
    && (forall x | x in log :: EventFact(log, table, x.event))
    && (forall t | t in table :: StateFact(log, table, t))
  }

  /** What the controller guarantees about an event when it appends it. */
  predicate Shaped(log: seq<Sealed>, table: Table, e: Event) {
    && WellKeyed(e)
    && (!NamesDispatch(e.kind) ==> e.dispatchId.None?)
    && (e.kind.TaskClaimed? ==> e.dispatchId.value !in Issued(log))
    && (e.kind.LateResultDiscarded? ==> Owns(log, e.taskId, e.dispatchId))
    && (e.kind.TaskCreated? && e.payload.dependsOn.Some? ==> e.payload.dependsOn.value in table)
  }

  // ------------------------------------------------------------- one append keeps the facts

  /** Attempt, dispatch and worker change together, by a claim; nothing leads back to a claimed or leased
      status of the same dispatch, out of an acceptance, or out of completion. */
  predicate MovesOn(s: TaskState, e: Event, r: TaskState) {
    && (if e.kind.TaskClaimed? then r.attempt == s.attempt + 1 && r.dispatchId == e.dispatchId
        else
          && r.attempt == s.attempt
          && (r.dispatchId.None?
              || (r.dispatchId == s.dispatchId && r.workerId == s.workerId
                  && (r.status.Claimed? ==> s.status.Claimed?) && (ActiveLease(r.status) ==> ActiveLease(s.status)))))
    && (s.acceptedResult.Some? ==> r.acceptedResult.Some?)
    && (s.status.Complete? ==> r.status.Complete?)
  }

  lemma TransitionMovesOn(s: TaskState, e: Event, r: TaskState)
    requires !IsSystem(e.kind) && !e.kind.TaskCreated?
    requires StateInv(s) && Transition(s, e) == Ok(r)
    ensures MovesOn(s, e, r)
  {
    hide DecideAfterFailure, Fence, NumbersInv, ResultInv;
    if e.kind.TaskClaimed? {
      assert MovesOn(s, e, r);
    } else if IsHumanDecision(e.kind) || e.kind.TaskCancelled? || e.kind.TaskRetryScheduled? {
      DecisionMovesOn(s, e, r);
    }
  }

  lemma DecisionMovesOn(s: TaskState, e: Event, r: TaskState)
    requires IsHumanDecision(e.kind) || e.kind.TaskCancelled? || e.kind.TaskRetryScheduled?
    requires StateInv(s) && Transition(s, e) == Ok(r)
    ensures MovesOn(s, e, r)
  {
    hide DecideAfterFailure, Fence, NumbersInv, ResultInv;
  }

  lemma StillTrueKept(o: Event, s: TaskState, e: Event, r: TaskState)
    requires !IsSystem(e.kind) && !e.kind.TaskCreated?
    requires StateInv(s) && StillTrue(o, s) && Transition(s, e) == Ok(r)
    requires e.kind.TaskClaimed? ==> e.dispatchId != o.dispatchId
    ensures StillTrue(o, r)
  {
    hide Transition, StateInv;
    TransitionMovesOn(s, e, r);
  }

  lemma NewEventTrue(s: TaskState, e: Event, r: TaskState)
    requires !IsSystem(e.kind) && !e.kind.TaskCreated?
    requires Transition(s, e) == Ok(r)
    ensures StillTrue(e, r)
    ensures e.dispatchId.Some? && !e.kind.TaskClaimed? && !e.kind.LateResultDiscarded? && NamesDispatch(e.kind) ==>
              e.dispatchId == s.dispatchId
  {
  }

  /** Where the dispatch of the next state comes from, and what never changes. */
  lemma NextDispatch(s: TaskState, e: Event, r: TaskState)
    requires !IsSystem(e.kind) && !e.kind.TaskCreated? && Transition(s, e) == Ok(r)
    ensures r.dispatchId.Some? ==> r.dispatchId == if e.kind.TaskClaimed? then e.dispatchId else s.dispatchId
    ensures r.dependsOn == s.dependsOn && r.createdSeq == s.createdSeq && r.taskId == s.taskId
  {
    match e.kind {
      case TaskClaimed =>
      case RetryAuthorized =>
      case _ =>
    }
  }

  /** Where the results of the next state come from. */
  lemma NextResults(s: TaskState, e: Event, r: TaskState)
    requires !IsSystem(e.kind) && !e.kind.TaskCreated?
    requires StateInv(s) && Transition(s, e) == Ok(r)
    ensures r.pendingResult.Some? ==>
              r.dispatchId == s.dispatchId
              && (r.pendingResult == s.pendingResult
                  || (e.kind.ResultReady? && r.pendingResult == e.resultId && e.dispatchId == s.dispatchId))
    ensures r.acceptedResult.Some? ==>
              r.dispatchId == s.dispatchId
              && (r.acceptedResult == s.acceptedResult || r.acceptedResult == s.pendingResult)
  {
    match e.kind {
      case TaskClaimed =>
      case EffectConfirmed =>
      case RetryAuthorized =>
      case TaskCancelled =>
      case _ =>
    }
  }

  lemma SystemKeepsFacts(log: seq<Sealed>, table: Table, x: Sealed)
    requires Facts(log, table) && IsSystem(x.event.kind) && WellKeyed(x.event)
    ensures Facts(log + [x], table)
  {
    IssuedSnoc(log, x);
    assert forall y | y in log :: y in log + [x];
    forall t | t in table ensures StateFact(log + [x], table, t) {
      ReportsKept(log, table, x, t);
    }
  }

  lemma ReportsKept(log: seq<Sealed>, table: Table, x: Sealed, t: Id)
    requires t in table && StateFact(log, table, t)
    ensures table[t].pendingResult.Some? ==> Reported(log + [x], t, table[t].dispatchId, table[t].pendingResult)
    ensures table[t].acceptedResult.Some? ==> Reported(log + [x], t, table[t].dispatchId, table[t].acceptedResult)
  {
    assert forall y | y in log :: y in log + [x];
  }

  lemma CreationKeepsFacts(log: seq<Sealed>, table: Table, x: Sealed)
    requires Facts(log, table) && Shaped(log, table, x.event) && x.event.kind.TaskCreated?
    requires x.event.taskId.value !in table
    requires forall t | t in table :: table[t].createdSeq < x.seqNo
    ensures Facts(log + [x], table[x.event.taskId.value := NewTask(x.event, x.seqNo)])
  {
    IssuedSnoc(log, x);
    var longer, next := log + [x], table[x.event.taskId.value := NewTask(x.event, x.seqNo)];
    forall y | y in longer ensures EventFact(longer, next, y.event) {
      assert y != x ==> y in log && EventFact(log, table, y.event);
    }
    forall t | t in next ensures StateFact(longer, next, t) {
      if t != x.event.taskId.value {
        assert StateFact(log, table, t);
        ReportsKept(log, table, x, t);
      }
    }
  }

  lemma TransitionKeepsEvents(log: seq<Sealed>, table: Table, x: Sealed, r: TaskState)
    requires Facts(log, table) && Shaped(log, table, x.event)
    requires !IsSystem(x.event.kind) && !x.event.kind.TaskCreated?
    requires x.event.taskId.value in table && StateInv(table[x.event.taskId.value])
    requires Transition(table[x.event.taskId.value], x.event) == Ok(r)
    ensures forall y | y in log + [x] :: EventFact(log + [x], table[x.event.taskId.value := r], y.event)
  {
    var id := x.event.taskId.value;
    var longer, next := log + [x], table[id := r];
    IssuedSnoc(log, x);
    assert StateFact(log, table, id);
    forall y | y in longer ensures EventFact(longer, next, y.event) {
      if y in log {
        assert EventFact(log, table, y.event);
        if y.event.taskId == Some(id) {
          StillTrueKept(y.event, table[id], x.event, r);
        }
      } else {
        NewEventTrue(table[id], x.event, r);
        assert y == x;
      }
    }
  }

  lemma TransitionKeepsState(log: seq<Sealed>, table: Table, x: Sealed, r: TaskState, next: Table)
    requires Facts(log, table) && Shaped(log, table, x.event)
    requires !IsSystem(x.event.kind) && !x.event.kind.TaskCreated?
    requires x.event.taskId.value in table && StateInv(table[x.event.taskId.value])
    requires Transition(table[x.event.taskId.value], x.event) == Ok(r)
    requires next == table[x.event.taskId.value := r]
    ensures forall t | t in next :: StateFact(log + [x], next, t)
  {
    var id := x.event.taskId.value;
    NextDispatch(table[id], x.event, r);
    forall t | t in next ensures StateFact(log + [x], next, t) {
      assert StateFact(log, table, t);
      if t == id {
        OwnStateKept(log, table, x, r, next);
      } else {
        OtherStateKept(log, table, x, t, next);
      }
    }
  }

  lemma OwnStateKept(log: seq<Sealed>, table: Table, x: Sealed, r: TaskState, next: Table)
    requires x.event.taskId.Some? && x.event.taskId.value in table && StateFact(log, table, x.event.taskId.value)
    requires Shaped(log, table, x.event) && !IsSystem(x.event.kind) && !x.event.kind.TaskCreated?
    requires StateInv(table[x.event.taskId.value]) && Transition(table[x.event.taskId.value], x.event) == Ok(r)
    requires next == table[x.event.taskId.value := r]
    ensures StateFact(log + [x], next, x.event.taskId.value)
  {
    var id := x.event.taskId.value;
    IssuedSnoc(log, x);
    NextDispatch(table[id], x.event, r);
    NextResults(table[id], x.event, r);
    ReportsKept(log, table, x, id);
    assert x in log + [x];
    assert x.event.kind.ResultReady? ==> IsReport(x, id, x.event.dispatchId, x.event.resultId);
    hide Transition, StateInv;
  }

  lemma OtherStateKept(log: seq<Sealed>, table: Table, x: Sealed, t: Id, next: Table)
    requires x.event.taskId.Some? && x.event.taskId.value in table && x.event.taskId.value in next
    requires next == table[x.event.taskId.value := next[x.event.taskId.value]]
    requires next[x.event.taskId.value].createdSeq == table[x.event.taskId.value].createdSeq
    requires Shaped(log, table, x.event) && t in table && t != x.event.taskId.value && StateFact(log, table, t)
    ensures StateFact(log + [x], next, t)
  {
    IssuedSnoc(log, x);
    ReportsKept(log, table, x, t);
  }

  lemma UpdatedSeqIsFree(log: seq<Sealed>, table: Table, id: Id, r: TaskState, at: int)
    requires id in table && Facts(log, table[id := r])
    ensures Facts(log, table[id := r.(updatedSeq := at)])
  {
    var a, b := table[id := r], table[id := r.(updatedSeq := at)];
    forall y | y in log ensures EventFact(log, b, y.event) {
      assert EventFact(log, a, y.event);
    }
    forall t | t in b ensures StateFact(log, b, t) {
      assert StateFact(log, a, t);
    }
  }

  /** The controller's appends keep the facts. */
  lemma AppendKeepsFacts(log: seq<Sealed>, table: Table, x: Sealed, next: Table)
    requires Facts(log, table) && TableInv(table) && Shaped(log, table, x.event)
    requires forall t | t in table :: table[t].createdSeq < x.seqNo
    requires Project(table, x) == Ok(next)
    ensures Facts(log + [x], next)
  {
    if IsSystem(x.event.kind) {
      SystemKeepsFacts(log, table, x);
    } else if x.event.kind.TaskCreated? {
      CreationKeepsFacts(log, table, x);
    } else {
      var id := x.event.taskId.value;
      var r := Transition(table[id], x.event).value;
      TransitionKeepsEvents(log, table, x, r);
      TransitionKeepsState(log, table, x, r, table[id := r]);
      UpdatedSeqIsFree(log + [x], table, id, r, x.seqNo);
      NextDispatch(table[id], x.event, r);
      assert next == table[id := r.(updatedSeq := x.seqNo)];
    }
  }

  // ------------------------------------------------------------- keys the controller may use

  /** Whether the state still leaves room for an event of this kind. */
  predicate KeyOpen(s: TaskState, e: Event) {
    match e.kind
    case TaskClaimed => e.attempt.value > s.attempt
    case TaskStarted => s.status.Claimed? && e.dispatchId == s.dispatchId
    case LeaseExpired => ActiveLease(s.status) && e.dispatchId == s.dispatchId
    case ResultAccepted => s.acceptedResult.None?
    case TaskComplete => !s.status.Complete?
    case TaskCreated => false
    case ResultReady => false
    case EffectConfirmed => false
    case RetryAuthorized => false
    case LateResultDiscarded => false
    case _ => e.dedupeKey.None?
  }

  /** No event is stored under the key of an effect the state still leaves open: nothing the controller
      appends unconditionally can be swallowed as a duplicate or refused as a conflict. */
  lemma OpenKeyIsFree(log: seq<Sealed>, table: Table, e: Event)
    requires Facts(log, table) && WellKeyed(e)
    requires e.taskId.Some? && e.taskId.value in table && KeyOpen(table[e.taskId.value], e)
    ensures Stored(log, e.dedupeKey).None?
  {
    StoredFinds(log, e.dedupeKey);
    var found := Stored(log, e.dedupeKey);
    if found.Some? {
      KeyNotOpen(log, table, found.value.event, e);
    }
  }

  /** The effect of a stored event is not open. */
  lemma KeyNotOpen(log: seq<Sealed>, table: Table, o: Event, e: Event)
    requires WellKeyed(e) && e.dedupeKey.Some? && o.dedupeKey == e.dedupeKey
    requires e.taskId.Some? && e.taskId.value in table
    requires EventFact(log, table, o) && StateFact(log, table, e.taskId.value)
    ensures !KeyOpen(table[e.taskId.value], e)
  {
    SameKeySameEffect(o, e);
  }

  /** The key under which the controller looks up the report of a result. */
  function ReportKey(d: Option<Id>, r: Option<Id>): Option<string> {
    Some("result" + ":" + (Text(d) + ":" + Text(r)))
  }

  /** The report behind the current or accepted result is stored under the key the controller looks up. */
  lemma ReportIsStored(hash: Material -> Digest, log: seq<Sealed>, table: Table, t: Id, d: Option<Id>, r: Option<Id>)
    requires ChainInv(hash, log) && Facts(log, table) && Reported(log, t, d, r)
    ensures Stored(log, ReportKey(d, r)).Some? && Stored(log, ReportKey(d, r)).value in log
    ensures IsReport(Stored(log, ReportKey(d, r)).value, t, d, r)
  {
    var x :| x in log && IsReport(x, t, d, r);
    assert EventFact(log, table, x.event);
    var i: nat :| i < |log| && log[i] == x;
    assert x.event.dedupeKey == ReportKey(d, r);
    StoredIsUnique(log, ReportKey(d, r), i);
  }

  /** The first claim of a dispatch names its task, and, while the task still has that dispatch, its current
      attempt and worker. */
  lemma ClaimMatchesState(log: seq<Sealed>, table: Table, x: Sealed, d: Id)
    requires Facts(log, table) && x in log && x.event.kind.TaskClaimed? && x.event.dispatchId == Some(d)
    ensures x.event.taskId.value in table
    ensures Minted(Some(d)) && Minted(x.event.taskId)
    ensures Owns(log, x.event.taskId, Some(d))
    ensures table[x.event.taskId.value].dispatchId == Some(d) ==>
              && x.event.attempt == Some(table[x.event.taskId.value].attempt)
              && x.event.workerId == table[x.event.taskId.value].workerId
  {
    assert EventFact(log, table, x.event);
  }

  // ------------------------------------------------------------- every moment of the past

  /** An unsettled task is settled by the very next event about it, in the way recovery would settle it. */
  predicate Prompt(table: Table, e: Event, next: Table) {
    e.taskId.Some? && e.taskId.value in table && !Settled(table[e.taskId.value]) ==>
      e.taskId.value in next && SameOutcome(next[e.taskId.value], Settle(table[e.taskId.value]))
  }

  predicate PastAt(log: seq<Sealed>, ts: seq<Table>, n: nat) {
    && n <= |log| && n < |ts| && Facts(log[..n], ts[n])
    && (n < |log| && n + 1 < |ts| ==> Prompt(ts[n], log[n].event, ts[n + 1]))
  }

  /** What held after each single append: a crash may cut the log anywhere. */
  predicate Past(log: seq<Sealed>, ts: seq<Table>) {
    forall n: nat | n <= |log| :: PastAt(log, ts, n)
  }

  lemma PastExtends(log: seq<Sealed>, ts: seq<Table>, longer: seq<Sealed>, ts': seq<Table>)
    requires Past(log, ts) && |ts| == |log| + 1
    requires log <= longer && |longer| == |log| + 1 && ts <= ts' && |ts'| == |longer| + 1
    requires Facts(longer, ts'[|longer|])
    requires Prompt(ts[|log|], longer[|log|].event, ts'[|longer|])
    ensures Past(longer, ts')
  {
    forall n: nat | n <= |longer| ensures PastAt(longer, ts', n) {
      if n <= |log| {
        assert PastAt(log, ts, n);
        assert longer[..n] == log[..n];
      } else {
        assert longer[..n] == longer;
      }
    }
  }

  lemma PastPrefix(log: seq<Sealed>, ts: seq<Table>, n: nat)
    requires Past(log, ts) && |ts| == |log| + 1 && n <= |log|
    ensures Past(log[..n], ts[..n + 1]) && Facts(log[..n], ts[n])
  {
    assert PastAt(log, ts, n);
    var l, t := log[..n], ts[..n + 1];
    forall k: nat | k <= n ensures PastAt(l, t, k) {
      assert PastAt(log, ts, k);
      assert l[..k] == log[..k];
    }
  }
}
