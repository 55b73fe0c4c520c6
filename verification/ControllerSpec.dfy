/** What the controller's operations promise, as functions and predicates on tables and leases, with the
    lemmas its methods use. */
module ControllerSpec {
  import opened Options
  import opened Events
  import opened Records
  import opened Chain
  import opened StateMachine
  import opened Projection
  import opened Journal
  import opened JournalFile
  import opened ControllerLog
  import opened ControllerSteps
  import opened Runtime
  import opened Verification

  /** The answer to a request: a value, or an error status and code. */
  datatype Reply<+T> = Granted(value: T) | Denied(status: int, code: string)

  // ------------------------------------------------------------- what a request may hold

  const MAX_ARTIFACTS := 1000
  const MAX_REASON_LENGTH := 2000
  const MAX_HEARTBEAT_DISPATCHES := 256

  predicate ResultFits(d: Id, resultId: Id, payload: Payload)
    requires payload.Report?
  {
    && 1 <= |d| <= 200 && 1 <= |resultId| <= 200 && |payload.artifacts| <= 1000
    && (payload.outcome.Success? || payload.outcome.Failure?)
    && (payload.note.Some? ==> |payload.note.value| <= 2000)
  }

  predicate HeartbeatFits(worker: Id, dispatches: seq<Id>) {
    1 <= |worker| <= 200 && |dispatches| <= 256 && forall d | d in dispatches :: 1 <= |d| <= 200
  }

  predicate CancelFits(actor: Option<Id>, reason: Option<string>) {
    && (actor.Some? ==> 1 <= |actor.value| <= 200)
    && (reason.Some? ==> |reason.value| <= 2000 && !Blank(reason.value))
  }

  predicate DecisionFits(attempt: int, actor: Id, reason: string) {
    1 <= |actor| <= 200 && 1 <= attempt <= 100 && |reason| <= 2000 && !Blank(reason)
  }

  /** What a creation request may hold. */
  predicate CreationFits(t: Id, p: Payload)
    requires p.Creation?
  {
    && (NamesAdapter(p.adapter) || (p.adapter != "" && p.adapter[|p.adapter| - 1] == '\n'
                                    && NamesAdapter(p.adapter[..|p.adapter| - 1])))
    && (p.effectClass.Idempotent? || p.effectClass.NonIdempotent?)
    && 1 <= p.maxAttempts <= 100 && 1 <= p.leaseTtl <= 3600
    && (p.timeout.Some? ==> 1 <= p.timeout.value <= 604800)
    && (p.dependsOn.Some? ==> 1 <= |p.dependsOn.value| <= 200 && p.dependsOn.value != t)
  }

  predicate NamesAdapter(s: string) {
    && 0 < |s| < 65 && s[0] in "abcdefghijklmnopqrstuvwxyz"
    && forall c | c in s :: c in "abcdefghijklmnopqrstuvwxyz0123456789_"
  }

  method CheckResult(d: Id, resultId: Id, payload: Payload) returns (ok: bool)
    requires payload.Report?
    ensures ok == ResultFits(d, resultId, payload)
    ensures ok ==> IsId(resultId)
  {
    var noteFits := payload.note.None? || |payload.note.value| <= MAX_REASON_LENGTH;
    ok := IsId(d) && IsId(resultId) && |payload.artifacts| <= MAX_ARTIFACTS && !payload.outcome.OtherOutcome? && noteFits;
  }

  method CheckHeartbeat(worker: Id, dispatches: seq<Id>) returns (ok: bool)
    ensures ok == HeartbeatFits(worker, dispatches)
  {
    ok := IsId(worker) && |dispatches| <= MAX_HEARTBEAT_DISPATCHES && forall d | d in dispatches :: IsId(d);
  }

  method CheckCancel(actor: Option<Id>, reason: Option<string>) returns (ok: bool)
    ensures ok == CancelFits(actor, reason)
    ensures ok ==> ValidId(actor)
  {
    ok := ValidId(actor);
    if ok && reason.Some? {
      ok := CheckReason(reason.value);
    }
  }

  method CheckDecision(attempt: int, actor: Id, reason: string) returns (ok: bool)
    ensures ok == DecisionFits(attempt, actor, reason)
    ensures ok ==> IsId(actor)
  {
    ok := CheckReason(reason);
    ok := ok && IsId(actor) && 1 <= attempt <= MAX_ATTEMPTS_LIMIT;
  }

  method CheckReason(reason: string) returns (ok: bool)
    ensures ok <==> |reason| <= 2000 && !Blank(reason)
  {
    ok := |reason| <= MAX_REASON_LENGTH && !Blank(reason);
  }

  method CheckCreation(t: Id, p: Payload) returns (ok: bool)
    requires p.Creation? && Minted(Some(t))
    ensures ok == CreationAccepted(t, p) == CreationFits(t, p)
  {
    ok := CreationAccepted(t, p);
    AcceptedMeans(t, p);
  }

  // ------------------------------------------------------------- the journal behind an operation

  /** What one controller append does to a store: the row of its task is rewritten, nothing else. */
  lemma EmitKeepsFacts(hash: Material -> Digest, st: Store, ts: seq<Table>, x: Sealed, next: Table)
    requires StoreInv(hash, st, ts) && Facts(st.log, st.table)
    requires x.seqNo == |st.log| + 1 && Shaped(st.log, st.table, x.event)
    requires Project(st.table, x) == Ok(next)
    ensures Facts(st.log + [x], next)
  {
    TableInvHolds(st.log, ts, |st.log|);
    CreatedInvHolds(hash, st, ts, |st.log|);
    AppendKeepsFacts(st.log, st.table, x, next);
  }

  /** The deadline of a lease after a tick at time now has allowed for a suspended machine. */
  function Deadline(l: Lease, lastTick: Option<real>, now: real): real {
    if lastTick.Some? && now - lastTick.value > SUSPEND_GAP then l.deadline + (now - lastTick.value) else l.deadline
  }

  const SUSPEND_GAP: real := 5.0

  function Moved(leases: map<Id, Lease>, lastTick: Option<real>, now: real): map<Id, Lease> {
    map d | d in leases :: leases[d].(deadline := Deadline(leases[d], lastTick, now))
  }

  /** The lease of dispatch d on task t is among those expired. */
  predicate Gone(before: map<Id, Lease>, after: map<Id, Lease>, d: Id, t: Id) {
    d in before && before[d].taskId == t && d !in after
  }

  /** Row r is what a tick makes of row s while the leases in moved but not in after have been expired. */
  predicate RowAfter(s: TaskState, r: TaskState, t: Id, moved: map<Id, Lease>, after: map<Id, Lease>) {
    if s.dispatchId.Some? && Gone(moved, after, s.dispatchId.value, t)
    then Same(r, Decided(Expired(s, moved[s.dispatchId.value].reason)))
    else r == s
  }

  lemma NothingGone(table: Table, leases: map<Id, Lease>)
    ensures forall t | t in table :: RowAfter(table[t], table[t], t, leases, leases)
  {
  }

  lemma GoneDispatch(s: TaskState, r: TaskState, t: Id, moved: map<Id, Lease>, held: map<Id, Lease>)
    requires s.dispatchId.Some? && Gone(moved, held, s.dispatchId.value, t) && RowAfter(s, r, t, moved, held)
    ensures r.dispatchId.None? || r.dispatchId == s.dispatchId
  {
    var e := Expired(s, moved[s.dispatchId.value].reason);
    SameDispatch(r, Decided(e));
    DecidedDispatch(e);
  }

  lemma SameDispatch(a: TaskState, b: TaskState)
    requires Same(a, b)
    ensures a.dispatchId == b.dispatchId && a.status == b.status
  {
    assert a.(updatedSeq := 0).dispatchId == b.(updatedSeq := 0).dispatchId;
    assert a.(updatedSeq := 0).status == b.(updatedSeq := 0).status;
  }

  lemma DecidedDispatch(s: TaskState)
    requires s.status.RetryPending?
    ensures Decided(s).dispatchId.None? || Decided(s).dispatchId == s.dispatchId
  {
  }

  /** The row of a dispatch that is still leased is as it was before the tick. */
  lemma StillHeld(s: TaskState, r: TaskState, t: Id, moved: map<Id, Lease>, held: map<Id, Lease>, d: Id)
    requires RowAfter(s, r, t, moved, held) && r.dispatchId == Some(d) && d in held
    ensures r == s
  {
    hide Same, Decided, Expired;
    if s.dispatchId.Some? && Gone(moved, held, s.dispatchId.value, t) {
      GoneDispatch(s, r, t, moved, held);
    }
  }

  lemma RowsAfterStep(before: Table, table: Table, next: Table, moved: map<Id, Lease>, held: map<Id, Lease>,
                      after: map<Id, Lease>, d: Id)
    requires table.Keys == before.Keys && held.Keys <= moved.Keys && d in held && held[d] == moved[d]
    requires forall t | t in before :: RowAfter(before[t], table[t], t, moved, held)
    requires after == held - {d} && held[d].taskId in table && held[d].taskId in next && table[held[d].taskId].dispatchId == Some(d)
    requires next == table[held[d].taskId := next[held[d].taskId]]
    requires Same(next[held[d].taskId], Decided(Expired(table[held[d].taskId], held[d].reason)))
    ensures next.Keys == before.Keys
    ensures forall t | t in before :: RowAfter(before[t], next[t], t, moved, after)
  {
    hide Same, Decided, Expired;
    var id := held[d].taskId;
    StillHeld(before[id], table[id], id, moved, held, d);
    forall t | t in before ensures RowAfter(before[t], next[t], t, moved, after) {
      assert RowAfter(before[t], table[t], t, moved, held);
      assert t != id ==> next[t] == table[t];
    }
  }

  lemma {:induction false} NotIssued(log: seq<Sealed>, d: Id)
    ensures d !in Issued(log) <==> forall i: nat | i < |log| :: !IssuesDispatch(log[i].event, d)
  {
    if log != [] {
      var m := |log| - 1;
      NotIssued(log[..m], d);
      assert forall i: nat | i < m :: log[..m][i] == log[i];
      assert d !in Issued(log) <==> d !in Issued(log[..m]) && !IssuesDispatch(log[m].event, d);
      hide Issued, IssuesDispatch;
    }
  }

  const MAX_LEASE_TTL := 3600
  const MAX_TIMEOUT := 7 * 24 * 3600

  /** One lower-case letter, then up to 63 lower-case letters, digits or underscores; the anchored match also lets one
      newline follow. */
  predicate IsAdapterName(s: string) {
    IsBareName(s) || (s != "" && s[|s| - 1] == '\n' && IsBareName(s[..|s| - 1]))
  }

  predicate IsBareName(s: string) {
    && 1 <= |s| <= 64 && 'a' <= s[0] <= 'z'
    && forall c | c in s :: 'a' <= c <= 'z' || '0' <= c <= '9' || c == '_'
  }

  function CreationOf(t: Id, p: Payload): EventData {
    EventData(TaskCreated, Some(t), None, None, None, None, p, None).WithKey()
  }

  predicate CreationAccepted(t: Id, p: Payload)
    requires p.Creation?
  {
    && IsAdapterName(p.adapter) && p.leaseTtl <= MAX_LEASE_TTL
    && (p.timeout.Some? ==> p.timeout.value <= MAX_TIMEOUT)
    && CreationOf(t, p).Valid()
  }

  lemma AdapterCharacters(s: string)
    ensures IsBareName(s) <==> NamesAdapter(s)
  {
    forall c | c in s
      ensures 'a' <= c <= 'z' <==> c in "abcdefghijklmnopqrstuvwxyz"
      ensures 'a' <= c <= 'z' || '0' <= c <= '9' || c == '_' <==> c in "abcdefghijklmnopqrstuvwxyz0123456789_"
    {
      AdapterCharacter(c);
    }
    assert s != "" ==> s[0] in s;
  }

  lemma AdapterCharacter(c: char)
    ensures 'a' <= c <= 'z' <==> c in "abcdefghijklmnopqrstuvwxyz"
    ensures 'a' <= c <= 'z' || '0' <= c <= '9' || c == '_' <==> c in "abcdefghijklmnopqrstuvwxyz0123456789_"
  {
  }

  lemma AcceptedMeans(t: Id, p: Payload)
    requires p.Creation? && Minted(Some(t))
    ensures CreationAccepted(t, p) <==> CreationFits(t, p)
  {
    AdapterCharacters(p.adapter);
    if p.adapter != "" {
      AdapterCharacters(p.adapter[..|p.adapter| - 1]);
    }
    hide IsBareName, NamesAdapter;
  }

  predicate IsCreationOf(e: Event, t: Id, p: Payload) {
    e == EventData(TaskCreated, Some(t), None, None, None, None, p, e.dedupeKey)
  }

  /** Task t was created with exactly this payload. */
  predicate CreatedWith(log: seq<Sealed>, t: Id, p: Payload) {
    exists x :: x in log && IsCreationOf(x.event, t, p)
  }

  lemma CreatedMeans(log: seq<Sealed>, table: Table, t: Id, p: Payload)
    requires Facts(log, table)
    ensures CreatedWith(log, t, p) <==> exists x :: x in log && x.event == CreationOf(t, p)
  {
    forall x | x in log ensures IsCreationOf(x.event, t, p) <==> x.event == CreationOf(t, p) {
      assert EventFact(log, table, x.event);
    }
  }

  /** The row of a task that has just been created. */
  predicate FreshRow(s: TaskState, t: Id, p: Payload, at: int)
    requires p.Creation?
  {
    && s.taskId == t && s.status.Queued? && s.adapter == p.adapter && s.params == p.params
    && s.effectClass == p.effectClass && s.maxAttempts == p.maxAttempts && s.leaseTtl == p.leaseTtl
    && s.timeout == p.timeout && s.dependsOn == p.dependsOn
    && s.attempt == 0 && s.dispatchId.None? && s.workerId.None? && !s.started && !s.cancelRequested
    && s.pendingResult.None? && s.acceptedResult.None? && s.failureKind.None? && s.retryable.None?
    && s.lastReason.None? && s.lateResults == 0 && s.resolution.None? && s.decidedBy.None? && s.input.None?
    && s.createdSeq == at && s.updatedSeq == at
  }

  /** The event reports this result of the dispatch that claim c issued. */
  predicate IsReportOf(e: Event, c: Event, d: Id, resultId: Id, payload: Payload) {
    e == EventData(ResultReady, c.taskId, c.attempt, Some(d), c.workerId, Some(resultId), payload, e.dedupeKey)
  }

  /** The same report is stored already. */
  predicate ReportedAlike(log: seq<Sealed>, c: Event, d: Id, resultId: Id, payload: Payload) {
    exists x :: x in log && IsReportOf(x.event, c, d, resultId, payload)
  }

  /** Another report is stored for this result of the dispatch. */
  predicate ReportedOtherwise(log: seq<Sealed>, c: Event, d: Id, resultId: Id, payload: Payload) {
    exists x :: x in log && x.event.kind.ResultReady? && x.event.dispatchId == Some(d)
                && x.event.resultId == Some(resultId) && !IsReportOf(x.event, c, d, resultId, payload)
  }

  lemma AlikeIsValid(log: seq<Sealed>, table: Table, c: Event, d: Id, resultId: Id, payload: Payload)
    requires Facts(log, table) && ReportedAlike(log, c, d, resultId, payload)
    ensures ReportOf(c, d, resultId, payload).Valid()
  {
    hide EventData.Valid;
    var x :| x in log && IsReportOf(x.event, c, d, resultId, payload);
    assert EventFact(log, table, x.event);
    assert x.event == ReportOf(c, d, resultId, payload);
  }

  /** What the report's key finds, in terms of the stored reports. */
  lemma ReportSeen(hash: Material -> Digest, log: seq<Sealed>, table: Table, c: Event, d: Id, resultId: Id, payload: Payload)
    requires ChainInv(hash, log) && Facts(log, table) && payload.Report?
    requires Minted(c.taskId) && Minted(Some(d)) && ReportOf(c, d, resultId, payload).Valid()
    ensures var report := ReportOf(c, d, resultId, payload);
            var seen := Stored(log, report.dedupeKey);
            && (ReportedAlike(log, c, d, resultId, payload) <==> seen.Some? && seen.value.event.Content() == report.Content())
            && (ReportedOtherwise(log, c, d, resultId, payload)
                <==> seen.Some? && seen.value.event.Content() != report.Content())
  {
    hide EventData.Valid;
    var report: Event := ReportOf(c, d, resultId, payload);
    StoredFinds(log, report.dedupeKey);
    var seen := Stored(log, report.dedupeKey);
    forall x | x in log
      ensures IsReportOf(x.event, c, d, resultId, payload) <==> x.event == report
      ensures x.event.kind.ResultReady? && x.event.dispatchId == Some(d) && x.event.resultId == Some(resultId)
              <==> x.event.dedupeKey == report.dedupeKey
      ensures x.event.dedupeKey == report.dedupeKey ==> seen == Some(x)
    {
      assert EventFact(log, table, x.event);
      if x.event.dedupeKey == report.dedupeKey {
        SameKeySameEffect(x.event, report);
        var i: nat :| i < |log| && log[i] == x;
        StoredIsUnique(log, report.dedupeKey, i);
      }
    }
    if seen.Some? {
      ContentIsEvent(seen.value.event, report);
    }
    hide Stored, ChainInv, Facts, IsReportOf, ReportOf, EventData.Content;
  }

  /** No attempt is under way and no human decision is pending. */
  predicate Idle(table: Table) {
    forall t | t in table ::
      !ActiveLease(table[t].status) && !table[t].status.Verifying? && !table[t].status.Blocked?
  }

  predicate HasArtifacts(log: seq<Sealed>, t: Id, d: Option<Id>, r: Option<Id>) {
    exists x :: x in log && IsReport(x, t, d, r) && x.event.payload.artifacts != []
  }

  /** The task's dependency has ended and will never provide an input. */
  predicate Unusable(log: seq<Sealed>, table: Table, task: TaskState) {
    && task.dependsOn.Some? && task.dependsOn.value in table
    && var dep := table[task.dependsOn.value];
    && Terminal(dep.status)
    && !(dep.status.Complete? && dep.resolution == Some(Verified)
         && HasArtifacts(log, task.dependsOn.value, dep.dispatchId, dep.acceptedResult))
  }

  /** The task's dependency has not ended yet. */
  predicate Waiting(table: Table, task: TaskState) {
    task.dependsOn.Some? && task.dependsOn.value in table && !Terminal(table[task.dependsOn.value].status)
  }

  /** The row is untouched, or it was queued and has been failed because its dependency is of no use. */
  predicate FailedOrSame(log: seq<Sealed>, table: Table, s: TaskState, r: TaskState) {
    r == s || (s.status.Queued? && r.status.Failed? && Unusable(log, table, s))
  }

  /** The queued task could not be claimed: it has been failed, or it still waits. */
  predicate PassedOver(before: Table, table: Table, t: Id)
    requires t in before && t in table
  {
    table[t].status.Failed? || (table[t] == before[t] && Waiting(table, before[t]))
  }

  predicate NoNewReports(log: seq<Sealed>, longer: seq<Sealed>) {
    log <= longer && forall x | x in longer && x.event.kind.ResultReady? :: x in log
  }

  lemma UnusableKept(log: seq<Sealed>, longer: seq<Sealed>, table: Table, next: Table, task: TaskState, id: Id)
    requires Unusable(log, table, task) && NoNewReports(log, longer)
    requires id in table && table[id].status.Queued? && id in next && next == table[id := next[id]]
    ensures Unusable(longer, next, task)
  {
    var dep := table[task.dependsOn.value];
    if HasArtifacts(longer, task.dependsOn.value, dep.dispatchId, dep.acceptedResult) {
      var x :| x in longer && IsReport(x, task.dependsOn.value, dep.dispatchId, dep.acceptedResult)
               && x.event.payload.artifacts != [];
      assert x in log;
      assert HasArtifacts(log, task.dependsOn.value, dep.dispatchId, dep.acceptedResult);
    }
  }

  lemma OneMoreIsNoReport(log: seq<Sealed>, longer: seq<Sealed>)
    requires |longer| == |log| + 1 && log <= longer && !longer[|log|].event.kind.ResultReady?
    ensures NoNewReports(log, longer)
  {
    assert longer == log + [longer[|log|]];
  }

  /** The report behind a result is one event. */
  lemma OneReport(hash: Material -> Digest, log: seq<Sealed>, x: Sealed, y: Sealed, t: Id, d: Option<Id>, r: Option<Id>)
    requires ChainInv(hash, log) && x in log && y in log && WellKeyed(x.event) && WellKeyed(y.event)
    requires IsReport(x, t, d, r) && IsReport(y, t, d, r)
    ensures x == y
  {
    assert x.event.dedupeKey == y.event.dedupeKey;
    var i :| 0 <= i < |log| && log[i] == x;
    var j :| 0 <= j < |log| && log[j] == y;
  }

  /** The input of a claim is exactly the artifact list of the dependency's accepted report. */
  predicate InputVerified(log: seq<Sealed>, table: Table, task: TaskState, input: Option<Input>) {
    if task.dependsOn.None? then input.None?
    else
      && input.Some? && task.dependsOn.value in table
      && var dep := table[task.dependsOn.value];
      && dep.status.Complete? && dep.resolution == Some(Verified)
      && input.value.taskId == task.dependsOn.value
      && dep.dispatchId == Some(input.value.dispatchId) && dep.acceptedResult == Some(input.value.resultId)
      && input.value.artifacts != []
      && exists x :: x in log && IsReport(x, input.value.taskId, dep.dispatchId, dep.acceptedResult)
                     && x.event.payload.artifacts == input.value.artifacts
  }

  /** The task's row is the task's next attempt, claimed by the worker with a verified input; nothing else has changed. */
  predicate ClaimedWithInput(log: seq<Sealed>, table: Table, t: Id, task: TaskState, d: Id, worker: Id)
    requires t in table
  {
    var r := table[t];
    && InputVerified(log, table, task, r.input)
    && r.status.Claimed? && r.attempt == task.attempt + 1 && r.dispatchId == Some(d) && r.workerId == Some(worker)
    && !r.started && r.pendingResult.None? && r.failureKind.None? && r.retryable.None? && r.lastReason.None?
    && r.(updatedSeq := 0, status := Queued, attempt := 0, dispatchId := None, workerId := None, started := false,
          pendingResult := None, failureKind := None, retryable := None, lastReason := None, input := None)
       == task.(updatedSeq := 0, status := Queued, attempt := 0, dispatchId := None, workerId := None, started := false,
                pendingResult := None, failureKind := None, retryable := None, lastReason := None, input := None)
  }

  lemma ClaimedMeans(log: seq<Sealed>, table: Table, t: Id, task: TaskState, d: Id, worker: Id, input: Option<Input>)
    requires t in table && InputVerified(log, table, task, input)
    requires Same(table[t], ClaimedState(task, d, worker, input))
    ensures ClaimedWithInput(log, table, t, task, d, worker)
  {
    SameFields(table[t], ClaimedState(task, d, worker, input));
    hide InputVerified;
  }

  lemma InputVerifiedFits(log: seq<Sealed>, table: Table, task: TaskState, input: Option<Input>)
    requires InputVerified(log, table, task, input) && Sound(task)
    requires task.dependsOn.Some? ==> Sound(table[task.dependsOn.value])
    ensures InputFits(task, input)
  {
  }

  lemma InputVerifiedKept(log: seq<Sealed>, longer: seq<Sealed>, table: Table, next: Table, task: TaskState,
                          input: Option<Input>)
    requires InputVerified(log, table, task, input) && log <= longer && task.status.Queued?
    requires task.taskId in table && task.taskId in next && table[task.taskId] == task
    requires next == table[task.taskId := next[task.taskId]]
    ensures InputVerified(longer, next, task, input)
  {
    if task.dependsOn.Some? {
      var dep := table[task.dependsOn.value];
      var x :| x in log && IsReport(x, input.value.taskId, dep.dispatchId, dep.acceptedResult)
               && x.event.payload.artifacts == input.value.artifacts;
      assert x in longer;
    }
  }

  predicate HeldBy(leases: map<Id, Lease>, d: Id, worker: Id) {
    d in leases && leases[d].workerId == worker
  }

  predicate CancelWanted(table: Table, l: Lease) {
    l.taskId in table && table[l.taskId].cancelRequested
  }

  lemma CancelWantedIs(table: Table, leases: map<Id, Lease>, d: Id)
    ensures d in leases && leases[d].taskId in table ==>
              (CancelWanted(table, leases[d]) <==> table[leases[d].taskId].cancelRequested)
  {
  }

  function Renewed(l: Lease, now: real): Lease {
    l.(deadline := now + l.ttl as real, reason := "ttl")
  }

  /** A heartbeat that has gone through a set of the reported dispatches. */
  predicate RenewState(table: Table, held: map<Id, Lease>, worker: Id, seen: set<Id>, stop: set<Id>, cancel: set<Id>,
                       leases: map<Id, Lease>, now: real) {
    && stop == (set d | d in seen && !HeldBy(held, d, worker))
    && cancel == (set d | d in seen && HeldBy(held, d, worker) && CancelWanted(table, held[d]))
    && leases.Keys == held.Keys
    && forall d | d in leases :: leases[d] == if d in seen && HeldBy(held, d, worker) then Renewed(held[d], now) else held[d]
  }

  lemma RenewStarts(table: Table, held: map<Id, Lease>, worker: Id, now: real)
    ensures RenewState(table, held, worker, {}, {}, {}, held, now)
  {
  }

  lemma RenewOne(table: Table, held: map<Id, Lease>, worker: Id, seen: set<Id>, stop: set<Id>, cancel: set<Id>,
                 leases: map<Id, Lease>, now: real, d: Id)
    requires RenewState(table, held, worker, seen, stop, cancel, leases, now) && d !in seen
    ensures d in leases <==> d in held
    ensures d in held ==> leases[d] == held[d]
    ensures !HeldBy(held, d, worker) ==> RenewState(table, held, worker, seen + {d}, stop + {d}, cancel, leases, now)
    ensures HeldBy(held, d, worker) ==>
              RenewState(table, held, worker, seen + {d}, stop, cancel + (if CancelWanted(table, held[d]) then {d} else {}),
                         leases[d := Renewed(held[d], now)], now)
  {
    hide CancelWanted, Renewed;
  }

  lemma RenewEnds(table: Table, held: map<Id, Lease>, worker: Id, seen: set<Id>, stop: set<Id>, cancel: set<Id>,
                  leases: map<Id, Lease>, now: real)
    requires RenewState(table, held, worker, seen, stop, cancel, leases, now)
    requires forall d | d in held :: LeaseOk(table, d, held[d])
    ensures SameLeases(held, leases)
  {
  }

  /** The worker no longer reports this cancelled dispatch of its own. */
  predicate Confirmed(table: Table, leases: map<Id, Lease>, worker: Id, reported: set<Id>, d: Id) {
    HeldBy(leases, d, worker) && d !in reported && CancelWanted(table, leases[d])
  }

  /** Row r is what confirmed stops make of row s. */
  predicate StopRow(s: TaskState, r: TaskState, t: Id, before: map<Id, Lease>, after: map<Id, Lease>) {
    if s.dispatchId.Some? && Gone(before, after, s.dispatchId.value, t)
    then Same(r, CancelledState(s, None))
    else r == s
  }

  lemma NothingStopped(table: Table, leases: map<Id, Lease>)
    ensures forall t | t in table :: StopRow(table[t], table[t], t, leases, leases)
  {
  }

  /** A lease still held belongs to a row that is still as it was. */
  lemma LeaseStillUntouched(before: Table, table: Table, renewed: map<Id, Lease>, held: map<Id, Lease>, d: Id)
    requires table.Keys == before.Keys && d in held && d in renewed && held[d] == renewed[d]
    requires LeaseOk(table, d, held[d])
    requires forall t | t in before :: StopRow(before[t], table[t], t, renewed, held)
    ensures table[held[d].taskId] == before[held[d].taskId]
  {
    hide Same;
    var t := held[d].taskId;
    assert StopRow(before[t], table[t], t, renewed, held);
    if before[t].dispatchId.Some? && Gone(renewed, held, before[t].dispatchId.value, t) {
      SameDispatch(table[t], CancelledState(before[t], None));
    }
  }

  lemma StopRowsStep(before: Table, table: Table, next: Table, renewed: map<Id, Lease>, held: map<Id, Lease>,
                     after: map<Id, Lease>, d: Id)
    requires table.Keys == before.Keys && held.Keys <= renewed.Keys && d in held && held[d] == renewed[d]
    requires forall t | t in before :: StopRow(before[t], table[t], t, renewed, held)
    requires after == held - {d} && held[d].taskId in table && held[d].taskId in next
    requires table[held[d].taskId].dispatchId == Some(d) && table[held[d].taskId] == before[held[d].taskId]
    requires next == table[held[d].taskId := next[held[d].taskId]]
    requires Same(next[held[d].taskId], CancelledState(table[held[d].taskId], None))
    ensures next.Keys == before.Keys
    ensures forall t | t in before :: StopRow(before[t], next[t], t, renewed, after)
  {
    forall t | t in before ensures StopRow(before[t], next[t], t, renewed, after) {
      assert StopRow(before[t], table[t], t, renewed, held);
    }
  }

  lemma SameRowsForOldLeases(before: Table, leases: map<Id, Lease>, renewed: map<Id, Lease>, after: map<Id, Lease>,
                             table: Table)
    requires table.Keys == before.Keys && renewed.Keys == leases.Keys
    requires forall d | d in leases :: renewed[d].taskId == leases[d].taskId
    requires forall t | t in before :: StopRow(before[t], table[t], t, renewed, after)
    ensures forall t | t in before :: StopRow(before[t], table[t], t, leases, after)
  {
    forall t | t in before ensures StopRow(before[t], table[t], t, leases, after) {
      assert StopRow(before[t], table[t], t, renewed, after);
    }
  }

  lemma DecideIgnoresSeq(s: TaskState, at: int)
    requires s.status.RetryPending?
    ensures Decided(s.(updatedSeq := at)) == Decided(s).(updatedSeq := at)
  {
    var r := s.(updatedSeq := at);
    assert OutcomeUnknown(r) == OutcomeUnknown(s);
  }

  /** Deciding a pending failure some events later gives the settled state. */
  lemma DecidedLater(s: TaskState, n1: int, n2: int)
    requires s.status.RetryPending?
    ensures s.(updatedSeq := n1).status.RetryPending?
    ensures Same(Decided(s.(updatedSeq := n1)).(updatedSeq := n2), Decided(s)) && Settle(s) == Decided(s)
  {
    DecideIgnoresSeq(s, n1);
  }

  lemma AcceptedLater(s: TaskState, n1: int, n2: int)
    requires s.status.Accepted?
    ensures s.(updatedSeq := n1).status.Accepted?
    ensures Same(s.(updatedSeq := n1).(status := Status.Complete, updatedSeq := n2), Settle(s))
  {
  }

  lemma VerdictStatus(s: TaskState, v: Verdict)
    ensures if v.accepted then AfterVerdict(s, v).status.Accepted? else AfterVerdict(s, v).status.RetryPending?
  {
  }

  lemma VerdictKeyOpen(s: TaskState, v: Verdict)
    requires Sound(s) && s.status.Verifying? && VerdictEvent(s, v).Valid()
    ensures KeyOpen(s, VerdictEvent(s, v)) && !VerdictEvent(s, v).kind.TaskClaimed?
    ensures Settled(s) && AfterVerdict(s, v).taskId == s.taskId
  {
  }

  lemma ExpireKeyOpen(s: TaskState, reason: string)
    requires Sound(s) && ActiveLease(s.status) && ExpireEvent(s, reason).Valid()
    ensures KeyOpen(s, ExpireEvent(s, reason)) && !ExpireEvent(s, reason).kind.TaskClaimed?
    ensures Settled(s) && Expired(s, reason).status.RetryPending? && Expired(s, reason).taskId == s.taskId
  {
  }

  /** Setting the number of the last update changes nothing else. */
  lemma SeqIsFree(s: TaskState, n: int)
    ensures Same(s.(updatedSeq := n), s) && (Settled(s.(updatedSeq := n)) <==> Settled(s))
  {
  }

  lemma CancelledReady(s: TaskState, actor: Option<Id>, why: string, n: int)
    requires Sound(s) && s.cancelRequested && (actor.Some? ==> ValidId(actor))
    requires s.status.Queued? || ActiveLease(s.status) || (s.status.Blocked? && actor.Some?)
    ensures Effect(s, CancelledEvent(s, actor, why), n, CancelledState(s, actor))
    ensures KeyOpen(s, CancelledEvent(s, actor, why)) && !CancelledEvent(s, actor, why).kind.TaskClaimed?
    ensures Settled(s) || SameOutcome(CancelledState(s, actor), Settle(s))
    ensures Settled(CancelledState(s, actor)) && CancelledState(s, actor).status.Cancelled?
    ensures CancelledState(s, actor).taskId == s.taskId
  {
    CancelledEffect(s, actor, why, n);
    hide Sound, Effect;
  }

  lemma HumanReady(s: TaskState, c: HumanChoice, actor: Id, why: string, n: int)
    requires Sound(s) && s.status.Blocked? && !c.CancelTask? && IsId(actor) && !Blank(why) && 1 <= s.attempt
    requires c.AuthorizeRetry? ==> !s.cancelRequested && s.attempt < MAX_ATTEMPTS_LIMIT
    ensures var e, r := DecisionOf(s.taskId, c, s.attempt, actor, why), HumanState(s, ChoiceKind(c), actor, why);
            && Effect(s, e, n, r) && !e.kind.TaskClaimed?
            && Settled(s) && Settled(r) && !ActiveLease(r.status) && !r.status.Verifying? && r.taskId == s.taskId
  {
    HumanEffect(s, ChoiceKind(c), actor, why, n);
    hide Sound, Effect, Blank, IsId;
  }

  /** Requesting and then journalling a cancellation, whenever each happens, gives the state that the request asks for. */
  lemma CancelLater(s: TaskState, actor: Option<Id>, n: int, m: int)
    requires s.status.Queued? || s.status.Blocked?
    ensures Same(CancelledState(s.(cancelRequested := true, updatedSeq := n), actor).(updatedSeq := m),
                 AfterCancel(s, actor))
  {
  }

  lemma ClaimReady(s: TaskState, d: Id, worker: Id, input: Option<Input>, n: int)
    requires Sound(s) && s.status.Queued? && !s.cancelRequested
    requires Minted(Some(d)) && IsId(worker) && InputFits(s, input)
    ensures var e := ClaimEvent(s, d, worker, input);
            && Effect(s, e, n, ClaimedState(s, d, worker, input)) && KeyOpen(s, e) && Settled(s)
            && e.kind.TaskClaimed? && e.dispatchId == Some(d)
  {
    ClaimEffect(s, d, worker, input, n);
    hide Sound, Effect;
  }

  lemma GrantFits(table: Table, s: TaskState, d: Id, worker: Id, input: Option<Input>, l: Lease)
    requires s.taskId in table && Same(table[s.taskId], ClaimedState(s, d, worker, input))
    requires l.taskId == s.taskId && l.dispatchId == d && l.workerId == worker && l.ttl == s.leaseTtl && l.reason == "ttl"
    ensures LeaseOk(table, d, l) && table[s.taskId].dispatchId == Some(d)
  {
    assert table[s.taskId].(updatedSeq := 0).workerId == Some(worker);
    assert table[s.taskId].(updatedSeq := 0).leaseTtl == l.ttl;
    SameDispatch(table[s.taskId], ClaimedState(s, d, worker, input));
  }

  /** A lease granted again for the dispatch a task is active on. */
  lemma RegrantFits(table: Table, s: TaskState, l: Lease)
    requires s.taskId in table && table[s.taskId] == s && ActiveLease(s.status)
    requires s.dispatchId.Some? && s.workerId.Some?
    requires l.taskId == s.taskId && l.dispatchId == s.dispatchId.value && l.workerId == s.workerId.value
    requires l.ttl == s.leaseTtl && l.reason == "restart_grace"
    ensures LeaseOk(table, l.dispatchId, l)
  {
  }

  lemma ActiveHasDispatch(s: TaskState)
    requires Sound(s) && ActiveLease(s.status)
    ensures s.dispatchId.Some? && s.workerId.Some?
  {
  }

  /** How recovery settles a task, status by status. */
  lemma SettleCases(s: TaskState, n: int)
    ensures s.status.Accepted? ==> Same(s.(status := Status.Complete, updatedSeq := n), Settle(s))
    ensures s.status.RetryPending? ==> Same(Decided(s).(updatedSeq := n), Settle(s))
    ensures s.status.Queued? && s.cancelRequested ==> Same(CancelledState(s, None).(updatedSeq := n), Settle(s))
    ensures Settled(s) <==> !s.status.Accepted? && !s.status.RetryPending? && !(s.status.Queued? && s.cancelRequested)
    ensures Settled(s) ==> Same(s, Settle(s))
  {
  }

  lemma ActiveIsSettled(s: TaskState)
    requires ActiveLease(s.status)
    ensures s.status.Claimed? || s.status.Running?
  {
  }

  lemma NotUnderWay(s: TaskState)
    requires !s.status.Claimed? && !s.status.Running?
    ensures !ActiveLease(s.status)
  {
  }

  /** What a heartbeat does and answers. The leases of the worker's reported dispatches run for their full time again;
      its cancelled dispatches that it does not report are stopped, their tasks cancelled; it is told which dispatches
      are not its own and which are cancelled. */
  predicate Beaten(table: Table, leases: map<Id, Lease>, next: Table, after: map<Id, Lease>, now: real, worker: Id,
                   dispatches: seq<Id>, stop: set<Id>, cancel: set<Id>) {
    && next.Keys == table.Keys
    && (forall d | d in leases :: leases[d].taskId in table)
    && stop == (set d | d in dispatches && (d !in leases || leases[d].workerId != worker))
    && cancel == (set d | d in dispatches && d in leases && leases[d].workerId == worker
                          && leases[d].taskId in table && table[leases[d].taskId].cancelRequested)
    && (forall d | d in leases && leases[d].workerId == worker && d in dispatches ::
          d in after && after[d] == leases[d].(deadline := now + leases[d].ttl as real, reason := "ttl"))
    && (forall d | d in leases && !(leases[d].workerId == worker && d in dispatches) ::
          if leases[d].workerId == worker && leases[d].taskId in table && table[leases[d].taskId].cancelRequested
          then d !in after else d in after && after[d] == leases[d])
    && (forall d | d in after :: d in leases)
    && (forall t | t in table :: StoppedRow(table[t], next[t], t, leases, after))
  }

  /** The row of a task whose dispatch was confirmed stopped; any other row is as before. */
  predicate StoppedRow(s: TaskState, r: TaskState, t: Id, before: map<Id, Lease>, after: map<Id, Lease>) {
    if s.dispatchId.Some? && s.dispatchId.value in before && before[s.dispatchId.value].taskId == t
       && s.dispatchId.value !in after
    then r == s.(status := Cancelled, updatedSeq := r.updatedSeq) else r == s
  }

  /** The renewals and confirmed stops of a heartbeat. */
  predicate BeatState(table: Table, leases: map<Id, Lease>, next: Table, after: map<Id, Lease>, now: real, worker: Id,
                      reported: set<Id>, stop: set<Id>, cancel: set<Id>) {
    && next.Keys == table.Keys
    && stop == (set d | d in reported && !HeldBy(leases, d, worker))
    && cancel == (set d | d in reported && HeldBy(leases, d, worker) && CancelWanted(table, leases[d]))
    && (forall d | d in leases && !Confirmed(table, leases, worker, reported, d) ::
          d in after
          && after[d] == if d in reported && HeldBy(leases, d, worker) then Renewed(leases[d], now) else leases[d])
    && (forall d | d in after :: d in leases && !Confirmed(table, leases, worker, reported, d))
    && (forall t | t in table :: StopRow(table[t], next[t], t, leases, after))
  }

  lemma StopMeans(s: TaskState, r: TaskState, t: Id, before: map<Id, Lease>, after: map<Id, Lease>)
    requires StopRow(s, r, t, before, after)
    requires s.dispatchId.Some? && s.dispatchId.value in before && before[s.dispatchId.value].taskId == t ==>
               !s.status.Blocked?
    ensures StoppedRow(s, r, t, before, after)
  {
    if s.dispatchId.Some? && Gone(before, after, s.dispatchId.value, t) {
      SameFields(r, CancelledState(s, None));
    }
    hide Same;
  }

  lemma BeatMeans(table: Table, leases: map<Id, Lease>, next: Table, after: map<Id, Lease>, now: real, worker: Id,
                  dispatches: seq<Id>, stop: set<Id>, cancel: set<Id>)
    requires forall d | d in leases :: leases[d].taskId in table && ActiveLease(table[leases[d].taskId].status)
    requires BeatState(table, leases, next, after, now, worker, (set x | x in dispatches), stop, cancel)
    ensures Beaten(table, leases, next, after, now, worker, dispatches, stop, cancel)
  {
    forall t | t in table ensures StoppedRow(table[t], next[t], t, leases, after) {
      StopMeans(table[t], next[t], t, leases, after);
    }
    hide StopRow, StoppedRow;
    BeatLeases(table, leases, after, now, worker, dispatches);
    BeatAnswers(table, leases, worker, dispatches);
    hide HeldBy, CancelWanted, Confirmed, Renewed, ActiveLease;
  }

  lemma BeatAnswers(table: Table, leases: map<Id, Lease>, worker: Id, dispatches: seq<Id>)
    requires forall d | d in leases :: leases[d].taskId in table
    ensures (set d | d in (set x | x in dispatches) && !HeldBy(leases, d, worker))
            == (set d | d in dispatches && (d !in leases || leases[d].workerId != worker))
    ensures (set d | d in (set x | x in dispatches) && HeldBy(leases, d, worker) && CancelWanted(table, leases[d]))
            == (set d | d in dispatches && d in leases && leases[d].workerId == worker
                        && leases[d].taskId in table && table[leases[d].taskId].cancelRequested)
  {
  }

  lemma BeatLeases(table: Table, leases: map<Id, Lease>, after: map<Id, Lease>, now: real, worker: Id,
                   dispatches: seq<Id>)
    requires forall d | d in leases :: leases[d].taskId in table
    requires forall d | d in leases && !Confirmed(table, leases, worker, (set x | x in dispatches), d) ::
               d in after && after[d] == if d in dispatches && HeldBy(leases, d, worker) then Renewed(leases[d], now)
                                         else leases[d]
    requires forall d | d in after :: d in leases && !Confirmed(table, leases, worker, (set x | x in dispatches), d)
    ensures forall d | d in leases && leases[d].workerId == worker && d in dispatches ::
              d in after && after[d] == leases[d].(deadline := now + leases[d].ttl as real, reason := "ttl")
    ensures forall d | d in leases && !(leases[d].workerId == worker && d in dispatches) ::
              if leases[d].workerId == worker && table[leases[d].taskId].cancelRequested then d !in after
              else d in after && after[d] == leases[d]
  {
  }

  // ------------------------------------------------------------- what a caller gets, field by field

  /** Where recovery takes a task. */
  function SettledStatus(s: TaskState): Status {
    match s.status
    case Accepted => Complete
    case RetryPending =>
      if s.failureKind == Some(LeaseLost) then LostStatus(s)
      else RejectedStatus(s, if s.lastReason.Some? then s.lastReason.value else "", s.retryable == Some(true))
    case Queued => if s.cancelRequested then Cancelled else Queued
    case _ => s.status
  }

  lemma DecidedStatus(s: TaskState)
    requires s.status.RetryPending?
    ensures Decided(s).status == DecisionStatus(DecideAfterFailure(s)) && Decided(s).attempt == s.attempt
    ensures Decided(s).status.Queued? ==> Decided(s).dispatchId.None? && Decided(s).workerId.None?
  {
    hide DecideAfterFailure, BlockReason, FailureReason;
  }

  lemma SameFields(a: TaskState, b: TaskState)
    requires Same(a, b)
    ensures a == b.(updatedSeq := a.updatedSeq)
  {
    assert a.(updatedSeq := 0).(updatedSeq := a.updatedSeq) == b.(updatedSeq := 0).(updatedSeq := a.updatedSeq);
  }

  lemma SettleMeans(s: TaskState, r: TaskState)
    requires StateInv(s) && Same(r, Settle(s))
    ensures r.status == SettledStatus(s) && r.attempt == s.attempt
  {
    SameFields(r, Settle(s));
    assert r.status == Settle(s).status;
    if s.status.RetryPending? {
      DecidedStatus(s);
      DecisionMeans(s);
      assert StateInv(s) && AttemptInv(s) && s.failureKind.Some?;
      assert s.failureKind.value.LeaseLost? || s.failureKind.value.Rejected?;
    }
    hide DecideAfterFailure, Same, Decided;
  }

  /** The row of a task whose lease was lost. */
  predicate LostRow(s: TaskState, r: TaskState) {
    && r.status == LostStatus(s) && r.attempt == s.attempt && r.taskId == s.taskId
    && r.failureKind == Some(LeaseLost) && (r.status.Queued? ==> r.dispatchId.None? && r.workerId.None?)
  }

  lemma ExpiredMeans(s: TaskState, reason: string, r: TaskState)
    requires Same(r, Decided(Expired(s, reason)))
    ensures LostRow(s, r)
  {
    var e := Expired(s, reason);
    SameFields(r, Decided(e));
    DecidedStatus(e);
    DecisionMeans(e);
    assert Decided(e).failureKind == Some(LeaseLost) && Decided(e).taskId == s.taskId;
    hide DecideAfterFailure, Same, Decided;
  }

  /** The row of a task after a verdict on the result it waited for. */
  predicate JudgedRow(s: TaskState, v: Verdict, r: TaskState) {
    && r.attempt == s.attempt && r.taskId == s.taskId && r.pendingResult.None?
    && if v.accepted then r.status.Complete? && r.acceptedResult == s.pendingResult && r.resolution == Some(Verified)
       else
         && r.status == RejectedStatus(s, if v.reason != "" then v.reason else "rejected", v.retryable)
         && r.acceptedResult == s.acceptedResult && r.failureKind == Some(Rejected)
         && r.retryable == Some(v.retryable)
  }

  lemma VerdictOutcome(s: TaskState, v: Verdict, r: TaskState)
    requires Same(r, Settle(AfterVerdict(s, v)))
    ensures JudgedRow(s, v, r)
  {
    var a := AfterVerdict(s, v);
    SameFields(r, Settle(a));
    if !v.accepted {
      DecidedStatus(a);
      DecisionMeans(a);
      assert Decided(a).failureKind == Some(Rejected) && Decided(a).retryable == Some(v.retryable);
      assert Decided(a).taskId == s.taskId && Decided(a).pendingResult.None? && Decided(a).acceptedResult == s.acceptedResult;
    }
    hide DecideAfterFailure, Same, Decided, SaysUncertain;
  }

  /** From the worker's report and the adapter's answer to the task's row: completed exactly by an explicit acceptance of
      a reported success; blocked if the effect may have happened; tried again without a human only if that is claimed,
      allowed, and no timeout was mentioned. */
  lemma ReportToRow(answer: AdapterAnswer, task: TaskState, report: Event, text: string, s: TaskState, r: TaskState)
    requires report.kind.ResultReady? && ReasonGiven(answer, task, report, text) && task.effectClass == s.effectClass
    requires JudgedRow(s, RunVerifier(answer, task, report), r)
    ensures r.status.Complete? <==> report.payload.outcome.Success? && answer.Answer? && answer.accepted
    ensures !r.status.Complete? && s.started && s.effectClass != Idempotent ==>
              (SaysUncertain(if |text| <= 500 then text else text[..500]) ==> r.status.Blocked?)
    ensures r.status.Queued? ==>
              && RetryClaimed(answer, task, report) && !s.cancelRequested && s.attempt < s.maxAttempts
              && (s.effectClass == Idempotent || !Says(text, "timeout"))
  {
    VerdictMeans(answer, task, report, text);
    var v := RunVerifier(answer, task, report);
    if |text| > 500 {
      CutSays(text);
    }
    UncertainAnyCase("");
    NothingToMention();
    hide RunVerifier, ReasonGiven, Says, RetryClaimed;
  }

  /** Cutting a text makes no mention. */
  lemma CutSays(text: string)
    requires |text| > 500
    ensures SaysUncertain(text[..500]) ==> SaysUncertain(text)
  {
    forall word, i | SpelledAt(text[..500], i, word) ensures SpelledAt(text, i, word) {
    }
  }

  /** The row of a task after a cancel request. */
  predicate CancelRow(s: TaskState, actor: Option<Id>, r: TaskState) {
    if s.status.Queued? || s.status.Blocked? then
      r == s.(status := Cancelled, cancelRequested := true,
              resolution := if s.status.Blocked? then Some(CancelledEffectUnknown) else s.resolution,
              decidedBy := if actor.Some? then actor else s.decidedBy, updatedSeq := r.updatedSeq)
    else r == s.(cancelRequested := true, updatedSeq := r.updatedSeq)
  }

  lemma CancelMeans(s: TaskState, actor: Option<Id>, r: TaskState)
    requires Same(r, AfterCancel(s, actor)) && (s.status.Blocked? ==> actor.Some?)
    ensures CancelRow(s, actor, r)
  {
    SameFields(r, AfterCancel(s, actor));
    hide Same;
  }

  /** The row of a blocked task after a human decision. */
  predicate DecisionRow(s: TaskState, c: HumanChoice, actor: Id, why: string, r: TaskState) {
    match c
    case ConfirmEffect =>
      r == s.(status := Complete, resolution := Some(ConfirmedByHuman), decidedBy := Some(actor),
              lastReason := Some(why), updatedSeq := r.updatedSeq)
    case AuthorizeRetry =>
      r == s.(status := Queued, maxAttempts := if s.attempt < s.maxAttempts then s.maxAttempts else s.attempt + 1,
              dispatchId := None, workerId := None, started := false, failureKind := None, retryable := None,
              decidedBy := Some(actor), lastReason := Some(why), updatedSeq := r.updatedSeq)
    case CancelTask => CancelRow(s, Some(actor), r)
  }

  lemma DecisionRowMeans(s: TaskState, c: HumanChoice, actor: Id, why: string, r: TaskState)
    requires Same(r, AfterResolve(s, c, actor, why))
    ensures DecisionRow(s, c, actor, why, r)
  {
    if c.CancelTask? {
      CancelMeans(s, Some(actor), r);
    } else {
      SameFields(r, AfterResolve(s, c, actor, why));
    }
    hide Same;
  }

  /** The event records this decision. */
  predicate IsDecisionOf(e: Event, t: Id, c: HumanChoice, attempt: int, actor: Id, why: string) {
    e == EventData(if c.ConfirmEffect? then EffectConfirmed else RetryAuthorized, Some(t), Some(attempt), None, None,
                   None, Because(why, Some(actor)), e.dedupeKey)
  }

  lemma DecisionSeen(log: seq<Sealed>, t: Id, c: HumanChoice, attempt: int, actor: Id, why: string)
    requires !c.CancelTask?
    ensures var e := DecisionOf(t, c, attempt, actor, why);
            var seen := Stored(log, e.dedupeKey);
            seen.Some? ==> (seen.value.event.Content() == e.Content()
                            <==> IsDecisionOf(seen.value.event, t, c, attempt, actor, why))
  {
    var e := DecisionOf(t, c, attempt, actor, why);
    StoredFinds(log, e.dedupeKey);
    var seen := Stored(log, e.dedupeKey);
    if seen.Some? {
      ContentIsEvent(seen.value.event, e);
    }
    hide Stored, EventData.Content;
  }

  /** The lease is still good after a tick: a time for which the machine was suspended does not count against it. */
  predicate SurvivesTick(l: Lease, lastTick: Option<real>, now: real) {
    if lastTick.Some? && now - lastTick.value > 5.0 then lastTick.value < l.deadline else now < l.deadline
  }

  /** The lease keeps the time it had left when the machine was suspended. */
  function AfterTick(l: Lease, lastTick: Option<real>, now: real): Lease {
    if lastTick.Some? && now - lastTick.value > 5.0 then l.(deadline := now + (l.deadline - lastTick.value)) else l
  }

  lemma MovedMeans(l: Lease, lastTick: Option<real>, now: real)
    ensures now < Deadline(l, lastTick, now) <==> SurvivesTick(l, lastTick, now)
    ensures l.(deadline := Deadline(l, lastTick, now)) == AfterTick(l, lastTick, now)
  {
  }

  /** What a tick has made of the rows, task by task. */
  predicate TickRow(s: TaskState, r: TaskState, t: Id, before: map<Id, Lease>, lastTick: Option<real>, now: real) {
    if s.dispatchId.Some? && s.dispatchId.value in before && before[s.dispatchId.value].taskId == t
       && !SurvivesTick(before[s.dispatchId.value], lastTick, now)
    then LostRow(s, r) else r == s
  }

  lemma RowAfterMeans(s: TaskState, r: TaskState, t: Id, before: map<Id, Lease>, lastTick: Option<real>, now: real,
                      after: map<Id, Lease>)
    requires RowAfter(s, r, t, Moved(before, lastTick, now), after)
    requires forall d | d in before :: d in after <==> now < Moved(before, lastTick, now)[d].deadline
    ensures TickRow(s, r, t, before, lastTick, now)
  {
    if s.dispatchId.Some? && s.dispatchId.value in before {
      var d := s.dispatchId.value;
      MovedMeans(before[d], lastTick, now);
      if Gone(Moved(before, lastTick, now), after, d, t) {
        ExpiredMeans(s, Moved(before, lastTick, now)[d].reason, r);
      }
    }
    hide LostRow, SurvivesTick, Decided, Same;
  }

  /** A heartbeat at one time and a later tick without a suspension in between: a dispatch that its worker reported is
      still leased exactly if less than its time to live has passed; after a suspension, exactly if less had passed at
      the tick before it. */
  lemma ReportedOutlives(table: Table, leases: map<Id, Lease>, next: Table, after: map<Id, Lease>, now: real, worker: Id,
                         dispatches: seq<Id>, stop: set<Id>, cancel: set<Id>, lastTick: Option<real>, later: real,
                         left: map<Id, Lease>, d: Id)
    requires Beaten(table, leases, next, after, now, worker, dispatches, stop, cancel)
    requires forall k | k in after :: k in left <==> SurvivesTick(after[k], lastTick, later)
    requires d in dispatches && d in leases && leases[d].workerId == worker
    ensures lastTick.None? || later - lastTick.value <= 5.0 ==> (d in left <==> later - now < leases[d].ttl as real)
    ensures lastTick.Some? && later - lastTick.value > 5.0 ==>
              (d in left <==> lastTick.value - now < leases[d].ttl as real)
  {
  }

  // ------------------------------------------------------------- answers to workers

  /** The event of the claim that issued dispatch d. */
  ghost predicate IsClaimOf(log: seq<Sealed>, d: Id, e: Event) {
    exists i: nat :: FirstClaim(log, d, i) && log[i].event == e
  }

  lemma OneClaim(log: seq<Sealed>, d: Id, a: Event, b: Event)
    requires IsClaimOf(log, d, a) && IsClaimOf(log, d, b)
    ensures a == b
  {
    var i: nat :| FirstClaim(log, d, i) && log[i].event == a;
    var j: nat :| FirstClaim(log, d, j) && log[j].event == b;
    assert !(i < j) && !(j < i);
  }

  /** What a worker that starts a dispatch is told, given the task, the claim, and whether the dispatch is leased. */
  predicate StartAnswered(s: TaskState, c: Event, worker: Option<Id>, leased: bool, r: Reply<string>) {
    var mine := worker == None || worker == c.workerId;
    && (r == Denied(409, "wrong_worker") <==> !mine)
    && (r == Denied(409, "stale_dispatch") <==> mine && !leased)
    && (r == Denied(409, "cancel_requested") <==> mine && leased && s.cancelRequested)
    && (r == Granted("ALREADY_STARTED") <==> mine && leased && !s.cancelRequested && s.status == Running)
    && (r == Granted("STARTED") <==> mine && leased && !s.cancelRequested && s.status == Claimed)
  }

  function StartAnswer(table: Table, c: Event, d: Id, worker: Option<Id>): Reply<string>
    requires c.taskId.Some? && c.taskId.value in table
  {
    var s := table[c.taskId.value];
    if worker.Some? && worker != c.workerId then Denied(409, "wrong_worker")
    else if s.dispatchId != Some(d) || !ActiveLease(s.status) then Denied(409, "stale_dispatch")
    else if s.cancelRequested then Denied(409, "cancel_requested")
    else if s.status.Running? then Granted("ALREADY_STARTED")
    else Granted("STARTED")
  }

  lemma StartAnswers(table: Table, c: Event, d: Id, worker: Option<Id>, leased: bool)
    requires c.taskId.Some? && c.taskId.value in table
    requires leased <==> table[c.taskId.value].dispatchId == Some(d) && ActiveLease(table[c.taskId.value].status)
    ensures StartAnswered(table[c.taskId.value], c, worker, leased, StartAnswer(table, c, d, worker))
    ensures StartAnswer(table, c, d, worker).Granted? <==>
              leased && (worker == None || worker == c.workerId) && !table[c.taskId.value].cancelRequested
  {
  }

  function ReportOf(c: Event, d: Id, resultId: Id, payload: Payload): EventData {
    EventData(ResultReady, c.taskId, c.attempt, Some(d), c.workerId, Some(resultId), payload, None).WithKey()
  }

  /** What a worker that reports a result of dispatch d is told, given the task and whether the dispatch is leased. */
  predicate ReportAnswered(log: seq<Sealed>, s: TaskState, c: Event, d: Id, resultId: Id, payload: Payload, leased: bool,
                           r: Reply<string>) {
    var valid := WellFormed(ReportOf(c, d, resultId, payload));
    var isNew := valid && !ReportedAlike(log, c, d, resultId, payload) && !ReportedOtherwise(log, c, d, resultId, payload);
    && (r == Denied(400, "invalid_request") <==> !valid)
    && (r == Granted("ACK_DUPLICATE") <==> ReportedAlike(log, c, d, resultId, payload))
    && (r == Denied(409, "result_conflict") <==> valid && ReportedOtherwise(log, c, d, resultId, payload))
    && (r == Granted("ACCEPTED_FOR_VERIFY") <==> isNew && leased && s.status == Running && !s.cancelRequested)
    && (r == Denied(409, "cancel_requested") <==> isNew && leased && s.status == Running && s.cancelRequested)
    && (r == Denied(409, "not_started") <==> isNew && leased && s.status == Claimed)
    && (r == Denied(409, "stale_dispatch") <==> isNew && !leased)
  }

  function ResultAnswer(log: seq<Sealed>, table: Table, c: Event, d: Id, resultId: Id, payload: Payload): Reply<string>
    requires c.taskId.Some? && c.taskId.value in table
  {
    var report := ReportOf(c, d, resultId, payload);
    var seen := Stored(log, report.dedupeKey);
    var s := table[c.taskId.value];
    if !report.Valid() then Denied(400, "invalid_request")
    else if seen.Some? then
      if seen.value.event.Content() == report.Content() then Granted("ACK_DUPLICATE") else Denied(409, "result_conflict")
    else if s.dispatchId == Some(d) && s.status.Running? then
      if s.cancelRequested then Denied(409, "cancel_requested") else Granted("ACCEPTED_FOR_VERIFY")
    else if s.dispatchId == Some(d) && s.status.Claimed? then Denied(409, "not_started")
    else Denied(409, "stale_dispatch")
  }

  lemma ReportAnswers(log: seq<Sealed>, table: Table, c: Event, d: Id, resultId: Id, payload: Payload, leased: bool)
    requires c.taskId.Some? && c.taskId.value in table
    requires leased <==> table[c.taskId.value].dispatchId == Some(d) && ActiveLease(table[c.taskId.value].status)
    requires var report := ReportOf(c, d, resultId, payload);
             var seen := Stored(log, report.dedupeKey);
             if !report.Valid() then !ReportedAlike(log, c, d, resultId, payload)
             else
               && (ReportedAlike(log, c, d, resultId, payload)
                   <==> seen.Some? && seen.value.event.Content() == report.Content())
               && (ReportedOtherwise(log, c, d, resultId, payload)
                   <==> seen.Some? && seen.value.event.Content() != report.Content())
    ensures ReportAnswered(log, table[c.taskId.value], c, d, resultId, payload, leased,
                           ResultAnswer(log, table, c, d, resultId, payload))
  {
    ValidExactly(ReportOf(c, d, resultId, payload));
    hide WellFormed, EventData.Valid, EventData.Content, ReportedAlike, ReportedOtherwise, ReportOf, Stored;
  }

  /** The first late report under its key is stored and counted; a repeated or conflicting one changes nothing. */
  predicate KeptAsEvidence(log: seq<Sealed>, table: Table, longer: seq<Sealed>, next: Table, t: Id, e: EventData)
    requires t in table
  {
    if Stored(log, e.dedupeKey).Some? then longer == log && next == table
    else
      && |longer| == |log| + 1 && log <= longer && longer[|log|].event == e
      && next == table[t := table[t].(lateResults := table[t].lateResults + 1, updatedSeq := |longer|)]
  }
}
