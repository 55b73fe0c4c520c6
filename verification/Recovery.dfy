/** Crashes at any moment, and whole runs of operations, crashes and restarts. */
module Recovery {
  import opened Options
  import opened Events
  import opened Records
  import opened Chain
  import opened StateMachine
  import opened Projection
  import opened Histories
  import opened Journal
  import opened JournalFile
  import opened ControllerLog
  import opened ControllerSteps
  import opened ControllerSpec
  import opened Controller
  import opened Runtime
  import opened Verification

  /** The file is cut after its first n events, wherever that falls, and a new controller boots on it. The task
      whose operation was interrupted gets the same outcome as in the run that was not interrupted. */
  method Restart(c: Controller, n: nat, now: real) returns (r: Controller)
    requires c.Durable() && n <= |c.journal.log|
    ensures fresh(r) && fresh(r.journal) && r.Valid({}) && r.inFlight == map[]
    ensures c.journal.log[..n] <= r.journal.log
    ensures r.journal.table.Keys == c.journal.tables[n].Keys
    ensures forall t | t in r.journal.table :: Same(r.journal.table[t], Settle(c.journal.tables[n][t]))
    ensures n < |c.journal.log| ==>
              forall t | c.journal.log[n].event.taskId == Some(t) && t in c.journal.tables[n] ::
                !Settled(c.journal.tables[n][t]) ==>
                  t in c.journal.tables[n + 1] && SameOutcome(r.journal.table[t], c.journal.tables[n + 1][t])
  {
    PastPrefix(c.journal.log, c.journal.tables, n);
    assert PastAt(c.journal.log, c.journal.tables, n);
    var file := new JournalDb.Crashed(c.journal, n);
    r := new Controller.Boot(file, c.stampAt, now);
    if n < |c.journal.log| {
      var e := c.journal.log[n].event;
      if e.taskId.Some? && e.taskId.value in c.journal.tables[n] && !Settled(c.journal.tables[n][e.taskId.value]) {
        var t := e.taskId.value;
        assert Same(r.journal.table[t], Settle(c.journal.tables[n][t]));
        SameIsSameOutcome(r.journal.table[t], Settle(c.journal.tables[n][t]), c.journal.tables[n + 1][t]);
      }
    }
  }

  lemma SameIsSameOutcome(a: TaskState, b: TaskState, c: TaskState)
    requires Same(a, b) && SameOutcome(c, b)
    ensures SameOutcome(a, c)
  {
    assert a.(updatedSeq := 0, decidedBy := None) == a.(updatedSeq := 0).(decidedBy := None);
    assert b.(updatedSeq := 0, decidedBy := None) == b.(updatedSeq := 0).(decidedBy := None);
  }

  /** Cutting a cancellation between its two events: recovery reaches the outcome of the uncut operation
      exactly for a queued task; a blocked one stays blocked with the request recorded. */
  lemma CutCancelRecovers(s: TaskState, actor: Option<Id>)
    requires StateInv(s) && !s.cancelRequested && (s.status.Queued? || s.status.Blocked?)
    ensures SameOutcome(Settle(s.(cancelRequested := true)), AfterCancel(s, actor)) <==> s.status.Queued?
    ensures s.status.Blocked? ==> Settle(s.(cancelRequested := true)) == s.(cancelRequested := true)
  {
    var marked := Settle(s.(cancelRequested := true));
    assert s.status.Blocked? ==> marked.(updatedSeq := 0, decidedBy := None).status.Blocked?;
  }

  // ------------------------------------------------------------- runs

  datatype Operation =
    | Create(taskId: Id, payload: Payload)
    | ClaimNext(worker: Id, dispatchId: Id)
    | StartWork(dispatchId: Id, claimant: Option<Id>)
    | Beat(worker: Id, dispatches: seq<Id>)
    | ReportResult(dispatchId: Id, resultId: Id, payload: Payload)
    | RequestCancellation(taskId: Id, actor: Option<Id>, reason: Option<string>)
    | Decision(taskId: Id, choice: HumanChoice, attempt: int, decider: Id, why: string)
    | ExpireLeases
    | VerifyBegin
    | VerifyEnd(taskId: Id, answer: AdapterAnswer)

  /** The ids of new tasks and dispatches are the controller's own, and a payload has the fields of its kind. */
  predicate WellFormed(op: Operation) {
    match op
    case Create(t, p) => Minted(Some(t)) && p.Creation?
    case ClaimNext(_, d) => Minted(Some(d))
    case ReportResult(_, _, p) => p.Report?
    case _ => true
  }

  type UnderWay = map<Id, (TaskState, Event)>

  predicate Tracks(inFlight: map<Id, TaskState>, w: UnderWay) {
    forall t | t in w :: t in inFlight && inFlight[t] == w[t].0 && w[t].1.kind.ResultReady? && w[t].0.taskId == t
  }

  /** One operation; dispatch ids that were issued before and verifications that were never begun are skipped. */
  method Perform(c: Controller, op: Operation, now: real, w: UnderWay) returns (w': UnderWay)
    requires c.Valid({}) && Tracks(c.inFlight, w) && WellFormed(op)
    modifies c, c.journal
    ensures c.Valid({}) && Tracks(c.inFlight, w')
    ensures old(c.journal.log) <= c.journal.log
  {
    hide Controller.Durable, Controller.Valid, Tracks, JournalDb.Valid, RuntimeInv, RowAfter, Moved;
    w' := w;
    match op {
      case Create(_, _) => PerformOnTask(c, op);
      case RequestCancellation(_, _, _) => PerformOnTask(c, op);
      case Decision(_, _, _, _, _) => PerformOnTask(c, op);
      case ExpireLeases => c.Tick(now);
      case VerifyBegin => w' := PerformVerification(c, op, w);
      case VerifyEnd(_, _) => w' := PerformVerification(c, op, w);
      case _ => PerformForWorker(c, op, now);
    }
  }

  method PerformOnTask(c: Controller, op: Operation)
    requires c.Valid({}) && WellFormed(op) && (op.Create? || op.RequestCancellation? || op.Decision?)
    modifies c.journal
    ensures c.Valid({}) && old(c.journal.log) <= c.journal.log
  {
    hide Controller.Durable, Controller.Valid, JournalDb.Valid, Same, CreationAccepted, CreatedWith, Stored;
    hide AfterCancel, AfterResolve;
    match op {
      case Create(t, p) =>
        var _ := c.CreateTask(t, p);
      case RequestCancellation(t, a, why) =>
        var _ := c.RequestCancel(t, a, why);
      case Decision(t, choice, n, actor, why) =>
        var _ := c.Resolve(t, choice, n, actor, why);
    }
  }

  method PerformForWorker(c: Controller, op: Operation, now: real)
    requires c.Valid({}) && WellFormed(op) && (op.ClaimNext? || op.StartWork? || op.Beat? || op.ReportResult?)
    modifies c`leases, c`queue, c.journal
    ensures c.Valid({}) && old(c.journal.log) <= c.journal.log
  {
    hide Controller.Durable, JournalDb.Valid, RuntimeInv, Same, Beaten, PassedOver, FailedOrSame, Stored, Idle, HeldBy;
    hide ClaimedWithInput, KeptAsEvidence, ReportAnswered, StartAnswered, ResultAnswer, StartAnswer, IsClaimOf, Issued, Owns, ResultFits;
    match op {
      case ClaimNext(worker, d) =>
        var used := c.ClaimOf(d);
        if used.None? {
          var _ := c.Claim(worker, d, now);
        }
      case StartWork(d, worker) =>
        var _ := c.Start(d, worker);
      case Beat(worker, ds) =>
        var _ := c.Heartbeat(now, worker, ds);
      case ReportResult(d, r, p) =>
        var _ := c.Result(d, r, p);
    }
  }

  method PerformVerification(c: Controller, op: Operation, w: UnderWay) returns (w': UnderWay)
    requires c.Valid({}) && Tracks(c.inFlight, w) && (op.VerifyBegin? || op.VerifyEnd?)
    modifies c`queue, c`inFlight, c.journal
    ensures c.Valid({}) && Tracks(c.inFlight, w') && old(c.journal.log) <= c.journal.log
  {
    hide Controller.Durable, Controller.Valid, JournalDb.Valid, Same, AfterVerdict, Settle;
    w' := w;
    match op {
      case VerifyBegin =>
        var next := c.BeginVerify();
        if next.Some? {
          w' := w[next.value.0.taskId := next.value];
        }
      case VerifyEnd(t, answer) =>
        if t in w {
          var verdict := RunVerifier(answer, w[t].0, w[t].1);
          c.EndVerify(w[t].0, verdict);
          w' := w - {t};
        }
    }
  }

  /** One entry of a run: an operation, and the crashes it meets. The process dies after the first number of the
      operation's events, the next one after the second number of the events of its boot, and so on; the boot after
      the last crash completes. */
  datatype Entry = Entry(op: Operation, now: real, crashes: seq<nat>)

  /** Every run, with crashes during operations, during the recoveries of the boots that follow, and during those of
      any number of further boots, keeps the controller's invariant. */
  method RunAll(hash: Material -> Digest, stampAt: nat -> Stamp, run: seq<Entry>) returns (c: Controller)
    requires forall n: nat :: StampValid(stampAt(n))
    requires forall x | x in run :: WellFormed(x.op)
    ensures fresh(c) && fresh(c.journal) && c.Valid({})
  {
    var file := new JournalDb(hash);
    assert Past(file.log, file.tables) by {
      assert PastAt(file.log, file.tables, 0);
    }
    c := new Controller.Boot(file, stampAt, 0.0);
    var w: UnderWay := map[];
    for i := 0 to |run|
      invariant fresh(c) && fresh(c.journal) && c.Valid({}) && Tracks(c.inFlight, w)
    {
      var kept := c.journal.lastSeq;
      w := Perform(c, run[i].op, run[i].now, w);
      if run[i].crashes != [] {
        c := Crash(c, run[i].crashes, kept, run[i].now);
        w := map[];
      }
    }
  }

  /** A series of crashes, each after so many of the events that the process before it added to the kept ones. */
  method Crash(c0: Controller, crashes: seq<nat>, kept0: nat, now: real) returns (c: Controller)
    requires c0.Valid({}) && kept0 <= |c0.journal.log| && crashes != []
    ensures fresh(c) && fresh(c.journal) && c.Valid({}) && c.inFlight == map[]
    ensures c0.journal.log[..kept0] <= c.journal.log
  {
    hide Controller.Durable, RuntimeInv, Same, Settle, SameOutcome, JournalDb.Valid, Settled;
    c := c0;
    var kept := kept0;
    for k := 0 to |crashes|
      invariant c.Valid({}) && kept0 <= kept <= |c.journal.log| && c0.journal.log[..kept0] <= c.journal.log
      invariant k == 0 ==> c == c0
      invariant k > 0 ==> fresh(c) && fresh(c.journal) && c.inFlight == map[]
    {
      Length(c);
      kept := if kept + crashes[k] <= c.journal.lastSeq then kept + crashes[k] else c.journal.lastSeq;
      c := Restart(c, kept, now);
    }
  }

  lemma Length(c: Controller)
    requires c.Durable()
    ensures c.journal.lastSeq == |c.journal.log|
  {
  }

  /** In every state of every run, what is proved about accepted histories holds of each task's events. */
  lemma TaskHistoryIsAccepted(c: Controller, t: Id) returns (ss: seq<Option<TaskState>>)
    requires c.Durable() && t in c.journal.table
    ensures Run(Of(c.journal.log, t), ss, t)
    ensures ss[|Of(c.journal.log, t)|] == Some(c.journal.table[t])
  {
    ss := TaskHistory(c.journal.log, c.journal.tables, t);
  }
}
