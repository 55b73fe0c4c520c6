/** The controller object: its operations on tasks, each proved against the journal, the leases and the queue. */
module Controller {
  import opened Options
  import opened Events
  import opened Records
  import opened Chain
  import opened StateMachine
  import opened Projection
  import opened Journal
  import opened JournalFile
  import opened ControllerLog
  import opened ControllerSteps
  import opened ControllerSpec
  import opened Runtime
  import opened Verification

  lemma NobodyIsValid()
    ensures ValidId(None)
  {
  }

  lemma EffectIsValid(s: TaskState, e: EventData, at: int, next: TaskState)
    requires Effect(s, e, at, next)
    ensures e.Valid() && e.taskId == Some(s.taskId)
  {
  }

  lemma ProjectEffect(table: Table, x: Sealed, s: TaskState, next: TaskState)
    requires s.taskId in table && table[s.taskId] == s && Effect(s, x.event, x.seqNo, next)
    ensures Project(table, x) == Ok(table[s.taskId := next.(updatedSeq := x.seqNo)])
  {
    SameTask(Some(s), x.event, x.seqNo);
  }

  lemma LateEffect(table: Table, x: Sealed, s: TaskState)
    requires s.taskId in table && table[s.taskId] == s
    requires x.event.kind.LateResultDiscarded? && x.event.taskId == Some(s.taskId)
    requires !(s.dispatchId == x.event.dispatchId && ActiveLease(s.status))
    ensures Project(table, x) ==
            Ok(table[s.taskId := s.(lateResults := s.lateResults + 1, updatedSeq := x.seqNo)])
  {
  }

  /** The append of a late report: it is stored and counted, or its key is taken and nothing changes. */
  lemma LateReady(hash: Material -> Digest, log: seq<Sealed>, table: Table, s: TaskState, d: Id, resultId: Id,
                  payload: Payload, attempt: int, stamp: Stamp)
    requires s.taskId in table && table[s.taskId] == s && payload.Report? && Owns(log, Some(s.taskId), Some(d))
    requires !(s.dispatchId == Some(d) && ActiveLease(s.status))
    requires LateEvent(s, d, resultId, payload, attempt).Valid() && WellKeyed(LateEvent(s, d, resultId, payload, attempt))
    ensures var e := LateEvent(s, d, resultId, payload, attempt);
            var x := Seal(hash, e, stamp, |log| + 1, HeadHash(log));
            var r := s.(lateResults := s.lateResults + 1, updatedSeq := |log| + 1);
            var (st, out) := AppendTo(hash, Store(log, table), e, stamp);
            && Shaped(log, table, e) && Project(table, x) == Ok(table[s.taskId := r])
            && (Settled(s) ==> Prompt(table, e, table[s.taskId := r]) && Settled(r)) && SameFooting(s, r)
            && KeptAsEvidence(log, table, st.log, st.table, s.taskId, e)
            && (out.Appended? ==> st.table == table[s.taskId := r])
  {
    hide Owns, EventData.Valid, WellKeyed;
    var e: Event := LateEvent(s, d, resultId, payload, attempt);
    var x := Seal(hash, e, stamp, |log| + 1, HeadHash(log));
    LateEffect(table, x, s);
    hide Project;
  }

  lemma EffectIsShaped(log: seq<Sealed>, table: Table, s: TaskState, e: Event, at: int, next: TaskState)
    requires s.taskId in table && table[s.taskId] == s && Effect(s, e, at, next)
    requires e.kind.TaskClaimed? ==> e.dispatchId.value !in Issued(log)
    ensures Shaped(log, table, e)
  {
  }

  lemma EffectKeyIsFree(log: seq<Sealed>, table: Table, s: TaskState, e: Event, at: int, next: TaskState)
    requires Facts(log, table) && s.taskId in table && table[s.taskId] == s && Effect(s, e, at, next)
    requires KeyOpen(s, e)
    ensures Stored(log, e.dedupeKey).None?
  {
    OpenKeyIsFree(log, table, e);
  }

  lemma EffectIsPrompt(table: Table, s: TaskState, e: Event, at: int, next: TaskState)
    requires s.taskId in table && table[s.taskId] == s && Effect(s, e, at, next)
    requires Settled(s) || SameOutcome(next, Settle(s))
    ensures Prompt(table, e, table[s.taskId := next.(updatedSeq := at)])
  {
    hide Apply, Settle, Settled;
  }

  lemma FreeKeyIsStored(hash: Material -> Digest, st: Store, e: Event, stamp: Stamp, table: Table)
    requires var x := Seal(hash, e, stamp, |st.log| + 1, HeadHash(st.log)); Project(st.table, x) == Ok(table)
    requires Stored(st.log, e.dedupeKey).None?
    ensures var x := Seal(hash, e, stamp, |st.log| + 1, HeadHash(st.log));
            AppendTo(hash, st, e, stamp).0 == Store(st.log + [x], table) && AppendTo(hash, st, e, stamp).1.Appended?
  {
    hide Project, Stored;
  }

  lemma AppendedMeans(hash: Material -> Digest, st: Store, e: Event, stamp: Stamp)
    requires AppendTo(hash, st, e, stamp).1.Appended?
    ensures var x := Seal(hash, e, stamp, |st.log| + 1, HeadHash(st.log));
            var after := AppendTo(hash, st, e, stamp).0;
            && after.log == st.log + [x] && Project(st.table, x) == Ok(after.table)
            && x.event == e && x.seqNo == |st.log| + 1
  {
    hide Project, Stored, HeadHash;
  }

  lemma SealHolds(hash: Material -> Digest, e: Event, stamp: Stamp, at: nat, prev: Digest)
    ensures Seal(hash, e, stamp, at, prev).event == e && Seal(hash, e, stamp, at, prev).seqNo == at
  {
  }

  /** A legal event under a free key is stored, and what its append does. */
  lemma EmitReady(hash: Material -> Digest, log: seq<Sealed>, table: Table, s: TaskState, e: Event, stamp: Stamp,
                  next: TaskState)
    requires Facts(log, table) && s.taskId in table && table[s.taskId] == s && Effect(s, e, |log| + 1, next)
    requires KeyOpen(s, e) || Stored(log, e.dedupeKey).None?
    requires Settled(s) || SameOutcome(next, Settle(s))
    requires e.kind.TaskClaimed? ==> e.dispatchId.value !in Issued(log)
    ensures Shaped(log, table, e)
    ensures var x := Seal(hash, e, stamp, |log| + 1, HeadHash(log));
            var after := table[s.taskId := next.(updatedSeq := |log| + 1)];
            && x.event == e && Project(table, x) == Ok(after) && Prompt(table, e, after)
            && AppendTo(hash, Store(log, table), e, stamp).0 == Store(log + [x], after)
  {
    hide *;
    var at := |log| + 1;
    var x := Seal(hash, e, stamp, at, HeadHash(log));
    SealHolds(hash, e, stamp, at, HeadHash(log));
    EffectIsShaped(log, table, s, e, at, next);
    EffectIsPrompt(table, s, e, at, next);
    ProjectEffect(table, x, s, next);
    if KeyOpen(s, e) {
      EffectKeyIsFree(log, table, s, e, at, next);
    }
    FreeKeyIsStored(hash, Store(log, table), e, stamp, table[s.taskId := next.(updatedSeq := at)]);
  }

  lemma CreationStored(hash: Material -> Digest, log: seq<Sealed>, table: Table, t: Id, e: Event)
    requires ChainInv(hash, log) && Facts(log, table) && CreatedInv(log, |log|, table) && t in table
    requires e.kind.TaskCreated? && e.taskId == Some(t) && WellKeyed(e)
    ensures Stored(log, e.dedupeKey).Some?
  {
    hide ChainInv;
    var c := table[t].createdSeq;
    assert IsCreation(log, c, t);
    assert log[c - 1] in log && EventFact(log, table, log[c - 1].event);
    StoredFinds(log, e.dedupeKey);
  }

  lemma StoredIsAbout(log: seq<Sealed>, table: Table, e: Event)
    requires Facts(log, table) && WellKeyed(e) && e.kind.TaskCreated? && Stored(log, e.dedupeKey).Some?
    ensures var o := Stored(log, e.dedupeKey).value;
            o in log && o.event.kind.TaskCreated? && o.event.taskId == e.taskId && e.taskId.value in table
  {
    StoredFinds(log, e.dedupeKey);
    var o := Stored(log, e.dedupeKey).value;
    hide Stored;
    assert EventFact(log, table, o.event);
    hide Facts;
    SameKeySameEffect(o.event, e);
  }

  lemma CreationKey(hash: Material -> Digest, st: Store, ts: seq<Table>, t: Id, e: Event)
    requires StoreInv(hash, st, ts) && Facts(st.log, st.table)
    requires e.kind.TaskCreated? && e.taskId == Some(t) && WellKeyed(e)
    ensures t in st.table <==> Stored(st.log, e.dedupeKey).Some?
    ensures t in st.table ==>
              var o := Stored(st.log, e.dedupeKey).value;
              o in st.log && o.event.kind.TaskCreated? && o.event.taskId == Some(t)
  {
    hide Facts, CreatedInv, Stored, WellKeyed, Folds, ChainInv;
    CreatedInvHolds(hash, st, ts, |st.log|);
    if t in st.table {
      CreationStored(hash, st.log, st.table, t, e);
    }
    if Stored(st.log, e.dedupeKey).Some? {
      StoredIsAbout(st.log, st.table, e);
    }
  }

  lemma CreationShape(hash: Material -> Digest, log: seq<Sealed>, table: Table, t: Id, p: Payload, stamp: Stamp)
    requires Minted(Some(t)) && p.Creation? && CreationAccepted(t, p)
    requires p.dependsOn.Some? ==> p.dependsOn.value in table
    ensures CreationOf(t, p).Valid() && CreationOf(t, p).dedupeKey.Some?
    ensures var e := CreationOf(t, p);
            var x := Seal(hash, e, stamp, |log| + 1, HeadHash(log));
            && e.kind.TaskCreated? && e.taskId == Some(t) && e.payload == p && WellKeyed(e) && Shaped(log, table, e)
            && (Project(table, x).Ok? ==> Prompt(table, e, Project(table, x).value))
            && (t !in table ==> Project(table, x) == Ok(table[t := NewTask(e, |log| + 1)]))
  {
  }

  lemma FreshIsIdle(e: Event, at: int)
    requires e.kind.TaskCreated?
    ensures var s := NewTask(e, at); Settled(s) && !ActiveLease(s.status) && !s.status.Verifying?
    ensures FreshRow(NewTask(e, at), e.taskId.value, e.payload, at)
  {
  }

  lemma SameOwner(log: seq<Sealed>, a: Option<Id>, b: Option<Id>, d: Option<Id>)
    requires Owns(log, a, d) && Owns(log, b, d)
    ensures a == b
  {
  }

  lemma OwnsIs(log: seq<Sealed>, t: Option<Id>, d: Id)
    requires Owns(log, t, Some(d))
    ensures t.Some? && d in Issued(log) && Issued(log)[d] == t.value
  {
  }

  lemma AllListed(tasks: seq<TaskState>, table: Table)
    requires forall s | s in tasks :: s.taskId in table && table[s.taskId] == s
    requires forall t | t in table :: table[t] in tasks && table[t].taskId == t
    ensures forall t | t in table :: exists k: nat :: k < |tasks| && tasks[k].taskId == t
  {
    forall t | t in table ensures exists k: nat :: k < |tasks| && tasks[k].taskId == t {
      var k: nat :| k < |tasks| && tasks[k] == table[t];
    }
  }

  /** All rows but those of a set are settled; those are as before. */
  predicate SettledBut(u: set<Id>, before: Table, table: Table) {
    && table.Keys == before.Keys
    && (forall t | t in u :: t in before && table[t] == before[t])
    && (forall t | t in before && t !in u :: Same(table[t], Settle(before[t])))
  }

  predicate Graced(leases: map<Id, Lease>, now: real) {
    forall d | d in leases :: leases[d].deadline == now + leases[d].ttl as real && leases[d].reason == "restart_grace"
  }

  lemma NoneSettled(before: Table)
    ensures SettledBut(before.Keys, before, before)
  {
  }

  lemma StillAsBefore(u: set<Id>, before: Table, table: Table, t: Id)
    requires SettledBut(u, before, table) && t in u
    ensures t in before && t in table && table[t] == before[t]
  {
  }

  lemma OneSettled(u: set<Id>, before: Table, table: Table, next: Table, id: Id)
    requires SettledBut(u, before, table) && id in u && next.Keys == table.Keys
    requires forall t | t in next && t != id :: next[t] == table[t]
    requires Same(next[id], Settle(before[id]))
    ensures SettledBut(u - {id}, before, next)
  {
    hide Same, Settle;
  }

  /** All rows are as before or failed for want of an input, except perhaps that of one task. */
  predicate FailedBut(log: seq<Sealed>, before: Table, table: Table, except: Option<Id>) {
    && table.Keys == before.Keys
    && forall t | t in before && Some(t) != except :: FailedOrSame(log, table, before[t], table[t])
  }

  /** The tasks from the n-th on still have the rows they are listed with. */
  predicate ListedFrom(tasks: seq<TaskState>, table: Table, n: nat) {
    forall k: nat | n <= k < |tasks| :: tasks[k].taskId in table && table[tasks[k].taskId] == tasks[k]
  }

  /** The first n tasks have been failed. */
  predicate FailedUpTo(tasks: seq<TaskState>, table: Table, n: nat) {
    forall k: nat | k < n && k < |tasks| :: tasks[k].taskId in table && table[tasks[k].taskId].status.Failed?
  }

  lemma NothingFailed(log: seq<Sealed>, before: Table, tasks: seq<TaskState>)
    ensures FailedBut(log, before, before, None) && FailedUpTo(tasks, before, 0)
  {
  }

  lemma OneFailed(log: seq<Sealed>, longer: seq<Sealed>, before: Table, table: Table, next: Table, id: Id)
    requires FailedBut(log, before, table, None) && id in table && id in next && next == table[id := next[id]]
    requires table[id].status.Queued? && NoNewReports(log, longer)
    ensures FailedBut(longer, before, next, Some(id)) && next.Keys == before.Keys
    ensures FailedOrSame(longer, next, before[id], next[id]) ==> FailedBut(longer, before, next, None)
  {
    hide Unusable, NoNewReports;
    forall t | t in before && t != id ensures FailedOrSame(longer, next, before[t], next[t]) {
      assert FailedOrSame(log, table, before[t], table[t]);
      if table[t] != before[t] {
        UnusableKept(log, longer, table, next, before[t], id);
      }
    }
  }

  /** One more task of the list has been gone through. */
  lemma ListedStep(tasks: seq<TaskState>, table: Table, next: Table, i: nat)
    requires i < |tasks| && ListedFrom(tasks, table, i)
    requires forall k: nat, j: nat | k < j < |tasks| :: tasks[k].taskId != tasks[j].taskId
    requires tasks[i].taskId in next && next == table[tasks[i].taskId := next[tasks[i].taskId]]
    ensures ListedFrom(tasks, next, i + 1)
    ensures FailedUpTo(tasks, table, i) ==>
              FailedUpTo(tasks, next, i) && (next[tasks[i].taskId].status.Failed? ==> FailedUpTo(tasks, next, i + 1))
  {
  }

  /** The first n of the queued tasks could not be claimed. */
  predicate PassedUpTo(before: Table, table: Table, tasks: seq<TaskState>, n: nat) {
    forall k: nat | k < n && k < |tasks| ::
      tasks[k].taskId in before && tasks[k].taskId in table && PassedOver(before, table, tasks[k].taskId)
  }

  predicate GrantedOn(task: TaskState, worker: Id, d: Id, now: real, l: Lease) {
    l == Lease(task.taskId, d, worker, task.leaseTtl, now + task.leaseTtl as real, "ttl")
  }

  lemma NextListed(tasks: seq<TaskState>, before: Table, table: Table, i: nat)
    requires i < |tasks| && ListedFrom(tasks, before, 0) && ListedFrom(tasks, table, i)
    ensures tasks[i].taskId in before && before[tasks[i].taskId] == tasks[i]
    ensures tasks[i].taskId in table && table[tasks[i].taskId] == tasks[i]
  {
  }

  lemma GrantedTask(task: TaskState, worker: Id, d: Id, now: real, l: Lease)
    requires GrantedOn(task, worker, d, now, l)
    ensures l.taskId == task.taskId
  {
  }

  lemma PassedNone(before: Table, tasks: seq<TaskState>)
    ensures PassedUpTo(before, before, tasks, 0)
  {
  }

  lemma PassedUpToKept(before: Table, table: Table, next: Table, tasks: seq<TaskState>, i: nat)
    requires PassedUpTo(before, table, tasks, i) && i < |tasks|
    requires var id := tasks[i].taskId; id in next && next == table[id := next[id]]
    requires forall k: nat | k < i :: tasks[k].taskId != tasks[i].taskId && tasks[k].dependsOn != Some(tasks[i].taskId)
    requires ListedFrom(tasks, before, 0)
    ensures PassedUpTo(before, next, tasks, i)
  {
    hide PassedOver;
    forall k: nat | k < i ensures tasks[k].taskId in next && PassedOver(before, next, tasks[k].taskId) {
      PassedKept(before, table, next, tasks[k].taskId, tasks[i].taskId);
    }
  }

  lemma OnePassed(log: seq<Sealed>, before: Table, table: Table, tasks: seq<TaskState>, i: nat)
    requires PassedUpTo(before, table, tasks, i) && i < |tasks|
    requires tasks[i].taskId in before && tasks[i].taskId in table && before[tasks[i].taskId] == tasks[i]
    requires FailedOrSame(log, table, tasks[i], table[tasks[i].taskId])
    requires table[tasks[i].taskId] == tasks[i] ==> Waiting(table, tasks[i])
    ensures PassedUpTo(before, table, tasks, i + 1)
    ensures table[tasks[i].taskId] == tasks[i] || table[tasks[i].taskId].status.Failed?
  {
    PassedNow(log, before, table, tasks[i].taskId);
  }

  lemma WaitingMeans(table: Table, task: TaskState)
    requires Waiting(table, task)
    ensures task.dependsOn.Some? && task.dependsOn.value in table && !Terminal(table[task.dependsOn.value].status)
  {
  }

  lemma PassedKept(before: Table, table: Table, next: Table, t: Id, id: Id)
    requires t in before && t in table && PassedOver(before, table, t)
    requires t != id && before[t].dependsOn != Some(id) && id in next && next == table[id := next[id]]
    ensures PassedOver(before, next, t)
  {
  }

  lemma PassedNow(log: seq<Sealed>, before: Table, table: Table, t: Id)
    requires t in before && t in table && FailedOrSame(log, table, before[t], table[t])
    requires table[t] == before[t] ==> Waiting(table, before[t])
    ensures PassedOver(before, table, t)
  {
  }

  lemma InOrder(tasks: seq<TaskState>, k: nat, i: nat)
    requires CreationOrder(tasks) && i < |tasks| && k < |tasks|
    ensures tasks[k].createdSeq < tasks[i].createdSeq ==> k < i
  {
  }

  /** A queued task created before tasks[i] stands before it in creation order. */
  lemma StandsBefore(tasks: seq<TaskState>, s: TaskState, i: nat)
    requires CreationOrder(tasks) && s in tasks && i < |tasks| && s.createdSeq < tasks[i].createdSeq
    ensures exists k: nat :: k < i && tasks[k] == s
  {
    var k: nat :| k < |tasks| && tasks[k] == s;
    InOrder(tasks, k, i);
  }

  class Controller {
    const journal: JournalDb
    const stampAt: nat -> Stamp
    var leases: map<Id, Lease>
    var queue: seq<Id>
    var lastTick: Option<real>
    ghost var inFlight: map<Id, TaskState>

    ghost function Vol(): Volatile
      reads this
    {
      Volatile(leases, queue, inFlight)
    }

    /** The durable part: what holds at every moment, also in the middle of an operation. */
    ghost predicate Durable()
      reads journal
    {
      && journal.Valid()
      && Facts(journal.log, journal.table)
      && Past(journal.log, journal.tables)
      && forall n: nat :: StampValid(stampAt(n))
    }

    /** Between operations unsettled is empty. */
    ghost predicate Valid(unsettled: set<Id>)
      reads this, journal
    {
      Durable() && RuntimeInv(journal.table, Vol(), unsettled)
    }

    lemma Opened(u: set<Id>)
      requires Valid(u)
      ensures Durable() && RuntimeInv(journal.table, Vol(), u)
    {
    }

    lemma Closed(u: set<Id>)
      requires Durable() && RuntimeInv(journal.table, Vol(), u)
      ensures Valid(u)
    {
    }

    lemma VolIs()
      ensures Vol() == Volatile(leases, queue, inFlight)
    {
    }

    lemma KeysAreUnique()
      requires Durable()
      ensures UniqueKeys(journal.log)
    {
    }

    lemma DurableMeans()
      requires Durable()
      ensures journal.Valid() && Facts(journal.log, journal.table) && Past(journal.log, journal.tables)
      ensures forall n: nat :: StampValid(stampAt(n))
    {
    }

    lemma KnownRow(t: Id)
      requires Durable() && t in journal.table
      ensures Sound(journal.table[t]) && journal.table[t].taskId == t
      ensures StateFact(journal.log, journal.table, t)
    {
      TableInvHolds(journal.log, journal.tables, |journal.log|);
      assert StateFact(journal.log, journal.table, t);
    }

    // ------------------------------------------------------------- boot

    /** Starts on a journal that an earlier controller left behind at any moment, even in the middle of an
        operation: every task ends where finishing its interrupted operation takes it. */
    constructor Boot(journal: JournalDb, stampAt: nat -> Stamp, now: real)
      requires journal.Valid() && Facts(journal.log, journal.table) && Past(journal.log, journal.tables)
      requires forall n: nat :: StampValid(stampAt(n))
      modifies journal
      ensures this.journal == journal && this.stampAt == stampAt
      ensures Valid({}) && lastTick.None? && inFlight == map[]
      ensures old(journal.log) <= journal.log
      ensures journal.table.Keys == old(journal.table).Keys
      ensures forall t | t in journal.table :: Same(journal.table[t], Settle(old(journal.table)[t]))
      ensures forall t | t in journal.table :: journal.table[t].status == SettledStatus(old(journal.table)[t])
      ensures forall d | d in leases :: leases[d].deadline == now + leases[d].ttl as real
                                        && leases[d].reason == "restart_grace"
    {
      this.journal, this.stampAt := journal, stampAt;
      leases, queue, lastTick, inFlight := map[], [], None, map[];
      new;
      AppendStarted();
      assert RuntimeInv(journal.table, Vol(), journal.table.Keys);
      ghost var before := journal.table;
      TableInvNow();
      hide RuntimeInv, Valid, Durable, Same, Settle, SettledStatus, StateInv;
      Recover(now);
      forall t | t in journal.table ensures journal.table[t].status == SettledStatus(before[t]) {
        SettleMeans(before[t], journal.table[t]);
      }
    }

    method AppendStarted()
      requires Durable()
      modifies journal
      ensures Durable()
      ensures journal.table == old(journal.table)
      ensures old(journal.log) <= journal.log
    {
      var e := EventData(ControllerStarted, None, None, None, None, None, Info("pid, build"), None);
      var r := Submit(e);
    }

    /** Grants a fresh lease for every active row, queues the verifying ones, and settles whatever an interrupted
        operation left unsettled. */
    method Recover(now: real)
      requires Valid(journal.table.Keys) && Vol() == Volatile(map[], [], map[])
      modifies this`leases, this`queue, journal
      ensures Valid({})
      ensures old(journal.log) <= journal.log
      ensures journal.table.Keys == old(journal.table).Keys
      ensures forall t | t in journal.table :: Same(journal.table[t], Settle(old(journal.table)[t]))
      ensures forall d | d in leases :: leases[d].deadline == now + leases[d].ttl as real
                                        && leases[d].reason == "restart_grace"
    {
      hide RuntimeInv, StoreInv, Facts, Past, Rows, Same, Settle;
      var tasks := journal.Tasks(None);
      DistinctTasks(tasks, journal.table);
      forall t | t in journal.table ensures journal.table[t].taskId == t && journal.table[t] in tasks {
        KnownRow(t);
        assert Wanted(None, journal.table[t]);
      }
      AllListed(tasks, journal.table);
      RecoverAll(tasks, now);
    }

    /** Recovers the listed tasks one after the other; u are those still to do. */
    method RecoverAll(tasks: seq<TaskState>, now: real)
      requires Valid(journal.table.Keys) && Vol() == Volatile(map[], [], map[])
      requires forall k: nat | k < |tasks| :: tasks[k].taskId in journal.table && journal.table[tasks[k].taskId] == tasks[k]
      requires forall i: nat, j: nat | i < j < |tasks| :: tasks[i].taskId != tasks[j].taskId
      requires forall t | t in journal.table :: exists k: nat :: k < |tasks| && tasks[k].taskId == t
      modifies this`leases, this`queue, journal
      ensures Valid({})
      ensures old(journal.log) <= journal.log
      ensures SettledBut({}, old(journal.table), journal.table)
      ensures Graced(leases, now)
    {
      hide RuntimeInv, StoreInv, Facts, Past, Rows, Same, Settle, Valid, Durable, SettledBut;
      ghost var before := journal.table;
      ghost var u := journal.table.Keys;
      NoneSettled(before);
      for i := 0 to |tasks|
        invariant Valid(u)
        invariant old(journal.log) <= journal.log && inFlight == map[]
        invariant SettledBut(u, before, journal.table)
        invariant forall k: nat | k < |tasks| :: tasks[k].taskId in u <==> i <= k
        invariant u <= before.Keys
        invariant Graced(leases, now)
      {
        ghost var table := journal.table;
        StillAsBefore(u, before, table, tasks[i].taskId);
        RecoverTask(tasks[i], now, u);
        OneSettled(u, before, table, journal.table, tasks[i].taskId);
        u := u - {tasks[i].taskId};
      }
      assert u == {};
    }

    method RecoverTask(task: TaskState, now: real, ghost u: set<Id>)
      requires Valid(u) && task.taskId in u && task.taskId in journal.table && journal.table[task.taskId] == task
      modifies this`leases, this`queue, journal
      ensures Valid(u - {task.taskId})
      ensures old(journal.log) <= journal.log
      ensures journal.table.Keys == old(journal.table.Keys)
      ensures forall t | t in journal.table && t != task.taskId :: journal.table[t] == old(journal.table)[t]
      ensures Same(journal.table[task.taskId], Settle(task))
      ensures forall d | d in leases && d !in old(leases) ::
                leases[d].deadline == now + leases[d].ttl as real && leases[d].reason == "restart_grace"
      ensures forall d | d in old(leases) :: d in leases && leases[d] == old(leases)[d]
    {
      hide *;
      Opened(u);
      VolIs();
      ghost var v := Vol();
      var t := task.taskId;
      KnownRow(t);
      if ActiveLease(task.status) {
        ActiveHasDispatch(task);
        var d := task.dispatchId.value;
        var l := Lease(t, d, task.workerId.value, task.leaseTtl, now + task.leaseTtl as real, "restart_grace");
        DispatchIsFree(u, t);
        RegrantFits(journal.table, task, l);
        leases := leases[d := l];
        VolIs();
        Grant(journal.table, v, u, t, l, Vol());
        Closed(u - {t});
        ActiveIsSettled(task);
      } else if task.status.Verifying? {
        queue := queue + [t];
        VolIs();
        Enqueue(journal.table, v, u, t, Vol());
        Closed(u - {t});
      } else if task.status.Accepted? {
        Complete(t, u);
      } else if task.status.RetryPending? {
        Decide(t, u);
      } else if task.cancelRequested && task.status.Queued? {
        NobodyIsValid();
        CancelNow(t, u, None, "");
      } else {
        SettleCases(task, 0);
        Release(journal.table, v, u, t);
        Closed(u - {t});
      }
      SettleCases(task, |journal.log|);
    }

    /** No lease stands in the way of the dispatch of a task that has none. */
    lemma DispatchIsFree(u: set<Id>, t: Id)
      requires Valid(u) && t in u && t in journal.table && journal.table[t].dispatchId.Some?
      ensures journal.table[t].dispatchId.value !in leases
    {
      var d := journal.table[t].dispatchId.value;
      assert Detached(Vol(), t);
      assert StateFact(journal.log, journal.table, t);
      if d in leases {
        var log, owner := journal.log, Some(leases[d].taskId);
        LeaseRow(u, d);
        SameOwner(log, Some(t), owner, Some(d));
      }
    }

    lemma LeaseRow(u: set<Id>, d: Id)
      requires Valid(u) && d in leases
      ensures Owns(journal.log, Some(leases[d].taskId), Some(d))
    {
      assert LeaseOk(journal.table, d, leases[d]);
      assert StateFact(journal.log, journal.table, leases[d].taskId);
    }

    // ------------------------------------------------------------- appending

    /** One append transaction on an event of the shape the controller gives its events. */
    method Submit(e: Event) returns (r: Outcome)
      requires Durable() && Shaped(journal.log, journal.table, e)
      requires var x := Seal(journal.hash, e, stampAt(|journal.log| + 1), |journal.log| + 1, HeadHash(journal.log));
               Project(journal.table, x).Ok? ==> Prompt(journal.table, e, Project(journal.table, x).value)
      modifies journal
      ensures Durable()
      ensures (Store(journal.log, journal.table), r) ==
              AppendTo(journal.hash, old(Store(journal.log, journal.table)), e, stampAt(old(|journal.log|) + 1))
      ensures old(journal.log) <= journal.log
      ensures !r.Appended? ==> journal.log == old(journal.log) && journal.table == old(journal.table)
    {
      hide *;
      ghost var log, table, ts := journal.log, journal.table, journal.tables;
      DurableMeans();
      JournalMeans();
      r := journal.Append(e, stampAt(|journal.rows| + 1));
      if r.Appended? {
        JournalMeans();
        AppendedMeans(journal.hash, Store(log, table), e, stampAt(|log| + 1));
        ghost var x := Seal(journal.hash, e, stampAt(|log| + 1), |log| + 1, HeadHash(log));
        EmitKeepsFacts(journal.hash, Store(log, table), ts, x, journal.table);
        PastExtends(log, ts, journal.log, journal.tables);
      }
      DurableAgain();
    }

    lemma JournalMeans()
      requires journal.Valid()
      ensures StoreInv(journal.hash, Store(journal.log, journal.table), journal.tables)
      ensures |journal.rows| == |journal.log| && |journal.tables| == |journal.log| + 1
      ensures journal.tables[|journal.log|] == journal.table
    {
    }

    lemma DurableAgain()
      requires journal.Valid() && Facts(journal.log, journal.table) && Past(journal.log, journal.tables)
      requires forall n: nat :: StampValid(stampAt(n))
      ensures Durable()
    {
    }

    /** Appends one event about a known task. The precondition is that the event is legal and its key is
        free, so it is stored: no append of the controller raises or is swallowed as a duplicate. */
    method Emit(e: EventData, ghost s: TaskState, ghost next: TaskState)
      requires Durable()
      requires s.taskId in journal.table && journal.table[s.taskId] == s
      requires Effect(s, e, |journal.log| + 1, next)
      requires KeyOpen(s, e) || Stored(journal.log, e.dedupeKey).None?
      requires Settled(s) || SameOutcome(next, Settle(s))
      requires e.kind.TaskClaimed? ==> e.dispatchId.value !in Issued(journal.log)
      modifies journal
      ensures Durable()
      ensures journal.table == old(journal.table)[s.taskId := next.(updatedSeq := |journal.log|)]
      ensures |journal.log| == old(|journal.log|) + 1 && old(journal.log) <= journal.log
      ensures journal.log[|journal.log| - 1].event == e
      ensures Issued(journal.log) ==
              if e.kind.TaskClaimed? then old(Issued(journal.log))[e.dispatchId.value := s.taskId]
              else old(Issued(journal.log))
    {
      hide *;
      ghost var log := journal.log;
      DurableMeans();
      EffectIsValid(s, e, |log| + 1, next);
      EmitReady(journal.hash, log, journal.table, s, e, stampAt(|log| + 1), next);
      var r := Submit(e);
      IssuedSnoc(log, journal.log[|log|]);
    }

    /** The same for a task that stands outside the leases and the queue, which therefore need no change. */
    method Record(e: EventData, ghost s: TaskState, ghost next: TaskState, ghost u: set<Id>)
      requires Valid(u) && s.taskId in u
      requires s.taskId in journal.table && journal.table[s.taskId] == s
      requires Effect(s, e, |journal.log| + 1, next)
      requires KeyOpen(s, e) || Stored(journal.log, e.dedupeKey).None?
      requires Settled(s) || SameOutcome(next, Settle(s))
      requires e.kind.TaskClaimed? ==> e.dispatchId.value !in Issued(journal.log)
      modifies journal
      ensures Valid(u)
      ensures journal.table == old(journal.table)[s.taskId := next.(updatedSeq := |journal.log|)]
      ensures |journal.log| == old(|journal.log|) + 1 && old(journal.log) <= journal.log
      ensures journal.log[|journal.log| - 1].event == e
      ensures Issued(journal.log) ==
              if e.kind.TaskClaimed? then old(Issued(journal.log))[e.dispatchId.value := s.taskId]
              else old(Issued(journal.log))
    {
      hide Effect, RuntimeInv, StoreInv, Facts, Past, Rows, KeyOpen, Settle, SameOutcome;
      ghost var table := journal.table;
      Emit(e, s, next);
      Rewrite(table, Vol(), u, s.taskId, journal.table[s.taskId]);
    }

    /** Carries out the decision on a failed attempt. */
    method Decide(t: Id, ghost u: set<Id>)
      requires Valid(u) && t in u && t in journal.table && journal.table[t].status.RetryPending?
      modifies journal
      ensures Valid(u - {t})
      ensures journal.table == old(journal.table)[t := Decided(old(journal.table[t])).(updatedSeq := |journal.log|)]
      ensures |journal.log| == old(|journal.log|) + 1 && old(journal.log) <= journal.log
      ensures Issued(journal.log) == old(Issued(journal.log))
    {
      hide Effect, RuntimeInv, StoreInv, Facts, Past, Rows;
      KnownRow(t);
      var s := journal.table[t];
      DecideEffect(s, |journal.log| + 1);
      Record(DecideEvent(s), s, Decided(s), u);
      Release(journal.table, Vol(), u, t);
    }

    /** Journals the cancellation of a task that no worker holds. */
    method CancelNow(t: Id, ghost u: set<Id>, actor: Option<Id>, why: string)
      requires Valid(u) && t in u && t in journal.table && journal.table[t].cancelRequested && ValidId(actor)
      requires journal.table[t].status.Queued? || (journal.table[t].status.Blocked? && actor.Some?)
      modifies journal
      ensures Valid(u - {t})
      ensures journal.table == old(journal.table)[t := CancelledState(old(journal.table[t]), actor).(updatedSeq := |journal.log|)]
      ensures |journal.log| == old(|journal.log|) + 1 && old(journal.log) <= journal.log
      ensures Issued(journal.log) == old(Issued(journal.log))
    {
      hide Effect, RuntimeInv, StoreInv, Facts, Past, Rows;
      KnownRow(t);
      var s := journal.table[t];
      CancelledEffect(s, actor, why, |journal.log| + 1);
      Record(CancelledEvent(s, actor, why), s, CancelledState(s, actor), u);
      Release(journal.table, Vol(), u, t);
    }

    method Complete(t: Id, ghost u: set<Id>)
      requires Valid(u) && t in u && t in journal.table && journal.table[t].status.Accepted?
      modifies journal
      ensures Valid(u - {t})
      ensures journal.table == old(journal.table)[t := old(journal.table[t]).(status := Status.Complete, updatedSeq := |journal.log|)]
      ensures |journal.log| == old(|journal.log|) + 1 && old(journal.log) <= journal.log
      ensures Issued(journal.log) == old(Issued(journal.log))
    {
      hide Effect, RuntimeInv, StoreInv, Facts, Past, Rows;
      KnownRow(t);
      var s := journal.table[t];
      CompleteEffect(s, |journal.log| + 1);
      Record(CompleteEvent(s), s, s.(status := Status.Complete), u);
      Release(journal.table, Vol(), u, t);
    }

    // ------------------------------------------------------------- tick

    /** Takes away every lease whose deadline has passed, unless the machine was suspended meanwhile: then all
        deadlines first move by the gap. */
    method Tick(now: real)
      requires Valid({})
      modifies this`leases, this`lastTick, journal
      ensures Valid({}) && lastTick == Some(now)
      ensures old(journal.log) <= journal.log && journal.table.Keys == old(journal.table.Keys)
      ensures forall d | d in old(leases) :: d in leases <==> SurvivesTick(old(leases)[d], old(lastTick), now)
      ensures forall d | d in leases :: d in old(leases) && leases[d] == AfterTick(old(leases)[d], old(lastTick), now)
      ensures forall t | t in old(journal.table) ::
                TickRow(old(journal.table)[t], journal.table[t], t, old(leases), old(lastTick), now)
    {
      hide SurvivesTick, AfterTick, TickRow, Valid, RowAfter;
      ExpireMissed(now);
      forall d | d in old(leases)
        ensures Moved(old(leases), old(lastTick), now)[d].deadline == Deadline(old(leases)[d], old(lastTick), now)
        ensures now < Deadline(old(leases)[d], old(lastTick), now) <==> SurvivesTick(old(leases)[d], old(lastTick), now)
        ensures Moved(old(leases), old(lastTick), now)[d] == AfterTick(old(leases)[d], old(lastTick), now)
      {
        MovedMeans(old(leases)[d], old(lastTick), now);
      }
      forall t | t in old(journal.table)
        ensures TickRow(old(journal.table)[t], journal.table[t], t, old(leases), old(lastTick), now)
      {
        RowAfterMeans(old(journal.table)[t], journal.table[t], t, old(leases), old(lastTick), now, leases);
      }
    }

    /** Moves the deadlines, then expires one lease after the other. */
    method ExpireMissed(now: real)
      requires Valid({})
      modifies this`leases, this`lastTick, journal
      ensures Valid({}) && lastTick == Some(now)
      ensures old(journal.log) <= journal.log && journal.table.Keys == old(journal.table.Keys)
      ensures var moved := Moved(old(leases), old(lastTick), now);
              && (forall d | d in leases :: d in moved && now < moved[d].deadline && leases[d] == moved[d])
              && (forall d | d in moved && now < moved[d].deadline :: d in leases)
              && (forall t | t in old(journal.table) ::
                    RowAfter(old(journal.table)[t], journal.table[t], t, moved, leases))
    {
      hide RuntimeInv, StoreInv, Facts, Past, Rows, RowAfter, Moved;
      MoveDeadlines(now);
      var missed := set d | d in leases && leases[d].deadline <= now;
      ghost var before, moved := journal.table, leases;
      NothingGone(before, moved);
      while missed != {}
        invariant Valid({}) && lastTick == Some(now)
        invariant old(journal.log) <= journal.log && journal.table.Keys == before.Keys
        invariant missed <= leases.Keys
        invariant forall d | d in leases :: d in moved && leases[d] == moved[d] && (d in missed || now < moved[d].deadline)
        invariant forall d | d in moved && now < moved[d].deadline :: d in leases && d !in missed
        invariant forall t | t in before :: RowAfter(before[t], journal.table[t], t, moved, leases)
        decreases missed
      {
        var d :| d in missed;
        missed := missed - {d};
        ghost var table, held := journal.table, leases;
        Expire(d);
        RowsAfterStep(before, table, journal.table, moved, held, leases, d);
      }
    }

    method MoveDeadlines(now: real)
      requires Valid({})
      modifies this`leases, this`lastTick
      ensures Valid({}) && lastTick == Some(now)
      ensures leases == Moved(old(leases), old(lastTick), now)
    {
      hide StoreInv, Facts, Past, Rows;
      ghost var v := Vol();
      forall d | d in leases ensures LeaseOk(journal.table, d, leases[d]) {
        LeaseOfTask(d);
      }
      leases := Moved(leases, lastTick, now);
      Redate(journal.table, v, {}, Vol());
      lastTick := Some(now);
    }

    /** Expires one lease and journals the decision. */
    method Expire(d: Id)
      requires Valid({}) && d in leases
      modifies this`leases, journal
      ensures Valid({})
      ensures leases == old(leases) - {d}
      ensures old(journal.log) <= journal.log
      ensures var l := old(leases)[d];
              && l.taskId in old(journal.table) && l.taskId in journal.table
              && old(journal.table)[l.taskId].dispatchId == Some(d)
              && journal.table == old(journal.table)[l.taskId := journal.table[l.taskId]]
              && Same(journal.table[l.taskId], Decided(Expired(old(journal.table)[l.taskId], l.reason)))
    {
      hide RuntimeInv, StoreInv, Facts, Past, Rows, Decided, Same, Expired;
      ghost var v := Vol();
      var l := leases[d];
      LeaseOfTask(d);
      leases := leases - {d};
      TableInvNow();
      DropLease(journal.table, v, {}, d, Vol());
      var s := journal.table[l.taskId];
      if s.dispatchId == Some(l.dispatchId) && ActiveLease(s.status) {
        assert {} + {l.taskId} == {l.taskId};
        JournalExpiry(l.taskId, l.reason);
      }
    }

    method JournalExpiry(t: Id, reason: string)
      requires Valid({t}) && t in journal.table && ActiveLease(journal.table[t].status)
      requires reason in {"ttl", "restart_grace"}
      modifies journal
      ensures Valid({})
      ensures old(journal.log) <= journal.log
      ensures t in journal.table && journal.table == old(journal.table)[t := journal.table[t]]
      ensures Same(journal.table[t], Decided(Expired(old(journal.table)[t], reason)))
    {
      hide RuntimeInv, StoreInv, Facts, Past, Rows, Decided, Effect, Settle, SameOutcome, Same, Durable;
      var s := journal.table[t];
      KnownRow(t);
      ghost var n := |journal.log| + 1;
      ExpireEffect(s, reason, n);
      ExpireKeyOpen(s, reason);
      hide KeyOpen, StateInv, ExpireEvent, Sound, Expired;
      assert {t} - {t} == {};
      Record(ExpireEvent(s, reason), s, Expired(s, reason), {t});
      DecidedLater(Expired(s, reason), n, n + 1);
      Decide(t, {t});
    }

    // ------------------------------------------------------------- creating and claiming

    /** Creates the task with the id derived from its idempotency key, or a fresh one. The value tells whether
        the same task existed already. */
    method CreateTask(t: Id, p: Payload) returns (r: Reply<bool>)
      requires Valid({}) && Minted(Some(t)) && p.Creation?
      modifies journal
      ensures Valid({}) && old(journal.log) <= journal.log
      ensures r == if !CreationFits(t, p) then Denied(400, "invalid_request")
                   else if p.dependsOn.Some? && p.dependsOn.value !in old(journal.table)
                   then Denied(400, "unknown_dependency")
                   else if t !in old(journal.table) then Granted(false)
                   else if CreatedWith(old(journal.log), t, p) then Granted(true)
                   else Denied(409, "idempotency_conflict")
      ensures if r == Granted(false)
              then t in journal.table && journal.table == old(journal.table)[t := journal.table[t]]
                   && FreshRow(journal.table[t], t, p, |journal.log|)
              else journal.table == old(journal.table) && journal.log == old(journal.log)
    {
      hide *;
      var ok := CheckCreation(t, p);
      if !ok {
        return Denied(400, "invalid_request");
      }
      if p.dependsOn.Some? && p.dependsOn.value !in journal.table {
        return Denied(400, "unknown_dependency");
      }
      Opened({});
      ghost var table := journal.table;
      CreationReady(t, p);
      var e: Event := CreationOf(t, p);
      var outcome := Submit(e);
      if outcome.KeyConflict? {
        Closed({});
        return Denied(409, "idempotency_conflict");
      }
      if outcome.Appended? {
        FreshIsIdle(e, |journal.log|);
        AddRow(table, Vol(), {}, t, journal.table[t]);
      }
      Closed({});
      return Granted(outcome.Duplicate?);
    }

    /** The append of a creation: stored for a new task, otherwise a repetition or a conflict. */
    lemma CreationReady(t: Id, p: Payload)
      requires Durable() && Minted(Some(t)) && p.Creation? && CreationAccepted(t, p)
      requires p.dependsOn.Some? ==> p.dependsOn.value in journal.table
      ensures CreationOf(t, p).Valid() && Shaped(journal.log, journal.table, CreationOf(t, p))
      ensures CreationOf(t, p).kind.TaskCreated? && CreationOf(t, p).taskId == Some(t) && CreationOf(t, p).payload == p
      ensures var e, log, table, stamp := CreationOf(t, p), journal.log, journal.table, stampAt(|journal.log| + 1);
              var x := Seal(journal.hash, e, stamp, |log| + 1, HeadHash(log));
              var (st, out) := AppendTo(journal.hash, Store(log, table), e, stamp);
              && (Project(table, x).Ok? ==> Prompt(table, e, Project(table, x).value))
              && (t !in table ==> out.Appended? && st.table == table[t := NewTask(e, |st.log|)] && |st.log| == |log| + 1)
              && (t in table ==> if CreatedWith(log, t, p) then out.Duplicate? else out.KeyConflict?)
    {
      hide *;
      DurableMeans();
      KeysAreUnique();
      ghost var log, table, stamp := journal.log, journal.table, stampAt(|journal.log| + 1);
      CreationShape(journal.hash, log, table, t, p, stamp);
      var e: Event := CreationOf(t, p);
      CreationKeyTaken(t, e);
      CreatedMeans(log, table, t, p);
      AppendAnswers(journal.hash, Store(log, table), e, stamp);
      if t !in table {
        FreeKeyIsStored(journal.hash, Store(log, table), e, stamp, table[t := NewTask(e, |log| + 1)]);
      }
    }

    /** The creation key of a task is taken exactly if the task exists. */
    lemma CreationKeyTaken(t: Id, e: Event)
      requires Durable() && e.kind.TaskCreated? && e.taskId == Some(t) && WellKeyed(e)
      ensures t in journal.table <==> Stored(journal.log, e.dedupeKey).Some?
      ensures t in journal.table ==>
                && Stored(journal.log, e.dedupeKey).value in journal.log
                && Stored(journal.log, e.dedupeKey).value.event.kind.TaskCreated?
                && Stored(journal.log, e.dedupeKey).value.event.taskId == Some(t)
    {
      hide StoreInv, Facts, Past, Rows;
      CreationKey(journal.hash, Store(journal.log, journal.table), journal.tables, t, e);
    }

    /** Hands out the oldest claimable task under the fresh dispatch d. On the way, tasks whose dependency can
        no longer provide an input are failed instead of waiting forever. */
    method Claim(worker: Id, d: Id, now: real) returns (r: Reply<Option<Lease>>)
      requires Valid({}) && Minted(Some(d)) && d !in Issued(journal.log)
      modifies this`leases, journal
      ensures Valid({}) && old(journal.log) <= journal.log && journal.table.Keys == old(journal.table).Keys
      ensures if 1 <= |worker| <= 200 then r.Granted?
              else r == Denied(400, "invalid_request") && journal.log == old(journal.log) && journal.table == old(journal.table)
                   && leases == old(leases)
      ensures r.Granted? ==>
                forall t | t in journal.table && (r.value.None? || t != r.value.value.taskId) ::
                  FailedOrSame(journal.log, journal.table, old(journal.table)[t], journal.table[t])
      ensures r == Granted(None) ==>
                && leases == old(leases)
                && forall t | t in journal.table && old(journal.table)[t].status.Queued? ::
                     PassedOver(old(journal.table), journal.table, t)
      ensures r == Granted(None) && Idle(old(journal.table)) ==>
                forall t | t in journal.table :: !journal.table[t].status.Queued?
      ensures r.Granted? && r.value.Some? ==>
                var l := r.value.value;
                && l.taskId in old(journal.table) && old(journal.table)[l.taskId].status.Queued?
                && l == Lease(l.taskId, d, worker, old(journal.table)[l.taskId].leaseTtl, now + l.ttl as real, "ttl")
                && leases == old(leases)[d := l]
                && l.taskId in journal.table
                && ClaimedWithInput(journal.log, journal.table, l.taskId, old(journal.table)[l.taskId], d, worker)
                && (forall t | t in journal.table && old(journal.table)[t].status.Queued?
                              && old(journal.table)[t].createdSeq < old(journal.table)[l.taskId].createdSeq ::
                      PassedOver(old(journal.table), journal.table, t))
    {
      hide StoreInv, Facts, Past, Rows, RuntimeInv, Same, InputVerified, FailedOrSame, PassedOver, ClaimedWithInput;
      IdLengths(worker);
      if !IsId(worker) {
        return Denied(400, "invalid_request");
      }
      var tasks := journal.Tasks(Some(Queued));
      DistinctTasks(tasks, journal.table);
      NoForwardDependency(tasks);
      ghost var before := journal.table;
      forall t | t in before ensures before[t].taskId == t {
        KnownRow(t);
      }
      hide Valid, Durable, CreationOrder;
      var grant := ClaimOldest(tasks, worker, d, now);
      if grant.None? {
        forall t | t in before && before[t].status.Queued?
          ensures PassedOver(before, journal.table, t)
          ensures Idle(before) ==> !journal.table[t].status.Queued?
        {
          var k: nat :| k < |tasks| && tasks[k] == before[t];
        }
        if Idle(before) {
          forall t | t in before ensures !journal.table[t].status.Queued? {
            NotRequeued(journal.log, journal.table, before[t], journal.table[t]);
          }
        }
      } else {
        ghost var i: nat :| i < |tasks| && PassedUpTo(before, journal.table, tasks, i)
                            && tasks[i].taskId == grant.value.taskId;
        forall t | t in before && before[t].status.Queued? && before[t].createdSeq < tasks[i].createdSeq
          ensures PassedOver(before, journal.table, t)
        {
          StandsBefore(tasks, before[t], i);
        }
      }
      return Granted(grant);
    }

    lemma NotRequeued(log: seq<Sealed>, table: Table, s: TaskState, r: TaskState)
      ensures FailedOrSame(log, table, s, r) && r.status.Queued? ==> s.status.Queued?
    {
    }

    /** A dependency was created before its dependent, so it never stands behind it. */
    lemma NoForwardDependency(tasks: seq<TaskState>)
      requires Durable() && CreationOrder(tasks)
      requires forall s | s in tasks :: s.taskId in journal.table && journal.table[s.taskId] == s
      ensures forall k: nat, i: nat | k < i < |tasks| :: tasks[k].dependsOn != Some(tasks[i].taskId)
    {
      hide StoreInv, Facts, Past, Rows;
      forall k: nat, i: nat | k < i < |tasks| ensures tasks[k].dependsOn != Some(tasks[i].taskId) {
        assert tasks[k] in tasks && tasks[i] in tasks;
        KnownRow(tasks[k].taskId);
      }
    }

    method ClaimOldest(tasks: seq<TaskState>, worker: Id, d: Id, now: real) returns (grant: Option<Lease>)
      requires Valid({}) && IsId(worker) && Minted(Some(d)) && d !in Issued(journal.log)
      requires CreationOrder(tasks) && ListedFrom(tasks, journal.table, 0)
      requires forall i: nat, j: nat | i < j < |tasks| :: tasks[i].taskId != tasks[j].taskId
      requires forall k: nat, i: nat | k < i < |tasks| :: tasks[k].dependsOn != Some(tasks[i].taskId)
      requires forall k: nat | k < |tasks| :: tasks[k].status.Queued?
      requires forall t | t in journal.table && journal.table[t].status.Queued? :: journal.table[t] in tasks
      modifies this`leases, journal
      ensures Valid({}) && old(journal.log) <= journal.log
      ensures FailedBut(journal.log, old(journal.table), journal.table,
                        if grant.Some? then Some(grant.value.taskId) else None)
      ensures grant.None? ==>
                && leases == old(leases) && PassedUpTo(old(journal.table), journal.table, tasks, |tasks|)
                && (Idle(old(journal.table)) ==> FailedUpTo(tasks, journal.table, |tasks|))
      ensures grant.Some? ==>
                exists i: nat :: i < |tasks| && PassedUpTo(old(journal.table), journal.table, tasks, i)
                  && GrantedOn(tasks[i], worker, d, now, grant.value)
                  && leases == old(leases)[d := grant.value]
                  && tasks[i].taskId in journal.table
                  && ClaimedWithInput(journal.log, journal.table, tasks[i].taskId, tasks[i], d, worker)
    {
      hide *;
      ghost var before := journal.table;
      NothingFailed(journal.log, before, tasks);
      PassedNone(before, tasks);
      for i := 0 to |tasks|
        invariant Valid({}) && old(journal.log) <= journal.log
        invariant leases == old(leases) && d !in Issued(journal.log)
        invariant FailedBut(journal.log, before, journal.table, None)
        invariant ListedFrom(tasks, journal.table, i)
        invariant PassedUpTo(before, journal.table, tasks, i)
        invariant Idle(before) ==> FailedUpTo(tasks, journal.table, i)
      {
        ghost var table, log := journal.table, journal.log;
        NextListed(tasks, before, table, i);
        var l := TryClaim(tasks[i], worker, d, now);
        OneFailed(log, journal.log, before, table, journal.table, tasks[i].taskId);
        PassedUpToKept(before, table, journal.table, tasks, i);
        if l.Some? {
          GrantedTask(tasks[i], worker, d, now, l.value);
          return l;
        }
        ListedStep(tasks, table, journal.table, i);
        if Idle(before) && journal.table[tasks[i].taskId] == tasks[i] {
          WaitingMeans(journal.table, tasks[i]);
          OldestFirst(before, tasks, i);
        }
        OnePassed(journal.log, before, journal.table, tasks, i);
      }
      return None;
    }

    /** Claims one queued task, or fails it, or leaves it waiting for its dependency. */
    method TryClaim(task: TaskState, worker: Id, d: Id, now: real) returns (grant: Option<Lease>)
      requires Valid({}) && task.taskId in journal.table && journal.table[task.taskId] == task && task.status.Queued?
      requires IsId(worker) && Minted(Some(d)) && d !in Issued(journal.log)
      modifies this`leases, journal
      ensures Valid({}) && old(journal.log) <= journal.log && NoNewReports(old(journal.log), journal.log)
      ensures task.taskId in journal.table
              && journal.table == old(journal.table)[task.taskId := journal.table[task.taskId]]
      ensures grant.None? ==>
                && leases == old(leases) && d !in Issued(journal.log)
                && FailedOrSame(journal.log, journal.table, task, journal.table[task.taskId])
                && (journal.table[task.taskId] == task ==> Waiting(journal.table, task))
      ensures grant.Some? ==>
                && GrantedOn(task, worker, d, now, grant.value)
                && leases == old(leases)[d := grant.value]
                && ClaimedWithInput(journal.log, journal.table, task.taskId, task, d, worker)
    {
      hide StoreInv, Facts, Past, Rows, RuntimeInv, Durable, InputVerified, Unusable, Waiting, NoNewReports;
      SettledRow(task.taskId);
      if task.cancelRequested {
        return None;
      }
      var claimable, input := VerifiedInput(task);
      if !claimable {
        return None;
      }
      ghost var log := journal.log;
      var l := JournalClaim(task, d, worker, input, now);
      ClaimedMeans(journal.log, journal.table, task.taskId, task, d, worker, input);
      return Some(l);
    }

    /** While nothing else is under way, the dependency of the oldest task that is still queued has ended:
        it was created earlier, so the same pass has already failed it if it was queued. */
    lemma OldestFirst(before: Table, tasks: seq<TaskState>, i: nat)
      requires Valid({}) && Idle(before) && FailedBut(journal.log, before, journal.table, None)
      requires CreationOrder(tasks) && i < |tasks|
      requires forall t | t in before && before[t].status.Queued? :: before[t] in tasks
      requires tasks[i].taskId in before && journal.table[tasks[i].taskId] == tasks[i] && tasks[i].dependsOn.Some?
      requires tasks[i].dependsOn.value in before && FailedUpTo(tasks, journal.table, i)
      ensures Terminal(journal.table[tasks[i].dependsOn.value].status)
    {
      hide StoreInv, Facts, Past, Rows, RuntimeInv, Durable, CreationOrder;
      KnownRow(tasks[i].taskId);
      var id := tasks[i].dependsOn.value;
      KnownRow(id);
      SettledRow(id);
      assert FailedOrSame(journal.log, journal.table, before[id], journal.table[id]);
      if !Terminal(journal.table[id].status) {
        StandsBefore(tasks, before[id], i);
      }
    }

    /** The input of a queued task. A task whose dependency has ended without leaving one is failed on the spot. */
    method VerifiedInput(task: TaskState) returns (claimable: bool, input: Option<Input>)
      requires Valid({}) && task.taskId in journal.table && journal.table[task.taskId] == task && task.status.Queued?
      modifies journal
      ensures Valid({}) && old(journal.log) <= journal.log
      ensures Issued(journal.log) == old(Issued(journal.log))
      ensures task.taskId in journal.table
              && journal.table == old(journal.table)[task.taskId := journal.table[task.taskId]]
      ensures claimable ==> journal.table[task.taskId] == task && InputVerified(journal.log, journal.table, task, input)
      ensures NoNewReports(old(journal.log), journal.log)
      ensures claimable ==> journal.log == old(journal.log)
      ensures !claimable && journal.table[task.taskId] == task ==> Waiting(journal.table, task)
      ensures journal.table[task.taskId] != task ==>
                !claimable && journal.table[task.taskId].status.Failed? && Unusable(journal.log, journal.table, task)
    {
      hide StoreInv, Facts, Past, Rows, Effect, RuntimeInv, HasArtifacts;
      KnownRow(task.taskId);
      if task.dependsOn.None? {
        return true, None;
      }
      var id := task.dependsOn.value;
      var dep := journal.table[id];
      KnownRow(id);
      var why := "it ended " + StatusName(dep.status) + " without a verified result";
      if dep.status.Complete? && dep.resolution == Some(Verified) {
        var found := journal.GetEventByDedupeKey(ReportKey(dep.dispatchId, dep.acceptedResult));
        ReportBehind(id);
        var artifacts := found.value.event.payload.artifacts;
        if artifacts != [] {
          return true, Some(Input(id, dep.dispatchId.value, dep.acceptedResult.value, artifacts));
        }
        why := "its verified result names no artifact";
        NoArtifacts(id, found.value);
      } else if !Terminal(dep.status) {
        return false, None;
      }
      assert Unusable(journal.log, journal.table, task);
      ghost var log, table := journal.log, journal.table;
      FailQueued(task.taskId, "dependency " + id + " cannot provide an input: " + why);
      UnusableKept(log, journal.log, table, journal.table, task, task.taskId);
      return false, None;
    }

    lemma NoArtifacts(t: Id, report: Sealed)
      requires Durable() && t in journal.table && report in journal.log && report.event.payload.Report?
      requires report.event.payload.artifacts == []
      requires IsReport(report, t, journal.table[t].dispatchId, journal.table[t].acceptedResult)
      ensures !HasArtifacts(journal.log, t, journal.table[t].dispatchId, journal.table[t].acceptedResult)
    {
      var d, r := journal.table[t].dispatchId, journal.table[t].acceptedResult;
      forall x | x in journal.log && IsReport(x, t, d, r) ensures x == report {
        assert EventFact(journal.log, journal.table, x.event) && EventFact(journal.log, journal.table, report.event);
        OneReport(journal.hash, journal.log, x, report, t, d, r);
      }
    }

    lemma ReportBehind(t: Id)
      requires Durable() && t in journal.table && journal.table[t].acceptedResult.Some?
      ensures var key := ReportKey(journal.table[t].dispatchId, journal.table[t].acceptedResult);
              && Stored(journal.log, key).Some? && Stored(journal.log, key).value in journal.log
              && IsReport(Stored(journal.log, key).value, t, journal.table[t].dispatchId,
                          journal.table[t].acceptedResult)
    {
      KnownRow(t);
      ReportIsStored(journal.hash, journal.log, journal.table, t, journal.table[t].dispatchId,
                     journal.table[t].acceptedResult);
    }

    method FailQueued(t: Id, why: string)
      requires Valid({}) && t in journal.table && journal.table[t].status.Queued?
      modifies journal
      ensures Valid({}) && old(journal.log) <= journal.log
      ensures Issued(journal.log) == old(Issued(journal.log))
      ensures t in journal.table && journal.table == old(journal.table)[t := journal.table[t]]
      ensures journal.table[t].status.Failed? && NoNewReports(old(journal.log), journal.log)
    {
      hide StoreInv, Facts, Past, Rows, Effect, RuntimeInv;
      var s := journal.table[t];
      SettledRow(t);
      KnownRow(t);
      Detach(journal.table, Vol(), {}, t);
      assert {} + {t} == {t};
      FailEffect(s, why, |journal.log| + 1);
      ghost var log := journal.log;
      Record(FailEvent(s, why), s, s.(status := Failed, lastReason := Some(why)), {t});
      OneMoreIsNoReport(log, journal.log);
      Release(journal.table, Vol(), {t}, t);
      assert {t} - {t} == {};
    }

    method JournalClaim(task: TaskState, d: Id, worker: Id, input: Option<Input>, now: real) returns (l: Lease)
      requires Valid({}) && task.taskId in journal.table && journal.table[task.taskId] == task
      requires task.status.Queued? && !task.cancelRequested
      requires IsId(worker) && Minted(Some(d)) && d !in Issued(journal.log)
      requires InputVerified(journal.log, journal.table, task, input)
      modifies this`leases, journal
      ensures Valid({}) && old(journal.log) <= journal.log
      ensures l == Lease(task.taskId, d, worker, task.leaseTtl, now + task.leaseTtl as real, "ttl")
      ensures leases == old(leases)[d := l]
      ensures task.taskId in journal.table
              && journal.table == old(journal.table)[task.taskId := journal.table[task.taskId]]
      ensures Same(journal.table[task.taskId], ClaimedState(task, d, worker, input))
      ensures InputVerified(journal.log, journal.table, task, input) && NoNewReports(old(journal.log), journal.log)
    {
      hide *;
      Opened({});
      var t := task.taskId;
      KnownRow(t);
      NotUnderWay(task);
      FreshDispatchNotLeased(d);
      InputSuits(task, input);
      Detach(journal.table, Vol(), {}, t);
      assert {} + {t} == {t};
      Closed({t});
      ClaimReady(task, d, worker, input, |journal.log| + 1);
      ghost var table, log := journal.table, journal.log;
      Record(ClaimEvent(task, d, worker, input), task, ClaimedState(task, d, worker, input), {t});
      OneMoreIsNoReport(log, journal.log);
      InputVerifiedKept(log, journal.log, table, journal.table, task, input);
      SeqIsFree(ClaimedState(task, d, worker, input), |journal.log|);
      l := Lease(t, d, worker, task.leaseTtl, now + task.leaseTtl as real, "ttl");
      GrantFits(journal.table, task, d, worker, input, l);
      Opened({t});
      VolIs();
      ghost var v := Vol();
      leases := leases[d := l];
      VolIs();
      Grant(journal.table, v, {t}, t, l, Vol());
      assert {t} - {t} == {};
      Closed({});
    }

    lemma InputSuits(task: TaskState, input: Option<Input>)
      requires Durable() && task.taskId in journal.table && journal.table[task.taskId] == task
      requires InputVerified(journal.log, journal.table, task, input)
      ensures InputFits(task, input)
    {
      KnownRow(task.taskId);
      if task.dependsOn.Some? {
        KnownRow(task.dependsOn.value);
      }
      hide Facts, StoreInv, Past, StateFact, Sound;
      InputVerifiedFits(journal.log, journal.table, task, input);
    }

    lemma FreshDispatchNotLeased(d: Id)
      requires Valid({}) && d !in Issued(journal.log)
      ensures d !in leases
    {
      if d in leases {
        LeaseOfTask(d);
        KnownRow(leases[d].taskId);
      }
    }

    // ------------------------------------------------------------- heartbeat

    /** A worker reports the dispatches it still works on. Their leases are renewed; a cancelled dispatch
        it no longer reports has been stopped, which completes the cancellation. */
    method Heartbeat(now: real, worker: Id, dispatches: seq<Id>) returns (r: Reply<(set<Id>, set<Id>)>)
      requires Valid({})
      modifies this`leases, journal
      ensures Valid({}) && old(journal.log) <= journal.log && journal.table.Keys == old(journal.table.Keys)
      ensures if HeartbeatFits(worker, dispatches) then r.Granted?
              else r == Denied(400, "invalid_request") && journal.log == old(journal.log) && journal.table == old(journal.table)
                   && leases == old(leases)
      ensures r.Granted? ==>
                Beaten(old(journal.table), old(leases), journal.table, leases, now, worker, dispatches, r.value.0, r.value.1)
    {
      hide *;
      var ok := CheckHeartbeat(worker, dispatches);
      if !ok {
        return Denied(400, "invalid_request");
      }
      forall d | d in leases
        ensures leases[d].taskId in journal.table && ActiveLease(journal.table[leases[d].taskId].status)
      {
        LeasedRow(d);
      }
      var stop, cancel := Beat(now, worker, (set x | x in dispatches));
      BeatMeans(old(journal.table), old(leases), journal.table, leases, now, worker, dispatches, stop, cancel);
      return Granted((stop, cancel));
    }

    method Beat(now: real, worker: Id, reported: set<Id>) returns (stop: set<Id>, cancel: set<Id>)
      requires Valid({})
      modifies this`leases, journal
      ensures Valid({}) && old(journal.log) <= journal.log && journal.table.Keys == old(journal.table.Keys)
      ensures BeatState(old(journal.table), old(leases), journal.table, leases, now, worker, reported, stop, cancel)
    {
      hide RuntimeInv, StoreInv, Facts, Past, Rows, StopRow;
      stop, cancel := Renew(now, worker, reported);
      ghost var before, renewed := journal.table, leases;
      ConfirmStops(worker, reported);
      SameRowsForOldLeases(before, old(leases), renewed, leases, journal.table);
    }

    /** Completes the cancellation of every cancelled dispatch of a worker that it no longer reports. */
    method ConfirmStops(worker: Id, reported: set<Id>)
      requires Valid({})
      modifies this`leases, journal
      ensures Valid({}) && old(journal.log) <= journal.log && journal.table.Keys == old(journal.table).Keys
      ensures forall d | d in leases :: d in old(leases) && leases[d] == old(leases)[d]
                                        && !Confirmed(old(journal.table), old(leases), worker, reported, d)
      ensures forall d | d in old(leases) && !Confirmed(old(journal.table), old(leases), worker, reported, d) ::
                d in leases
      ensures forall t | t in old(journal.table) ::
                StopRow(old(journal.table)[t], journal.table[t], t, old(leases), leases)
    {
      hide RuntimeInv, StoreInv, Facts, Past, Rows, StopRow, Durable, Same;
      var mine := set d | d in leases && d !in reported && leases[d].workerId == worker;
      ghost var before, renewed := journal.table, leases;
      NothingStopped(before, renewed);
      while mine != {}
        invariant Valid({}) && old(journal.log) <= journal.log && journal.table.Keys == before.Keys
        invariant mine <= leases.Keys && forall d | d in mine :: d !in reported && leases[d].workerId == worker
        invariant forall d | d in leases :: d in renewed && leases[d] == renewed[d]
                    && (d in mine || !Confirmed(before, renewed, worker, reported, d))
        invariant forall d | d in renewed && !Confirmed(before, renewed, worker, reported, d) :: d in leases
        invariant forall t | t in before :: StopRow(before[t], journal.table[t], t, renewed, leases)
        decreases mine
      {
        var d :| d in mine;
        mine := mine - {d};
        ghost var table, held := journal.table, leases;
        LeaseOfTask(d);
        LeaseStillUntouched(before, table, renewed, held, d);
        if CancelWanted(journal.table, leases[d]) {
          ConfirmStop(d);
          StopRowsStep(before, table, journal.table, renewed, held, leases, d);
        }
      }
    }

    method Renew(now: real, worker: Id, reported: set<Id>) returns (stop: set<Id>, cancel: set<Id>)
      requires Valid({})
      modifies this`leases
      ensures Valid({}) && RenewState(journal.table, old(leases), worker, reported, stop, cancel, leases, now)
    {
      hide StoreInv, Facts, Past, Rows, RuntimeInv, RenewState, CancelWanted;
      stop, cancel := {}, {};
      var todo := reported;
      ghost var seen: set<Id> := {};
      ghost var v, held, table := Vol(), leases, journal.table;
      forall d | d in leases ensures LeaseOk(journal.table, d, leases[d]) {
        LeaseOfTask(d);
      }
      RenewStarts(table, held, worker, now);
      while todo != {}
        invariant todo !! seen && todo + seen == reported
        invariant RenewState(table, held, worker, seen, stop, cancel, leases, now)
        decreases todo
      {
        var d :| d in todo;
        RenewOne(table, held, worker, seen, stop, cancel, leases, now, d);
        assert cancel + {} == cancel;
        todo, seen := todo - {d}, seen + {d};
        if d !in leases || leases[d].workerId != worker {
          stop := stop + {d};
        } else {
          if CancelWanted(journal.table, leases[d]) {
            cancel := cancel + {d};
          }
          leases := leases[d := Renewed(leases[d], now)];
        }
      }
      assert seen == reported;
      RenewEnds(table, held, worker, seen, stop, cancel, leases, now);
      Redate(journal.table, v, {}, Vol());
    }

    /** A worker has confirmed that it stopped a cancelled dispatch. */
    method ConfirmStop(d: Id)
      requires Valid({}) && d in leases && CancelWanted(journal.table, leases[d])
      modifies this`leases, journal
      ensures Valid({}) && old(journal.log) <= journal.log
      ensures leases == old(leases) - {d}
      ensures var t := old(leases)[d].taskId;
              && t in old(journal.table) && t in journal.table
              && old(journal.table)[t].dispatchId == Some(d)
              && journal.table == old(journal.table)[t := journal.table[t]]
              && Same(journal.table[t], CancelledState(old(journal.table)[t], None))
    {
      hide *;
      Opened({});
      VolIs();
      LeasedRow(d);
      var t := leases[d].taskId;
      var s := journal.table[t];
      TableInvNow();
      DropLease(journal.table, Vol(), {}, d, Vol().(leases := leases - {d}));
      assert {} + {t} == {t};
      CancelledReady(s, None, "worker confirmed stop", |journal.log| + 1);
      ghost var table := journal.table;
      Emit(CancelledEvent(s, None, "worker confirmed stop"), s, CancelledState(s, None));
      leases := leases - {d};
      VolIs();
      Rewrite(table, Vol(), {t}, t, journal.table[t]);
      SeqIsFree(CancelledState(s, None), |journal.log|);
      NotUnderWay(journal.table[t]);
      Release(journal.table, Vol(), {t}, t);
      assert {t} - {t} == {};
      Closed({});
    }

    /** The row behind a lease. */
    lemma LeasedRow(d: Id)
      requires Valid({}) && d in leases
      ensures leases[d].taskId in journal.table
      ensures var s := journal.table[leases[d].taskId];
              && s.taskId == leases[d].taskId && Sound(s) && Settled(s)
              && ActiveLease(s.status) && s.dispatchId == Some(d)
              && (CancelWanted(journal.table, leases[d]) ==> s.cancelRequested)
    {
      LeaseOfTask(d);
      KnownRow(leases[d].taskId);
      SettledRow(leases[d].taskId);
      hide Facts, StoreInv, Past, RuntimeInv, Sound, StateFact;
    }

    // ------------------------------------------------------------- starting and reporting

    /** The claim that issued a dispatch. */
    method ClaimOf(d: Id) returns (claim: Option<Event>)
      requires Durable()
      ensures claim.Some? ==>
                var e := claim.value;
                && e.kind.TaskClaimed? && e.dispatchId == Some(d)
                && e.taskId.value in journal.table
                && Minted(Some(d)) && Minted(e.taskId)
                && Owns(journal.log, e.taskId, Some(d))
                && (journal.table[e.taskId.value].dispatchId == Some(d) ==>
                    e.attempt == Some(journal.table[e.taskId.value].attempt)
                    && e.workerId == journal.table[e.taskId.value].workerId)
      ensures claim.Some? ==> IsClaimOf(journal.log, d, claim.value)
      ensures claim.None? <==> d !in Issued(journal.log)
    {
      hide Past, Rows;
      var x := journal.ClaimForDispatch(d);
      NotIssued(journal.log, d);
      if x.None? {
        return None;
      }
      assert x.value in journal.log;
      ClaimMatchesState(journal.log, journal.table, x.value, d);
      return Some(x.value.event);
    }

    /** The dispatch of a claim is leased exactly while its task is active on it, and then to the claim's worker. */
    lemma LeaseBehind(c: Event, d: Id)
      requires Valid({}) && c.taskId.Some? && c.taskId.value in journal.table && Owns(journal.log, c.taskId, Some(d))
      requires journal.table[c.taskId.value].dispatchId == Some(d) ==>
                 c.workerId == journal.table[c.taskId.value].workerId
      ensures d in leases <==>
                journal.table[c.taskId.value].dispatchId == Some(d) && ActiveLease(journal.table[c.taskId.value].status)
      ensures d in leases ==> leases[d].taskId == c.taskId.value && c.workerId == Some(leases[d].workerId)
    {
      SettledRow(c.taskId.value);
      if d in leases {
        LeaseOfTask(d);
        KnownRow(leases[d].taskId);
        SameOwner(journal.log, c.taskId, Some(leases[d].taskId), Some(d));
      }
      hide Valid, Facts, StoreInv, Past, Rows, RuntimeInv, Sound, Settled;
    }

    /** A worker starts its dispatch. */
    method Start(d: Id, worker: Option<Id>) returns (r: Reply<string>)
      requires Valid({})
      modifies journal
      ensures Valid({}) && old(journal.log) <= journal.log
      ensures !(1 <= |d| <= 200) ==> r == Denied(400, "invalid_request")
      ensures 1 <= |d| <= 200 && d !in Issued(old(journal.log)) ==> r == Denied(404, "unknown_dispatch")
      ensures 1 <= |d| <= 200 && d in Issued(old(journal.log)) ==>
                exists c: Event :: IsClaimOf(old(journal.log), d, c)
                  && c.taskId.Some? && c.taskId.value in old(journal.table)
                  && StartAnswered(old(journal.table)[c.taskId.value], c, worker, d in old(leases), r)
      ensures 1 <= |d| <= 200 ==>
                (r.Granted? <==>
                   && d in old(leases) && (worker == None || worker == Some(old(leases)[d].workerId))
                   && !CancelWanted(old(journal.table), old(leases)[d]))
      ensures r == Granted("STARTED") ==>
                var t := Issued(old(journal.log))[d];
                && d in Issued(old(journal.log)) && t in old(journal.table) && t in journal.table
                && old(journal.table)[t].status.Claimed? && old(journal.table)[t].dispatchId == Some(d)
                && !old(journal.table)[t].cancelRequested
                && journal.table == old(journal.table)[t := journal.table[t]]
                && Same(journal.table[t], old(journal.table)[t].(status := Running, started := true))
      ensures r == Granted("ALREADY_STARTED") ==>
                var t := Issued(old(journal.log))[d];
                && d in Issued(old(journal.log)) && t in old(journal.table)
                && old(journal.table)[t].status.Running? && old(journal.table)[t].dispatchId == Some(d)
      ensures r != Granted("STARTED") ==> journal.table == old(journal.table) && journal.log == old(journal.log)
    {
      hide *;
      IdLengths(d);
      if !IsId(d) {
        return Denied(400, "invalid_request");
      }
      Opened({});
      var claim := ClaimOf(d);
      if claim.None? {
        FreshDispatchNotLeased(d);
        return Denied(404, "unknown_dispatch");
      }
      OwnsIs(journal.log, claim.value.taskId, d);
      LeaseBehind(claim.value, d);
      CancelWantedIs(journal.table, leases, d);
      StartAnswers(journal.table, claim.value, d, worker, d in leases);
      r := StartOn(claim.value, d, worker);
    }

    /** The start of dispatch d, which the claim c issued. */
    method StartOn(c: Event, d: Id, worker: Option<Id>) returns (r: Reply<string>)
      requires Valid({})
      requires c.kind.TaskClaimed? && c.taskId.value in journal.table
      requires journal.table[c.taskId.value].dispatchId == Some(d) ==>
                 c.attempt == Some(journal.table[c.taskId.value].attempt)
                 && c.workerId == journal.table[c.taskId.value].workerId
      modifies journal
      ensures Valid({}) && old(journal.log) <= journal.log
      ensures r == StartAnswer(old(journal.table), c, d, worker)
      ensures r == Granted("STARTED") ==>
                var t := c.taskId.value;
                && t in journal.table
                && old(journal.table)[t].status.Claimed? && old(journal.table)[t].dispatchId == Some(d)
                && !old(journal.table)[t].cancelRequested
                && journal.table == old(journal.table)[t := journal.table[t]]
                && Same(journal.table[t], old(journal.table)[t].(status := Running, started := true))
      ensures r == Granted("ALREADY_STARTED") ==>
                var s := old(journal.table)[c.taskId.value]; s.status.Running? && s.dispatchId == Some(d)
      ensures r != Granted("STARTED") ==> journal.table == old(journal.table) && journal.log == old(journal.log)
    {
      hide StoreInv, Facts, Past, Rows, Effect, RuntimeInv;
      if worker.Some? && worker != c.workerId {
        return Denied(409, "wrong_worker");
      }
      var t := c.taskId.value;
      var s := journal.table[t];
      if s.dispatchId != Some(d) || !ActiveLease(s.status) {
        return Denied(409, "stale_dispatch");
      }
      if s.cancelRequested {
        return Denied(409, "cancel_requested");
      }
      if s.status.Running? {
        return Granted("ALREADY_STARTED");
      }
      KnownRow(t);
      StartEffect(s, |journal.log| + 1);
      var e := EventData(TaskStarted, Some(t), c.attempt, Some(d), c.workerId, None, Info(""), None).WithKey();
      assert e == StartEvent(s);
      ghost var table := journal.table;
      Emit(e, s, s.(status := Running, started := true));
      SettledRow0(table, t);
      Adjust(table, Vol(), t, journal.table[t]);
      return Granted("STARTED");
    }

    lemma SettledRow0(table: Table, t: Id)
      requires RuntimeInv(table, Vol(), {}) && t in table
      ensures Settled(table[t])
    {
      assert TaskOk(table, Vol(), t);
    }

    /** A worker reports the result of its dispatch. A report that comes too late is kept as evidence only. */
    method Result(d: Id, resultId: Id, payload: Payload) returns (r: Reply<string>)
      requires Valid({}) && payload.Report?
      modifies this`leases, this`queue, journal
      ensures Valid({}) && old(journal.log) <= journal.log
      ensures !ResultFits(d, resultId, payload) ==> r == Denied(400, "invalid_request")
      ensures ResultFits(d, resultId, payload) && d !in Issued(old(journal.log)) ==> r == Denied(404, "unknown_dispatch")
      ensures r == Granted("ACCEPTED_FOR_VERIFY") ==>
                && d in Issued(old(journal.log))
                && var t := Issued(old(journal.log))[d];
                && t in old(journal.table) && t in journal.table
                && old(journal.table)[t].status.Running? && old(journal.table)[t].dispatchId == Some(d)
                && !old(journal.table)[t].cancelRequested
                && journal.table == old(journal.table)[t := journal.table[t]]
                && Same(journal.table[t], old(journal.table)[t].(status := Verifying, pendingResult := Some(resultId)))
                && leases == old(leases) - {d} && queue == old(queue) + [t]
                && |journal.log| == |old(journal.log)| + 1
                && journal.log[|old(journal.log)|].event == ReadyEvent(old(journal.table)[t], resultId, payload)
      ensures ResultFits(d, resultId, payload) && d in Issued(old(journal.log)) ==>
                exists c: Event :: IsClaimOf(old(journal.log), d, c)
                  && c.taskId.Some? && c.taskId.value in old(journal.table)
                  && ReportAnswered(old(journal.log), old(journal.table)[c.taskId.value], c, d, resultId, payload,
                                    d in old(leases), r)
                  && (r == Denied(409, "stale_dispatch") ==>
                      var t := c.taskId.value;
                      KeptAsEvidence(old(journal.log), old(journal.table), journal.log, journal.table, t,
                                     LateEvent(old(journal.table)[t], d, resultId, payload, c.attempt.value)))
      ensures r != Granted("ACCEPTED_FOR_VERIFY") ==> leases == old(leases) && queue == old(queue)
      ensures r != Granted("ACCEPTED_FOR_VERIFY") && r != Denied(409, "stale_dispatch") ==>
                journal.table == old(journal.table) && journal.log == old(journal.log)
    {
      hide *;
      var ok := CheckResult(d, resultId, payload);
      if !ok {
        return Denied(400, "invalid_request");
      }
      Opened({});
      var claim := ClaimOf(d);
      if claim.None? {
        return Denied(404, "unknown_dispatch");
      }
      OwnsIs(journal.log, claim.value.taskId, d);
      LeaseBehind(claim.value, d);
      ReportsSeen(claim.value, d, resultId, payload);
      ReportAnswers(journal.log, journal.table, claim.value, d, resultId, payload, d in leases);
      r := ResultOn(claim.value, d, resultId, payload);
    }

    /** The report of a result of dispatch d, which the claim c issued. */
    method ResultOn(c: Event, d: Id, resultId: Id, payload: Payload) returns (r: Reply<string>)
      requires Valid({}) && payload.Report? && IsId(resultId)
      requires c.kind.TaskClaimed? && c.taskId.value in journal.table && Owns(journal.log, c.taskId, Some(d))
      requires Minted(Some(d)) && Minted(c.taskId) && c.dispatchId == Some(d)
      requires journal.table[c.taskId.value].dispatchId == Some(d) ==>
                 c.attempt == Some(journal.table[c.taskId.value].attempt)
                 && c.workerId == journal.table[c.taskId.value].workerId
      modifies this`leases, this`queue, journal
      ensures Valid({}) && old(journal.log) <= journal.log
      ensures r == ResultAnswer(old(journal.log), old(journal.table), c, d, resultId, payload)
      ensures r == Granted("ACCEPTED_FOR_VERIFY") ==>
                var t := c.taskId.value;
                && t in journal.table
                && old(journal.table)[t].status.Running? && old(journal.table)[t].dispatchId == Some(d)
                && !old(journal.table)[t].cancelRequested
                && journal.table == old(journal.table)[t := journal.table[t]]
                && Same(journal.table[t], old(journal.table)[t].(status := Verifying, pendingResult := Some(resultId)))
                && leases == old(leases) - {d} && queue == old(queue) + [t]
                && |journal.log| == |old(journal.log)| + 1
                && journal.log[|old(journal.log)|].event == ReadyEvent(old(journal.table)[t], resultId, payload)
      ensures r == Denied(409, "stale_dispatch") ==>
                KeptAsEvidence(old(journal.log), old(journal.table), journal.log, journal.table, c.taskId.value,
                               LateEvent(old(journal.table)[c.taskId.value], d, resultId, payload, c.attempt.value))
      ensures r != Granted("ACCEPTED_FOR_VERIFY") ==> leases == old(leases) && queue == old(queue)
      ensures r != Granted("ACCEPTED_FOR_VERIFY") && r != Denied(409, "stale_dispatch") ==>
                journal.table == old(journal.table) && journal.log == old(journal.log)
    {
      hide StoreInv, Facts, Past, Rows, Effect, RuntimeInv, IsClaimOf, KeptAsEvidence, Same, Sound, Stored;
      hide Valid, Durable, JournalDb.Valid, EventData.Content, ReportedAlike, ReportedOtherwise, Owns;
      Opened({});
      ReportsSeen(c, d, resultId, payload);
      var t := c.taskId.value;
      var candidate := ReportOf(c, d, resultId, payload);
      if !candidate.Valid() {
        return Denied(400, "invalid_request");
      }
      var existing := journal.GetEventByDedupeKey(candidate.dedupeKey);
      if existing.Some? {
        if existing.value.event.Content() == candidate.Content() {
          return Granted("ACK_DUPLICATE");
        }
        return Denied(409, "result_conflict");
      }
      var s := journal.table[t];
      if s.dispatchId == Some(d) && s.status.Running? {
        if s.cancelRequested {
          return Denied(409, "cancel_requested");
        }
        KnownRow(t);
        assert candidate == ReadyEvent(s, resultId, payload);
        JournalReport(t, d, resultId, payload);
        return Granted("ACCEPTED_FOR_VERIFY");
      }
      if s.dispatchId == Some(d) && s.status.Claimed? {
        return Denied(409, "not_started");
      }
      KeepLateReport(t, d, resultId, payload, c.attempt.value);
      return Denied(409, "stale_dispatch");
    }

    /** What the journal finds under the key of a report, in terms of the stored reports. */
    lemma ReportsSeen(c: Event, d: Id, resultId: Id, payload: Payload)
      requires Durable() && payload.Report? && Minted(c.taskId) && Minted(Some(d))
      ensures journal.Valid()
      ensures var report := ReportOf(c, d, resultId, payload);
              var seen := Stored(journal.log, report.dedupeKey);
              if !report.Valid() then !ReportedAlike(journal.log, c, d, resultId, payload)
              else
                && (ReportedAlike(journal.log, c, d, resultId, payload)
                    <==> seen.Some? && seen.value.event.Content() == report.Content())
                && (ReportedOtherwise(journal.log, c, d, resultId, payload)
                    <==> seen.Some? && seen.value.event.Content() != report.Content())
    {
      hide Past, Rows, Folds, EventData.Valid, EventData.Content, ReportedOtherwise, Stored;
      if ReportOf(c, d, resultId, payload).Valid() {
        ReportSeen(journal.hash, journal.log, journal.table, c, d, resultId, payload);
      } else if ReportedAlike(journal.log, c, d, resultId, payload) {
        AlikeIsValid(journal.log, journal.table, c, d, resultId, payload);
      }
    }

    method JournalReport(t: Id, d: Id, resultId: Id, payload: Payload)
      requires Valid({}) && t in journal.table && journal.table[t].status.Running?
      requires journal.table[t].dispatchId == Some(d) && !journal.table[t].cancelRequested
      requires ReadyEvent(journal.table[t], resultId, payload).Valid()
      requires Stored(journal.log, ReadyEvent(journal.table[t], resultId, payload).dedupeKey).None?
      modifies this`leases, this`queue, journal
      ensures Valid({}) && old(journal.log) <= journal.log
      ensures t in journal.table && journal.table == old(journal.table)[t := journal.table[t]]
      ensures Same(journal.table[t], old(journal.table)[t].(status := Verifying, pendingResult := Some(resultId)))
      ensures leases == old(leases) - {d} && queue == old(queue) + [t]
      ensures |journal.log| == |old(journal.log)| + 1
      ensures journal.log[|old(journal.log)|].event == ReadyEvent(old(journal.table)[t], resultId, payload)
    {
      hide StoreInv, Facts, Past, Rows, Effect, RuntimeInv;
      var s := journal.table[t];
      KnownRow(t);
      SettledRow(t);
      assert leases[d].taskId == t;
      TableInvNow();
      DropLease(journal.table, Vol(), {}, d, Vol().(leases := leases - {d}));
      assert {} + {t} == {t};
      ReadyEffect(s, resultId, payload, |journal.log| + 1);
      ghost var table := journal.table;
      Emit(ReadyEvent(s, resultId, payload), s, s.(status := Verifying, pendingResult := Some(resultId)));
      leases := leases - {d};
      Rewrite(table, Vol(), {t}, t, journal.table[t]);
      ghost var v := Vol();
      queue := queue + [t];
      Enqueue(journal.table, v, {t}, t, Vol());
      assert {t} - {t} == {};
    }

    /** Keeps a late report as evidence; a repeated or conflicting one is not kept again. */
    method KeepLateReport(t: Id, d: Id, resultId: Id, payload: Payload, attempt: int)
      requires Valid({}) && payload.Report? && IsId(resultId)
      requires t in journal.table && Owns(journal.log, Some(t), Some(d))
      requires Minted(Some(t)) && Minted(Some(d)) && |d| + |resultId| <= MAX_ID_LENGTH - 8
      requires !(journal.table[t].dispatchId == Some(d) && ActiveLease(journal.table[t].status))
      modifies journal
      ensures Valid({}) && old(journal.log) <= journal.log
      ensures KeptAsEvidence(old(journal.log), old(journal.table), journal.log, journal.table, t,
                             LateEvent(old(journal.table)[t], d, resultId, payload, attempt))
    {
      hide *;
      Opened({});
      DurableMeans();
      var s := journal.table[t];
      KnownRow(t);
      SettledRow0(journal.table, t);
      LateEventValid(s, d, resultId, payload, attempt);
      var e := LateEvent(s, d, resultId, payload, attempt);
      ghost var log, table := journal.log, journal.table;
      LateReady(journal.hash, log, table, s, d, resultId, payload, attempt, stampAt(|log| + 1));
      var r := Submit(e);
      if r.Appended? {
        Adjust(table, Vol(), t, journal.table[t]);
      }
      Closed({});
    }

    // ------------------------------------------------------------- verification

    /** Takes the next result to verify: its task and the report the verdict will be about. */
    method BeginVerify() returns (next: Option<(TaskState, Event)>)
      requires Valid({})
      modifies this`queue, this`inFlight
      ensures Valid({})
      ensures next.None? <==> old(queue) == []
      ensures next.None? ==> queue == [] && inFlight == old(inFlight)
      ensures next.Some? ==>
                var (task, report) := next.value;
                && task.taskId == old(queue)[0] && queue == old(queue)[1..]
                && task.taskId in journal.table && journal.table[task.taskId] == task
                && inFlight == old(inFlight)[task.taskId := task]
                && (exists x :: x in journal.log && x.event == report
                               && IsReport(x, task.taskId, task.dispatchId, task.pendingResult))
    {
      hide *;
      if queue == [] {
        return None;
      }
      Opened({});
      VolIs();
      ghost var v := Vol();
      QueueHead();
      var t := queue[0];
      var task := journal.table[t];
      TableInvNow();
      var stored := CurrentReport(task);
      queue, inFlight := queue[1..], inFlight[t := task];
      VolIs();
      BeginVerification(journal.table, v, Vol());
      Closed({});
      return Some((task, stored));
    }

    lemma QueueHead()
      requires Valid({}) && queue != []
      ensures queue[0] in journal.table && journal.table[queue[0]].taskId == queue[0]
      ensures journal.table[queue[0]].status.Verifying?
    {
      hide StoreInv, Facts, Past, Rows, Settled;
      assert queue[0] in Vol().queue;
      KnownRow(queue[0]);
    }

    /** The stored report behind the result a task is waiting for. */
    method CurrentReport(task: TaskState) returns (report: Event)
      requires Durable() && task.taskId in journal.table && journal.table[task.taskId] == task
      requires task.status.Verifying?
      ensures exists x :: x in journal.log && x.event == report
                          && IsReport(x, task.taskId, task.dispatchId, task.pendingResult)
    {
      hide Past, Rows;
      KnownRow(task.taskId);
      var found := journal.GetEventByDedupeKey(ReportKey(task.dispatchId, task.pendingResult));
      ReportIsStored(journal.hash, journal.log, journal.table, task.taskId, task.dispatchId, task.pendingResult);
      return found.value.event;
    }

    /** Journals a verdict on the result that a verification under way is about, and what follows from it. */
    method EndVerify(task: TaskState, v: Verdict)
      requires Valid({}) && task.taskId in inFlight && inFlight[task.taskId] == task
      modifies this`inFlight, journal
      ensures Valid({})
      ensures inFlight == old(inFlight) - {task.taskId}
      ensures old(journal.log) <= journal.log
      ensures task.taskId in old(journal.table) && task.taskId in journal.table
      ensures journal.table == old(journal.table)[task.taskId := journal.table[task.taskId]]
      ensures old(journal.table)[task.taskId].status.Verifying?
      ensures Same(journal.table[task.taskId], Settle(AfterVerdict(old(journal.table)[task.taskId], v)))
      ensures JudgedRow(old(journal.table)[task.taskId], v, journal.table[task.taskId])
    {
      hide StoreInv, Facts, Past, Rows, Effect, JudgedRow;
      ghost var vol := Vol();
      var t := task.taskId;
      assert SnapshotOk(journal.table, t, inFlight[t]);
      var current := journal.table[t];
      inFlight := inFlight - {t};
      EndVerification(journal.table, vol, t, Vol());
      if current.status.Verifying? && current.pendingResult == task.pendingResult
         && current.dispatchId == task.dispatchId {
        JournalVerdict(t, v);
        VerdictOutcome(current, v, journal.table[t]);
      }
    }

    method JournalVerdict(t: Id, v: Verdict)
      requires Valid({t}) && t in journal.table && journal.table[t].status.Verifying?
      modifies journal
      ensures Valid({})
      ensures old(journal.log) <= journal.log
      ensures t in journal.table && journal.table == old(journal.table)[t := journal.table[t]]
      ensures Same(journal.table[t], Settle(AfterVerdict(old(journal.table)[t], v)))
    {
      hide *;
      ghost var n := |journal.log| + 1;
      var s := journal.table[t];
      Opened({t});
      KnownRow(t);
      VerdictEffect(s, v, n);
      VerdictStatus(s, v);
      VerdictKeyOpen(s, v);
      Record(VerdictEvent(s, v), s, AfterVerdict(s, v), {t});
      assert {t} - {t} == {};
      if v.accepted {
        AcceptedLater(AfterVerdict(s, v), n, n + 1);
        Complete(t, {t});
      } else {
        DecidedLater(AfterVerdict(s, v), n, n + 1);
        Decide(t, {t});
      }
    }

    // ------------------------------------------------------------- cancelling and human decisions

    /** Requests cancellation; a task that nobody is working on is cancelled at once. */
    method RequestCancel(t: Id, actor: Option<Id>, reason: Option<string>) returns (r: Reply<Status>)
      requires Valid({})
      modifies journal
      ensures Valid({}) && old(journal.log) <= journal.log
      ensures r == if !CancelFits(actor, reason) then Denied(400, "invalid_request")
                   else if t !in old(journal.table) then Denied(404, "unknown_task")
                   else if Terminal(old(journal.table)[t].status) then Denied(409, "terminal")
                   else if old(journal.table)[t].status.Blocked? && actor.None? then Denied(409, "actor_required")
                   else Granted(AfterCancel(old(journal.table)[t], actor).status)
      ensures r.Denied? ==> journal.table == old(journal.table) && journal.log == old(journal.log)
      ensures r.Granted? ==>
                && t in journal.table
                && journal.table == old(journal.table)[t := journal.table[t]]
                && Same(journal.table[t], AfterCancel(old(journal.table)[t], actor))
                && CancelRow(old(journal.table)[t], actor, journal.table[t])
    {
      hide RuntimeInv, Valid, Durable, CancelledState, Terminal, ValidId, CancelRow;
      var ok := CheckCancel(actor, reason);
      if !ok {
        return Denied(400, "invalid_request");
      }
      if t !in journal.table {
        return Denied(404, "unknown_task");
      }
      var s := journal.table[t];
      if Terminal(s.status) {
        return Denied(409, "terminal");
      }
      if s.status.Blocked? && actor.None? {
        return Denied(409, "actor_required");
      }
      var why := if reason.Some? then reason.value else "requested via API";
      if s.status.Queued? || s.status.Blocked? {
        CancelIdle(t, actor, why, if reason.Some? then reason.value else "cancelled");
        SameDispatch(journal.table[t], AfterCancel(s, actor));
      } else if !s.cancelRequested {
        MarkCancel(t, actor, why);
      }
      CancelMeans(s, actor, journal.table[t]);
      return Granted(journal.table[t].status);
    }

    /** Cancels a task that nobody is working on, after the request unless that was recorded before. */
    method CancelIdle(t: Id, actor: Option<Id>, request: string, why: string)
      requires Valid({}) && t in journal.table && ValidId(actor)
      requires journal.table[t].status.Queued? || (journal.table[t].status.Blocked? && actor.Some?)
      modifies journal
      ensures Valid({}) && old(journal.log) <= journal.log
      ensures t in journal.table && journal.table == old(journal.table)[t := journal.table[t]]
      ensures Same(journal.table[t], AfterCancel(old(journal.table)[t], actor))
    {
      hide *;
      Opened({});
      var s := journal.table[t];
      SettledRow0(journal.table, t);
      NotUnderWay(s);
      Detach(journal.table, Vol(), {}, t);
      assert {} + {t} == {t};
      Closed({t});
      if !s.cancelRequested {
        RequestDetached(t, {t}, actor, request);
      }
      ghost var n := journal.table[t].updatedSeq;
      CancelNow(t, {t}, actor, why);
      CancelLater(s, actor, n, |journal.log|);
      assert {t} - {t} == {};
    }

    /** Records the request on a task that a worker or a verification still holds. */
    method MarkCancel(t: Id, actor: Option<Id>, why: string)
      requires Valid({}) && t in journal.table && ValidId(actor) && !journal.table[t].status.Queued?
      requires !Terminal(journal.table[t].status) && !journal.table[t].cancelRequested
      modifies journal
      ensures Valid({}) && old(journal.log) <= journal.log
      ensures journal.table == old(journal.table)[t := old(journal.table[t]).(cancelRequested := true, updatedSeq := |journal.log|)]
    {
      hide StoreInv, Facts, Past, Rows, Effect, RuntimeInv;
      var s := journal.table[t];
      KnownRow(t);
      SettledRow(t);
      CancelRequestEffect(s, actor, why, |journal.log| + 1);
      ghost var table := journal.table;
      Emit(CancelRequestEvent(s, actor, why), s, s.(cancelRequested := true));
      Adjust(table, Vol(), t, journal.table[t]);
    }

    method RequestDetached(t: Id, ghost u: set<Id>, actor: Option<Id>, why: string)
      requires Valid(u) && t in u && t in journal.table && ValidId(actor)
      requires journal.table[t].status.Queued? || journal.table[t].status.Blocked?
      requires !journal.table[t].cancelRequested && Settled(journal.table[t])
      modifies journal
      ensures Valid(u)
      ensures journal.table == old(journal.table)[t := old(journal.table[t]).(cancelRequested := true, updatedSeq := |journal.log|)]
      ensures old(journal.log) <= journal.log
    {
      hide StoreInv, Facts, Past, Rows, Effect, RuntimeInv;
      var s := journal.table[t];
      KnownRow(t);
      CancelRequestEffect(s, actor, why, |journal.log| + 1);
      ghost var table := journal.table;
      Emit(CancelRequestEvent(s, actor, why), s, s.(cancelRequested := true));
      Rewrite(table, Vol(), u, t, journal.table[t]);
    }

    method JournalDecision(t: Id, c: HumanChoice, actor: Id, reason: string)
      requires Valid({}) && t in journal.table && journal.table[t].status.Blocked? && !c.CancelTask?
      requires IsId(actor) && !Blank(reason) && 1 <= journal.table[t].attempt
      requires c.AuthorizeRetry? ==>
                 !journal.table[t].cancelRequested && journal.table[t].attempt < MAX_ATTEMPTS_LIMIT
      requires Stored(journal.log, DecisionOf(t, c, journal.table[t].attempt, actor, reason).dedupeKey).None?
      modifies journal
      ensures Valid({}) && old(journal.log) <= journal.log
      ensures t in journal.table && journal.table == old(journal.table)[t := journal.table[t]]
      ensures Same(journal.table[t], HumanState(old(journal.table)[t], ChoiceKind(c), actor, reason))
    {
      hide *;
      Opened({});
      var s := journal.table[t];
      var r := HumanState(s, ChoiceKind(c), actor, reason);
      KnownRow(t);
      NotUnderWay(s);
      HumanReady(s, c, actor, reason, |journal.log| + 1);
      Detach(journal.table, Vol(), {}, t);
      assert {} + {t} == {t};
      Closed({t});
      Record(DecisionOf(t, c, s.attempt, actor, reason), s, r, {t});
      Opened({t});
      SeqIsFree(r, |journal.log|);
      Release(journal.table, Vol(), {t}, t);
      assert {t} - {t} == {};
      Closed({});
    }

    lemma SettledRow(t: Id)
      requires Valid({}) && t in journal.table
      ensures TaskOk(journal.table, Vol(), t)
    {
    }

    /** A human decision on a blocked task; it names the attempt it is about. */
    method Resolve(t: Id, decision: HumanChoice, attempt: int, actor: Id, reason: string) returns (r: Reply<Status>)
      requires Valid({})
      modifies journal
      ensures Valid({}) && old(journal.log) <= journal.log
      ensures r.Denied? ==> journal.table == old(journal.table) && journal.log == old(journal.log)
      ensures !DecisionFits(attempt, actor, reason) ==> r == Denied(400, "invalid_request")
      ensures DecisionFits(attempt, actor, reason) && t !in old(journal.table) ==> r == Denied(404, "unknown_task")
      ensures DecisionFits(attempt, actor, reason) && t in old(journal.table) ==>
                var s := old(journal.table)[t];
                var event := DecisionOf(t, decision, attempt, actor, reason);
                var seen := if decision.CancelTask? then None else Stored(old(journal.log), event.dedupeKey);
                if seen.Some? then
                  && journal.log == old(journal.log) && journal.table == old(journal.table)
                  && r == (if IsDecisionOf(seen.value.event, t, decision, attempt, actor, reason) then Granted(s.status)
                           else Denied(409, "decision_conflict"))
                else if !s.status.Blocked? then r == Denied(409, "not_blocked")
                else if attempt != s.attempt then r == Denied(409, "stale_decision")
                else if decision.AuthorizeRetry? && s.cancelRequested then r == Denied(409, "cancel_requested")
                else if decision.AuthorizeRetry? && s.attempt >= MAX_ATTEMPTS_LIMIT then r == Denied(409, "attempt_limit")
                else
                  && t in journal.table
                  && journal.table == old(journal.table)[t := journal.table[t]]
                  && Same(journal.table[t], AfterResolve(s, decision, actor, reason))
                  && DecisionRow(s, decision, actor, reason, journal.table[t])
                  && r == Granted(journal.table[t].status)
    {
      hide StoreInv, Facts, Past, Rows, Effect, RuntimeInv;
      hide DecisionRow, IsDecisionOf, EventData.Content;
      var ok := CheckDecision(attempt, actor, reason);
      if !ok {
        return Denied(400, "invalid_request");
      }
      if t !in journal.table {
        return Denied(404, "unknown_task");
      }
      var s := journal.table[t];
      KnownRow(t);
      SettledRow(t);
      var candidate := DecisionOf(t, decision, attempt, actor, reason);
      if !decision.CancelTask? {
        var existing := journal.GetEventByDedupeKey(candidate.dedupeKey);
        DecisionSeen(journal.log, t, decision, attempt, actor, reason);
        if existing.Some? {
          if existing.value.event.Content() != candidate.Content() {
            return Denied(409, "decision_conflict");
          }
          return Granted(s.status);
        }
      }
      if !s.status.Blocked? {
        return Denied(409, "not_blocked");
      }
      if attempt != s.attempt {
        return Denied(409, "stale_decision");
      }
      if decision.CancelTask? {
        r := RequestCancel(t, Some(actor), Some(reason));
        DecisionRowMeans(s, decision, actor, reason, journal.table[t]);
        return;
      }
      if decision.AuthorizeRetry? && s.cancelRequested {
        return Denied(409, "cancel_requested");
      }
      if decision.AuthorizeRetry? && s.attempt >= MAX_ATTEMPTS_LIMIT {
        return Denied(409, "attempt_limit");
      }
      JournalDecision(t, decision, actor, reason);
      DecisionRowMeans(s, decision, actor, reason, journal.table[t]);
      return Granted(journal.table[t].status);
    }

    lemma TableInvNow()
      requires Durable()
      ensures TableInv(journal.table)
    {
      TableInvHolds(journal.log, journal.tables, |journal.log|);
    }

    lemma LeaseOfTask(d: Id)
      requires Valid({}) && d in leases
      ensures LeaseOk(journal.table, d, leases[d])
    {
    }
  }
}
