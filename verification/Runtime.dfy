/** How the controller's volatile state (leases, verification queue, verifications under way) matches the table. */
module Runtime {
  import opened Options
  import opened Events
  import opened StateMachine
  import opened Projection
  import opened ControllerSteps
  import Strings

  datatype Lease = Lease(taskId: Id, dispatchId: Id, workerId: Id, ttl: int, deadline: real, reason: string)

  datatype Volatile = Volatile(leases: map<Id, Lease>, queue: seq<Id>, inFlight: map<Id, TaskState>)

  predicate LeaseOk(table: Table, d: Id, l: Lease) {
    && l.dispatchId == d && l.taskId in table
    && ActiveLease(table[l.taskId].status)
    && table[l.taskId].dispatchId == Some(d)
    && table[l.taskId].workerId == Some(l.workerId)
    && table[l.taskId].leaseTtl == l.ttl
    && l.reason in {"ttl", "restart_grace"}
  }

  predicate Leased(v: Volatile, t: Id, s: TaskState) {
    s.dispatchId.Some? && s.dispatchId.value in v.leases && v.leases[s.dispatchId.value].taskId == t
  }

  /** A task between two operations: settled, leased exactly while active, and queued or under verification
      exactly while verifying. */
  predicate TaskOk(table: Table, v: Volatile, t: Id)
    requires t in table
  {
    && Settled(table[t])
    && (ActiveLease(table[t].status) ==> Leased(v, t, table[t]))
    && (table[t].status.Verifying? <==> t in v.queue || t in v.inFlight)
  }

  /** A task that an operation is in the middle of: nothing volatile refers to it. */
  predicate Detached(v: Volatile, t: Id) {
    && t !in v.queue && t !in v.inFlight
    && forall d | d in v.leases :: v.leases[d].taskId != t
  }

  /** A verification under way is about the result the task still waits for. */
  predicate SnapshotOk(table: Table, t: Id, snapshot: TaskState) {
    && t in table && table[t].status.Verifying? && snapshot.status.Verifying?
    && snapshot.taskId == t
    && snapshot.pendingResult == table[t].pendingResult && snapshot.dispatchId == table[t].dispatchId
  }

  /** Leases correspond one-to-one to active tasks, queue and verifications under way to verifying tasks;
      only the tasks in unsettled are exempt. */
  predicate RuntimeInv(table: Table, v: Volatile, unsettled: set<Id>) {
    && (forall d | d in v.leases :: LeaseOk(table, d, v.leases[d]))
    && (forall t | t in table && t !in unsettled :: TaskOk(table, v, t))
    && (forall t | t in unsettled :: t in table && Detached(v, t))
    && Strings.Distinct(v.queue)
    && (forall t | t in v.queue :: t in table && t !in v.inFlight)
    && (forall t | t in v.inFlight :: SnapshotOk(table, t, v.inFlight[t]))
  }

  /** Taking a task that is neither leased nor waiting for verification into an operation. */
  lemma Detach(table: Table, v: Volatile, u: set<Id>, t: Id)
    requires RuntimeInv(table, v, u) && t in table && t !in u
    requires !ActiveLease(table[t].status) && !table[t].status.Verifying?
    ensures RuntimeInv(table, v, u + {t})
  {
    assert TaskOk(table, v, t);
  }

  /** Taking a leased task into an operation, dropping its lease. */
  lemma DropLease(table: Table, v: Volatile, u: set<Id>, d: Id, v': Volatile)
    requires RuntimeInv(table, v, u) && d in v.leases && TableInv(table)
    requires v' == v.(leases := v.leases - {d})
    ensures v.leases[d].taskId !in u
    ensures RuntimeInv(table, v', u + {v.leases[d].taskId})
  {
    var t := v.leases[d].taskId;
    assert LeaseOk(table, d, v.leases[d]);
    assert t !in u;
    assert TaskOk(table, v, t);
    forall k | k in v'.leases ensures LeaseOk(table, k, v'.leases[k]) && v'.leases[k].taskId != t {
      assert LeaseOk(table, k, v.leases[k]);
    }
    forall k | k in table && k !in u + {t} ensures TaskOk(table, v', k) {
      assert TaskOk(table, v, k);
    }
    assert Detached(v', t);
    forall k | k in u ensures Detached(v', k) {
      assert Detached(v, k);
    }
  }

  /** Rewriting the row of a detached task disturbs nothing. */
  lemma Rewrite(table: Table, v: Volatile, u: set<Id>, t: Id, r: TaskState)
    requires RuntimeInv(table, v, u) && t in u
    ensures RuntimeInv(table[t := r], v, u)
  {
    var next := table[t := r];
    assert Detached(v, t);
    forall d | d in v.leases ensures LeaseOk(next, d, v.leases[d]) {
      assert LeaseOk(table, d, v.leases[d]);
    }
    forall k | k in next && k !in u ensures TaskOk(next, v, k) {
      assert TaskOk(table, v, k);
    }
    forall k | k in v.inFlight ensures SnapshotOk(next, k, v.inFlight[k]) {
      assert SnapshotOk(table, k, v.inFlight[k]);
    }
  }

  lemma AddRow(table: Table, v: Volatile, u: set<Id>, t: Id, r: TaskState)
    requires RuntimeInv(table, v, u) && t !in table
    requires Settled(r) && !ActiveLease(r.status) && !r.status.Verifying?
    ensures RuntimeInv(table[t := r], v, u)
  {
    var next := table[t := r];
    forall d | d in v.leases ensures LeaseOk(next, d, v.leases[d]) {
      assert LeaseOk(table, d, v.leases[d]);
    }
    forall k | k in next && k !in u ensures TaskOk(next, v, k) {
      assert k != t ==> TaskOk(table, v, k);
    }
    forall k | k in v.inFlight ensures SnapshotOk(next, k, v.inFlight[k]) {
      assert SnapshotOk(table, k, v.inFlight[k]);
    }
  }

  /** Releasing a task that needs neither a lease nor a verification. */
  lemma Release(table: Table, v: Volatile, u: set<Id>, t: Id)
    requires RuntimeInv(table, v, u) && t in u
    requires Settled(table[t]) && !ActiveLease(table[t].status) && !table[t].status.Verifying?
    ensures RuntimeInv(table, v, u - {t})
  {
    assert Detached(v, t);
    assert TaskOk(table, v, t);
  }

  /** Releasing an active task with its new lease. */
  lemma Grant(table: Table, v: Volatile, u: set<Id>, t: Id, l: Lease, v': Volatile)
    requires RuntimeInv(table, v, u) && t in u && l.taskId == t
    requires table[t].dispatchId.Some? && table[t].dispatchId.value !in v.leases
    requires LeaseOk(table, l.dispatchId, l)
    requires v' == v.(leases := v.leases[l.dispatchId := l])
    ensures RuntimeInv(table, v', u - {t})
  {
    assert Detached(v, t);
    forall d | d in v'.leases ensures LeaseOk(table, d, v'.leases[d]) {
      assert d != l.dispatchId ==> LeaseOk(table, d, v.leases[d]);
    }
    forall k | k in table && k !in u - {t} ensures TaskOk(table, v', k) {
      assert k != t ==> TaskOk(table, v, k);
    }
    forall k | k in u - {t} ensures Detached(v', k) {
      assert Detached(v, k);
    }
  }

  /** Releasing a verifying task into the queue. */
  lemma Enqueue(table: Table, v: Volatile, u: set<Id>, t: Id, v': Volatile)
    requires RuntimeInv(table, v, u) && t in u && table[t].status.Verifying?
    requires v' == v.(queue := v.queue + [t])
    ensures RuntimeInv(table, v', u - {t})
  {
    assert Detached(v, t);
    forall d | d in v'.leases ensures LeaseOk(table, d, v'.leases[d]) {
      assert LeaseOk(table, d, v.leases[d]);
    }
    forall k | k in table && k !in u - {t} ensures TaskOk(table, v', k) {
      assert k != t ==> TaskOk(table, v, k);
    }
    forall k | k in u - {t} ensures Detached(v', k) {
      assert Detached(v, k);
    }
  }

  /** Starting the verification at the head of the queue. */
  lemma BeginVerification(table: Table, v: Volatile, v': Volatile)
    requires RuntimeInv(table, v, {}) && v.queue != [] && TableInv(table) && v.queue[0] in table
    requires v' == v.(queue := v.queue[1..], inFlight := v.inFlight[v.queue[0] := table[v.queue[0]]])
    ensures RuntimeInv(table, v', {})
  {
    var t := v.queue[0];
    assert TaskOk(table, v, t);
    assert v.queue == [t] + v.queue[1..];
    forall k | k in table ensures TaskOk(table, v', k) {
      assert TaskOk(table, v, k);
    }
  }

  /** Taking a task whose verification ends into an operation. */
  lemma EndVerification(table: Table, v: Volatile, t: Id, v': Volatile)
    requires RuntimeInv(table, v, {}) && t in v.inFlight
    requires v' == v.(inFlight := v.inFlight - {t})
    ensures RuntimeInv(table, v', {t})
  {
    assert SnapshotOk(table, t, v.inFlight[t]) && TaskOk(table, v, t);
    forall k | k in table && k !in {t} ensures TaskOk(table, v', k) {
      assert TaskOk(table, v, k);
    }
    forall d | d in v'.leases ensures LeaseOk(table, d, v'.leases[d]) && v'.leases[d].taskId != t {
      assert LeaseOk(table, d, v.leases[d]);
    }
    forall k | k in v'.inFlight ensures SnapshotOk(table, k, v'.inFlight[k]) {
      assert SnapshotOk(table, k, v.inFlight[k]);
    }
  }

  /** Everything volatile that can refer to a task is the same for the two states. */
  predicate SameFooting(s: TaskState, r: TaskState) {
    && ActiveLease(s.status) == ActiveLease(r.status) && s.status.Verifying? == r.status.Verifying?
    && s.dispatchId == r.dispatchId && s.workerId == r.workerId && s.leaseTtl == r.leaseTtl
    && s.pendingResult == r.pendingResult
  }

  /** Rewriting a row without moving the task between leases and queue. */
  lemma Adjust(table: Table, v: Volatile, t: Id, r: TaskState)
    requires RuntimeInv(table, v, {}) && t in table && SameFooting(table[t], r) && Settled(r)
    ensures RuntimeInv(table[t := r], v, {})
  {
    var next := table[t := r];
    forall d | d in v.leases ensures LeaseOk(next, d, v.leases[d]) {
      assert LeaseOk(table, d, v.leases[d]);
    }
    forall k | k in next ensures TaskOk(next, v, k) {
      assert TaskOk(table, v, k);
    }
    forall k | k in v.inFlight ensures SnapshotOk(next, k, v.inFlight[k]) {
      assert SnapshotOk(table, k, v.inFlight[k]);
    }
  }

  /** Moving deadlines and grace reasons of leases. */
  predicate SameLeases(a: map<Id, Lease>, b: map<Id, Lease>) {
    && a.Keys == b.Keys
    && forall d | d in a ::
         && a[d].(deadline := 0.0, reason := "") == b[d].(deadline := 0.0, reason := "")
         && b[d].reason in {"ttl", "restart_grace"}
  }

  lemma Redate(table: Table, v: Volatile, u: set<Id>, v': Volatile)
    requires RuntimeInv(table, v, u) && SameLeases(v.leases, v'.leases)
    requires v' == v.(leases := v'.leases)
    ensures RuntimeInv(table, v', u)
  {
    forall d | d in v'.leases ensures LeaseOk(table, d, v'.leases[d]) {
      assert LeaseOk(table, d, v.leases[d]);
    }
    forall k | k in table && k !in u ensures TaskOk(table, v', k) {
      assert TaskOk(table, v, k);
      if ActiveLease(table[k].status) {
        assert v.leases[table[k].dispatchId.value].(deadline := 0.0, reason := "").taskId == k;
        assert v'.leases[table[k].dispatchId.value].(deadline := 0.0, reason := "").taskId == k;
      }
    }
    forall k | k in u ensures Detached(v', k) {
      assert Detached(v, k);
      forall d | d in v'.leases ensures v'.leases[d].taskId != k {
        assert v.leases[d].taskId != k;
        assert v.leases[d].(deadline := 0.0, reason := "").taskId == v.leases[d].taskId;
        assert v'.leases[d].(deadline := 0.0, reason := "").taskId == v'.leases[d].taskId;
      }
    }
  }
}
