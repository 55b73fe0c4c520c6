/** The append-only journal: one event table, its projection, and the single write path. */
module Journal {
  import opened Options
  import opened Events
  import opened Records
  import opened Chain
  import opened StateMachine
  import opened Projection

  // ------------------------------------------------------------- append as a function

  datatype Store = Store(log: seq<Sealed>, table: Table)

  datatype Outcome =
    | Appended(entry: Sealed, state: Option<TaskState>)
    | Duplicate(entry: Sealed, state: Option<TaskState>)
    | KeyConflict(entry: Sealed)
    | Illegal(why: Refusal)

  datatype Submission = Submission(event: Event, stamp: Stamp)

  function HeadHash(log: seq<Sealed>): Digest {
    if log == [] then GENESIS_HASH else log[|log| - 1].hash
  }

  /** The stored event that carries a key. */
  function Stored(log: seq<Sealed>, key: Option<string>): Option<Sealed> {
    if log == [] || key.None? then None
    else if log[|log| - 1].event.dedupeKey == key then Some(log[|log| - 1])
    else Stored(log[..|log| - 1], key)
  }

  /** One append transaction: it stores the event or leaves everything as it was. */
  function AppendTo(hash: Material -> Digest, st: Store, e: Event, stamp: Stamp): (Store, Outcome) {
    var existing := Stored(st.log, e.dedupeKey);
    if existing.Some? then
      if existing.value.event.Content() == e.Content()
      then (st, Duplicate(existing.value, Lookup(st.table, existing.value.event.taskId)))
      else (st, KeyConflict(existing.value))
    else
      var x := Seal(hash, e, stamp, |st.log| + 1, HeadHash(st.log));
      match Project(st.table, x)
      case Err(why) => (st, Illegal(why))
      case Ok(table) =>
        (Store(st.log + [x], table), Appended(x, if IsSystem(e.kind) then None else Lookup(table, e.taskId)))
  }

  /** The store after a sequence of submissions, whatever becomes of each. */
  function AfterAll(hash: Material -> Digest, st: Store, subs: seq<Submission>): Store
    decreases |subs|
  {
    if subs == [] then st
    else AfterAll(hash, AppendTo(hash, st, subs[0].event, subs[0].stamp).0, subs[1..])
  }

  const EMPTY_STORE := Store([], map[])

  // ------------------------------------------------------------- what appends keep

  predicate Linked(hash: Material -> Digest, log: seq<Sealed>, i: nat)
    requires i < |log|
  {
    && log[i] == Seal(hash, log[i].event, log[i].stamp, i + 1, HeadHash(log[..i]))
    && StampValid(log[i].stamp)
  }

  predicate UniqueKeys(log: seq<Sealed>) {
    forall i: nat, j: nat | i < j < |log| && log[i].event.dedupeKey.Some? ::
      log[i].event.dedupeKey != log[j].event.dedupeKey
  }

  predicate ChainInv(hash: Material -> Digest, log: seq<Sealed>) {
    && (forall i: nat | i < |log| :: Linked(hash, log, i))
    && UniqueKeys(log)
  }

  predicate StoreInv(hash: Material -> Digest, st: Store, ts: seq<Table>) {
    && ChainInv(hash, st.log)
    && Folds(st.log, ts)
    && ts[|st.log|] == st.table
  }

  function Rows(log: seq<Sealed>): seq<Row> {
    seq(|log|, i requires 0 <= i < |log| => ToRow(log[i]))
  }

  lemma {:induction false} StoredFinds(log: seq<Sealed>, key: Option<string>)
    ensures Stored(log, key).Some? ==> Stored(log, key).value in log && Stored(log, key).value.event.dedupeKey == key
    ensures Stored(log, key).None? && key.Some? ==> forall x | x in log :: x.event.dedupeKey != key
  {
    if log != [] && key.Some? {
      StoredFinds(log[..|log| - 1], key);
      assert log == log[..|log| - 1] + [log[|log| - 1]];
    }
  }

  lemma {:induction false} StoredIsUnique(log: seq<Sealed>, key: Option<string>, i: nat)
    requires UniqueKeys(log) && i < |log| && key.Some? && log[i].event.dedupeKey == key
    ensures Stored(log, key) == Some(log[i])
  {
    if i < |log| - 1 {
      StoredIsUnique(log[..|log| - 1], key, i);
    }
  }

  lemma KeysExtend(log: seq<Sealed>, x: Sealed)
    requires UniqueKeys(log) && Stored(log, x.event.dedupeKey).None?
    ensures UniqueKeys(log + [x])
  {
    StoredFinds(log, x.event.dedupeKey);
    assert forall i: nat | i < |log| :: log[i] in log;
  }

  lemma LastIsLinked(hash: Material -> Digest, log: seq<Sealed>, e: Event, stamp: Stamp)
    requires StampValid(stamp)
    ensures Linked(hash, log + [Seal(hash, e, stamp, |log| + 1, HeadHash(log))], |log|)
  {
    hide HeadHash;
    var longer := log + [Seal(hash, e, stamp, |log| + 1, HeadHash(log))];
    assert longer[..|log|] == log;
  }

  lemma LinksStay(hash: Material -> Digest, log: seq<Sealed>, x: Sealed, i: nat)
    requires i < |log| && Linked(hash, log, i)
    ensures Linked(hash, log + [x], i)
  {
    hide Seal, HeadHash;
    assert (log + [x])[..i] == log[..i];
  }

  lemma ChainExtends(hash: Material -> Digest, log: seq<Sealed>, e: Event, stamp: Stamp)
    requires ChainInv(hash, log) && StampValid(stamp) && Stored(log, e.dedupeKey).None?
    ensures ChainInv(hash, log + [Seal(hash, e, stamp, |log| + 1, HeadHash(log))])
  {
    var x := Seal(hash, e, stamp, |log| + 1, HeadHash(log));
    var longer := log + [x];
    assert x.event.dedupeKey == e.dedupeKey;
    KeysExtend(log, x);
    hide Seal, HeadHash, StampValid, UniqueKeys, Stored, Linked;
    forall i: nat | i < |longer| ensures Linked(hash, longer, i) {
      if i < |log| {
        LinksStay(hash, log, x, i);
      } else {
        LastIsLinked(hash, log, e, stamp);
      }
    }
  }

  /** Every append, whether it stores, repeats, conflicts or is illegal, keeps the store a replay of its log. */
  lemma AppendKeepsInv(hash: Material -> Digest, st: Store, ts: seq<Table>, e: Event, stamp: Stamp)
    returns (ts': seq<Table>)
    requires StoreInv(hash, st, ts) && StampValid(stamp)
    ensures var (st', r) := AppendTo(hash, st, e, stamp);
            && StoreInv(hash, st', ts')
            && st.log <= st'.log && ts <= ts'
            && (r.Appended? <==> |st'.log| == |st.log| + 1)
            && (!r.Appended? ==> st' == st)
  {
    var (st', r) := AppendTo(hash, st, e, stamp);
    ts' := ts;
    if r.Appended? {
      var x := Seal(hash, e, stamp, |st.log| + 1, HeadHash(st.log));
      ChainExtends(hash, st.log, e, stamp);
      FoldsExtend(st.log, ts, x, st'.table);
      ts' := ts + [st'.table];
    }
  }

  lemma IntactRows(hash: Material -> Digest, log: seq<Sealed>)
    requires ChainInv(hash, log)
    ensures ChainOk(hash, Rows(log))
    ensures forall i: nat | i < |log| :: FromRow(Rows(log)[i]) == Some(log[i])
  {
    forall i: nat | i < |log| ensures RowOk(hash, Rows(log), i) && FromRow(Rows(log)[i]) == Some(log[i]) {
      assert Linked(hash, log, i);
      RowRoundTrip(log[i]);
      assert LinkBefore(Rows(log), i) == HeadHash(log[..i]);
    }
  }

  predicate StampsValid(subs: seq<Submission>) {
    forall s | s in subs :: StampValid(s.stamp)
  }

  lemma {:induction false} RunsKeepInv(hash: Material -> Digest, st: Store, ts: seq<Table>, subs: seq<Submission>)
    returns (ts': seq<Table>)
    requires StoreInv(hash, st, ts) && StampsValid(subs)
    ensures StoreInv(hash, AfterAll(hash, st, subs), ts')
    ensures st.log <= AfterAll(hash, st, subs).log
    decreases |subs|
  {
    ts' := ts;
    if subs != [] {
      ts' := AppendKeepsInv(hash, st, ts, subs[0].event, subs[0].stamp);
      ts' := RunsKeepInv(hash, AppendTo(hash, st, subs[0].event, subs[0].stamp).0, ts', subs[1..]);
    }
  }

  /** After any sequence of submissions the stored table is the replay of the stored events, sequence numbers
      are 1..n, keys are unique, and the stored rows pass verification and decode to the log. */
  lemma JournalRefinesFold(hash: Material -> Digest, subs: seq<Submission>)
    requires StampsValid(subs)
    ensures var st := AfterAll(hash, EMPTY_STORE, subs);
            && Fold(st.log) == Ok(st.table)
            && (forall i: nat | i < |st.log| :: st.log[i].seqNo == i + 1)
            && UniqueKeys(st.log)
            && ChainOk(hash, Rows(st.log))
            && (forall i: nat | i < |st.log| :: FromRow(Rows(st.log)[i]) == Some(st.log[i]))
  {
    var st := AfterAll(hash, EMPTY_STORE, subs);
    var ts := RunsKeepInv(hash, EMPTY_STORE, [map[]], subs);
    FoldsIsFold(st.log, ts);
    IntactRows(hash, st.log);
    forall i: nat | i < |st.log| ensures st.log[i].seqNo == i + 1 {
      assert Linked(hash, st.log, i);
    }
  }

  /** Repeating a stored submission, however much later, returns the stored event and changes nothing;
      reusing its key for anything else is refused. */
  lemma ResubmissionIsIdempotent(hash: Material -> Digest, before: seq<Submission>, e: Event, stamp: Stamp,
                                 between: seq<Submission>, again: Event, stamp': Stamp)
    requires StampsValid(before) && StampsValid(between) && StampValid(stamp) && StampValid(stamp')
    requires e.dedupeKey.Some? && again.dedupeKey == e.dedupeKey
    requires AppendTo(hash, AfterAll(hash, EMPTY_STORE, before), e, stamp).1.Appended?
    ensures var (st1, r1) := AppendTo(hash, AfterAll(hash, EMPTY_STORE, before), e, stamp);
            var st2 := AfterAll(hash, st1, between);
            var (st3, r3) := AppendTo(hash, st2, again, stamp');
            && st3 == st2
            && (if again == e
                then r3.Duplicate? && r3.entry == r1.entry
                else r3 == KeyConflict(r1.entry))
  {
    var ts := RunsKeepInv(hash, EMPTY_STORE, [map[]], before);
    var st0 := AfterAll(hash, EMPTY_STORE, before);
    ts := AppendKeepsInv(hash, st0, ts, e, stamp);
    var (st1, r1) := AppendTo(hash, st0, e, stamp);
    ts := RunsKeepInv(hash, st1, ts, between);
    var st2 := AfterAll(hash, st1, between);
    assert st2.log[|st0.log|] == r1.entry;
    StoredIsUnique(st2.log, e.dedupeKey, |st0.log|);
    ContentIsEvent(again, e);
  }

  /** What an append answers, in terms of the events that are stored already. */
  lemma AppendAnswers(hash: Material -> Digest, st: Store, e: Event, stamp: Stamp)
    requires UniqueKeys(st.log)
    ensures var r := AppendTo(hash, st, e, stamp).1;
            && (r.Duplicate? <==> e.dedupeKey.Some? && exists x :: x in st.log && x.event == e)
            && (r.KeyConflict? <==> exists x :: x in st.log && TakesKeyOf(x.event, e))
            && (r.Duplicate? || r.KeyConflict? <==> Stored(st.log, e.dedupeKey).Some?)
            && (r.Duplicate? ==> r.entry in st.log && r.entry.event == e)
            && (r.KeyConflict? ==> r.entry in st.log && TakesKeyOf(r.entry.event, e))
            && (r.Appended? ==> r.entry.event == e && r.entry.stamp == stamp && r.entry.seqNo == |st.log| + 1)
  {
    StoredFinds(st.log, e.dedupeKey);
    var found := Stored(st.log, e.dedupeKey);
    if found.Some? {
      ContentIsEvent(found.value.event, e);
      forall x | x in st.log && x.event.dedupeKey == e.dedupeKey ensures x == found.value {
        var i: nat :| i < |st.log| && st.log[i] == x;
        StoredIsUnique(st.log, e.dedupeKey, i);
      }
    }
    hide Stored, Project, UniqueKeys, EventData.Content;
  }

  /** Another event under the same key. */
  predicate TakesKeyOf(x: Event, e: Event) {
    e.dedupeKey.Some? && x.dedupeKey == e.dedupeKey && x != e
  }

  // ------------------------------------------------------------- creation order

  /** created_seq is the sequence number of the task's own creation event, and each task has exactly one. */
  ghost predicate CreatedInv(log: seq<Sealed>, n: nat, table: Table) {
    && (forall t | t in table :: table[t].createdSeq <= n && IsCreation(log, table[t].createdSeq, t))
    && (forall c, t | c <= n && IsCreation(log, c, t) :: t in table && table[t].createdSeq == c)
  }

  predicate IsCreation(log: seq<Sealed>, c: int, t: Id) {
    && 1 <= c <= |log|
    && log[c - 1].event.kind.TaskCreated? && log[c - 1].event.taskId == Some(t)
  }

  lemma CreatedSeqKept(before: Option<TaskState>, e: Event, at: int)
    requires !IsSystem(e.kind) && Apply(before, e, at).Ok?
    ensures Apply(before, e, at).value.Some?
    ensures Apply(before, e, at).value.value.createdSeq
            == if e.kind.TaskCreated? then at else if before.Some? then before.value.createdSeq else 0
    ensures e.kind.TaskCreated? <==> before.None?
  {
    if before.Some? {
      match e.kind {
        case TaskCreated =>
        case ControllerStarted =>
        case ControllerStopped =>
        case _ => assert Transition(before.value, e).value.createdSeq == before.value.createdSeq;
      }
    }
  }

  lemma CreatedStep(log: seq<Sealed>, n: nat, table: Table, next: Table, id: Id)
    requires n < |log| && log[n].event.taskId == Some(id)
    requires CreatedInv(log, n, table)
    requires id in next && next == table[id := next[id]]
    requires log[n].event.kind.TaskCreated? <==> id !in table
    requires next[id].createdSeq == if id in table then table[id].createdSeq else n + 1
    ensures CreatedInv(log, n + 1, next)
  {
    assert id !in table ==> IsCreation(log, n + 1, id);
    forall c, t | c <= n + 1 && IsCreation(log, c, t) ensures t in next && next[t].createdSeq == c {
      if c == n + 1 {
        assert t == id;
      }
    }
  }

  lemma {:induction false} CreatedInvHolds(hash: Material -> Digest, st: Store, ts: seq<Table>, n: nat)
    requires StoreInv(hash, st, ts) && n <= |st.log|
    ensures CreatedInv(st.log, n, ts[n])
  {
    if n > 0 {
      CreatedInvHolds(hash, st, ts, n - 1);
      TableInvHolds(st.log, ts, n - 1);
      assert FoldStep(st.log, ts, n - 1);
      assert Linked(hash, st.log, n - 1);
      var x := st.log[n - 1];
      ProjectKeepsInv(ts[n - 1], x);
      if IsSystem(x.event.kind) {
        assert forall c, t | c <= n && IsCreation(st.log, c, t) :: c <= n - 1;
      } else {
        CreatedSeqKept(Lookup(ts[n - 1], x.event.taskId), x.event, n);
        CreatedStep(st.log, n - 1, ts[n - 1], ts[n], x.event.taskId.value);
      }
    }
  }
}
