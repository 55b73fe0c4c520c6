/** The journal as the controller uses it: an object whose rows and task table change in place. */
module JournalFile {
  import opened Options
  import opened Events
  import opened Records
  import opened Chain
  import opened StateMachine
  import opened Projection
  import opened Journal

  /** Tasks in created_seq order. */
  predicate CreationOrder(tasks: seq<TaskState>) {
    forall i: nat, j: nat | i < j < |tasks| :: tasks[i].createdSeq < tasks[j].createdSeq
  }

  predicate Wanted(wanted: Option<Status>, s: TaskState) {
    wanted.None? || s.status == wanted.value
  }

  /** The first claim that issued dispatch d. */
  predicate FirstClaim(log: seq<Sealed>, d: Id, i: nat) {
    && i < |log| && IssuesDispatch(log[i].event, d)
    && forall k: nat | k < i :: !IssuesDispatch(log[k].event, d)
  }

  predicate IssuesDispatch(e: Event, d: Id) {
    e.kind.TaskClaimed? && e.dispatchId == Some(d)
  }

  class JournalDb {
    const hash: Material -> Digest
    var rows: seq<Row>
    var table: Table
    var lastSeq: nat
    ghost var log: seq<Sealed>
    ghost var tables: seq<Table>

    ghost predicate Valid()
      reads this
    {
      && StoreInv(hash, Store(log, table), tables)
      && rows == Rows(log) && |rows| == |log|
      && lastSeq == |log|
      && |tables| == |log| + 1 && tables[|log|] == table
    }

    constructor (hash: Material -> Digest)
      ensures Valid() && this.hash == hash && log == [] && table == map[] && tables == [map[]]
    {
      this.hash := hash;
      rows, table, lastSeq, log, tables := [], map[], 0, [], [map[]];
    }

    /** The file as a crash leaves it: the committed transactions are a prefix of those that were submitted. */
    constructor Crashed(old_: JournalDb, n: nat)
      requires old_.Valid() && n <= |old_.log|
      ensures Valid() && hash == old_.hash && log == old_.log[..n] && table == old_.tables[n]
      ensures tables == old_.tables[..n + 1]
    {
      hash := old_.hash;
      rows, lastSeq, log, tables := old_.rows[..n], n, old_.log[..n], old_.tables[..n + 1];
      var t := map[];
      var i := 0;
      IntactRows(old_.hash, old_.log);
      while i < n
        invariant 0 <= i <= n && t == old_.tables[i]
      {
        assert FoldStep(old_.log, old_.tables, i);
        t := Project(t, FromRow(old_.rows[i]).value).value;
        i := i + 1;
      }
      table := t;
      new;
      FoldsPrefix(old_.log, old_.tables, n);
      ChainPrefix(hash, old_.log, n);
    }

    lemma Holds()
      requires Valid()
      ensures rows == Rows(log) && ChainInv(hash, log) && UniqueKeys(log)
    {
    }

    method Head() returns (seqNo: nat, headHash: Digest)
      requires Valid()
      ensures seqNo == |log| && headHash == HeadHash(log)
    {
      if rows == [] {
        return 0, GENESIS_HASH;
      }
      assert Linked(hash, log, |log| - 1);
      return |rows|, rows[|rows| - 1].hash;
    }

    method GetEventByDedupeKey(key: Option<string>) returns (r: Option<Sealed>)
      requires Valid()
      ensures r == Stored(log, key)
    {
      if key.None? {
        return None;
      }
      hide *;
      Holds();
      KeysOfRows(log);
      for i := 0 to |rows|
        invariant forall k: nat | k < i :: log[k].event.dedupeKey != key
      {
        if rows[i].dedupeKey == key {
          StoredIsUnique(log, key, i);
          RowDecodes(hash, log, i);
          return FromRow(rows[i]);
        }
      }
      NotStored(log, key);
      return None;
    }

    method ClaimForDispatch(d: Id) returns (r: Option<Sealed>)
      requires Valid()
      ensures r.Some? ==> exists i: nat :: FirstClaim(log, d, i) && r.value == log[i]
      ensures r.None? ==> forall i: nat | i < |log| :: !IssuesDispatch(log[i].event, d)
    {
      IntactRows(hash, log);
      for i := 0 to |rows|
        invariant forall k: nat | k < i :: !IssuesDispatch(log[k].event, d)
      {
        assert rows[i] == ToRow(log[i]);
        if rows[i].dispatchId == Some(d) && rows[i].kind == Known(TaskClaimed) {
          assert FirstClaim(log, d, i);
          return FromRow(rows[i]);
        }
      }
      return None;
    }

    /** The tasks of one status, or all of them, in created_seq order. */
    method Tasks(wanted: Option<Status>) returns (r: seq<TaskState>)
      requires Valid()
      ensures CreationOrder(r)
      ensures forall s | s in r :: s.taskId in table && table[s.taskId] == s && Wanted(wanted, s)
      ensures forall t | t in table && Wanted(wanted, table[t]) :: table[t] in r
    {
      r := [];
      assert CreationOrder(r);
      CreatedInvHolds(hash, Store(log, table), tables, |log|);
      TableInvHolds(log, tables, |log|);
      CreationRange(log, table);
      hide StoreInv, CreatedInv, ToRow, StateInv, Wanted, CreationOrder;
      for i := 0 to |rows|
        invariant CreationOrder(r)
        invariant forall s | s in r :: s.taskId in table && table[s.taskId] == s && Wanted(wanted, s)
        invariant forall s | s in r :: s.createdSeq <= i
        invariant forall t | t in table && Wanted(wanted, table[t]) && table[t].createdSeq <= i :: table[t] in r
      {
        assert rows[i] == ToRow(log[i]);
        CreationRow(hash, Store(log, table), tables, i);
        if rows[i].kind == Known(TaskCreated) {
          var t := rows[i].taskId.value;
          if Wanted(wanted, table[t]) {
            OrderExtends(r, table[t]);
            r := r + [table[t]];
          }
        }
      }
    }

    /** The only write path: one transaction. */
    method Append(e: Event, stamp: Stamp) returns (r: Outcome)
      requires Valid() && StampValid(stamp)
      modifies this
      ensures Valid()
      ensures (Store(log, table), r) == AppendTo(hash, old(Store(log, table)), e, stamp)
      ensures old(log) <= log && old(tables) <= tables
      ensures !r.Appended? ==> unchanged(this)
      ensures r.Duplicate? <==> e.dedupeKey.Some? && exists x :: x in old(log) && x.event == e
      ensures r.KeyConflict? <==> exists x :: x in old(log) && TakesKeyOf(x.event, e)
      ensures r.Appended? ==> log == old(log) + [r.entry] && r.entry.event == e && r.entry.stamp == stamp
    {
      hide Project, Seal, ToRow, StoreInv, Rows, Lookup, HeadHash, Stored, StampValid, Event.Content;
      Holds();
      AppendAnswers(hash, Store(log, table), e, stamp);
      hide UniqueKeys, TakesKeyOf;
      var existing := GetEventByDedupeKey(e.dedupeKey);
      ghost var ts := AppendKeepsInv(hash, Store(log, table), tables, e, stamp);
      if existing.Some? {
        StoredFinds(log, e.dedupeKey);
        if existing.value.event.Content() != e.Content() {
          return KeyConflict(existing.value);
        }
        return Duplicate(existing.value, Lookup(table, existing.value.event.taskId));
      }
      var seqNo, prevHash := Head();
      var x := Seal(hash, e, stamp, seqNo + 1, prevHash);
      var projected := Project(table, x);
      if projected.Err? {
        return Illegal(projected.error);
      }
      RowsAppend(log, x);
      StoreShape(hash, Store(log + [x], projected.value), ts);
      rows, table, lastSeq := rows + [ToRow(x)], projected.value, seqNo + 1;
      log, tables := log + [x], ts;
      return Appended(x, if IsSystem(e.kind) then None else Lookup(table, e.taskId));
    }

    /** Folds the stored rows, in order, until one is refused. */
    method Replay() returns (r: Result<Table, Refusal>, ghost ts: seq<Table>)
      requires rows == Rows(log) && ChainInv(hash, log)
      ensures r == Fold(log)
      ensures r.Ok? ==> Folds(log, ts) && ts[|log|] == r.value
    {
      hide ChainInv, Project, Folds, FromRow, Rows, ChainOk;
      IntactRows(hash, log);
      RowCount(log);
      var replay: Table := map[];
      ts := [map[]];
      FoldsNothing(log);
      for i := 0 to |rows|
        invariant Fold(log[..i]) == Ok(replay) && |ts| == i + 1
        invariant Folds(log[..i], ts) && ts[i] == replay
      {
        FoldNext(log, i);
        var projected := Project(replay, FromRow(rows[i]).value);
        if projected.Err? {
          return Err(projected.error), ts;
        }
        FoldsExtend(log[..i], ts, log[i], projected.value);
        assert log[..i + 1] == log[..i] + [log[i]];
        replay := projected.value;
        ts := ts + [replay];
      }
      assert log[..|log|] == log;
      return Ok(replay), ts;
    }

    /** Replays the stored rows beside the table: whether the table equals the replay, or why there is none. */
    method VerifyProjection() returns (r: Result<bool, Refusal>)
      requires rows == Rows(log) && ChainInv(hash, log)
      ensures r == match Fold(log)
                   case Err(why) => Err(why)
                   case Ok(replay) => Ok(replay == table)
    {
      hide ChainInv, Fold, Folds, Rows;
      var replay, _ := Replay();
      return if replay.Err? then Err(replay.error) else Ok(replay.value == table);
    }

    /** Replaces the table, whatever it holds, by a fresh replay of the rows; if there is none, the transaction is
        rolled back. */
    method RebuildInPlace() returns (r: Result<nat, Refusal>)
      requires rows == Rows(log) && ChainInv(hash, log)
      modifies this`table, this`lastSeq, this`tables
      ensures r == match Fold(log)
                   case Err(why) => Err(why)
                   case Ok(_) => Ok(|log|)
      ensures r.Ok? ==> Valid() && Fold(log) == Ok(table)
      ensures r.Err? ==> table == old(table) && lastSeq == old(lastSeq) && tables == old(tables)
    {
      hide ChainInv, Fold, Rows;
      RowCount(log);
      var replay, ts := Replay();
      if replay.Err? {
        return Err(replay.error);
      }
      table, lastSeq, tables := replay.value, |rows|, ts;
      return Ok(|rows|);
    }
  }

  lemma OrderExtends(tasks: seq<TaskState>, s: TaskState)
    requires CreationOrder(tasks) && forall x | x in tasks :: x.createdSeq < s.createdSeq
    ensures CreationOrder(tasks + [s])
  {
  }

  lemma RowCount(log: seq<Sealed>)
    ensures |Rows(log)| == |log|
  {
  }

  lemma FoldsNothing(log: seq<Sealed>)
    ensures Folds(log[..0], [map[]]) && Fold(log[..0]) == Ok(map[])
  {
  }

  /** The replay of one more event, and what a refusal in the middle means for the whole. */
  lemma FoldNext(log: seq<Sealed>, i: nat)
    requires i < |log| && Fold(log[..i]).Ok?
    ensures Fold(log[..i + 1]) == Project(Fold(log[..i]).value, log[i])
    ensures Project(Fold(log[..i]).value, log[i]).Err? ==>
              Fold(log) == Err(Project(Fold(log[..i]).value, log[i]).error)
  {
    assert log[..i + 1][..i] == log[..i];
    if Project(Fold(log[..i]).value, log[i]).Err? {
      FoldStaysRefused(log, i + 1);
    }
  }

  lemma {:induction false} FoldStaysRefused(log: seq<Sealed>, n: nat)
    requires n <= |log| && Fold(log[..n]).Err?
    ensures Fold(log) == Fold(log[..n])
    decreases |log|
  {
    if n == |log| {
      assert log[..n] == log;
    } else {
      var shorter := log[..|log| - 1];
      assert shorter[..n] == log[..n];
      FoldStaysRefused(shorter, n);
    }
  }

  lemma KeysOfRows(log: seq<Sealed>)
    ensures |Rows(log)| == |log| && forall i: nat | i < |log| :: Rows(log)[i].dedupeKey == log[i].event.dedupeKey
  {
  }

  lemma RowDecodes(hash: Material -> Digest, log: seq<Sealed>, i: nat)
    requires ChainInv(hash, log) && i < |log|
    ensures |Rows(log)| == |log| && FromRow(Rows(log)[i]) == Some(log[i])
  {
    hide Rows, ChainInv, ChainOk;
    IntactRows(hash, log);
    RowCount(log);
  }

  lemma NotStored(log: seq<Sealed>, key: Option<string>)
    requires forall k: nat | k < |log| :: log[k].event.dedupeKey != key
    ensures Stored(log, key).None?
  {
    hide Stored;
    StoredFinds(log, key);
  }

  lemma RowsAppend(log: seq<Sealed>, x: Sealed)
    ensures Rows(log + [x]) == Rows(log) + [ToRow(x)] && |Rows(log + [x])| == |log| + 1
  {
    hide ToRow;
  }

  lemma StoreShape(hash: Material -> Digest, st: Store, ts: seq<Table>)
    requires StoreInv(hash, st, ts)
    ensures |ts| == |st.log| + 1 && ts[|st.log|] == st.table
  {
  }

  lemma CreationRange(log: seq<Sealed>, table: Table)
    requires CreatedInv(log, |log|, table)
    ensures forall t | t in table :: 1 <= table[t].createdSeq <= |log|
  {
    forall t | t in table ensures 1 <= table[t].createdSeq <= |log| {
      assert IsCreation(log, table[t].createdSeq, t);
    }
  }

  /** The row of a creation names the task with that created_seq, and the task with that created_seq is named by
      the row of its creation. */
  lemma CreationRow(hash: Material -> Digest, st: Store, ts: seq<Table>, i: nat)
    requires StoreInv(hash, st, ts) && CreatedInv(st.log, |st.log|, st.table) && i < |st.log|
    ensures var r := ToRow(st.log[i]);
            && (r.kind == Known(TaskCreated) ==>
                  r.taskId.Some? && r.taskId.value in st.table && st.table[r.taskId.value].createdSeq == i + 1)
            && (forall t | t in st.table && st.table[t].createdSeq == i + 1 ::
                  r.kind == Known(TaskCreated) && r.taskId == Some(t))
  {
    assert Linked(hash, st.log, i);
    var e := st.log[i].event;
    if e.kind.TaskCreated? {
      assert IsCreation(st.log, i + 1, e.taskId.value);
    }
    forall t | t in st.table && st.table[t].createdSeq == i + 1 ensures e.kind.TaskCreated? && e.taskId == Some(t) {
      assert IsCreation(st.log, st.table[t].createdSeq, t);
    }
  }

  lemma ChainPrefix(hash: Material -> Digest, log: seq<Sealed>, n: nat)
    requires ChainInv(hash, log) && n <= |log|
    ensures ChainInv(hash, log[..n])
    ensures Rows(log[..n]) == Rows(log)[..n]
  {
    var shorter := log[..n];
    forall i: nat | i < n ensures Linked(hash, shorter, i) {
      assert Linked(hash, log, i);
      assert shorter[..i] == log[..i];
    }
  }

  lemma DistinctTasks(tasks: seq<TaskState>, table: Table)
    requires CreationOrder(tasks)
    requires forall s | s in tasks :: s.taskId in table && table[s.taskId] == s
    ensures forall i: nat, j: nat | i < j < |tasks| :: tasks[i].taskId != tasks[j].taskId
  {
    forall i: nat, j: nat | i < j < |tasks| ensures tasks[i].taskId != tasks[j].taskId {
      assert tasks[i] in tasks && tasks[j] in tasks;
    }
  }
}
