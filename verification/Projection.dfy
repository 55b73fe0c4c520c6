/** The task table as the fold of a log, and the history of each single task inside a log. */
module Projection {
  import opened Options
  import opened Events
  import opened Records
  import opened StateMachine
  import opened Histories

  type Table = map<Id, TaskState>

  function Lookup(table: Table, id: Option<Id>): Option<TaskState> {
    if id.Some? && id.value in table then Some(table[id.value]) else None
  }

  function Put(table: Table, s: Option<TaskState>): Table {
    if s.Some? then table[s.value.taskId := s.value] else table
  }

  /** Folding one stored event into the table. */
  function Project(table: Table, x: Sealed): Result<Table, Refusal> {
    if IsSystem(x.event.kind) then Ok(table)
    else
      match Apply(Lookup(table, x.event.taskId), x.event, x.seqNo)
      case Err(why) => Err(why)
      case Ok(s) => Ok(Put(table, s))
  }

  /** Replay of a whole log from the empty table; it stops at the first illegal event. */
  function Fold(log: seq<Sealed>): Result<Table, Refusal> {
    if log == [] then Ok(map[])
    else
      match Fold(log[..|log| - 1])
      case Err(why) => Err(why)
      case Ok(table) => Project(table, log[|log| - 1])
  }

  /** The i-th event takes the i-th table to the next one. */
  predicate FoldStep(log: seq<Sealed>, ts: seq<Table>, i: nat) {
    && i < |log| && i + 1 < |ts|
    && Project(ts[i], log[i]) == Ok(ts[i + 1])
  }

  /** ts[i] is the table after the first i events of a log of legal events. */
  predicate Folds(log: seq<Sealed>, ts: seq<Table>) {
    && |ts| == |log| + 1
    && ts[0] == map[]
    && forall i: nat | i < |log| :: FoldStep(log, ts, i)
  }

  lemma FoldsPrefix(log: seq<Sealed>, ts: seq<Table>, n: nat)
    requires Folds(log, ts) && n <= |log|
    ensures Folds(log[..n], ts[..n + 1])
  {
    var l, s := log[..n], ts[..n + 1];
    forall i: nat | i < n ensures FoldStep(l, s, i) {
      assert FoldStep(log, ts, i);
    }
  }

  lemma FoldsExtend(log: seq<Sealed>, ts: seq<Table>, x: Sealed, next: Table)
    requires Folds(log, ts) && Project(ts[|log|], x) == Ok(next)
    ensures Folds(log + [x], ts + [next])
  {
    forall i: nat | i < |log| + 1 ensures FoldStep(log + [x], ts + [next], i) {
      assert i < |log| ==> FoldStep(log, ts, i);
    }
  }

  /** The tables of a log of legal events are the replays of its prefixes. */
  lemma {:induction false} FoldsIsFold(log: seq<Sealed>, ts: seq<Table>)
    requires Folds(log, ts)
    ensures Fold(log) == Ok(ts[|log|])
  {
    if log != [] {
      var n := |log| - 1;
      FoldsPrefix(log, ts, n);
      FoldsIsFold(log[..n], ts[..n + 1]);
      assert FoldStep(log, ts, n);
    }
  }

  /** Every row of the table is about its key and keeps the state invariant. */
  predicate TableInv(table: Table) {
    forall t | t in table :: table[t].taskId == t && StateInv(table[t])
  }

  lemma {:induction false} TableInvHolds(log: seq<Sealed>, ts: seq<Table>, n: nat)
    requires Folds(log, ts) && n <= |log|
    ensures TableInv(ts[n])
  {
    if n > 0 {
      TableInvHolds(log, ts, n - 1);
      assert FoldStep(log, ts, n - 1);
      ProjectKeepsInv(ts[n - 1], log[n - 1]);
    }
  }

  lemma ProjectKeepsInv(table: Table, x: Sealed)
    requires TableInv(table) && Project(table, x).Ok?
    ensures TableInv(Project(table, x).value)
    ensures forall t | Some(t) != x.event.taskId ::
              Lookup(Project(table, x).value, Some(t)) == Lookup(table, Some(t))
    ensures !IsSystem(x.event.kind) ==>
              && x.event.taskId.Some?
              && Lookup(Project(table, x).value, x.event.taskId).Some?
              && Apply(Lookup(table, x.event.taskId), x.event, x.seqNo)
                 == Ok(Lookup(Project(table, x).value, x.event.taskId))
  {
    if !IsSystem(x.event.kind) {
      var before := Lookup(table, x.event.taskId);
      ApplyKeepsInv(before, x.event, x.seqNo);
      var after := Apply(before, x.event, x.seqNo).value;
      assert after.Some? && Some(after.value.taskId) == x.event.taskId by {
        SameTask(before, x.event, x.seqNo);
      }
    }
  }

  lemma SameTask(before: Option<TaskState>, e: Event, at: int)
    requires !IsSystem(e.kind) && Apply(before, e, at).Ok?
    ensures Apply(before, e, at).value.Some? && Some(Apply(before, e, at).value.value.taskId) == e.taskId
  {
    if before.Some? {
      match e.kind {
        case TaskCreated =>
        case ControllerStarted =>
        case ControllerStopped =>
        case _ => assert Transition(before.value, e).value.taskId == before.value.taskId;
      }
    }
  }

  // ------------------------------------------------------------- one task inside a log

  /** The events of a log that concern task t. */
  function Of(log: seq<Sealed>, t: Id): seq<Sealed> {
    if log == [] then []
    else
      var x := log[|log| - 1];
      Of(log[..|log| - 1], t) + if x.event.taskId == Some(t) then [x] else []
  }

  /** Inside any log of legal events, the events of one task form an accepted history that ends in the
      task's row, however they are interleaved with the events of other tasks. */
  lemma {:induction false} TaskHistory(log: seq<Sealed>, ts: seq<Table>, t: Id) returns (ss: seq<Option<TaskState>>)
    requires Folds(log, ts)
    ensures Run(Of(log, t), ss, t)
    ensures ss[|Of(log, t)|] == Lookup(ts[|log|], Some(t))
  {
    if log == [] {
      ss := [None];
    } else {
      var n := |log| - 1;
      FoldsPrefix(log, ts, n);
      ss := TaskHistory(log[..n], ts[..n + 1], t);
      assert FoldStep(log, ts, n);
      TableInvHolds(log, ts, n);
      ProjectKeepsInv(ts[n], log[n]);
      assert Of(log, t) == Of(log[..n], t) + if log[n].event.taskId == Some(t) then [log[n]] else [];
      if log[n].event.taskId != Some(t) {
        assert Of(log, t) == Of(log[..n], t);
      } else {
        RunExtend(Of(log[..n], t), ss, t, log[n], Lookup(ts[n + 1], Some(t)));
        ss := ss + [Lookup(ts[n + 1], Some(t))];
      }
    }
  }

  lemma RunExtend(h: seq<Sealed>, ss: seq<Option<TaskState>>, t: Id, x: Sealed, next: Option<TaskState>)
    requires Run(h, ss, t) && x.event.taskId == Some(t)
    requires Apply(ss[|h|], x.event, x.seqNo) == Ok(next)
    ensures Run(h + [x], ss + [next], t)
  {
    forall i: nat | i < |h| + 1 ensures Legal(h + [x], ss + [next], i) {
      assert i < |h| ==> Legal(h, ss, i);
    }
    forall i: nat | i < |h| + 1
      ensures KindAt(h + [x], i) == (h + [x])[i].event.kind && (h + [x])[i].event.taskId == Some(t)
    {
      assert i < |h| ==> KindAt(h, i) == h[i].event.kind;
    }
  }
}
