/** The preempting priority scheduler: slots, a ready queue with aging, and the dispatch tick. */
module Scheduler {
  import opened Options

  datatype Priority = Background | Normal | High | Critical

  datatype TaskState = Pending | Running | Preempted | Completed | Cancelled

  datatype Task = Task(id: string, priority: Priority, lane: string, preemptible: bool, enqueuedAt: Option<real>,
                       startedAt: Option<real>, state: TaskState, preemptions: nat)

  function Weight(p: Priority): real {
    match p
    case Background => 10.0
    case Normal => 20.0
    case High => 50.0
    case Critical => 100.0
  }

  function Waited(t: Task, now: real): real {
    if t.enqueuedAt.Some? && now > t.enqueuedAt.value then now - t.enqueuedAt.value else 0.0
  }

  /** The base weight, plus two points for every second waited beyond the threshold. */
  function Effective(t: Task, now: real, threshold: real): real {
    Weight(t.priority) + if Waited(t, now) > threshold then (Waited(t, now) - threshold) * 2.0 else 0.0
  }

  function Stamp(t: Task): real {
    if t.enqueuedAt.Some? then t.enqueuedAt.value else 0.0
  }

  /** The sort key of a is at least that of b: higher effective priority, then earlier enqueued. */
  predicate RanksAtLeast(a: Task, b: Task, now: real, threshold: real) {
    var x, y := Effective(a, now, threshold), Effective(b, now, threshold);
    x > y || (x == y && Stamp(a) <= Stamp(b))
  }

  // ------------------------------------------------------------- aging

  /** From the lowest to the highest priority. */
  function Level(p: Priority): nat {
    match p
    case Background => 0
    case Normal => 1
    case High => 2
    case Critical => 3
  }

  /** The task has not waited beyond the threshold. */
  predicate NotAged(t: Task, now: real, threshold: real) {
    t.enqueuedAt.None? || now - t.enqueuedAt.value <= threshold
  }

  /** Before they age, tasks score by priority alone. */
  lemma PriorityDecides(a: Task, b: Task, now: real, threshold: real)
    requires threshold >= 1.0 && NotAged(a, now, threshold) && NotAged(b, now, threshold)
    ensures Effective(a, now, threshold) > Effective(b, now, threshold) <==> Level(a.priority) > Level(b.priority)
    ensures Effective(a, now, threshold) == Effective(b, now, threshold) <==> a.priority == b.priority
  {
  }

  lemma WeightByLevel(p: Priority, q: Priority)
    ensures Weight(p) > Weight(q) <==> Level(p) > Level(q)
  {
  }

  /** How many seconds beyond the threshold a task must have waited to draw level with a task of higher priority that
      has not waited. */
  function SecondsBehind(low: Priority, high: Priority): real {
    match (low, high)
    case (Background, Normal) => 5.0
    case (Background, High) => 20.0
    case (Background, Critical) => 45.0
    case (Normal, High) => 15.0
    case (Normal, Critical) => 40.0
    case (High, Critical) => 25.0
    case _ => 0.0
  }

  /** Aging, exactly: a task outscores one of higher priority that has not aged if and only if it has waited longer
      than the threshold and those seconds. */
  lemma AgingExactly(a: Task, b: Task, now: real, threshold: real)
    requires threshold >= 1.0 && a.enqueuedAt.Some? && NotAged(b, now, threshold) && Level(a.priority) < Level(b.priority)
    ensures Effective(a, now, threshold) > Effective(b, now, threshold) <==>
            now - a.enqueuedAt.value > threshold + SecondsBehind(a.priority, b.priority)
    ensures Effective(a, now, threshold) == Effective(b, now, threshold) <==>
            now - a.enqueuedAt.value == threshold + SecondsBehind(a.priority, b.priority)
  {
  }

  /** Within one priority, whoever was enqueued first ranks first. */
  lemma FirstComeFirstRanked(a: Task, b: Task, now: real, threshold: real)
    requires a.priority == b.priority && a.enqueuedAt.Some? && b.enqueuedAt.Some? && threshold >= 1.0
    requires RanksAtLeast(a, b, now, threshold)
    ensures a.enqueuedAt.value <= b.enqueuedAt.value
  {
  }

  /** A task that has waited the threshold plus 45 seconds is never ranked below one that was enqueued 45
      seconds later or more, whatever the priorities. */
  lemma AgingBeatsPriority(a: Task, b: Task, now: real, threshold: real)
    requires threshold >= 1.0 && a.enqueuedAt.Some? && b.enqueuedAt.Some?
    requires now - a.enqueuedAt.value >= threshold + 45.0
    requires b.enqueuedAt.value >= a.enqueuedAt.value + 45.0
    ensures RanksAtLeast(a, b, now, threshold) && !RanksAtLeast(b, a, now, threshold)
  {
    assert Weight(a.priority) >= 10.0 && Weight(b.priority) <= 100.0;
    assert Waited(b, now) <= Waited(a, now) - 45.0 || Waited(b, now) == 0.0;
  }

  // ------------------------------------------------------------- sorting

  /** Inserting x behind everything that ranks at least as high keeps equals in their order. */
  function Insert(s: seq<Task>, x: Task, now: real, threshold: real): seq<Task> {
    if s == [] then [x]
    else if RanksAtLeast(s[|s| - 1], x, now, threshold) then s + [x]
    else Insert(s[..|s| - 1], x, now, threshold) + [s[|s| - 1]]
  }

  function StableSort(s: seq<Task>, now: real, threshold: real): seq<Task> {
    if s == [] then [] else Insert(StableSort(s[..|s| - 1], now, threshold), s[|s| - 1], now, threshold)
  }

  predicate Ranked(s: seq<Task>, now: real, threshold: real) {
    forall i: nat, j: nat | i < j < |s| :: RanksAtLeast(s[i], s[j], now, threshold)
  }

  predicate UniqueIds(s: seq<Task>) {
    forall i: nat, j: nat | i < j < |s| :: s[i].id != s[j].id
  }

  function Ids(s: seq<Task>): set<string> {
    set t | t in s :: t.id
  }

  lemma {:induction false} InsertContents(s: seq<Task>, x: Task, now: real, threshold: real)
    ensures |Insert(s, x, now, threshold)| == |s| + 1
    ensures forall t :: t in Insert(s, x, now, threshold) <==> t in s || t == x
  {
    if s != [] {
      var init := s[..|s| - 1];
      InsertContents(init, x, now, threshold);
      assert s == init + [s[|s| - 1]];
    }
  }

  lemma {:induction false} InsertRanks(s: seq<Task>, x: Task, now: real, threshold: real)
    requires Ranked(s, now, threshold)
    ensures Ranked(Insert(s, x, now, threshold), now, threshold)
  {
    if s != [] && !RanksAtLeast(s[|s| - 1], x, now, threshold) {
      var last := s[|s| - 1];
      var init := s[..|s| - 1];
      InsertRanks(init, x, now, threshold);
      InsertContents(init, x, now, threshold);
      var r := Insert(init, x, now, threshold);
      assert RanksAtLeast(x, last, now, threshold);
      hide Insert, RanksAtLeast;
      forall i: nat | i < |r| ensures RanksAtLeast(r[i], last, now, threshold) {
        assert r[i] in r;
      }
    }
  }

  lemma {:induction false} InsertKeeps(s: seq<Task>, x: Task, now: real, threshold: real)
    requires Ranked(s, now, threshold) && UniqueIds(s) && x.id !in Ids(s)
    ensures Ranked(Insert(s, x, now, threshold), now, threshold)
    ensures UniqueIds(Insert(s, x, now, threshold))
    ensures |Insert(s, x, now, threshold)| == |s| + 1
    ensures forall t :: t in Insert(s, x, now, threshold) <==> t in s || t == x
  {
    InsertContents(s, x, now, threshold);
    InsertRanks(s, x, now, threshold);
    hide RanksAtLeast;
    if s != [] {
      var last := s[|s| - 1];
      var init := s[..|s| - 1];
      assert forall t :: t in s <==> t in init || t == last;
      if !RanksAtLeast(last, x, now, threshold) {
        InsertKeeps(init, x, now, threshold);
        var r := Insert(init, x, now, threshold);
        assert forall i: nat | i < |r| :: r[i] in r;
        assert last.id != x.id && forall t | t in init :: t.id != last.id;
      }
    }
  }

  lemma {:induction false} SortKeeps(s: seq<Task>, now: real, threshold: real)
    requires UniqueIds(s)
    ensures Ranked(StableSort(s, now, threshold), now, threshold)
    ensures UniqueIds(StableSort(s, now, threshold))
    ensures |StableSort(s, now, threshold)| == |s|
    ensures forall t :: t in StableSort(s, now, threshold) <==> t in s
  {
    if s != [] {
      var init := s[..|s| - 1];
      SortKeeps(init, now, threshold);
      assert forall t :: t in s <==> t in init || t == s[|s| - 1];
      InsertKeeps(StableSort(init, now, threshold), s[|s| - 1], now, threshold);
    }
  }

  // ------------------------------------------------------------- what a tick does to single tasks

  function Dispatch(t: Task, now: real): Task {
    t.(state := Running, startedAt := Some(now))
  }

  function Preempt(t: Task): Task {
    t.(state := Preempted, preemptions := t.preemptions + 1)
  }

  /** Waiting task t waited before the tick, or was running and has been preempted once. */
  predicate WaitsFrom(t: Task, ready: seq<Task>, running: seq<Task>) {
    t in ready
    || exists o :: o in running && o.preemptible && t == o.(state := Preempted, preemptions := o.preemptions + 1)
  }

  predicate DispatchedFrom(t: Task, ready: seq<Task>, now: real) {
    exists o :: o in ready && t == o.(state := Running, startedAt := Some(now))
  }

  function Without(s: seq<Task>, k: nat): seq<Task>
    requires k < |s|
  {
    s[..k] + s[k + 1..]
  }

  lemma IdsOfParts(a: seq<Task>, b: seq<Task>)
    ensures Ids(a + b) == Ids(a) + Ids(b)
    ensures UniqueIds(a + b) <==> UniqueIds(a) && UniqueIds(b) && Ids(a) !! Ids(b)
  {
    assert forall t :: t in a + b <==> t in a || t in b;
    var c := a + b;
    if UniqueIds(c) {
      forall i: nat, j: nat | i < j < |a| ensures a[i].id != a[j].id {
        assert c[i] == a[i] && c[j] == a[j];
      }
      forall i: nat, j: nat | i < |a| && j < |b| ensures a[i].id != b[j].id {
        assert c[i] == a[i] && c[|a| + j] == b[j];
      }
      forall i: nat, j: nat | i < j < |b| ensures b[i].id != b[j].id {
        assert c[|a| + i] == b[i] && c[|a| + j] == b[j];
      }
      forall id | id in Ids(a) ensures id !in Ids(b) {
        var i: nat :| i < |a| && a[i].id == id;
      }
    }
    if UniqueIds(a) && UniqueIds(b) && Ids(a) !! Ids(b) {
      forall i: nat, j: nat | i < j < |c| ensures c[i].id != c[j].id {
        assert i < |a| <= j ==> c[i].id in Ids(a) && c[j].id in Ids(b);
      }
    }
  }

  lemma InFirst(a: seq<Task>, b: seq<Task>, k: nat)
    requires k < |a + b| && (a + b)[k] !in b
    ensures k < |a|
  {
  }

  lemma IdOfOne(t: Task)
    ensures Ids([t]) == {t.id} && UniqueIds([t])
  {
  }

  lemma IdOfMember(s: seq<Task>, k: nat)
    requires k < |s|
    ensures s[k].id in Ids(s)
  {
  }

  lemma IdsWithout(s: seq<Task>, k: nat)
    requires k < |s| && UniqueIds(s)
    ensures UniqueIds(Without(s, k)) && Ids(Without(s, k)) == Ids(s) - {s[k].id}
    ensures forall t :: t in Without(s, k) <==> t in s && t.id != s[k].id
  {
    var w := Without(s, k);
    forall t ensures t in w <==> t in s && t.id != s[k].id {
      if t in s && t.id != s[k].id {
        var i: nat :| i < |s| && s[i] == t;
        assert t == w[if i < k then i else i - 1];
      }
    }
  }

  class PriorityScheduler {
    const maxSlots: nat
    const threshold: real
    var ready: seq<Task>
    /** In the order in which the slots were filled. */
    var running: seq<Task>

    predicate Valid()
      reads this
    {
      && maxSlots >= 1 && threshold >= 1.0
      && |running| <= maxSlots
      && UniqueIds(ready) && UniqueIds(running) && Ids(ready) !! Ids(running)
    }

    function Score(t: Task, now: real): real {
      Effective(t, now, threshold)
    }

    constructor (maxSlots: int, threshold: real)
      ensures Valid() && ready == running == []
    {
      this.maxSlots := if maxSlots >= 1 then maxSlots else 1;
      this.threshold := if threshold >= 1.0 then threshold else 1.0;
      ready, running := [], [];
    }

    /** Adds a task unless it is known; a waiting task may only gain priority. */
    method Enqueue(task: Task, now: real)
      requires Valid()
      modifies this
      ensures Valid() && running == old(running)
      ensures Ids(ready) == old(Ids(ready)) + (if task.id in old(Ids(running)) then {} else {task.id})
      ensures forall t | t in old(ready) && t.id != task.id :: t in ready
      ensures task.id in old(Ids(running)) ==> ready == old(ready)
      ensures task.id !in old(Ids(running)) && task.id !in old(Ids(ready)) ==>
                ready == old(ready) + [task.(enqueuedAt := if task.enqueuedAt.None? then Some(now) else task.enqueuedAt,
                                             state := if task.state.Preempted? then Preempted else Pending)]
      ensures forall k: nat | k < |old(ready)| && old(ready)[k].id == task.id ::
                ready == old(ready)[k := old(ready)[k].(priority :=
                  if Level(task.priority) > Level(old(ready)[k].priority) then task.priority
                  else old(ready)[k].priority)]
    {
      if exists t | t in running :: t.id == task.id {
        return;
      }
      for i := 0 to |ready|
        invariant ready == old(ready) && running == old(running)
        invariant forall k: nat | k < i :: ready[k].id != task.id
      {
        if ready[i].id == task.id {
          WeightByLevel(task.priority, ready[i].priority);
          if Weight(task.priority) > Weight(ready[i].priority) {
            ready := ready[i := ready[i].(priority := task.priority)];
          }
          SameIds(old(ready), ready);
          return;
        }
      }
      var t := task.(enqueuedAt := if task.enqueuedAt.None? then Some(now) else task.enqueuedAt,
                     state := if task.state.Preempted? then Preempted else Pending);
      IdsOfParts(ready, [t]);
      ready := ready + [t];
    }

    /** The first of the running tasks that may be preempted whose score is lowest. */
    method LowestCandidate(dispatched: seq<Task>, now: real) returns (k: Option<nat>)
      ensures k.None? ==> forall t | t in running :: !(t.preemptible && t !in dispatched)
      ensures k.Some? ==>
                && k.value < |running| && running[k.value].preemptible && running[k.value] !in dispatched
                && (forall t | t in running && t.preemptible && t !in dispatched ::
                      Score(running[k.value], now) <= Score(t, now))
                && (forall i: nat | i < k.value && running[i].preemptible && running[i] !in dispatched ::
                      Score(running[k.value], now) < Score(running[i], now))
    {
      k := None;
      for n := 0 to |running|
        invariant k.None? ==> forall i: nat | i < n :: !(running[i].preemptible && running[i] !in dispatched)
        invariant k.Some? ==>
                    && k.value < n && running[k.value].preemptible && running[k.value] !in dispatched
                    && (forall i: nat | i < n && running[i].preemptible && running[i] !in dispatched ::
                          Score(running[k.value], now) <= Score(running[i], now))
                    && (forall i: nat | i < k.value && running[i].preemptible && running[i] !in dispatched ::
                          Score(running[k.value], now) < Score(running[i], now))
      {
        if running[n].preemptible && running[n] !in dispatched
           && (k.None? || Score(running[n], now) < Score(running[k.value], now)) {
          k := Some(n);
        }
      }
    }

    /** Fills free slots and preempts, until nothing waits or nothing running may give way. No task is lost or
        duplicated, no slot stays free while a task waits, and no waiting task outranks a preemptible running
        one; a tick dispatches at most maxSlots tasks and never one that it preempted itself. */
    method Tick(now: real) returns (dispatched: seq<Task>)
      requires Valid()
      modifies this
      ensures Valid()
      ensures Ids(ready) + Ids(running) == old(Ids(ready) + Ids(running))
      ensures |dispatched| <= maxSlots
      ensures ready == [] || |running| == maxSlots
      ensures forall w, r | w in ready && r in running && r.preemptible :: Score(w, now) <= Score(r, now)
      ensures forall t | t in dispatched :: t in running && DispatchedFrom(t, old(ready), now)
      ensures forall t | t in running :: t in dispatched || t in old(running)
      ensures forall t | t in ready :: WaitsFrom(t, old(ready), old(running))
      ensures forall i: nat, j: nat | i < j < |dispatched| :: Score(dispatched[i], now) >= Score(dispatched[j], now)
      ensures forall w, r | w in ready && r in running && r.preemptible ::
                NotAged(w, now, threshold) && NotAged(r, now, threshold) ==> Level(w.priority) <= Level(r.priority)
      ensures forall w, x | w in ready && x in dispatched && w.enqueuedAt.Some? && x.enqueuedAt.Some? ::
                w.priority == x.priority ==> x.enqueuedAt.value <= w.enqueuedAt.value
    {
      hide TickInv, Level, NotAged;
      dispatched := [];
      ghost var kept, victims := running, {};
      TickStarts(ready, running, now, threshold, maxSlots);
      assert kept + dispatched == running;
      while ready != []
        invariant running == kept + dispatched
        invariant TickInv(ready, kept, dispatched, victims, old(ready), old(running), now, threshold, maxSlots)
        invariant |dispatched| <= |running| <= maxSlots
        decreases maxSlots - |dispatched|
      {
        SortStep(ready, kept, dispatched, victims, old(ready), old(running), now, threshold, maxSlots);
        ready := StableSort(ready, now, threshold);
        var top := ready[0];
        if |running| < maxSlots {
          FillStep(ready, kept, dispatched, victims, old(ready), old(running), now, threshold, maxSlots);
          ready := ready[1..];
          running := running + [Dispatch(top, now)];
          dispatched := dispatched + [Dispatch(top, now)];
        } else {
          CandidatesAreKept(ready, kept, dispatched, victims, old(ready), old(running), now, threshold, maxSlots);
          var k := LowestCandidate(dispatched, now);
          if k.None? {
            break;
          }
          var lowest := running[k.value];
          if Score(top, now) <= Score(lowest, now) {
            break;
          }
          InFirst(kept, dispatched, k.value);
          PreemptStep(ready, kept, dispatched, victims, old(ready), old(running), now, threshold, maxSlots, k.value);
          ready := ready[1..] + [Preempt(lowest)];
          running := Without(running, k.value) + [Dispatch(top, now)];
          kept, victims := Without(kept, k.value), victims + {lowest.id};
          dispatched := dispatched + [Dispatch(top, now)];
        }
      }
      TickEnds(ready, kept, dispatched, victims, old(ready), old(running), now, threshold, maxSlots);
      forall w, r | w in ready && r in running && r.preemptible && NotAged(w, now, threshold) && NotAged(r, now, threshold)
        ensures Level(w.priority) <= Level(r.priority)
      {
        PriorityDecides(w, r, now, threshold);
      }
      forall w, x | w in ready && x in dispatched && w.enqueuedAt.Some? && x.enqueuedAt.Some? && w.priority == x.priority
        ensures x.enqueuedAt.value <= w.enqueuedAt.value
      {
        FirstComeFirstRanked(x, w, now, threshold);
      }
    }

    /** The position of a task in a list of tasks. */
    static method Find(s: seq<Task>, id: string) returns (k: Option<nat>)
      ensures k.None? <==> id !in Ids(s)
      ensures k.Some? ==> k.value < |s| && s[k.value].id == id
    {
      for i := 0 to |s|
        invariant forall j: nat | j < i :: s[j].id != id
      {
        if s[i].id == id {
          assert s[i] in s;
          return Some(i);
        }
      }
      return None;
    }

    /** Takes a task out of its slot. */
    method TakeRunning(id: string) returns (taken: Option<Task>)
      requires Valid()
      modifies this
      ensures Valid() && ready == old(ready)
      ensures taken.None? <==> id !in old(Ids(running))
      ensures taken.Some? ==> taken.value in old(running) && taken.value.id == id
      ensures forall t :: t in running <==> t in old(running) && t.id != id
    {
      var k := Find(running, id);
      if k.None? {
        return None;
      }
      IdsWithout(running, k.value);
      taken := Some(running[k.value]);
      running := Without(running, k.value);
    }

    /** Frees the slot of a running task and marks the task completed; no other task is touched. */
    method CompleteTask(id: string) returns (done: bool, ended: Option<Task>)
      requires Valid()
      modifies this
      ensures Valid() && ready == old(ready)
      ensures done <==> id in old(Ids(running))
      ensures done <==> ended.Some?
      ensures done ==> exists o :: o in old(running) && o.id == id && ended == Some(o.(state := Completed))
      ensures forall t :: t in running <==> t in old(running) && t.id != id
    {
      var taken := TakeRunning(id);
      if taken.None? {
        return false, None;
      }
      return true, Some(taken.value.(state := Completed));
    }

    /** Removes a task wherever it is and marks it cancelled; no other task is touched. */
    method CancelTask(id: string) returns (done: bool, ended: Option<Task>)
      requires Valid()
      modifies this
      ensures Valid()
      ensures done <==> id in old(Ids(ready) + Ids(running))
      ensures done <==> ended.Some?
      ensures done ==> exists o :: o in old(ready) + old(running) && o.id == id && ended == Some(o.(state := Cancelled))
      ensures forall t :: t in running <==> t in old(running) && t.id != id
      ensures forall t :: t in ready <==> t in old(ready) && t.id != id
    {
      var taken := TakeRunning(id);
      if taken.Some? {
        assert forall t | t in ready :: t.id in Ids(ready);
        assert taken.value in old(ready) + old(running);
        return true, Some(taken.value.(state := Cancelled));
      }
      var k := Find(ready, id);
      if k.None? {
        return false, None;
      }
      var t := ready[k.value];
      assert t in old(ready) + old(running);
      IdsWithout(ready, k.value);
      ready := Without(ready, k.value);
      return true, Some(t.(state := Cancelled));
    }
  }

  // ------------------------------------------------------------- the invariant of a tick

  /** kept are the running tasks a tick has not touched, victims the ids of those it has preempted. */
  predicate TickInv(ready: seq<Task>, kept: seq<Task>, dispatched: seq<Task>, victims: set<string>,
                    ready0: seq<Task>, running0: seq<Task>, now: real, threshold: real, maxSlots: nat) {
    && UniqueIds(ready) && UniqueIds(kept + dispatched) && Ids(ready) !! Ids(kept + dispatched)
    && Ids(ready) + Ids(kept + dispatched) == Ids(ready0) + Ids(running0)
    && |kept + dispatched| <= maxSlots
    && (victims != {} ==> |kept + dispatched| == maxSlots)
    && Origins(ready, kept, dispatched, victims, ready0, running0, now)
    && Order(ready, kept, dispatched, victims, now, threshold)
  }

  /** Where every task comes from. */
  predicate Origins(ready: seq<Task>, kept: seq<Task>, dispatched: seq<Task>, victims: set<string>,
                    ready0: seq<Task>, running0: seq<Task>, now: real) {
    && (forall t | t in kept :: t in running0)
    && (forall t | t in dispatched :: DispatchedFrom(t, ready0, now))
    && (forall t | t in ready :: if t.id in victims then WaitsFrom(t, [], running0) else t in ready0)
  }

  /** Nothing that waits outranks what was dispatched, and no victim outranks what could still give way. */
  predicate Order(ready: seq<Task>, kept: seq<Task>, dispatched: seq<Task>, victims: set<string>, now: real,
                  threshold: real) {
    && (forall w, x | w in ready && x in dispatched :: RanksAtLeast(x, w, now, threshold))
    && (forall i: nat, j: nat | i < j < |dispatched| ::
          Effective(dispatched[i], now, threshold) >= Effective(dispatched[j], now, threshold))
    && (forall w, c | w in ready && w.id in victims && c in kept && c.preemptible ::
          Effective(w, now, threshold) <= Effective(c, now, threshold))
  }

  lemma TickStarts(ready: seq<Task>, running: seq<Task>, now: real, threshold: real, maxSlots: nat)
    requires UniqueIds(ready) && UniqueIds(running) && Ids(ready) !! Ids(running) && |running| <= maxSlots
    ensures TickInv(ready, running, [], {}, ready, running, now, threshold, maxSlots)
  {
    assert running + [] == running;
  }

  lemma SortStep(ready: seq<Task>, kept: seq<Task>, dispatched: seq<Task>, victims: set<string>,
                 ready0: seq<Task>, running0: seq<Task>, now: real, threshold: real, maxSlots: nat)
    requires TickInv(ready, kept, dispatched, victims, ready0, running0, now, threshold, maxSlots) && ready != []
    ensures TickInv(StableSort(ready, now, threshold), kept, dispatched, victims, ready0, running0, now, threshold, maxSlots)
    ensures Ranked(StableSort(ready, now, threshold), now, threshold) && StableSort(ready, now, threshold) != []
  {
    SortKeeps(ready, now, threshold);
    SameElements(ready, StableSort(ready, now, threshold));
  }

  /** The head of a ranked queue has the highest score. */
  lemma TopIsHighest(ready: seq<Task>, now: real, threshold: real)
    requires Ranked(ready, now, threshold) && ready != []
    ensures forall w | w in ready :: RanksAtLeast(ready[0], w, now, threshold)
    ensures forall w | w in ready :: Effective(w, now, threshold) <= Effective(ready[0], now, threshold)
  {
    forall w | w in ready ensures RanksAtLeast(ready[0], w, now, threshold) {
      var i: nat :| i < |ready| && ready[i] == w;
      assert i > 0 ==> RanksAtLeast(ready[0], ready[i], now, threshold);
    }
  }

  /** Moving the head of the queue to the dispatched tasks. */
  lemma FillStep(ready: seq<Task>, kept: seq<Task>, dispatched: seq<Task>, victims: set<string>,
                 ready0: seq<Task>, running0: seq<Task>, now: real, threshold: real, maxSlots: nat)
    requires TickInv(ready, kept, dispatched, victims, ready0, running0, now, threshold, maxSlots)
    requires ready != [] && Ranked(ready, now, threshold) && |kept + dispatched| < maxSlots
    ensures TickInv(ready[1..], kept, dispatched + [Dispatch(ready[0], now)], victims, ready0, running0, now, threshold,
                    maxSlots)
    ensures (kept + dispatched) + [Dispatch(ready[0], now)] == kept + (dispatched + [Dispatch(ready[0], now)])
  {
    var x := Dispatch(ready[0], now);
    DispatchedOrder(ready, dispatched, now, threshold);
    assert (kept + dispatched) + [x] == kept + (dispatched + [x]);
    IdsOfParts(kept + dispatched, [x]);
    IdsOfParts([ready[0]], ready[1..]);
    assert ready == [ready[0]] + ready[1..];
    assert ready[0] in ready0 && DispatchedFrom(x, ready0, now);
    hide Effective, RanksAtLeast, Ranked;
  }

  /** While the slots are full, the head of the queue that outranks a running task is no victim itself. */
  lemma CandidatesAreKept(ready: seq<Task>, kept: seq<Task>, dispatched: seq<Task>, victims: set<string>,
                          ready0: seq<Task>, running0: seq<Task>, now: real, threshold: real, maxSlots: nat)
    requires TickInv(ready, kept, dispatched, victims, ready0, running0, now, threshold, maxSlots)
    ensures forall t | t in kept :: t !in dispatched
  {
    IdsOfParts(kept, dispatched);
    forall t | t in kept ensures t !in dispatched {
      assert t.id in Ids(kept);
    }
  }

  lemma PreemptIds(ready: seq<Task>, kept: seq<Task>, dispatched: seq<Task>, now: real, k: nat)
    requires UniqueIds(ready) && UniqueIds(kept + dispatched) && Ids(ready) !! Ids(kept + dispatched)
    requires ready != [] && k < |kept|
    ensures var x, p := Dispatch(ready[0], now), Preempt(kept[k]);
            && UniqueIds(ready[1..] + [p]) && UniqueIds(Without(kept, k) + (dispatched + [x]))
            && Ids(ready[1..] + [p]) !! Ids(Without(kept, k) + (dispatched + [x]))
            && Ids(ready[1..] + [p]) + Ids(Without(kept, k) + (dispatched + [x])) == Ids(ready) + Ids(kept + dispatched)
            && Without(kept + dispatched, k) + [x] == Without(kept, k) + (dispatched + [x])
            && kept[k].id !in Ids(ready)
  {
    hide UniqueIds, Ids, Without;
    var x, p, rest, less := Dispatch(ready[0], now), Preempt(kept[k]), ready[1..], Without(kept, k);
    assert ready == [ready[0]] + rest;
    IdOfOne(ready[0]);
    IdOfOne(p);
    IdOfOne(x);
    IdOfMember(kept, k);
    IdsOfParts([ready[0]], rest);
    IdsOfParts(rest, [p]);
    IdsOfParts(kept, dispatched);
    IdsWithout(kept, k);
    IdsOfParts(less, dispatched);
    IdsOfParts(less + dispatched, [x]);
    WithoutInFirst(kept, dispatched, k, x);
  }

  lemma WithoutInFirst(a: seq<Task>, b: seq<Task>, k: nat, x: Task)
    requires k < |a|
    ensures Without(a + b, k) + [x] == Without(a, k) + (b + [x])
    ensures (Without(a, k) + b) + [x] == Without(a, k) + (b + [x])
  {
  }

  /** Exchanging the lowest preemptible running task for the head of the queue. */
  lemma PreemptStep(ready: seq<Task>, kept: seq<Task>, dispatched: seq<Task>, victims: set<string>,
                    ready0: seq<Task>, running0: seq<Task>, now: real, threshold: real, maxSlots: nat, k: nat)
    requires TickInv(ready, kept, dispatched, victims, ready0, running0, now, threshold, maxSlots)
    requires ready != [] && Ranked(ready, now, threshold) && |kept + dispatched| == maxSlots
    requires k < |kept| && kept[k].preemptible
    requires forall c | c in kept && c.preemptible ::
               Effective(kept[k], now, threshold) <= Effective(c, now, threshold)
    requires Effective(ready[0], now, threshold) > Effective(kept[k], now, threshold)
    ensures TickInv(ready[1..] + [Preempt(kept[k])], Without(kept, k), dispatched + [Dispatch(ready[0], now)],
                    victims + {kept[k].id}, ready0, running0, now, threshold, maxSlots)
    ensures Without(kept + dispatched, k) + [Dispatch(ready[0], now)]
            == Without(kept, k) + (dispatched + [Dispatch(ready[0], now)])
  {
    hide Origins, Order;
    PreemptIds(ready, kept, dispatched, now, k);
    IdsOfParts(kept, dispatched);
    PreemptOrigins(ready, kept, dispatched, victims, ready0, running0, now, threshold, k);
    PreemptOrder(ready, kept, dispatched, victims, now, threshold, k);
  }

  lemma PreemptOrigins(ready: seq<Task>, kept: seq<Task>, dispatched: seq<Task>, victims: set<string>,
                       ready0: seq<Task>, running0: seq<Task>, now: real, threshold: real, k: nat)
    requires Origins(ready, kept, dispatched, victims, ready0, running0, now)
    requires Order(ready, kept, dispatched, victims, now, threshold)
    requires ready != [] && k < |kept| && kept[k].preemptible && kept[k].id !in Ids(ready)
    requires Effective(ready[0], now, threshold) > Effective(kept[k], now, threshold)
    ensures Origins(ready[1..] + [Preempt(kept[k])], Without(kept, k), dispatched + [Dispatch(ready[0], now)],
                    victims + {kept[k].id}, ready0, running0, now)
  {
    hide Effective;
    var p := Preempt(kept[k]);
    assert ready[0] in ready && kept[k] in kept;
    assert DispatchedFrom(Dispatch(ready[0], now), ready0, now);
    assert WaitsFrom(p, [], running0);
    forall t | t in ready[1..] + [p]
      ensures if t.id in victims + {kept[k].id} then WaitsFrom(t, [], running0) else t in ready0
    {
      if t in ready[1..] {
        assert t in ready && t.id in Ids(ready);
      }
    }
  }

  lemma PreemptOrder(ready: seq<Task>, kept: seq<Task>, dispatched: seq<Task>, victims: set<string>, now: real,
                     threshold: real, k: nat)
    requires Order(ready, kept, dispatched, victims, now, threshold)
    requires ready != [] && Ranked(ready, now, threshold) && k < |kept|
    requires forall c | c in kept && c.preemptible ::
               Effective(kept[k], now, threshold) <= Effective(c, now, threshold)
    requires Effective(ready[0], now, threshold) > Effective(kept[k], now, threshold)
    requires kept[k].id !in Ids(ready)
    ensures Order(ready[1..] + [Preempt(kept[k])], Without(kept, k), dispatched + [Dispatch(ready[0], now)],
                  victims + {kept[k].id}, now, threshold)
  {
    TopIsHighest(ready, now, threshold);
    SameScores(ready[0], now, threshold);
    SameScores(kept[k], now, threshold);
    DispatchedOrder(ready, dispatched, now, threshold);
    var x, p, less := Dispatch(ready[0], now), Preempt(kept[k]), Without(kept, k);
    hide Effective, Ranked, RanksAtLeast, Dispatch, Preempt;
    assert ready[0] in ready;
    assert forall w | w in ready[1..] :: w in ready && w.id in Ids(ready);
    assert forall c | c in less :: c in kept;
    hide Without, Ids;
    forall w, y | w in ready[1..] + [p] && y in dispatched + [x] ensures RanksAtLeast(y, w, now, threshold) {
      if w == p {
        RanksBelow(y, ready[0], p, now, threshold);
      }
    }
  }

  /** The head of the queue ranks behind what was dispatched before it, and before what still waits. */
  lemma DispatchedOrder(ready: seq<Task>, dispatched: seq<Task>, now: real, threshold: real)
    requires forall w, x | w in ready && x in dispatched :: RanksAtLeast(x, w, now, threshold)
    requires forall i: nat, j: nat | i < j < |dispatched| ::
               Effective(dispatched[i], now, threshold) >= Effective(dispatched[j], now, threshold)
    requires ready != [] && Ranked(ready, now, threshold)
    ensures var more := dispatched + [Dispatch(ready[0], now)];
            && (forall w, x | w in ready && x in more :: RanksAtLeast(x, w, now, threshold))
            && (forall i: nat, j: nat | i < j < |more| ::
                  Effective(more[i], now, threshold) >= Effective(more[j], now, threshold))
  {
    var x := Dispatch(ready[0], now);
    var more := dispatched + [x];
    TopIsHighest(ready, now, threshold);
    SameScores(ready[0], now, threshold);
    assert ready[0] in ready;
    forall w | w in ready ensures RanksAtLeast(x, w, now, threshold) {
      assert RanksAtLeast(ready[0], w, now, threshold);
    }
    forall i: nat | i < |dispatched| ensures Effective(dispatched[i], now, threshold) >= Effective(x, now, threshold) {
      assert RanksAtLeast(dispatched[i], ready[0], now, threshold);
    }
    hide RanksAtLeast, Effective, Dispatch, Ranked;
  }

  lemma RanksBelow(y: Task, top: Task, p: Task, now: real, threshold: real)
    requires RanksAtLeast(y, top, now, threshold) && Effective(top, now, threshold) > Effective(p, now, threshold)
    ensures RanksAtLeast(y, p, now, threshold)
  {
  }

  lemma SameScores(t: Task, now: real, threshold: real)
    ensures Effective(Dispatch(t, now), now, threshold) == Effective(t, now, threshold)
    ensures Effective(Preempt(t), now, threshold) == Effective(t, now, threshold)
    ensures Stamp(Dispatch(t, now)) == Stamp(t)
  {
  }

  /** What the invariant says when the loop has ended. */
  lemma TickEnds(ready: seq<Task>, kept: seq<Task>, dispatched: seq<Task>, victims: set<string>,
                 ready0: seq<Task>, running0: seq<Task>, now: real, threshold: real, maxSlots: nat)
    requires TickInv(ready, kept, dispatched, victims, ready0, running0, now, threshold, maxSlots)
    requires ready == [] || forall w, c | w in ready && c in kept && c.preemptible ::
               Effective(w, now, threshold) <= Effective(c, now, threshold)
    ensures UniqueIds(ready) && UniqueIds(kept + dispatched) && Ids(ready) !! Ids(kept + dispatched)
    ensures Ids(ready) + Ids(kept + dispatched) == Ids(ready0) + Ids(running0)
    ensures forall w, r | w in ready && r in kept + dispatched && r.preemptible ::
              Effective(w, now, threshold) <= Effective(r, now, threshold)
    ensures forall t | t in dispatched :: DispatchedFrom(t, ready0, now)
    ensures forall t | t in kept + dispatched :: t in dispatched || t in running0
    ensures forall t | t in ready :: WaitsFrom(t, ready0, running0)
    ensures forall i: nat, j: nat | i < j < |dispatched| ::
              Effective(dispatched[i], now, threshold) >= Effective(dispatched[j], now, threshold)
    ensures forall w, x | w in ready && x in dispatched :: RanksAtLeast(x, w, now, threshold)
  {
    forall t | t in ready ensures WaitsFrom(t, ready0, running0) {
      if t.id in victims {
        assert WaitsFrom(t, [], running0);
      }
    }
  }

  lemma SameElements(a: seq<Task>, b: seq<Task>)
    requires forall t :: t in a <==> t in b
    ensures Ids(a) == Ids(b)
  {
  }

  lemma SameIds(a: seq<Task>, b: seq<Task>)
    requires |a| == |b| && forall i: nat | i < |a| :: a[i].id == b[i].id
    ensures Ids(a) == Ids(b) && (UniqueIds(a) ==> UniqueIds(b))
  {
    forall id ensures id in Ids(a) <==> id in Ids(b) {
      if id in Ids(a) {
        var i: nat :| i < |a| && a[i].id == id;
        assert b[i] in b;
      }
      if id in Ids(b) {
        var i: nat :| i < |b| && b[i].id == id;
        assert a[i] in a;
      }
    }
  }
}
