/** Parallel stages for a catalogue of work items: Kahn's algorithm on in-degree counters, stage by stage. */
module DagResolver {
  import opened Options
  import opened Strings

  type Id = string

  /** The loaded items in order and what each depends on. A dependency may be repeated or name no item. */
  datatype Catalogue = Catalogue(items: seq<Id>, dependsOn: map<Id, seq<Id>>) {
    predicate Valid() {
      Distinct(items) && dependsOn.Keys == Elements(items)
    }
  }

  datatype Report = Report(order: seq<Id>, stages: seq<seq<Id>>)

  /** The dependencies of an item that are items themselves. */
  function Known(g: Catalogue, n: Id): set<Id>
    requires n in g.dependsOn
  {
    set d | d in g.dependsOn[n] && d in g.dependsOn
  }

  predicate RepeatFree(g: Catalogue, ds: seq<Id>) {
    forall i, j | 0 <= i < j < |ds| && ds[i] in g.dependsOn :: ds[i] != ds[j]
  }

  predicate AllRepeatFree(g: Catalogue) {
    forall n | n in g.dependsOn :: RepeatFree(g, g.dependsOn[n])
  }

  // ------------------------------------------------------------- chains and cycles

  predicate DependsOn(g: Catalogue, n: Id, d: Id) {
    n in g.dependsOn && d in Known(g, n)
  }

  /** Items of which each is a known dependency of the next. */
  predicate Chain(g: Catalogue, c: seq<Id>) {
    && c != [] && c[|c| - 1] in g.dependsOn
    && forall i: nat | i < |c| - 1 :: DependsOn(g, c[i + 1], c[i])
  }

  predicate ChainTo(g: Catalogue, c: seq<Id>, n: Id) {
    Chain(g, c) && c[|c| - 1] == n
  }

  predicate Cycle(g: Catalogue, c: seq<Id>) {
    Chain(g, c) && |c| >= 2 && c[0] == c[|c| - 1]
  }

  ghost predicate Acyclic(g: Catalogue) {
    forall c :: !Cycle(g, c)
  }

  /** The longest chain of known dependencies that leads to n has k steps. */
  ghost predicate Depth(g: Catalogue, n: Id, k: nat) {
    && (exists c :: ChainTo(g, c, n) && |c| == k + 1)
    && (forall c | ChainTo(g, c, n) :: |c| <= k + 1)
  }

  // ------------------------------------------------------------- what the stages complete

  predicate Ready(g: Catalogue, n: Id, done: set<Id>)
    requires n in g.dependsOn
  {
    RepeatFree(g, g.dependsOn[n]) && Known(g, n) <= done
  }

  /** The items the first k stages complete. */
  ghost function Done(g: Catalogue, k: nat): set<Id> {
    if k == 0 then {} else set n | n in g.dependsOn && Ready(g, n, Done(g, k - 1))
  }

  lemma {:induction false} DoneGrows(g: Catalogue, k: nat)
    ensures Done(g, k) <= Done(g, k + 1)
  {
    if k > 0 {
      DoneGrows(g, k - 1);
    }
  }

  /** Without repeated dependencies, k stages complete exactly the items with no chain of more than k items. */
  lemma {:induction false} ChainsFit(g: Catalogue, c: seq<Id>, n: Id, k: nat)
    requires ChainTo(g, c, n) && n in Done(g, k)
    ensures |c| <= k
    decreases k
  {
    if |c| > 1 {
      var m := |c| - 1;
      assert DependsOn(g, c[m], c[m - 1]);
      ChainsFit(g, c[..m], c[m - 1], k - 1);
    }
  }

  lemma {:induction false} LongChain(g: Catalogue, n: Id, k: nat) returns (c: seq<Id>)
    requires AllRepeatFree(g) && n in g.dependsOn && n !in Done(g, k)
    ensures ChainTo(g, c, n) && |c| == k + 1
    decreases k
  {
    if k == 0 {
      c := [n];
    } else {
      assert !(Known(g, n) <= Done(g, k - 1));
      var d :| d in Known(g, n) && d !in Done(g, k - 1);
      var b := LongChain(g, d, k - 1);
      c := b + [n];
      assert DependsOn(g, n, d);
    }
  }

  lemma StageIsDepth(g: Catalogue, n: Id, k: nat)
    requires AllRepeatFree(g) && n in g.dependsOn
    ensures n in Done(g, k + 1) - Done(g, k) <==> Depth(g, n, k)
  {
    hide Chain, Done, AllRepeatFree;
    if n in Done(g, k + 1) && n !in Done(g, k) {
      var c := LongChain(g, n, k);
      forall b | ChainTo(g, b, n) ensures |b| <= k + 1 {
        ChainsFit(g, b, n, k + 1);
      }
    }
    if Depth(g, n, k) {
      if n in Done(g, k) {
        var c :| ChainTo(g, c, n) && |c| == k + 1;
        ChainsFit(g, c, n, k);
      }
      if n !in Done(g, k + 1) {
        var c := LongChain(g, n, k + 1);
      }
    }
  }

  lemma {:induction false} ChainStart(g: Catalogue, c: seq<Id>, k: nat)
    requires Chain(g, c) && c[|c| - 1] in Done(g, k)
    ensures |c| <= k && c[0] in Done(g, k + 1 - |c|)
    decreases k
  {
    if |c| > 1 {
      var m := |c| - 1;
      assert DependsOn(g, c[m], c[m - 1]);
      ChainStart(g, c[..m], k - 1);
    }
  }

  lemma {:induction false} CompletedIsAcyclic(g: Catalogue, c: seq<Id>, k: nat)
    requires Cycle(g, c) && c[0] in Done(g, k)
    ensures false
    decreases k
  {
    ChainStart(g, c, k);
    CompletedIsAcyclic(g, c, k + 1 - |c|);
  }

  lemma Prepend(g: Catalogue, d: Id, p: seq<Id>)
    requires Chain(g, p) && DependsOn(g, p[0], d)
    ensures Chain(g, [d] + p)
  {
    var longer := [d] + p;
    forall i: nat | i < |longer| - 1 ensures DependsOn(g, longer[i + 1], longer[i]) {
      assert i > 0 ==> DependsOn(g, p[i - 1 + 1], p[i - 1]);
    }
  }

  lemma Cut(g: Catalogue, c: seq<Id>, m: nat)
    requires Chain(g, c) && 0 < m <= |c|
    ensures Chain(g, c[..m])
  {
    assert m < |c| ==> DependsOn(g, c[m - 1 + 1], c[m - 1]);
  }

  ghost predicate NeedsOneOf(g: Catalogue, n: Id, s: set<Id>) {
    exists d :: d in s && DependsOn(g, n, d)
  }

  /** An item that can never become ready: a dependency of it is repeated, or it depends on itself through a
      cycle. */
  ghost predicate Faulty(g: Catalogue, n: Id) {
    n in g.dependsOn && (!RepeatFree(g, g.dependsOn[n]) || exists c :: Cycle(g, c) && c[0] == n)
  }

  /** A chain of dependencies leads from a faulty item to n. */
  ghost predicate Blocked(g: Catalogue, n: Id) {
    exists c :: ChainTo(g, c, n) && Faulty(g, c[0])
  }

  /** Walking back through items that are stuck because each is faulty or needs another of them, one comes to a
      faulty item. */
  lemma {:induction false} WalkBack(g: Catalogue, stuck: set<Id>, p: seq<Id>) returns (c: seq<Id>)
    requires forall n | n in stuck :: Faulty(g, n) || NeedsOneOf(g, n, stuck)
    requires Chain(g, p) && Distinct(p) && Elements(p) <= stuck
    ensures ChainTo(g, c, p[|p| - 1]) && Faulty(g, c[0])
    decreases |stuck| - |p|
  {
    assert p != [];
    hide DependsOn, Faulty, Chain, NeedsOneOf;
    assert p[0] in Elements(p);
    if Faulty(g, p[0]) {
      return p;
    }
    var d := OneNeeded(g, p[0], stuck);
    Prepend(g, d, p);
    if d in p {
      Closes(g, d, p);
      c := [d] + p;
    } else {
      LongerWalk(stuck, d, p);
      c := WalkBack(g, stuck, [d] + p);
    }
  }

  lemma OneNeeded(g: Catalogue, n: Id, s: set<Id>) returns (d: Id)
    requires NeedsOneOf(g, n, s)
    ensures d in s && DependsOn(g, n, d)
  {
    d :| d in s && DependsOn(g, n, d);
  }

  /** Coming back to an item of the chain shows a cycle. */
  lemma Closes(g: Catalogue, d: Id, p: seq<Id>)
    requires Chain(g, [d] + p) && d in p
    ensures Faulty(g, d)
  {
    var longer := [d] + p;
    var i :| 0 <= i < |p| && p[i] == d;
    CycleStart(g, longer, i + 2);
    var cycle := longer[..i + 2];
    assert Cycle(g, cycle) && cycle[0] == d;
  }

  lemma CycleStart(g: Catalogue, c: seq<Id>, m: nat)
    requires Chain(g, c) && 2 <= m <= |c|
    ensures Chain(g, c[..m]) && c[0] in g.dependsOn
  {
    Cut(g, c, m);
    DependencyIsItem(g, c[0 + 1], c[0]);
  }

  lemma LongerWalk(stuck: set<Id>, d: Id, p: seq<Id>)
    requires Distinct(p) && Elements(p) <= stuck && d in stuck && d !in p
    ensures Distinct([d] + p) && Elements([d] + p) <= stuck && |[d] + p| <= |stuck|
  {
    var longer := [d] + p;
    assert Elements(longer) == Elements(p) + {d};
    DistinctSize(longer);
    Subset(Elements(longer), stuck);
  }

  lemma DependencyIsItem(g: Catalogue, n: Id, d: Id)
    requires DependsOn(g, n, d)
    ensures d in g.dependsOn
  {
  }

  lemma CompletedMeansAcyclic(g: Catalogue, k: nat)
    requires Done(g, k) == g.dependsOn.Keys
    ensures Acyclic(g)
  {
    hide Done, Chain;
    forall c | Cycle(g, c) ensures false {
      assert c[0] in g.dependsOn by { CycleEnds(g, c); }
      CompletedIsAcyclic(g, c, k);
    }
  }

  lemma StuckIsBlocked(g: Catalogue, k: nat, n: Id)
    requires Done(g, k) == Done(g, k + 1) && n in g.dependsOn && n !in Done(g, k)
    ensures Blocked(g, n)
  {
    var stuck := g.dependsOn.Keys - Done(g, k);
    forall m | m in stuck ensures Faulty(g, m) || NeedsOneOf(g, m, stuck) {
      assert m !in Done(g, k + 1) && !Ready(g, m, Done(g, k));
      if RepeatFree(g, g.dependsOn[m]) {
        var d :| d in Known(g, m) && d !in Done(g, k);
        assert DependsOn(g, m, d) && d in stuck;
      }
    }
    var c := WalkBack(g, stuck, [n]);
  }

  lemma BlockedIsStuck(g: Catalogue, k: nat, n: Id)
    requires Blocked(g, n)
    ensures n !in Done(g, k)
  {
    if n in Done(g, k) {
      var c :| ChainTo(g, c, n) && Faulty(g, c[0]);
      ChainStart(g, c, k);
      if RepeatFree(g, g.dependsOn[c[0]]) {
        var y :| Cycle(g, y) && y[0] == c[0];
        CompletedIsAcyclic(g, y, k + 1 - |c|);
      }
    }
  }

  /** When a stage would be empty, the earlier ones have completed everything exactly if there is no cycle and
      no repetition. */
  lemma Verdict(g: Catalogue, k: nat)
    requires Done(g, k) == Done(g, k + 1)
    ensures Done(g, k) == g.dependsOn.Keys <==> Acyclic(g) && AllRepeatFree(g)
  {
    if Done(g, k) == g.dependsOn.Keys {
      CompletedMeansAcyclic(g, k);
    } else if AllRepeatFree(g) {
      var n :| n in g.dependsOn && n !in Done(g, k);
      StuckIsBlocked(g, k, n);
    }
  }

  /** A dependency listed twice is refused as circular although nothing is: the counter of b starts at two and
      is decremented once. */
  lemma RepetitionIsNoCycle()
    ensures var g := Catalogue(["a", "b"], map["a" := [], "b" := ["a", "a"]]);
            g.Valid() && Acyclic(g) && !AllRepeatFree(g)
  {
    var g := Catalogue(["a", "b"], map["a" := [], "b" := ["a", "a"]]);
    var ds := g.dependsOn["b"];
    assert ds[0] == ds[1] && ds[0] in g.dependsOn;
    assert !RepeatFree(g, ds);
    forall c | Cycle(g, c) ensures false {
      CycleEnds(g, c);
    }
  }

  lemma CycleEnds(g: Catalogue, c: seq<Id>)
    requires Cycle(g, c)
    ensures DependsOn(g, c[1], c[0]) && DependsOn(g, c[0], c[|c| - 2])
  {
    assert DependsOn(g, c[0 + 1], c[0]);
    assert DependsOn(g, c[|c| - 2 + 1], c[|c| - 2]);
  }

  // ------------------------------------------------------------- the counters

  /** How many entries of a dependency list name items, repetitions counted. */
  function KnownEntries(g: Catalogue, ds: seq<Id>): nat {
    if ds == [] then 0
    else KnownEntries(g, ds[..|ds| - 1]) + if ds[|ds| - 1] in g.dependsOn then 1 else 0
  }

  function KnownIn(g: Catalogue, ds: seq<Id>): set<Id> {
    set d | d in ds && d in g.dependsOn
  }

  lemma {:induction false} EntriesCount(g: Catalogue, ds: seq<Id>)
    ensures KnownEntries(g, ds) >= |KnownIn(g, ds)|
    ensures KnownEntries(g, ds) == |KnownIn(g, ds)| <==> RepeatFree(g, ds)
  {
    if ds != [] {
      var m := |ds| - 1;
      var front, x := ds[..m], ds[m];
      EntriesCount(g, front);
      assert ds == front + [x];
      hide RepeatFree;
      if x !in g.dependsOn {
        assert KnownIn(g, ds) == KnownIn(g, front);
      } else {
        assert KnownIn(g, ds) == KnownIn(g, front) + {x};
      }
      RepeatFreeExtends(g, front, x);
    }
  }

  lemma RepeatFreeExtends(g: Catalogue, ds: seq<Id>, x: Id)
    ensures RepeatFree(g, ds + [x]) <==> RepeatFree(g, ds) && x !in KnownIn(g, ds)
  {
    var longer := ds + [x];
    assert forall i | 0 <= i < |ds| :: longer[i] == ds[i];
    if x in KnownIn(g, ds) {
      var i :| 0 <= i < |ds| && ds[i] == x;
      assert longer[i] == longer[|ds|];
    }
    if RepeatFree(g, ds) && !RepeatFree(g, longer) {
      var i, j :| 0 <= i < j < |longer| && longer[i] in g.dependsOn && longer[i] == longer[j];
      assert i < |ds| && longer[i] == ds[i] && ds[i] in ds;
    }
  }

  /** What is left on the counter of an item when the items of a set have been executed. */
  function Remaining(g: Catalogue, n: Id, done: set<Id>): int
    requires n in g.dependsOn
  {
    KnownEntries(g, g.dependsOn[n]) - |Known(g, n) * done|
  }

  lemma ZeroMeansReady(g: Catalogue, n: Id, done: set<Id>)
    requires n in g.dependsOn
    ensures Remaining(g, n, done) >= 0
    ensures Remaining(g, n, done) == 0 <==> Ready(g, n, done)
  {
    var known := Known(g, n);
    EntriesCount(g, g.dependsOn[n]);
    assert known == KnownIn(g, g.dependsOn[n]);
    Subset(known * done, known);
    assert known == known * done + (known - done);
    if known - done == {} {
      assert known * done == known;
    }
  }

  lemma ExecutingOne(g: Catalogue, n: Id, done: set<Id>, v: Id)
    requires n in g.dependsOn && v !in done
    ensures Remaining(g, n, done + {v}) == Remaining(g, n, done) - if v in Known(g, n) then 1 else 0
  {
    var known := Known(g, n);
    if v in known {
      assert known * (done + {v}) == known * done + {v};
    } else {
      assert known * (done + {v}) == known * done;
    }
  }

  predicate Counts(g: Catalogue, inDegree: map<Id, int>, done: set<Id>) {
    inDegree.Keys == g.dependsOn.Keys && forall n | n in inDegree :: inDegree[n] == Remaining(g, n, done)
  }

  ghost predicate DependentsOf(g: Catalogue, dependents: map<Id, set<Id>>) {
    && dependents.Keys == g.dependsOn.Keys
    && (forall d, n | d in dependents :: n in dependents[d] <==> DependsOn(g, n, d))
  }

  /** The items not yet completed by the current stage that the executed items have made ready. */
  ghost predicate Frontier(g: Catalogue, next: seq<Id>, completed: set<Id>, done: set<Id>) {
    && Distinct(next)
    && forall n :: n in next <==> n in g.dependsOn && n !in completed && Ready(g, n, done)
  }

  // ------------------------------------------------------------- the resolver

  /** Takes one off the counter of every dependent, and queues those that reach zero. */
  method Release(inDegree: map<Id, int>, next: seq<Id>, ds: seq<Id>)
    returns (inDegree': map<Id, int>, next': seq<Id>)
    requires Elements(ds) <= inDegree.Keys && Distinct(ds) && Distinct(next)
    requires forall n | n in ds && inDegree[n] == 1 :: n !in next
    ensures inDegree'.Keys == inDegree.Keys
    ensures forall n | n in inDegree :: inDegree'[n] == inDegree[n] - if n in ds then 1 else 0
    ensures Distinct(next') && forall n :: n in next' <==> n in next || (n in ds && inDegree[n] == 1)
  {
    inDegree', next' := inDegree, next;
    for i := 0 to |ds|
      invariant inDegree'.Keys == inDegree.Keys
      invariant forall n | n in inDegree :: inDegree'[n] == inDegree[n] - if n in ds[..i] then 1 else 0
      invariant Distinct(next') && forall n :: n in next' <==> n in next || (n in ds[..i] && inDegree[n] == 1)
    {
      var d := ds[i];
      assert ds[..i + 1] == ds[..i] + [d] && d in Elements(ds) && d !in ds[..i];
      inDegree' := inDegree'[d := inDegree'[d] - 1];
      if inDegree'[d] == 0 {
        next' := next' + [d];
      }
    }
    assert ds[..|ds|] == ds;
  }

  /** Executing v brings the counters and the queue of the next stage from one state to the following one. */
  lemma FrontierStep(g: Catalogue, before: set<Id>, done: set<Id>, v: Id, inDegree: map<Id, int>, inDegree': map<Id, int>,
                     next: seq<Id>, next': seq<Id>, ds: seq<Id>, completed: set<Id>)
    requires Counts(g, inDegree, done) && Frontier(g, next, completed, done)
    requires v !in done && before <= done
    requires forall n | n in g.dependsOn :: n in completed <==> Ready(g, n, before)
    requires forall n :: n in ds <==> DependsOn(g, n, v)
    requires inDegree'.Keys == inDegree.Keys
    requires forall n | n in inDegree :: inDegree'[n] == inDegree[n] - if n in ds then 1 else 0
    requires Distinct(next')
    requires forall n :: n in next' <==> n in next || (n in ds && n in inDegree && inDegree[n] == 1)
    ensures Counts(g, inDegree', done + {v}) && Frontier(g, next', completed, done + {v})
  {
    hide RepeatFree, KnownEntries;
    forall n | n in inDegree ensures inDegree'[n] == Remaining(g, n, done + {v}) {
      ExecutingOne(g, n, done, v);
    }
    forall n | n in g.dependsOn
      ensures n in next' <==> n !in completed && Ready(g, n, done + {v})
    {
      ZeroMeansReady(g, n, done);
      ZeroMeansReady(g, n, done + {v});
      ExecutingOne(g, n, done, v);
    }
  }

  lemma NoneTwice(g: Catalogue, done: set<Id>, v: Id, inDegree: map<Id, int>, next: seq<Id>, completed: set<Id>)
    requires Counts(g, inDegree, done) && Frontier(g, next, completed, done) && v !in done
    ensures forall n | DependsOn(g, n, v) :: n !in next
  {
    forall n | DependsOn(g, n, v) ensures n !in next {
      assert v in Known(g, n) && !(Known(g, n) <= done);
    }
  }

  /** One stage: every item of it is executed, and the items this makes ready are queued. */
  method RunStage(g: Catalogue, ghost k: nat, current: seq<Id>, inDegree: map<Id, int>, dependents: map<Id, set<Id>>)
    returns (inDegree': map<Id, int>, next: seq<Id>)
    requires DependentsOf(g, dependents) && Counts(g, inDegree, Done(g, k))
    requires Distinct(current) && Elements(current) == Done(g, k + 1) - Done(g, k)
    ensures Counts(g, inDegree', Done(g, k + 1))
    ensures Distinct(next) && Elements(next) == Done(g, k + 2) - Done(g, k + 1)
  {
    hide Counts, Frontier, Ready;
    DoneGrows(g, k);
    inDegree', next := inDegree, [];
    ghost var start, completed := Done(g, k), Done(g, k + 1);
    FrontierStart(g, k);
    assert start + Elements(current[..0]) == start;
    for i := 0 to |current|
      invariant Counts(g, inDegree', start + Elements(current[..i]))
      invariant Frontier(g, next, completed, start + Elements(current[..i]))
    {
      var v := current[i];
      ghost var done := start + Elements(current[..i]);
      assert v in Elements(current) && v !in done;
      assert Elements(current[..i + 1]) == Elements(current[..i]) + {v} by { assert current[..i + 1] == current[..i] + [v]; }
      assert done + {v} == start + Elements(current[..i + 1]);
      var ds := Sorted(dependents[v]);
      assert forall n :: n in ds <==> n in Elements(ds);
      NoneTwice(g, done, v, inDegree', next, completed);
      ghost var was, queued := inDegree', next;
      CountsKeys(g, inDegree', done);
      FrontierDistinct(g, next, completed, done);
      inDegree', next := Release(inDegree', next, ds);
      StageReadiness(g, k);
      FrontierStep(g, start, done, v, was, inDegree', queued, next, ds, completed);
    }
    assert start + Elements(current[..|current|]) == completed by { assert current[..|current|] == current; }
    FrontierEnd(g, k, next);
  }

  lemma FrontierStart(g: Catalogue, k: nat)
    ensures Frontier(g, [], Done(g, k + 1), Done(g, k))
  {
  }

  lemma FrontierEnd(g: Catalogue, k: nat, next: seq<Id>)
    requires Frontier(g, next, Done(g, k + 1), Done(g, k + 1))
    ensures Distinct(next) && Elements(next) == Done(g, k + 2) - Done(g, k + 1)
  {
    hide Ready;
  }

  lemma FrontierDistinct(g: Catalogue, next: seq<Id>, completed: set<Id>, done: set<Id>)
    requires Frontier(g, next, completed, done)
    ensures Distinct(next)
  {
  }

  lemma CountsKeys(g: Catalogue, inDegree: map<Id, int>, done: set<Id>)
    requires Counts(g, inDegree, done)
    ensures inDegree.Keys == g.dependsOn.Keys
  {
  }

  lemma StageReadiness(g: Catalogue, k: nat)
    ensures forall n | n in g.dependsOn :: n in Done(g, k + 1) <==> Ready(g, n, Done(g, k))
  {
  }

  /** The tables after the items of a set have been entered. */
  ghost predicate Entered(g: Catalogue, done: set<Id>, inDegree: map<Id, int>, dependents: map<Id, set<Id>>) {
    && inDegree.Keys == g.dependsOn.Keys && dependents.Keys == g.dependsOn.Keys
    && (forall n | n in g.dependsOn :: inDegree[n] == if n in done then KnownEntries(g, g.dependsOn[n]) else 0)
    && (forall d, n | d in dependents :: n in dependents[d] <==> n in done && DependsOn(g, n, d))
  }

  /** The item has been added to the dependents of the members of a set. */
  ghost predicate Listed(dependents: map<Id, set<Id>>, dependents': map<Id, set<Id>>, node: Id, s: set<Id>) {
    && dependents'.Keys == dependents.Keys
    && forall d | d in dependents :: dependents'[d] == dependents[d] + if d in s then {node} else {}
  }

  lemma SetTwice(m: map<Id, int>, k: Id, v: int, w: int)
    ensures m[k := v][k := w] == m[k := w]
  {
  }

  lemma ListNone(dependents: map<Id, set<Id>>, node: Id)
    ensures Listed(dependents, dependents, node, {})
  {
  }

  lemma ListOne(dependents: map<Id, set<Id>>, dependents': map<Id, set<Id>>, node: Id, s: set<Id>, d: Id)
    requires Listed(dependents, dependents', node, s)
    ensures d in dependents' ==> Listed(dependents, dependents'[d := dependents'[d] + {node}], node, s + {d})
    ensures d !in dependents' ==> Listed(dependents, dependents', node, s + {d})
  {
  }

  method EnterItem(g: Catalogue, ghost done: set<Id>, node: Id, inDegree: map<Id, int>, dependents: map<Id, set<Id>>)
    returns (inDegree': map<Id, int>, dependents': map<Id, set<Id>>)
    requires node in g.dependsOn && node !in done && Entered(g, done, inDegree, dependents)
    ensures Entered(g, done + {node}, inDegree', dependents')
  {
    assert inDegree[node] == 0 && inDegree.Keys == dependents.Keys == g.dependsOn.Keys;
    hide Entered, DependsOn, KnownEntries, Elements, Listed;
    var deps := g.dependsOn[node];
    inDegree', dependents' := inDegree, dependents;
    EntriesEnds(g, deps);
    ElementsEnds(deps);
    ListNone(dependents, node);
    for j := 0 to |deps|
      invariant inDegree' == inDegree[node := KnownEntries(g, deps[..j])]
      invariant dependents'.Keys == dependents.Keys
      invariant Listed(dependents, dependents', node, Elements(deps[..j]))
    {
      var d := deps[j];
      EntriesNext(g, deps, j);
      ElementsNext(deps, j);
      ListOne(dependents, dependents', node, Elements(deps[..j]), d);
      SetTwice(inDegree, node, inDegree'[node], inDegree'[node] + 1);
      if d in g.dependsOn {
        inDegree' := inDegree'[node := inDegree'[node] + 1];
        dependents' := dependents'[d := dependents'[d] + {node}];
      }
    }
    OneEntered(g, done, node, inDegree, dependents, inDegree', dependents');
  }

  lemma OneEntered(g: Catalogue, done: set<Id>, node: Id, inDegree: map<Id, int>, dependents: map<Id, set<Id>>,
                   inDegree': map<Id, int>, dependents': map<Id, set<Id>>)
    requires node in g.dependsOn && node !in done && Entered(g, done, inDegree, dependents)
    requires inDegree' == inDegree[node := KnownEntries(g, g.dependsOn[node])]
    requires dependents'.Keys == dependents.Keys
    requires Listed(dependents, dependents', node, Elements(g.dependsOn[node]))
    ensures Entered(g, done + {node}, inDegree', dependents')
  {
    hide DependsOn, KnownEntries;
    forall d, n | d in dependents' ensures n in dependents'[d] <==> n in done + {node} && DependsOn(g, n, d) {
      DependsMeans(g, n, d);
    }
  }

  lemma NoneEntered(g: Catalogue, inDegree: map<Id, int>, dependents: map<Id, set<Id>>)
    requires inDegree.Keys == g.dependsOn.Keys && dependents.Keys == g.dependsOn.Keys
    requires forall n | n in inDegree :: inDegree[n] == 0
    requires forall n | n in dependents :: dependents[n] == {}
    ensures Entered(g, {}, inDegree, dependents)
  {
  }

  lemma DependsMeans(g: Catalogue, n: Id, d: Id)
    ensures DependsOn(g, n, d) <==> n in g.dependsOn && d in g.dependsOn && d in g.dependsOn[n]
  {
  }

  lemma EntriesNext(g: Catalogue, ds: seq<Id>, j: nat)
    requires j < |ds|
    ensures KnownEntries(g, ds[..j + 1]) == KnownEntries(g, ds[..j]) + if ds[j] in g.dependsOn then 1 else 0
  {
    assert ds[..j + 1][..j] == ds[..j];
  }

  lemma EntriesEnds(g: Catalogue, ds: seq<Id>)
    ensures KnownEntries(g, ds[..0]) == 0 && KnownEntries(g, ds[..|ds|]) == KnownEntries(g, ds)
  {
    assert ds[..|ds|] == ds;
  }

  /** The two tables: how many entries of each list name items, and who depends on whom. */
  method BuildTables(g: Catalogue) returns (inDegree: map<Id, int>, dependents: map<Id, set<Id>>)
    requires g.Valid()
    ensures Counts(g, inDegree, {}) && DependentsOf(g, dependents)
  {
    hide Entered, Counts, DependentsOf, Distinct;
    inDegree, dependents := map n | n in g.items :: 0, map n | n in g.items :: {};
    assert forall n :: n in g.items <==> n in Elements(g.items);
    NoneEntered(g, inDegree, dependents);
    assert Elements(g.items[..0]) == {};
    for i := 0 to |g.items|
      invariant Entered(g, Elements(g.items[..i]), inDegree, dependents)
    {
      var node := g.items[i];
      assert node in Elements(g.items);
      NotBefore(g.items, i);
      assert Elements(g.items[..i + 1]) == Elements(g.items[..i]) + {node} by {
        assert g.items[..i + 1] == g.items[..i] + [node];
      }
      inDegree, dependents := EnterItem(g, Elements(g.items[..i]), node, inDegree, dependents);
    }
    assert g.items[..|g.items|] == g.items;
    AllEntered(g, inDegree, dependents);
  }

  lemma NotBefore(s: seq<Id>, i: nat)
    requires Distinct(s) && i < |s|
    ensures s[i] !in Elements(s[..i])
  {
  }

  lemma AllEntered(g: Catalogue, inDegree: map<Id, int>, dependents: map<Id, set<Id>>)
    requires Entered(g, g.dependsOn.Keys, inDegree, dependents)
    ensures Counts(g, inDegree, {}) && DependentsOf(g, dependents)
  {
    hide DependsOn, KnownEntries, Remaining;
    forall n | n in g.dependsOn ensures inDegree[n] == Remaining(g, n, {}) {
      NothingExecuted(g, n);
    }
    forall d, n | d in dependents ensures n in dependents[d] <==> DependsOn(g, n, d) {
      DependsMeans(g, n, d);
    }
  }

  lemma NothingExecuted(g: Catalogue, n: Id)
    requires n in g.dependsOn
    ensures Remaining(g, n, {}) == KnownEntries(g, g.dependsOn[n])
  {
    assert Known(g, n) * {} == {};
  }

  function Flatten(stages: seq<seq<Id>>): seq<Id> {
    if stages == [] then [] else Flatten(stages[..|stages| - 1]) + stages[|stages| - 1]
  }

  /** The stages the algorithm has produced: stage k is the sorted list of what it completes. */
  ghost predicate Staged(g: Catalogue, stages: seq<seq<Id>>) {
    forall k: nat | k < |stages| :: stages[k] != [] && stages[k] == Sorted(Done(g, k + 1) - Done(g, k))
  }

  /** A schedule that respects the dependencies: stage k holds, in order, the items whose longest chain of known
      dependencies has k steps, and the execution order runs through the stages and through all items once. */
  ghost predicate Schedule(g: Catalogue, r: Report) {
    && r.order == Flatten(r.stages) && Distinct(r.order) && Elements(r.order) == g.dependsOn.Keys
    && (forall k: nat | k < |r.stages| :: r.stages[k] != [] && Ascending(r.stages[k]))
    && (forall k: nat, n | k < |r.stages| :: n in r.stages[k] <==> n in g.dependsOn && Depth(g, n, k))
  }

  lemma FlattenAppend(stages: seq<seq<Id>>, stage: seq<Id>)
    ensures Flatten(stages + [stage]) == Flatten(stages) + stage
  {
    assert (stages + [stage])[..|stages|] == stages;
  }

  lemma ScheduleComplete(g: Catalogue, r: Report)
    requires AllRepeatFree(g) && Staged(g, r.stages) && r.order == Flatten(r.stages)
    requires Distinct(r.order) && Elements(r.order) == g.dependsOn.Keys
    ensures Schedule(g, r)
  {
    hide Done, Depth, AllRepeatFree, Flatten;
    forall k: nat | k < |r.stages| ensures Ascending(r.stages[k]) {
      assert r.stages[k] == Sorted(Done(g, k + 1) - Done(g, k));
    }
    forall k: nat, n | k < |r.stages| ensures n in r.stages[k] <==> n in g.dependsOn && Depth(g, n, k) {
      assert n in r.stages[k] <==> n in Elements(r.stages[k]);
      DoneAreItems(g, k + 1);
      if n in g.dependsOn {
        StageIsDepth(g, n, k);
      }
    }
  }

  lemma DoneAreItems(g: Catalogue, k: nat)
    ensures Done(g, k) <= g.dependsOn.Keys
  {
  }

  lemma OrderGrows(order: seq<Id>, stage: seq<Id>, done: set<Id>, completed: set<Id>)
    requires Distinct(order) && Elements(order) == done && Distinct(stage) && Elements(stage) == completed - done
    requires done <= completed
    ensures Distinct(order + stage) && Elements(order + stage) == completed
    ensures |order + stage| == |completed|
  {
    var all := order + stage;
    assert forall x :: x in all <==> x in Elements(order) || x in Elements(stage);
    forall i, j | 0 <= i < j < |all| ensures all[i] != all[j] {
      assert i < |order| ==> order[i] in Elements(order);
      assert j >= |order| ==> stage[j - |order|] in Elements(stage);
    }
    DistinctSize(all);
  }

  lemma FirstReady(g: Catalogue, inDegree: map<Id, int>, q: seq<Id>)
    requires Counts(g, inDegree, {}) && forall n :: n in q <==> n in g.dependsOn && n in inDegree && inDegree[n] == 0
    ensures Elements(q) == Done(g, 1) - Done(g, 0)
  {
    hide Ready, Remaining;
    forall n ensures n in q <==> n in Done(g, 1) {
      if n in g.dependsOn {
        ZeroMeansReady(g, n, {});
        assert Done(g, 0) == {} && (n in Done(g, 1) <==> Ready(g, n, Done(g, 0)));
      }
    }
  }

  /** Items with counter zero, in catalogue order. */
  method InitialQueue(g: Catalogue, inDegree: map<Id, int>) returns (q: seq<Id>)
    requires g.Valid() && Counts(g, inDegree, {})
    ensures Distinct(q) && Elements(q) == Done(g, 1) - Done(g, 0)
  {
    hide Remaining, Done;
    q := [];
    for i := 0 to |g.items|
      invariant Distinct(q) && forall n :: n in q <==> n in g.items[..i] && n in inDegree && inDegree[n] == 0
    {
      var n := g.items[i];
      assert n in Elements(g.items) && g.items[..i + 1] == g.items[..i] + [n] && n !in g.items[..i];
      if inDegree[n] == 0 {
        q := q + [n];
      }
    }
    assert g.items[..|g.items|] == g.items;
    assert forall n :: n in g.dependsOn <==> n in Elements(g.items);
    FirstReady(g, inDegree, q);
  }

  method BlockedItems(g: Catalogue, ghost k: nat, inDegree: map<Id, int>) returns (blocked: seq<Id>)
    requires g.Valid() && Counts(g, inDegree, Done(g, k)) && Done(g, k) == Done(g, k + 1)
    ensures forall n :: n in blocked <==> n in g.dependsOn && Blocked(g, n)
  {
    hide Done, Blocked, Remaining;
    blocked := [];
    for i := 0 to |g.items|
      invariant forall n :: n in blocked <==> n in g.items[..i] && n in inDegree && inDegree[n] > 0
    {
      var n := g.items[i];
      assert n in Elements(g.items) && g.items[..i + 1] == g.items[..i] + [n];
      if inDegree[n] > 0 {
        blocked := blocked + [n];
      }
    }
    assert g.items[..|g.items|] == g.items;
    StageReadiness(g, k);
    forall n | n in g.dependsOn ensures inDegree[n] > 0 <==> Blocked(g, n) {
      ZeroMeansReady(g, n, Done(g, k));
      if n !in Done(g, k) {
        StuckIsBlocked(g, k, n);
      } else if Blocked(g, n) {
        BlockedIsStuck(g, k, n);
      }
    }
    assert forall n :: n in g.dependsOn ==> n in Elements(g.items);
  }

  /** What holds after k stages. */
  ghost predicate Ran(g: Catalogue, k: nat, stages: seq<seq<Id>>, order: seq<Id>) {
    && |stages| == k && Staged(g, stages) && order == Flatten(stages)
    && Distinct(order) && Elements(order) == Done(g, k) && |order| == |Done(g, k)| <= |g.dependsOn.Keys|
  }

  lemma RanStep(g: Catalogue, k: nat, stages: seq<seq<Id>>, order: seq<Id>, q: seq<Id>)
    requires Ran(g, k, stages, order) && q != [] && Distinct(q) && Elements(q) == Done(g, k + 1) - Done(g, k)
    ensures Ran(g, k + 1, stages + [SortedList(q)], order + SortedList(q)) && SortedList(q) != []
    ensures Elements(SortedList(q)) == Elements(q) && Distinct(SortedList(q))
  {
    hide Done, Flatten, Distinct;
    var stage := SortedList(q);
    DoneGrows(g, k);
    FlattenAppend(stages, stage);
    OrderGrows(order, stage, Done(g, k), Done(g, k + 1));
    DoneAreItems(g, k + 1);
    Subset(Done(g, k + 1), g.dependsOn.Keys);
    assert q[0] in Elements(stage);
  }

  /** Resolution succeeds exactly on acyclic catalogues without repeated dependencies, and then returns the one
      schedule; otherwise it names the items that a cycle or a repetition blocks. */
  method Resolve(g: Catalogue) returns (r: Result<Report, seq<Id>>)
    requires g.Valid()
    ensures r.Ok? <==> Acyclic(g) && AllRepeatFree(g)
    ensures r.Ok? ==> Schedule(g, r.value)
    ensures r.Err? ==> forall n :: n in r.error <==> n in g.dependsOn && Blocked(g, n)
  {
    hide Done, Counts, DependentsOf, Acyclic, AllRepeatFree, Schedule, Blocked, Distinct, Ran, SortedList, Flatten;
    var inDegree, dependents := BuildTables(g);
    ghost var k := 0;
    var q := InitialQueue(g, inDegree);
    var stages: seq<seq<Id>>, order: seq<Id> := [], [];
    RanStart(g);
    while q != []
      invariant Distinct(q) && Elements(q) == Done(g, k + 1) - Done(g, k)
      invariant Counts(g, inDegree, Done(g, k)) && DependentsOf(g, dependents)
      invariant Ran(g, k, stages, order) && |order| <= |g.dependsOn.Keys|
      decreases |g.dependsOn.Keys| - |order|
    {
      var stage := SortedList(q);
      RanStep(g, k, stages, order, q);
      inDegree, q := RunStage(g, k, stage, inDegree, dependents);
      stages, order := stages + [stage], order + stage;
      k := k + 1;
      RanBound(g, k, stages, order);
    }
    AllDone(g, k, stages, order, q);
    if |order| != |g.items| {
      var blocked := BlockedItems(g, k, inDegree);
      return Err(blocked);
    }
    return Ok(Report(order, stages));
  }

  lemma RanStart(g: Catalogue)
    ensures Ran(g, 0, [], [])
  {
  }

  lemma RanBound(g: Catalogue, k: nat, stages: seq<seq<Id>>, order: seq<Id>)
    requires Ran(g, k, stages, order)
    ensures |order| <= |g.dependsOn.Keys|
  {
  }

  /** When the queue has run empty. */
  lemma AllDone(g: Catalogue, k: nat, stages: seq<seq<Id>>, order: seq<Id>, q: seq<Id>)
    requires g.Valid() && Ran(g, k, stages, order) && q == [] && Elements(q) == Done(g, k + 1) - Done(g, k)
    ensures Done(g, k) == Done(g, k + 1)
    ensures |order| == |g.items| <==> Acyclic(g) && AllRepeatFree(g)
    ensures |order| == |g.items| ==> Schedule(g, Report(order, stages))
  {
    hide Done, Acyclic, AllRepeatFree, Schedule, Flatten;
    DoneGrows(g, k);
    assert Elements(q) == {};
    forall x | x in Done(g, k + 1) ensures x in Done(g, k) {
      assert x !in Done(g, k + 1) - Done(g, k);
    }
    assert Done(g, k) == Done(g, k + 1);
    Verdict(g, k);
    DoneAreItems(g, k);
    ItemCount(g, Done(g, k));
    if |order| == |g.items| {
      ScheduleComplete(g, Report(order, stages));
    }
  }

  lemma ItemCount(g: Catalogue, done: set<Id>)
    requires g.Valid() && done <= g.dependsOn.Keys
    ensures |done| == |g.items| <==> done == g.dependsOn.Keys
  {
    DistinctSize(g.items);
    if |done| == |g.items| {
      Subset(done, g.dependsOn.Keys);
    }
  }
}
