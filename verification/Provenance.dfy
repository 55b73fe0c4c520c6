/** Provenance graphs: the audit that every artifact chain is complete, acyclic, hash-linked and verified. */
module Provenance {
  import opened Strings

  type Id = string

  datatype NodeType = Dispatch | WorkerExecution | Handoff | Artifact | Verification | Done

  datatype Node = Node(kind: NodeType, hash: string, parentHashes: seq<string>)

  datatype Edge = Edge(parent: Id, child: Id)

  /** The nodes by id, their ids in insertion order, and the edges as they were added. */
  datatype Graph = Graph(order: seq<Id>, nodes: map<Id, Node>, edges: seq<Edge>) {
    predicate Valid() {
      nodes.Keys == Elements(order)
    }
  }

  datatype Fault =
    | MissingParent(id: Id) | MissingChild(id: Id)
    | CycleFrom(id: Id)
    | HashMismatch(parent: Id, child: Id)
    | NoVerification(id: Id) | NoDispatch(id: Id)

  // ------------------------------------------------------------- what a sound graph is

  predicate EndpointsExist(g: Graph) {
    forall e | e in g.edges :: e.parent in g.nodes && e.child in g.nodes
  }

  /** Nodes of which each is the parent of the next. */
  predicate Path(g: Graph, p: seq<Id>) {
    p != [] && forall i: nat | i < |p| - 1 :: Edge(p[i], p[i + 1]) in g.edges
  }

  predicate Cycle(g: Graph, p: seq<Id>) {
    Path(g, p) && |p| >= 2 && p[0] == p[|p| - 1]
  }

  ghost predicate Acyclic(g: Graph) {
    forall p :: !Cycle(g, p)
  }

  predicate PathFromTo(g: Graph, p: seq<Id>, a: Id, b: Id) {
    Path(g, p) && p[0] == a && p[|p| - 1] == b
  }

  /** The node is d itself or leads to it. */
  ghost predicate Ancestor(g: Graph, a: Id, d: Id) {
    exists p :: PathFromTo(g, p, a, d)
  }

  predicate Linked(g: Graph, e: Edge)
    requires e.parent in g.nodes && e.child in g.nodes
  {
    g.nodes[e.parent].hash in g.nodes[e.child].parentHashes
  }

  ghost predicate HasAncestor(g: Graph, d: Id, kind: NodeType) {
    exists a :: a in g.nodes && g.nodes[a].kind == kind && Ancestor(g, a, d)
  }

  ghost predicate Sound(g: Graph) {
    && EndpointsExist(g)
    && Acyclic(g)
    && (forall e | e in g.edges :: Linked(g, e))
    && (forall d | d in g.nodes && g.nodes[d].kind == Done :: HasAncestor(g, d, Verification) && HasAncestor(g, d, Dispatch))
  }

  lemma ParentOfAncestor(g: Graph, a: Id, b: Id, d: Id)
    requires Edge(a, b) in g.edges && Ancestor(g, b, d)
    ensures Ancestor(g, a, d)
  {
    var p :| PathFromTo(g, p, b, d);
    var q := [a] + p;
    forall i: nat | i < |q| - 1 ensures Edge(q[i], q[i + 1]) in g.edges {
      if i > 0 {
        assert Edge(p[i - 1], p[i - 1 + 1]) in g.edges;
      }
    }
    assert PathFromTo(g, q, a, d);
  }

  lemma SelfAncestor(g: Graph, d: Id)
    ensures Ancestor(g, d, d)
  {
    assert PathFromTo(g, [d], d, d);
  }

  lemma LastEdge(g: Graph, p: seq<Id>)
    requires Path(g, p)
    ensures |p| > 1 ==> Edge(p[|p| - 2], p[|p| - 1]) in g.edges
  {
    assert |p| > 1 ==> Edge(p[|p| - 2], p[|p| - 2 + 1]) in g.edges;
  }

  // ------------------------------------------------------------- where a cycle is reported

  ghost predicate LeadsToCycle(g: Graph, d: Id) {
    exists p :: Cycle(g, p) && Ancestor(g, d, p[0])
  }

  ghost predicate OnCycle(g: Graph, d: Id) {
    exists p :: Cycle(g, p) && p[0] == d
  }

  /** The first node, in insertion order, that leads to a cycle. */
  ghost predicate FirstToCycle(g: Graph, d: Id) {
    exists i: nat :: i < |g.order| && IsFirst(g, i) && g.order[i] == d
  }

  ghost predicate IsFirst(g: Graph, i: nat)
    requires i < |g.order|
  {
    LeadsToCycle(g, g.order[i]) && forall j: nat | j < i :: !LeadsToCycle(g, g.order[j])
  }

  lemma OnlyOneIsFirst(g: Graph, a: Id, b: Id)
    requires FirstToCycle(g, a) && FirstToCycle(g, b)
    ensures a == b
  {
    hide LeadsToCycle;
    var i: nat :| i < |g.order| && IsFirst(g, i) && g.order[i] == a;
    var j: nat :| j < |g.order| && IsFirst(g, j) && g.order[j] == b;
    assert i == j;
  }

  lemma ParentLeadsToCycle(g: Graph, v: Id, c: Id)
    requires Edge(v, c) in g.edges && LeadsToCycle(g, c)
    ensures LeadsToCycle(g, v)
  {
    hide Path, Ancestor;
    var p :| Cycle(g, p) && Ancestor(g, c, p[0]);
    ParentOfAncestor(g, v, c, p[0]);
  }

  /** In whatever order the nodes were inserted the first that leads to a cycle lies on one, exactly if every node
      that leads to a cycle lies on one. */
  lemma FirstLiesOnCycle(nodes: map<Id, Node>, edges: seq<Edge>)
    ensures (forall order: seq<Id>, d | Distinct(order) && Elements(order) == nodes.Keys ::
               FirstToCycle(Graph(order, nodes, edges), d) ==> OnCycle(Graph(order, nodes, edges), d))
            <==> (forall d | d in nodes && LeadsToCycle(Graph([], nodes, edges), d) ::
                    OnCycle(Graph([], nodes, edges), d))
  {
    hide OnCycle, LeadsToCycle;
    forall order: seq<Id>, d ensures SameCycles(order, nodes, edges, d) {
      OrderIsFree(order, nodes, edges, d);
    }
    var g := Graph([], nodes, edges);
    if d :| d in nodes && LeadsToCycle(g, d) && !OnCycle(g, d) {
      var order := [d] + Sorted(nodes.Keys - {d});
      var h := Graph(order, nodes, edges);
      assert SameCycles(order, nodes, edges, d);
      assert IsFirst(h, 0) && h.order[0] == d;
      assert FirstToCycle(h, d);
      assert Elements(order) == Elements(Sorted(nodes.Keys - {d})) + {d};
      assert d !in Elements(Sorted(nodes.Keys - {d}));
      assert Distinct(order) && Elements(order) == nodes.Keys;
    } else {
      forall order: seq<Id>, d
        | Distinct(order) && Elements(order) == nodes.Keys && FirstToCycle(Graph(order, nodes, edges), d)
        ensures OnCycle(Graph(order, nodes, edges), d)
      {
        assert SameCycles(order, nodes, edges, d) && d in Elements(order);
      }
    }
  }

  ghost predicate SameCycles(order: seq<Id>, nodes: map<Id, Node>, edges: seq<Edge>, d: Id) {
    && (LeadsToCycle(Graph(order, nodes, edges), d) <==> LeadsToCycle(Graph([], nodes, edges), d))
    && (OnCycle(Graph(order, nodes, edges), d) <==> OnCycle(Graph([], nodes, edges), d))
  }

  lemma OrderIsFree(order: seq<Id>, nodes: map<Id, Node>, edges: seq<Edge>, d: Id)
    ensures SameCycles(order, nodes, edges, d)
  {
    var a, b := Graph(order, nodes, edges), Graph([], nodes, edges);
    assert forall p :: Path(a, p) <==> Path(b, p);
    assert forall p :: Cycle(a, p) <==> Cycle(b, p);
    forall x ensures Ancestor(a, d, x) <==> Ancestor(b, d, x) {
      assert forall p :: PathFromTo(a, p, d, x) <==> PathFromTo(b, p, d, x);
    }
  }

  /** The node x leads to the cycle of y and z and, inserted first, is the one reported, but lies on no cycle. */
  lemma ReportedOffCycle(node: Node)
    ensures var g := Graph(["x", "y", "z"], map["x" := node, "y" := node, "z" := node],
                           [Edge("x", "y"), Edge("y", "z"), Edge("z", "y")]);
            FirstToCycle(g, "x") && !OnCycle(g, "x")
  {
    var g := Graph(["x", "y", "z"], map["x" := node, "y" := node, "z" := node],
                   [Edge("x", "y"), Edge("y", "z"), Edge("z", "y")]);
    assert g.edges[0] == Edge("x", "y") && g.edges[1] == Edge("y", "z") && g.edges[2] == Edge("z", "y");
    assert Cycle(g, ["y", "z", "y"]);
    SelfAncestor(g, "y");
    ParentOfAncestor(g, "x", "y", "y");
    assert LeadsToCycle(g, "x") && g.order[0] == "x";
    assert IsFirst(g, 0);
    forall p | Cycle(g, p) ensures p[0] != "x" {
      LastEdge(g, p);
    }
  }

  // ------------------------------------------------------------- adjacency

  function Children(edges: seq<Edge>, v: Id): seq<Id> {
    if edges == [] then []
    else
      var e := edges[|edges| - 1];
      Children(edges[..|edges| - 1], v) + if e.parent == v then [e.child] else []
  }

  function Reversed(edges: seq<Edge>): seq<Edge> {
    seq(|edges|, i requires 0 <= i < |edges| => Edge(edges[i].child, edges[i].parent))
  }

  lemma {:induction false} ChildrenAreEdges(edges: seq<Edge>, v: Id)
    ensures forall c :: c in Children(edges, v) <==> Edge(v, c) in edges
  {
    if edges != [] {
      var m := |edges| - 1;
      ChildrenAreEdges(edges[..m], v);
      assert edges == edges[..m] + [edges[m]];
    }
  }

  function Get(m: map<Id, seq<Id>>, v: Id): seq<Id> {
    if v in m then m[v] else []
  }

  ghost predicate AdjacencyOf(m: map<Id, seq<Id>>, edges: seq<Edge>) {
    forall v: Id :: Get(m, v) == Children(edges, v)
  }

  method BuildAdjacency(edges: seq<Edge>) returns (m: map<Id, seq<Id>>)
    ensures AdjacencyOf(m, edges)
  {
    m := map[];
    for i := 0 to |edges|
      invariant AdjacencyOf(m, edges[..i])
    {
      var e := edges[i];
      assert edges[..i + 1][..i] == edges[..i];
      m := m[e.parent := Get(m, e.parent) + [e.child]];
    }
    assert edges[..|edges|] == edges;
  }

  lemma Successors(g: Graph, adj: map<Id, seq<Id>>, v: Id)
    requires AdjacencyOf(adj, g.edges)
    ensures forall c :: c in Get(adj, v) <==> Edge(v, c) in g.edges
  {
    ChildrenAreEdges(g.edges, v);
  }

  // ------------------------------------------------------------- the depth-first search

  /** Nodes in the order in which the search leaves them: all children of a node come before it. */
  ghost predicate Finished(g: Graph, fin: seq<Id>) {
    forall i: nat, c | i < |fin| && Edge(fin[i], c) in g.edges :: c in fin[..i]
  }

  lemma FinishOne(g: Graph, fin: seq<Id>, v: Id)
    requires Finished(g, fin) && forall c | Edge(v, c) in g.edges :: c in fin
    ensures Finished(g, fin + [v])
  {
    var longer := fin + [v];
    forall i: nat, c | i < |longer| && Edge(longer[i], c) in g.edges ensures c in longer[..i] {
      if i < |fin| {
        assert longer[i] == fin[i] && longer[..i] == fin[..i];
      } else {
        assert longer[..i] == fin;
      }
    }
  }

  /** Every node of a path that starts in a finished prefix stays in it, ever earlier. */
  lemma {:induction false} PathGoesBack(g: Graph, fin: seq<Id>, p: seq<Id>, m: nat)
    requires Finished(g, fin) && Path(g, p) && m <= |fin| && p[0] in fin[..m]
    ensures |p| >= 2 ==> m > 0 && p[|p| - 1] in fin[..m - 1]
    decreases |p|
  {
    if |p| >= 2 {
      assert Edge(p[0], p[0 + 1]) in g.edges;
      var i :| 0 <= i < m && fin[..m][i] == p[0];
      assert fin[i] == p[0] && p[1] in fin[..i];
      var rest := p[1..];
      forall j: nat | j < |rest| - 1 ensures Edge(rest[j], rest[j + 1]) in g.edges {
        assert Edge(p[j + 1], p[j + 1 + 1]) in g.edges;
      }
      PathGoesBack(g, fin, rest, i);
      Prefix(fin, i, m - 1, p[|p| - 1]);
    }
  }

  lemma Prefix(fin: seq<Id>, i: nat, m: nat, x: Id)
    requires i <= m <= |fin|
    ensures x in fin[..i] ==> x in fin[..m]
    ensures i > 0 && x in fin[..i - 1] ==> x in fin[..m]
  {
  }

  lemma {:induction false} NoCycleFrom(g: Graph, fin: seq<Id>, p: seq<Id>, m: nat)
    requires Finished(g, fin) && Cycle(g, p) && m <= |fin| && p[0] in fin[..m]
    ensures false
    decreases m
  {
    PathGoesBack(g, fin, p, m);
    NoCycleFrom(g, fin, p, m - 1);
  }

  lemma FinishedIsAcyclic(g: Graph, fin: seq<Id>)
    requires EndpointsExist(g) && Finished(g, fin) && g.nodes.Keys <= Elements(fin)
    ensures Acyclic(g)
  {
    forall p | Cycle(g, p) ensures false {
      assert Edge(p[0], p[0 + 1]) in g.edges;
      assert p[0] in g.nodes && p[0] in Elements(fin) && fin[..|fin|] == fin;
      NoCycleFrom(g, fin, p, |fin|);
    }
  }

  lemma ExtendPath(g: Graph, path: seq<Id>, v: Id)
    requires path == [] || (Path(g, path) && Edge(path[|path| - 1], v) in g.edges)
    ensures Path(g, path + [v])
  {
  }

  /** An edge from the end of a path back into it closes a cycle. */
  lemma CloseCycle(g: Graph, path: seq<Id>, c: Id)
    requires Path(g, path) && Edge(path[|path| - 1], c) in g.edges && c in path
    ensures LeadsToCycle(g, path[|path| - 1])
  {
    var i :| 0 <= i < |path| && path[i] == c;
    ExtendPath(g, path, c);
    var whole := path + [c];
    var p := whole[i..];
    forall j: nat | j < |p| - 1 ensures Edge(p[j], p[j + 1]) in g.edges {
      assert Edge(whole[i + j], whole[i + j + 1]) in g.edges;
    }
    assert Cycle(g, p);
    SelfAncestor(g, c);
    ParentOfAncestor(g, path[|path| - 1], c, c);
  }

  /** The search at one moment: visited are the nodes it has entered, and stack those of them that it has not left yet.
      The path lists the stack from the start of the search on, and fin the nodes it has left. */
  ghost predicate SearchState(g: Graph, visited: set<Id>, stack: set<Id>, path: seq<Id>, fin: seq<Id>) {
    && stack <= visited <= g.nodes.Keys
    && Elements(path) == stack && (path == [] || Path(g, path))
    && Finished(g, fin) && Elements(fin) == visited - stack
  }

  lemma Enter(g: Graph, visited: set<Id>, stack: set<Id>, path: seq<Id>, fin: seq<Id>, v: Id)
    requires SearchState(g, visited, stack, path, fin) && v in g.nodes && v !in visited
    requires path == [] || Edge(path[|path| - 1], v) in g.edges
    ensures SearchState(g, visited + {v}, stack + {v}, path + [v], fin)
  {
    hide Finished, Path;
    ExtendPath(g, path, v);
    assert forall x :: x in path + [v] <==> x in path || x == v;
    assert Elements(path + [v]) == Elements(path) + {v};
    assert visited + {v} - (stack + {v}) == visited - stack;
  }

  lemma Leave(g: Graph, visited: set<Id>, stack: set<Id>, path: seq<Id>, fin: seq<Id>, v: Id)
    requires SearchState(g, visited, stack + {v}, path + [v], fin) && v !in stack
    requires Elements(path) == stack && (path == [] || Path(g, path))
    requires forall c | Edge(v, c) in g.edges :: c in visited && c !in stack + {v}
    ensures SearchState(g, visited, stack, path, fin + [v])
  {
    hide Path;
    forall c | Edge(v, c) in g.edges ensures c in fin {
      assert c in Elements(fin);
    }
    FinishOne(g, fin, v);
    hide Finished;
    assert Elements(fin + [v]) == Elements(fin) + {v};
  }

  /** A child on the stack closes a cycle. */
  lemma MeetsStack(g: Graph, visited: set<Id>, stack: set<Id>, path: seq<Id>, fin: seq<Id>, c: Id)
    requires SearchState(g, visited, stack, path, fin) && path != [] && c in stack
    requires Edge(path[|path| - 1], c) in g.edges
    ensures LeadsToCycle(g, path[|path| - 1])
  {
    assert c in Elements(path);
    CloseCycle(g, path, c);
  }

  lemma StateBounds(g: Graph, visited: set<Id>, stack: set<Id>, path: seq<Id>, fin: seq<Id>)
    requires SearchState(g, visited, stack, path, fin)
    ensures stack <= visited <= g.nodes.Keys && Elements(path) == stack && (path == [] || Path(g, path))
  {
  }

  lemma Fewer(all: set<Id>, small: set<Id>, large: set<Id>, v: Id)
    requires v in all && v !in small && small + {v} <= large
    ensures |all - large| < |all - small|
  {
    assert v in all - small && v !in all - large;
    Subset(all - large, (all - small) - {v});
  }

  method HasCycle(g: Graph, adj: map<Id, seq<Id>>, v: Id, visited: set<Id>, stack: set<Id>,
                  ghost path: seq<Id>, ghost fin: seq<Id>)
    returns (found: bool, visited': set<Id>, stack': set<Id>, ghost fin': seq<Id>)
    requires EndpointsExist(g) && AdjacencyOf(adj, g.edges) && v in g.nodes && v !in visited
    requires SearchState(g, visited, stack, path, fin)
    requires path == [] || Edge(path[|path| - 1], v) in g.edges
    ensures found ==> LeadsToCycle(g, v)
    ensures !found ==> stack' == stack && visited <= visited' && v in visited'
    ensures !found ==> SearchState(g, visited', stack', path, fin')
    decreases |g.nodes.Keys - visited|
  {
    hide Path, Finished, AdjacencyOf, LeadsToCycle, SearchState;
    visited', stack', fin' := visited + {v}, stack + {v}, fin;
    ghost var here := path + [v];
    StateBounds(g, visited, stack, path, fin);
    Enter(g, visited, stack, path, fin, v);
    Successors(g, adj, v);
    var next := Get(adj, v);
    for i := 0 to |next|
      invariant visited + {v} <= visited' && stack' == stack + {v}
      invariant SearchState(g, visited', stack', here, fin')
      invariant forall c | c in next[..i] :: c in visited' && c !in stack'
    {
      var c := next[i];
      assert c in next && next[..i + 1] == next[..i] + [c];
      if c !in visited' {
        Fewer(g.nodes.Keys, visited, visited', v);
        StateBounds(g, visited', stack', here, fin');
        found, visited', stack', fin' := HasCycle(g, adj, c, visited', stack', here, fin');
        if found {
          ParentLeadsToCycle(g, v, c);
          return;
        }
        StateBounds(g, visited', stack', here, fin');
      } else if c in stack' {
        MeetsStack(g, visited', stack', here, fin', c);
        found := true;
        return;
      }
    }
    assert next[..|next|] == next;
    Leave(g, visited', stack, path, fin', v);
    stack', fin' := stack' - {v}, fin' + [v];
    assert stack' == stack;
    found := false;
  }

  /** No node that the search has left leads to a cycle. */
  lemma FinishedLeadsNowhere(g: Graph, visited: set<Id>, fin: seq<Id>, d: Id)
    requires SearchState(g, visited, {}, [], fin) && d in visited
    ensures !LeadsToCycle(g, d)
  {
    forall p | Cycle(g, p) && Ancestor(g, d, p[0]) ensures false {
      var q :| PathFromTo(g, q, d, p[0]);
      assert d in Elements(fin) && fin[..|fin|] == fin;
      PathGoesBack(g, fin, q, |fin|);
      NoCycleFrom(g, fin, p, |fin|);
    }
  }

  lemma AcyclicLeadsNowhere(g: Graph)
    requires Acyclic(g)
    ensures forall d :: !LeadsToCycle(g, d)
  {
  }

  lemma LeadingMeansCycle(g: Graph, d: Id)
    requires LeadsToCycle(g, d)
    ensures !Acyclic(g)
  {
  }

  /** Starts a search at every unvisited node, in insertion order, until one finds a cycle. */
  method FindCycle(g: Graph, adj: map<Id, seq<Id>>) returns (faults: seq<Fault>)
    requires g.Valid() && EndpointsExist(g) && AdjacencyOf(adj, g.edges)
    ensures faults == [] <==> Acyclic(g)
    ensures forall d :: CycleFrom(d) in faults <==> FirstToCycle(g, d)
    ensures |faults| <= 1 && forall f | f in faults :: f.CycleFrom?
  {
    hide Path, Finished, AdjacencyOf, Acyclic, SearchState, EndpointsExist, LeadsToCycle;
    var visited: set<Id>, stack: set<Id> := {}, {};
    ghost var fin: seq<Id> := [];
    EmptyState(g);
    for i := 0 to |g.order|
      invariant stack == {} && SearchState(g, visited, stack, [], fin)
      invariant forall j: nat | j < i :: g.order[j] in visited
    {
      var v := g.order[i];
      assert v in Elements(g.order);
      if v !in visited {
        forall j: nat | j < i ensures !LeadsToCycle(g, g.order[j]) {
          FinishedLeadsNowhere(g, visited, fin, g.order[j]);
        }
        var found;
        found, visited, stack, fin := HasCycle(g, adj, v, visited, stack, [], fin);
        if found {
          LeadingMeansCycle(g, v);
          assert IsFirst(g, i);
          assert FirstToCycle(g, v);
          forall d | FirstToCycle(g, d) ensures d == v {
            OnlyOneIsFirst(g, d, v);
          }
          return [CycleFrom(v)];
        }
      }
    }
    EverythingFinished(g, visited, fin);
    AcyclicLeadsNowhere(g);
    return [];
  }

  lemma EmptyState(g: Graph)
    ensures SearchState(g, {}, {}, [], [])
  {
  }

  lemma EverythingFinished(g: Graph, visited: set<Id>, fin: seq<Id>)
    requires g.Valid() && EndpointsExist(g) && SearchState(g, visited, {}, [], fin)
    requires forall v | v in g.order :: v in visited
    ensures Acyclic(g)
  {
    hide Acyclic, Finished, EndpointsExist;
    forall v | v in g.nodes ensures v in Elements(fin) {
      assert v in Elements(g.order);
    }
    FinishedIsAcyclic(g, fin);
  }

  // ------------------------------------------------------------- the search for ancestors

  lemma ReversedEdges(edges: seq<Edge>, a: Id, b: Id)
    ensures Edge(b, a) in Reversed(edges) <==> Edge(a, b) in edges
  {
    if Edge(a, b) in edges {
      var i :| 0 <= i < |edges| && edges[i] == Edge(a, b);
      assert Reversed(edges)[i] == Edge(b, a);
    }
  }

  lemma Predecessors(g: Graph, rev: map<Id, seq<Id>>, v: Id)
    requires AdjacencyOf(rev, Reversed(g.edges))
    ensures forall a :: a in Get(rev, v) <==> Edge(a, v) in g.edges
  {
    ChildrenAreEdges(Reversed(g.edges), v);
    forall a ensures a in Get(rev, v) <==> Edge(a, v) in g.edges {
      ReversedEdges(g.edges, a, v);
    }
  }

  /** A set that holds d and, with a node, its parents, holds every node a path leads from to d. */
  lemma {:induction false} ClosedHoldsAncestors(g: Graph, closed: set<Id>, p: seq<Id>, d: Id)
    requires d in closed && forall a, b | b in closed && Edge(a, b) in g.edges :: a in closed
    requires Path(g, p) && p[|p| - 1] == d
    ensures p[0] in closed
  {
    if |p| >= 2 {
      var rest := p[1..];
      forall j: nat | j < |rest| - 1 ensures Edge(rest[j], rest[j + 1]) in g.edges {
        assert Edge(p[j + 1], p[j + 1 + 1]) in g.edges;
      }
      ClosedHoldsAncestors(g, closed, rest, d);
      assert Edge(p[0], p[0 + 1]) in g.edges;
    }
  }

  /** Whatever has been seen is an ancestor, and its parents have been seen or wait in the queue. */
  ghost predicate BackState(g: Graph, d: Id, seen: set<Id>, queue: seq<Id>) {
    && (forall a | a in seen || a in queue :: a in g.nodes && Ancestor(g, a, d))
    && (d in seen || d in queue)
    && (forall a, b | b in seen && Edge(a, b) in g.edges :: a in seen || a in queue)
  }

  predicate SawKind(g: Graph, seen: set<Id>, kind: NodeType) {
    exists a | a in seen :: a in g.nodes && g.nodes[a].kind == kind
  }

  lemma BackStep(g: Graph, d: Id, seen: set<Id>, queue: seq<Id>, parents: seq<Id>)
    requires EndpointsExist(g) && queue != [] && BackState(g, d, seen, queue)
    requires forall a :: a in parents <==> Edge(a, queue[0]) in g.edges
    ensures BackState(g, d, seen + {queue[0]}, queue[1..] + parents)
  {
    hide Ancestor;
    var b := queue[0];
    assert queue == [b] + queue[1..];
    forall a | a in parents ensures a in g.nodes && Ancestor(g, a, d) {
      ParentOfAncestor(g, a, b, d);
    }
  }

  lemma BackSkip(g: Graph, d: Id, seen: set<Id>, queue: seq<Id>)
    requires queue != [] && BackState(g, d, seen, queue) && queue[0] in seen
    ensures BackState(g, d, seen, queue[1..])
  {
    hide Ancestor;
    assert queue == [queue[0]] + queue[1..];
  }

  lemma BackEnd(g: Graph, d: Id, seen: set<Id>, kind: NodeType)
    requires BackState(g, d, seen, [])
    ensures SawKind(g, seen, kind) <==> HasAncestor(g, d, kind)
  {
    if HasAncestor(g, d, kind) {
      var a :| a in g.nodes && g.nodes[a].kind == kind && Ancestor(g, a, d);
      var p :| PathFromTo(g, p, a, d);
      ClosedHoldsAncestors(g, seen, p, d);
    }
  }

  lemma SawOneMore(g: Graph, seen: set<Id>, v: Id, kind: NodeType)
    requires v in g.nodes
    ensures SawKind(g, seen + {v}, kind) <==> SawKind(g, seen, kind) || g.nodes[v].kind == kind
  {
    if SawKind(g, seen, kind) {
      var a :| a in seen && a in g.nodes && g.nodes[a].kind == kind;
      assert a in seen + {v};
    }
    assert v in seen + {v};
  }

  lemma BackFront(g: Graph, d: Id, seen: set<Id>, queue: seq<Id>)
    requires BackState(g, d, seen, queue)
    ensures seen <= g.nodes.Keys && (queue != [] ==> queue[0] in g.nodes)
  {
  }

  /** Breadth first backwards from d, over all its ancestors. */
  method SearchBack(g: Graph, rev: map<Id, seq<Id>>, d: Id) returns (hasVerification: bool, hasDispatch: bool)
    requires EndpointsExist(g) && AdjacencyOf(rev, Reversed(g.edges)) && d in g.nodes
    ensures hasVerification <==> HasAncestor(g, d, Verification)
    ensures hasDispatch <==> HasAncestor(g, d, Dispatch)
  {
    hide BackState, SawKind, HasAncestor, AdjacencyOf, EndpointsExist;
    var queue, seen: set<Id> := [d], {};
    hasVerification, hasDispatch := false, false;
    BackStart(g, d);
    while queue != []
      invariant BackState(g, d, seen, queue)
      invariant hasVerification <==> SawKind(g, seen, Verification)
      invariant hasDispatch <==> SawKind(g, seen, Dispatch)
      decreases |g.nodes.Keys - seen|, |queue|
    {
      var v := queue[0];
      BackFront(g, d, seen, queue);
      if v in seen {
        BackSkip(g, d, seen, queue);
        queue := queue[1..];
        continue;
      }
      Predecessors(g, rev, v);
      BackStep(g, d, seen, queue, Get(rev, v));
      Fewer(g.nodes.Keys, seen, seen + {v}, v);
      SawOneMore(g, seen, v, Verification);
      SawOneMore(g, seen, v, Dispatch);
      seen := seen + {v};
      if g.nodes[v].kind == Verification {
        hasVerification := true;
      }
      if g.nodes[v].kind == Dispatch {
        hasDispatch := true;
      }
      queue := queue[1..] + Get(rev, v);
    }
    BackEnd(g, d, seen, Verification);
    BackEnd(g, d, seen, Dispatch);
  }

  lemma BackStart(g: Graph, d: Id)
    requires d in g.nodes
    ensures BackState(g, d, {}, [d]) && !SawKind(g, {}, Verification) && !SawKind(g, {}, Dispatch)
  {
    SelfAncestor(g, d);
  }

  // ------------------------------------------------------------- the audit

  method CheckEndpoints(g: Graph) returns (faults: seq<Fault>)
    ensures faults == [] <==> EndpointsExist(g)
    ensures forall id :: MissingParent(id) in faults <==> id !in g.nodes && exists e | e in g.edges :: e.parent == id
    ensures forall id :: MissingChild(id) in faults <==> id !in g.nodes && exists e | e in g.edges :: e.child == id
    ensures forall f | f in faults :: f.MissingParent? || f.MissingChild?
  {
    faults := [];
    for i := 0 to |g.edges|
      invariant forall f | f in faults :: f.MissingParent? || f.MissingChild?
      invariant forall f :: f in faults <==> SomeEndpoint(g, g.edges[..i], f)
    {
      var e := g.edges[i];
      assert g.edges[..i + 1] == g.edges[..i] + [e];
      OneMoreEdge(g, g.edges[..i], e);
      if e.parent !in g.nodes {
        faults := faults + [MissingParent(e.parent)];
      }
      if e.child !in g.nodes {
        faults := faults + [MissingChild(e.child)];
      }
    }
    assert g.edges[..|g.edges|] == g.edges;
    EndpointFaults(g, faults);
  }

  predicate EndpointFault(g: Graph, e: Edge, f: Fault) {
    || (f == MissingParent(e.parent) && e.parent !in g.nodes)
    || (f == MissingChild(e.child) && e.child !in g.nodes)
  }

  ghost predicate SomeEndpoint(g: Graph, edges: seq<Edge>, f: Fault) {
    exists e :: e in edges && EndpointFault(g, e, f)
  }

  lemma OneMoreEdge(g: Graph, edges: seq<Edge>, e: Edge)
    ensures forall f :: SomeEndpoint(g, edges + [e], f) <==> SomeEndpoint(g, edges, f) || EndpointFault(g, e, f)
  {
    forall f | SomeEndpoint(g, edges, f) || EndpointFault(g, e, f) ensures SomeEndpoint(g, edges + [e], f) {
      if SomeEndpoint(g, edges, f) {
        var d :| d in edges && EndpointFault(g, d, f);
        assert d in edges + [e];
      } else {
        assert e in edges + [e];
      }
    }
  }

  lemma EndpointFaults(g: Graph, faults: seq<Fault>)
    requires forall f :: f in faults <==> SomeEndpoint(g, g.edges, f)
    ensures faults == [] <==> EndpointsExist(g)
    ensures forall id :: MissingParent(id) in faults <==> id !in g.nodes && exists e | e in g.edges :: e.parent == id
    ensures forall id :: MissingChild(id) in faults <==> id !in g.nodes && exists e | e in g.edges :: e.child == id
  {
    hide SomeEndpoint;
    forall id { MissingMeans(g, id); }
    if EndpointsExist(g) {
      NoEndpointFault(g, faults);
    } else {
      var e :| e in g.edges && (e.parent !in g.nodes || e.child !in g.nodes);
      MissingMeans(g, e.parent);
      MissingMeans(g, e.child);
    }
  }

  lemma MissingMeans(g: Graph, id: Id)
    ensures SomeEndpoint(g, g.edges, MissingParent(id)) <==> id !in g.nodes && exists e | e in g.edges :: e.parent == id
    ensures SomeEndpoint(g, g.edges, MissingChild(id)) <==> id !in g.nodes && exists e | e in g.edges :: e.child == id
  {
    forall e | e in g.edges && e.parent == id && id !in g.nodes ensures SomeEndpoint(g, g.edges, MissingParent(id)) {
      assert EndpointFault(g, e, MissingParent(id));
    }
    forall e | e in g.edges && e.child == id && id !in g.nodes ensures SomeEndpoint(g, g.edges, MissingChild(id)) {
      assert EndpointFault(g, e, MissingChild(id));
    }
  }

  lemma NoEndpointFault(g: Graph, faults: seq<Fault>)
    requires EndpointsExist(g) && forall f | f in faults :: SomeEndpoint(g, g.edges, f)
    ensures faults == []
  {
    HasMember(faults);
  }

  method CheckHashes(g: Graph) returns (faults: seq<Fault>)
    requires EndpointsExist(g)
    ensures forall p, c :: HashMismatch(p, c) in faults <==> Edge(p, c) in g.edges && !Linked(g, Edge(p, c))
    ensures forall f | f in faults :: f.HashMismatch?
  {
    faults := [];
    for i := 0 to |g.edges|
      invariant forall f | f in faults :: f.HashMismatch?
      invariant forall p, c :: HashMismatch(p, c) in faults <==>
                  Edge(p, c) in g.edges[..i] && Edge(p, c) in g.edges && !Linked(g, Edge(p, c))
    {
      var e := g.edges[i];
      assert e in g.edges && g.edges[..i + 1] == g.edges[..i] + [e];
      var parent, child := g.nodes[e.parent], g.nodes[e.child];
      if child.parentHashes == [] || parent.hash !in child.parentHashes {
        faults := faults + [HashMismatch(e.parent, e.child)];
      }
    }
    assert g.edges[..|g.edges|] == g.edges;
  }

  ghost predicate Unverified(g: Graph, d: Id, kind: NodeType) {
    d in g.nodes && g.nodes[d].kind == Done && !HasAncestor(g, d, kind)
  }

  method CheckDone(g: Graph, rev: map<Id, seq<Id>>) returns (faults: seq<Fault>)
    requires g.Valid() && EndpointsExist(g) && AdjacencyOf(rev, Reversed(g.edges))
    ensures forall d :: NoVerification(d) in faults <==> Unverified(g, d, Verification)
    ensures forall d :: NoDispatch(d) in faults <==> Unverified(g, d, Dispatch)
    ensures forall f | f in faults :: f.NoVerification? || f.NoDispatch?
  {
    hide HasAncestor, AdjacencyOf, EndpointsExist;
    faults := [];
    for i := 0 to |g.order|
      invariant forall f | f in faults :: f.NoVerification? || f.NoDispatch?
      invariant forall d :: NoVerification(d) in faults <==> d in g.order[..i] && Unverified(g, d, Verification)
      invariant forall d :: NoDispatch(d) in faults <==> d in g.order[..i] && Unverified(g, d, Dispatch)
    {
      var d := g.order[i];
      assert d in Elements(g.order) && g.order[..i + 1] == g.order[..i] + [d];
      if g.nodes[d].kind == Done {
        var hasVerification, hasDispatch := SearchBack(g, rev, d);
        if !hasVerification {
          faults := faults + [NoVerification(d)];
        }
        if !hasDispatch {
          faults := faults + [NoDispatch(d)];
        }
      }
    }
    assert g.order[..|g.order|] == g.order;
    assert forall d :: d in g.nodes ==> d in Elements(g.order);
  }

  /** The audit accepts exactly the sound graphs, and reports each broken link and each unverified DONE node. */
  method VerifyIntegrity(g: Graph) returns (valid: bool, faults: seq<Fault>)
    requires g.Valid()
    ensures valid <==> faults == []
    ensures valid <==> Sound(g)
    ensures !EndpointsExist(g) ==> forall f | f in faults :: f.MissingParent? || f.MissingChild?
    ensures forall id :: MissingParent(id) in faults <==> id !in g.nodes && exists e | e in g.edges :: e.parent == id
    ensures forall id :: MissingChild(id) in faults <==> id !in g.nodes && exists e | e in g.edges :: e.child == id
    ensures EndpointsExist(g) ==> ((exists d :: CycleFrom(d) in faults) <==> !Acyclic(g))
    ensures EndpointsExist(g) ==> forall d :: CycleFrom(d) in faults <==> FirstToCycle(g, d)
    ensures EndpointsExist(g) ==> forall i, j | 0 <= i < j < |faults| :: !(faults[i].CycleFrom? && faults[j].CycleFrom?)
    ensures EndpointsExist(g) ==> forall p, c :: HashMismatch(p, c) in faults <==>
                                    Edge(p, c) in g.edges && !Linked(g, Edge(p, c))
    ensures EndpointsExist(g) ==> forall d :: NoVerification(d) in faults <==> Unverified(g, d, Verification)
    ensures EndpointsExist(g) ==> forall d :: NoDispatch(d) in faults <==> Unverified(g, d, Dispatch)
  {
    hide Acyclic, HasAncestor, AdjacencyOf, Linked, FirstToCycle;
    faults := CheckEndpoints(g);
    if faults != [] {
      return false, faults;
    }
    var adj := BuildAdjacency(g.edges);
    var cycles := FindCycle(g, adj);
    var broken := CheckHashes(g);
    var rev := BuildAdjacency(Reversed(g.edges));
    var unverified := CheckDone(g, rev);
    faults := cycles + broken + unverified;
    valid := faults == [];
    OneCycleFault(cycles, broken + unverified);
    assert faults == cycles + (broken + unverified);
    SoundMeansNone(g, cycles, broken, unverified);
  }

  lemma OneCycleFault(cycles: seq<Fault>, others: seq<Fault>)
    requires |cycles| <= 1 && forall f | f in others :: !f.CycleFrom?
    ensures forall i, j | 0 <= i < j < |cycles + others| ::
              !((cycles + others)[i].CycleFrom? && (cycles + others)[j].CycleFrom?)
  {
    forall j | |cycles| <= j < |cycles + others| ensures !(cycles + others)[j].CycleFrom? {
      assert (cycles + others)[j] in others;
    }
  }

  lemma SomeMismatch(faults: seq<Fault>)
    requires forall f | f in faults :: f.HashMismatch?
    ensures faults != [] ==> exists p, c :: HashMismatch(p, c) in faults
  {
    if faults != [] {
      var f := faults[0];
      assert f in faults && f == HashMismatch(f.parent, f.child);
    }
  }

  lemma SomeUnverified(faults: seq<Fault>)
    requires forall f | f in faults :: f.NoVerification? || f.NoDispatch?
    ensures faults != [] ==> exists d :: NoVerification(d) in faults || NoDispatch(d) in faults
  {
    if faults != [] {
      var f := faults[0];
      assert f in faults && (f == NoVerification(f.id) || f == NoDispatch(f.id));
    }
  }

  lemma SoundMeansNone(g: Graph, cycles: seq<Fault>, broken: seq<Fault>, unverified: seq<Fault>)
    requires EndpointsExist(g)
    requires cycles == [] <==> Acyclic(g)
    requires forall f | f in cycles :: f.CycleFrom?
    requires forall p, c :: HashMismatch(p, c) in broken <==> Edge(p, c) in g.edges && !Linked(g, Edge(p, c))
    requires forall f | f in broken :: f.HashMismatch?
    requires forall d :: NoVerification(d) in unverified <==> Unverified(g, d, Verification)
    requires forall d :: NoDispatch(d) in unverified <==> Unverified(g, d, Dispatch)
    requires forall f | f in unverified :: f.NoVerification? || f.NoDispatch?
    ensures cycles + broken + unverified == [] <==> Sound(g)
    ensures (exists d :: CycleFrom(d) in cycles) <==> !Acyclic(g)
  {
    hide Acyclic, HasAncestor, Linked;
    if cycles != [] {
      assert cycles[0] in cycles && cycles[0] == CycleFrom(cycles[0].id);
    }
    SomeMismatch(broken);
    SomeUnverified(unverified);
    if broken == [] && unverified == [] && cycles == [] {
      forall e | e in g.edges ensures Linked(g, e) {
        assert e == Edge(e.parent, e.child) && HashMismatch(e.parent, e.child) !in broken;
      }
      forall d | d in g.nodes && g.nodes[d].kind == Done
        ensures HasAncestor(g, d, Verification) && HasAncestor(g, d, Dispatch)
      {
        assert NoVerification(d) !in unverified && NoDispatch(d) !in unverified;
      }
    }
  }

  // ------------------------------------------------------------- growing a graph

  function WithEdge(g: Graph, parent: Id, child: Id): Graph {
    g.(edges := g.edges + [Edge(parent, child)])
  }

  function WithNode(g: Graph, id: Id, node: Node): Graph {
    g.(order := if id in g.nodes then g.order else g.order + [id], nodes := g.nodes[id := node])
  }

  lemma AncestorsChain(g: Graph, a: Id, b: Id, d: Id)
    requires Ancestor(g, a, b) && Ancestor(g, b, d)
    ensures Ancestor(g, a, d)
  {
    var p :| PathFromTo(g, p, a, b);
    var q :| PathFromTo(g, q, b, d);
    var r := p + q[1..];
    forall i: nat | i < |r| - 1 ensures Edge(r[i], r[i + 1]) in g.edges {
      if i < |p| - 1 {
        assert Edge(p[i], p[i + 1]) in g.edges;
      } else {
        var j := i - (|p| - 1);
        assert r[i] == q[j] && r[i + 1] == q[j + 1] && Edge(q[j], q[j + 1]) in g.edges;
      }
    }
    assert PathFromTo(g, r, a, d);
  }

  /** A node that leads to its own parent lies on a cycle. */
  lemma EdgeClosesCycle(g: Graph, parent: Id, child: Id)
    requires Edge(parent, child) in g.edges && Ancestor(g, child, parent)
    ensures !Acyclic(g)
  {
    var p :| PathFromTo(g, p, child, parent);
    ExtendPath(g, p, child);
    assert Cycle(g, p + [child]);
  }

  lemma PathInLarger(g: Graph, parent: Id, child: Id, p: seq<Id>)
    requires Path(g, p)
    ensures Path(WithEdge(g, parent, child), p)
  {
    forall i: nat | i < |p| - 1 ensures Edge(p[i], p[i + 1]) in WithEdge(g, parent, child).edges {
      assert Edge(p[i], p[i + 1]) in g.edges;
    }
  }

  lemma AncestorInLarger(g: Graph, parent: Id, child: Id, a: Id, d: Id)
    requires Ancestor(g, a, d)
    ensures Ancestor(WithEdge(g, parent, child), a, d)
  {
    var p :| PathFromTo(g, p, a, d);
    PathInLarger(g, parent, child, p);
    assert PathFromTo(WithEdge(g, parent, child), p, a, d);
  }

  /** A path of the larger graph is one of the smaller, or passes the new edge. */
  lemma {:induction false} PathPassesEdge(g: Graph, parent: Id, child: Id, q: seq<Id>)
    requires Path(WithEdge(g, parent, child), q)
    ensures Ancestor(g, q[0], q[|q| - 1]) || (Ancestor(g, q[0], parent) && Ancestor(g, child, q[|q| - 1]))
  {
    hide Ancestor;
    if |q| == 1 {
      SelfAncestor(g, q[0]);
    } else {
      var rest := q[1..];
      var larger := WithEdge(g, parent, child);
      forall j: nat | j < |rest| - 1 ensures Edge(rest[j], rest[j + 1]) in larger.edges {
        assert Edge(q[j + 1], q[j + 1 + 1]) in larger.edges;
      }
      PathPassesEdge(g, parent, child, rest);
      assert Edge(q[0], q[0 + 1]) in larger.edges && rest[|rest| - 1] == q[|q| - 1];
      FirstStep(g, parent, child, q[0], rest[0], rest[|rest| - 1]);
    }
  }

  lemma FirstStep(g: Graph, parent: Id, child: Id, x: Id, y: Id, d: Id)
    requires Edge(x, y) in g.edges || (x == parent && y == child)
    requires Ancestor(g, y, d) || (Ancestor(g, y, parent) && Ancestor(g, child, d))
    ensures Ancestor(g, x, d) || (Ancestor(g, x, parent) && Ancestor(g, child, d))
  {
    hide Ancestor;
    if Edge(x, y) in g.edges {
      if Ancestor(g, y, d) {
        ParentOfAncestor(g, x, y, d);
      } else {
        ParentOfAncestor(g, x, y, parent);
      }
    } else {
      SelfAncestor(g, x);
    }
  }

  /** Adding an edge to an acyclic graph closes a cycle exactly if its child leads to its parent. */
  lemma EdgeKeepsAcyclic(g: Graph, parent: Id, child: Id)
    requires Acyclic(g)
    ensures Acyclic(WithEdge(g, parent, child)) <==> !Ancestor(g, child, parent)
  {
    hide Ancestor;
    var larger := WithEdge(g, parent, child);
    if Ancestor(g, child, parent) {
      AncestorInLarger(g, parent, child, child, parent);
      EdgeClosesCycle(larger, parent, child);
    }
    forall y | Cycle(larger, y) ensures Ancestor(g, child, parent) {
      CycleMeansAncestor(g, parent, child, y);
    }
  }

  lemma CycleMeansAncestor(g: Graph, parent: Id, child: Id, y: seq<Id>)
    requires Acyclic(g) && Cycle(WithEdge(g, parent, child), y)
    ensures Ancestor(g, child, parent)
  {
    var larger, rest := WithEdge(g, parent, child), y[1..];
    forall j: nat | j < |rest| - 1 ensures Edge(rest[j], rest[j + 1]) in larger.edges {
      assert Edge(y[j + 1], y[j + 1 + 1]) in larger.edges;
    }
    assert Edge(y[0], y[0 + 1]) in larger.edges;
    PathPassesEdge(g, parent, child, rest);
    BackAround(g, parent, child, y[0], y[1]);
  }

  /** A step from x to y, old or new, and the way back from y to x. */
  lemma BackAround(g: Graph, parent: Id, child: Id, x: Id, y: Id)
    requires Acyclic(g) && (Edge(x, y) in g.edges || (x == parent && y == child))
    requires Ancestor(g, y, x) || (Ancestor(g, y, parent) && Ancestor(g, child, x))
    ensures Ancestor(g, child, parent)
  {
    hide Ancestor, Acyclic;
    if Edge(x, y) in g.edges {
      if Ancestor(g, y, x) {
        EdgeClosesCycle(g, x, y);
      } else {
        ParentOfAncestor(g, x, y, parent);
        AncestorsChain(g, child, x, parent);
      }
    }
  }

  /** A sound graph stays sound under a new edge exactly if its ends exist, its child lists the parent's hash and does
      not lead to it. */
  lemma EdgeKeepsSound(g: Graph, parent: Id, child: Id)
    requires Sound(g)
    ensures Sound(WithEdge(g, parent, child)) <==>
            && parent in g.nodes && child in g.nodes && Linked(g, Edge(parent, child))
            && !Ancestor(g, child, parent)
  {
    hide Ancestor, Acyclic;
    var larger, e := WithEdge(g, parent, child), Edge(parent, child);
    assert e in larger.edges && forall f | f in larger.edges :: f in g.edges || f == e;
    EdgeKeepsAcyclic(g, parent, child);
    forall d, kind | HasAncestor(g, d, kind) ensures HasAncestor(larger, d, kind) {
      var a :| a in g.nodes && g.nodes[a].kind == kind && Ancestor(g, a, d);
      AncestorInLarger(g, parent, child, a, d);
    }
    assert Sound(larger) ==> EndpointsExist(larger);
    if parent in g.nodes && child in g.nodes {
      forall f | f in larger.edges ensures f == e || (f in g.edges && Linked(larger, f)) {
      }
    }
  }

  lemma SamePaths(g: Graph, id: Id, node: Node, p: seq<Id>)
    ensures Path(WithNode(g, id, node), p) <==> Path(g, p)
  {
  }

  /** Adding or replacing a node makes and breaks no path. */
  lemma NodeKeepsPaths(g: Graph, id: Id, node: Node)
    ensures Acyclic(WithNode(g, id, node)) <==> Acyclic(g)
    ensures forall a, d :: Ancestor(WithNode(g, id, node), a, d) <==> Ancestor(g, a, d)
  {
    var other := WithNode(g, id, node);
    forall p ensures Cycle(other, p) <==> Cycle(g, p) {
      SamePaths(g, id, node, p);
    }
    forall a, d ensures Ancestor(other, a, d) <==> Ancestor(g, a, d) {
      forall p ensures PathFromTo(other, p, a, d) <==> PathFromTo(g, p, a, d) {
        SamePaths(g, id, node, p);
      }
    }
  }

  /** Nothing but the node itself leads to a node without edges. */
  lemma LonelyNode(g: Graph, id: Id, a: Id)
    requires EndpointsExist(g) && id !in g.nodes && Ancestor(g, a, id)
    ensures a == id
  {
    var p :| PathFromTo(g, p, a, id);
    LastEdge(g, p);
  }

  /** A sound graph stays sound under a new node exactly if that is not DONE: a DONE node needs its ancestors first. */
  lemma FreshNodeKeepsSound(g: Graph, id: Id, node: Node)
    requires Sound(g) && id !in g.nodes
    ensures Sound(WithNode(g, id, node)) <==> node.kind != Done
  {
    hide Ancestor, Acyclic;
    var other := WithNode(g, id, node);
    NodeKeepsPaths(g, id, node);
    forall d, kind | HasAncestor(g, d, kind) ensures HasAncestor(other, d, kind) {
      var a :| a in g.nodes && g.nodes[a].kind == kind && Ancestor(g, a, d);
      assert a in other.nodes && other.nodes[a].kind == kind && Ancestor(other, a, d);
    }
    if HasAncestor(other, id, Verification) {
      var a :| a in other.nodes && other.nodes[a].kind == Verification && Ancestor(other, a, id);
      LonelyNode(g, id, a);
    }
    forall e | e in g.edges ensures Linked(other, e) <==> Linked(g, e) {
    }
  }

  /** The links of a replaced node, from its parents and to its children, fit the new one. */
  predicate KeepsLinks(g: Graph, id: Id, node: Node) {
    forall e | e in g.edges ::
      && (e.child == id && e.parent in g.nodes ==> g.nodes[e.parent].hash in node.parentHashes)
      && (e.parent == id && e.child in g.nodes ==> node.hash in g.nodes[e.child].parentHashes)
  }

  ghost predicate OtherAncestor(g: Graph, id: Id, d: Id, kind: NodeType) {
    exists a :: a in g.nodes && a != id && g.nodes[a].kind == kind && Ancestor(g, a, d)
  }

  /** Every DONE node that the replaced node is or leads to finds what it needs in the new node or elsewhere. */
  ghost predicate KeepsAncestors(g: Graph, id: Id, node: Node) {
    forall d, kind | d in g.nodes && (kind == Verification || kind == Dispatch) ::
      Ancestor(g, id, d) && (if d == id then node.kind else g.nodes[d].kind) == Done ==>
        node.kind == kind || OtherAncestor(g, id, d, kind)
  }

  lemma AncestorsAfter(g: Graph, id: Id, node: Node, d: Id, kind: NodeType)
    requires id in g.nodes
    ensures HasAncestor(WithNode(g, id, node), d, kind) <==>
            (node.kind == kind && Ancestor(g, id, d)) || OtherAncestor(g, id, d, kind)
    ensures !Ancestor(g, id, d) ==> (HasAncestor(g, d, kind) <==> OtherAncestor(g, id, d, kind))
  {
    hide Ancestor, Acyclic;
    NodeKeepsPaths(g, id, node);
    var other := WithNode(g, id, node);
    if node.kind == kind && Ancestor(g, id, d) {
      assert id in other.nodes && other.nodes[id].kind == kind && Ancestor(other, id, d);
    }
    if OtherAncestor(g, id, d, kind) {
      var a :| a in g.nodes && a != id && g.nodes[a].kind == kind && Ancestor(g, a, d);
      assert a in other.nodes && other.nodes[a].kind == kind && Ancestor(other, a, d);
      assert HasAncestor(g, d, kind);
    }
  }

  lemma LinksAfter(g: Graph, id: Id, node: Node)
    requires EndpointsExist(g) && Acyclic(g) && id in g.nodes && forall e | e in g.edges :: Linked(g, e)
    ensures (forall e | e in g.edges :: Linked(WithNode(g, id, node), e)) <==> KeepsLinks(g, id, node)
  {
    hide Acyclic, Ancestor;
    var other := WithNode(g, id, node);
    forall e | e in g.edges
      ensures e.parent != e.child
      ensures e.parent != id && e.child != id ==> Linked(other, e)
    {
      if e.parent == e.child {
        SelfAncestor(g, e.parent);
        EdgeClosesCycle(g, e.parent, e.child);
      }
    }
    if forall e | e in g.edges :: Linked(other, e) {
      forall e | e in g.edges
        ensures e.child == id && e.parent in g.nodes ==> g.nodes[e.parent].hash in node.parentHashes
        ensures e.parent == id && e.child in g.nodes ==> node.hash in g.nodes[e.child].parentHashes
      {
        assert Linked(other, e);
      }
    }
  }

  /** A sound graph stays sound under the replacement of a node exactly if the new one fits the links and leaves every
      DONE node its ancestors. */
  lemma ReplacementKeepsSound(g: Graph, id: Id, node: Node)
    requires Sound(g) && id in g.nodes
    ensures Sound(WithNode(g, id, node)) <==> KeepsLinks(g, id, node) && KeepsAncestors(g, id, node)
  {
    hide Ancestor, Acyclic, HasAncestor, OtherAncestor, Linked, KeepsLinks;
    var other := WithNode(g, id, node);
    NodeKeepsPaths(g, id, node);
    LinksAfter(g, id, node);
    forall d, kind | d in g.nodes && (kind == Verification || kind == Dispatch)
      ensures HasAncestor(other, d, kind) <==>
              (node.kind == kind && Ancestor(g, id, d)) || OtherAncestor(g, id, d, kind)
      ensures !Ancestor(g, id, d) ==> (HasAncestor(g, d, kind) <==> OtherAncestor(g, id, d, kind))
    {
      AncestorsAfter(g, id, node, d, kind);
    }
    SelfAncestor(g, id);
    assert EndpointsExist(other) && other.nodes.Keys == g.nodes.Keys;
  }

  /** The graph object: nodes may be replaced, edges only added. */
  class ProvenanceGraph {
    var order: seq<Id>
    var nodes: map<Id, Node>
    var edges: seq<Edge>

    constructor ()
      ensures View() == Graph([], map[], []) && View().Valid()
    {
      order, nodes, edges := [], map[], [];
    }

    function View(): Graph
      reads this
    {
      Graph(order, nodes, edges)
    }

    method AddNode(id: Id, node: Node)
      requires View().Valid()
      modifies this
      ensures View().Valid() && nodes == old(nodes)[id := node] && edges == old(edges)
      ensures order == old(order) + if id in old(nodes) then [] else [id]
      ensures Acyclic(View()) <==> old(Acyclic(View()))
      ensures old(Sound(View())) && id !in old(nodes) ==> (Sound(View()) <==> node.kind != Done)
      ensures old(Sound(View())) && id in old(nodes) ==>
                (Sound(View()) <==> KeepsLinks(old(View()), id, node) && KeepsAncestors(old(View()), id, node))
    {
      hide Sound, Acyclic, KeepsLinks, KeepsAncestors;
      NodeKeepsPaths(View(), id, node);
      if Sound(View()) {
        if id in nodes {
          ReplacementKeepsSound(View(), id, node);
        } else {
          FreshNodeKeepsSound(View(), id, node);
        }
      }
      if id !in nodes {
        order := order + [id];
      }
      nodes := nodes[id := node];
    }

    method AddEdge(parent: Id, child: Id)
      requires View().Valid()
      modifies this
      ensures View() == Graph(old(order), old(nodes), old(edges) + [Edge(parent, child)]) && View().Valid()
      ensures old(Acyclic(View())) ==> (Acyclic(View()) <==> !Ancestor(old(View()), child, parent))
      ensures old(Sound(View())) ==>
                (Sound(View()) <==>
                 && parent in nodes && child in nodes && Linked(old(View()), Edge(parent, child))
                 && !Ancestor(old(View()), child, parent))
    {
      hide Sound, Acyclic, Ancestor;
      if Acyclic(View()) {
        EdgeKeepsAcyclic(View(), parent, child);
      }
      if Sound(View()) {
        EdgeKeepsSound(View(), parent, child);
      }
      edges := edges + [Edge(parent, child)];
    }

    /** True exactly if the graph as it stands is sound. */
    method Verify() returns (valid: bool, faults: seq<Fault>)
      requires View().Valid()
      ensures (valid <==> Sound(View())) && (valid <==> faults == [])
    {
      valid, faults := VerifyIntegrity(View());
    }
  }
}
