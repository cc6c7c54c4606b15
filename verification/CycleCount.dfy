/**
 * The cycle count and the findings of the Kubernetes dependency graph
 * (namespace_twin/dependency_graph.py, _cycle_count and _graph_findings). The order in which the
 * successors of a node are visited, which a set leaves open, is an input.
 */
module CycleCount {
  import opened Digraph
  import DepthFirst
  import VisitingOrders
  import Text

  datatype Status = Present | Missing | Uncertain | OtherStatus(text: string)

  datatype Node = Node(identity: string, status: Status)

  datatype Edge = Edge(source: string, target: string)

  datatype Finding =
    | MissingDependency(identity: string)
    | UncertainDependency(identity: string)
    | DependencyCycle

  function Identities(nodes: seq<Node>): set<string> {
    set n | n in nodes :: n.identity
  }

  /** The edges that join two listed nodes, as successor sets. */
  ghost predicate IsAdjacency(g: Graph, nodes: seq<Node>, edges: seq<Edge>) {
    && g.Keys == Identities(nodes)
    && forall s, t :: s in g ==> (t in g[s] <==> t in g && Edge(s, t) in edges)
  }

  method Adjacency(nodes: seq<Node>, edges: seq<Edge>) returns (g: Graph)
    ensures IsAdjacency(g, nodes, edges)
  {
    g := map id | id in Identities(nodes) :: {};
    for i := 0 to |edges|
      invariant IsAdjacency(g, nodes, edges[..i])
    {
      assert edges[..i + 1] == edges[..i] + [edges[i]];
      if edges[i].source in g && edges[i].target in g {
        g := g[edges[i].source := g[edges[i].source] + {edges[i].target}];
      }
    }
    assert edges[..|edges|] == edges;
  }

  lemma AdjacencyIsClosed(g: Graph, nodes: seq<Node>, edges: seq<Edge>)
    requires IsAdjacency(g, nodes, edges)
    ensures Closed(g)
  {}

  function Coloured(state: map<string, int>, colour: int): set<string> {
    set n | n in state && state[n] == colour
  }

  lemma RecolourOne(state: map<string, int>, node: string, colour: int, other: int)
    requires colour != other
    ensures Coloured(state[node := colour], colour) == Coloured(state, colour) + {node}
    ensures Coloured(state[node := colour], other) == Coloured(state, other) - {node}
  {}

  /** The three colours of the search: absent is unvisited, 1 is on the stack, 2 is done. */
  class CycleCounter {
    const graph: Graph
    const ord: DepthFirst.Orders
    var state: map<string, int>
    var cycles: nat
    // the order in which nodes were completed
    ghost var order: seq<string>

    constructor (g: Graph, ord: DepthFirst.Orders)
      requires Closed(g) && DepthFirst.Lists(ord, g)
      ensures graph == g && this.ord == ord && state == map[] && cycles == 0 && order == []
      ensures Consistent([])
    {
      graph, this.ord := g, ord;
      state, cycles, order := map[], 0, [];
    }

    ghost predicate Consistent(stack: seq<string>)
      reads this
    {
      IsConsistent(graph, state, order, cycles, stack)
    }

    /** The counter stands where the search stands. */
    ghost predicate At(s: DepthFirst.Search)
      reads this
    {
      state.Keys == s.paths.Keys && cycles == s.cycles
    }

    method Visit(node: string, ghost stack: seq<string>, ghost s: DepthFirst.Search)
      requires Consistent(stack) && node in graph && node !in state
      requires IsPath(graph, stack + [node])
      requires DepthFirst.Lists(ord, graph) && DepthFirst.IsClosed(ord) && At(s)
      modifies this`state, this`cycles, this`order
      ensures Consistent(stack)
      ensures Coloured(old(state), 2) + {node} <= Coloured(state, 2)
      ensures cycles >= old(cycles)
      ensures At(DepthFirst.Visit(ord, node, stack, s))
      decreases graph.Keys - state.Keys, 1
    {
      hide IsConsistent, IsPath, DepthFirst.Scan, DepthFirst.Visit, DepthFirst.Lists, DepthFirst.IsClosed;
      Colours(graph, state, order, cycles, stack);
      DepthFirst.ListsAre(ord, graph);
      DepthFirst.VisitIsScan(ord, node, stack, s);
      Enter(graph, state, order, cycles, stack, node);
      state := state[node := 1];
      assert node in old(graph.Keys - state.Keys) && node !in graph.Keys - state.Keys;
      ScanSuccessors(node, stack + [node], s.(paths := s.paths[node := stack + [node]]));
      Leave(graph, state, order, cycles, stack, node);
      state := state[node := 2];
      order := order + [node];
    }

    /** The loop over the successors of the node on top of the stack. */
    method ScanSuccessors(node: string, ghost deeper: seq<string>, ghost s: DepthFirst.Search)
      requires node in graph && IsPath(graph, deeper) && deeper[|deeper| - 1] == node && Consistent(deeper)
      requires DepthFirst.Lists(ord, graph) && DepthFirst.IsClosed(ord) && At(s)
      modifies this`state, this`cycles, this`order
      ensures Consistent(deeper)
      ensures Coloured(old(state), 2) <= Coloured(state, 2)
      ensures cycles >= old(cycles)
      ensures cycles == 0 ==> forall t :: t in graph[node] ==> t in Coloured(state, 2)
      ensures (forall t :: t in ord[node] ==> t in ord) && At(DepthFirst.Scan(ord, ord[node], deeper, s))
      decreases graph.Keys - state.Keys, 3
    {
      hide IsConsistent, IsPath, DepthFirst.Scan, DepthFirst.Lists, DepthFirst.IsClosed, DepthFirst.Follow, Coloured;
      Colours(graph, state, order, cycles, deeper);
      DepthFirst.ListsAre(ord, graph);
      var targets := ord[node];
      assert forall t :: t in targets <==> t in Elems(targets);
      ghost var now := s;
      assert targets[0..] == targets;
      for k := 0 to |targets|
        invariant Consistent(deeper)
        invariant cycles >= old(cycles)
        invariant Coloured(old(state), 2) <= Coloured(state, 2) && old(state.Keys) <= state.Keys
        invariant cycles == 0 ==> forall t :: t in targets[..k] ==> t in Coloured(state, 2)
        invariant At(now) && now.paths.Keys <= ord.Keys
        invariant DepthFirst.Scan(ord, targets, deeper, s) == DepthFirst.Scan(ord, targets[k..], deeper, now)
      {
        var target := targets[k];
        SuccessorPath(graph, deeper, node, target);
        DepthFirst.ScanNext(ord, targets, k, deeper, now);
        assert targets[..k + 1] == targets[..k] + [target];
        ghost var before := now;
        now := DepthFirst.Follow(ord, target, deeper, before);
        LookAt(target, deeper, before);
      }
      DepthFirst.ScanDone(ord, targets, deeper, now);
      assert targets[..|targets|] == targets;
    }

    method VisitAll(roots: seq<string>)
      requires Consistent([]) && At(DepthFirst.Start) && forall t :: t in roots ==> t in graph
      requires DepthFirst.Lists(ord, graph) && DepthFirst.IsClosed(ord)
      modifies this`state, this`cycles, this`order
      ensures Consistent([]) && forall t :: t in roots ==> t in state
      ensures At(DepthFirst.Scan(ord, roots, [], DepthFirst.Start))
    {
      hide DepthFirst.Scan, DepthFirst.Visit, DepthFirst.Follow, DepthFirst.Lists, DepthFirst.IsClosed, IsConsistent,
          IsPath;
      DepthFirst.ListsAre(ord, graph);
      ghost var now := DepthFirst.Start;
      assert roots[0..] == roots;
      for k := 0 to |roots|
        invariant Consistent([]) && forall t :: t in roots[..k] ==> t in state
        invariant At(now) && now.paths.Keys <= ord.Keys
        invariant DepthFirst.Scan(ord, roots, [], DepthFirst.Start) == DepthFirst.Scan(ord, roots[k..], [], now)
      {
        var identity := roots[k];
        DepthFirst.ScanNext(ord, roots, k, [], now);
        assert roots[..k + 1] == roots[..k] + [identity];
        DepthFirst.FollowRoot(ord, identity, now);
        if identity !in state {
          SingleIsPath(graph, identity);
          Visit(identity, [], now);
        } else {
          DepthFirst.VisitSeen(ord, identity, [], now);
        }
        now := DepthFirst.Follow(ord, identity, [], now);
      }
      DepthFirst.ScanDone(ord, roots, [], now);
      assert roots[..|roots|] == roots;
    }

    /** A successor on the stack closes a cycle; one not yet seen is visited. */
    method LookAt(target: string, ghost deeper: seq<string>, ghost s: DepthFirst.Search)
      requires Consistent(deeper) && target in graph && IsPath(graph, deeper + [target])
      requires DepthFirst.Lists(ord, graph) && DepthFirst.IsClosed(ord) && At(s)
      modifies this`state, this`cycles, this`order
      ensures Consistent(deeper)
      ensures Coloured(old(state), 2) <= Coloured(state, 2) && old(state.Keys) <= state.Keys
      ensures cycles >= old(cycles)
      ensures cycles == 0 ==> target in Coloured(state, 2)
      ensures At(DepthFirst.Follow(ord, target, deeper, s))
      decreases graph.Keys - state.Keys, 2
    {
      hide IsConsistent, IsPath, DepthFirst.Visit, DepthFirst.Lists, DepthFirst.IsClosed;
      DepthFirst.ListsAre(ord, graph);
      Colours(graph, state, order, cycles, deeper);
      ghost var was := state;
      if target in state && state[target] == 1 {
        CycleFound(graph, state, order, cycles, deeper, target);
        cycles := cycles + 1;
      } else if target !in state {
        Visit(target, deeper, s);
        Colours(graph, state, order, cycles, deeper);
        StackStays(was, state, deeper);
      } else {
        DepthFirst.VisitSeen(ord, target, deeper, s);
      }
    }
  }

  /**
   * The nodes of colour 1 are the ones on the call stack; a positive count has a cycle behind it,
   * and while it is 0 the completed nodes form a topological order.
   */
  ghost predicate IsConsistent(graph: Graph, state: map<string, int>, order: seq<string>, cycles: nat,
                               stack: seq<string>)
  {
    && Closed(graph)
    && state.Keys <= graph.Keys
    && state.Keys == Coloured(state, 1) + Coloured(state, 2)
    && Elems(stack) == Coloured(state, 1)
    && Elems(order) == Coloured(state, 2)
    && (cycles > 0 ==> !Acyclic(graph))
    && (cycles == 0 ==> Topological(graph, order))
  }

  lemma Colours(graph: Graph, state: map<string, int>, order: seq<string>, cycles: nat, stack: seq<string>)
    requires IsConsistent(graph, state, order, cycles, stack)
    ensures Closed(graph)
    ensures state.Keys <= graph.Keys && state.Keys == Coloured(state, 1) + Coloured(state, 2)
    ensures forall n :: n in stack <==> n in state && state[n] == 1
    ensures forall n :: n in state && n !in stack ==> n in Coloured(state, 2)
  {
    assert forall n :: n in stack <==> n in Elems(stack);
  }

  lemma StackStays(before: map<string, int>, after: map<string, int>, stack: seq<string>)
    requires before.Keys == Coloured(before, 1) + Coloured(before, 2)
    requires forall n :: n in stack <==> n in before && before[n] == 1
    requires forall n :: n in stack <==> n in after && after[n] == 1
    requires Coloured(before, 2) <= Coloured(after, 2)
    ensures before.Keys <= after.Keys
  {
    forall n | n in before ensures n in after {
      assert n in Coloured(before, 1) || n in Coloured(before, 2);
    }
  }

  lemma Enter(graph: Graph, state: map<string, int>, order: seq<string>, cycles: nat, stack: seq<string>, node: string)
    requires IsConsistent(graph, state, order, cycles, stack) && node in graph && node !in state
    ensures IsConsistent(graph, state[node := 1], order, cycles, stack + [node])
    ensures Coloured(state, 2) <= Coloured(state[node := 1], 2) && node !in stack
  {
    hide Topological, Acyclic, Closed;
    RecolourOne(state, node, 1, 2);
    assert Elems(stack + [node]) == Elems(stack) + {node};
    assert node in stack ==> node in Elems(stack);
  }

  lemma Leave(graph: Graph, state: map<string, int>, order: seq<string>, cycles: nat, stack: seq<string>, node: string)
    requires IsConsistent(graph, state, order, cycles, stack + [node]) && node in graph && node !in stack
    requires cycles == 0 ==> forall t :: t in graph[node] ==> t in Coloured(state, 2)
    ensures IsConsistent(graph, state[node := 2], order + [node], cycles, stack)
    ensures Coloured(state, 2) + {node} <= Coloured(state[node := 2], 2)
  {
    hide Topological, Acyclic, Closed;
    RecolourOne(state, node, 2, 1);
    assert Elems(stack + [node]) == Elems(stack) + {node};
    assert Elems(order + [node]) == Elems(order) + {node};
    assert node in Coloured(state, 1);
    assert node in order <==> node in Elems(order);
    if cycles == 0 {
      assert graph[node] <= Elems(order);
      TopologicalSnoc(graph, order, node);
    }
  }

  lemma CycleFound(graph: Graph, state: map<string, int>, order: seq<string>, cycles: nat, stack: seq<string>,
      target: string)
    requires IsConsistent(graph, state, order, cycles, stack) && IsPath(graph, stack + [target]) && target in stack
    ensures IsConsistent(graph, state, order, cycles + 1, stack)
  {
    hide Topological;
    BackEdgeIsCycle(graph, stack, target);
  }

  lemma SuccessorPath(graph: Graph, deeper: seq<string>, node: string, target: string)
    requires IsPath(graph, deeper) && deeper[|deeper| - 1] == node && node in graph && target in graph[node]
    requires Closed(graph)
    ensures target in graph && IsPath(graph, deeper + [target])
  {
    PathSnoc(graph, deeper, target);
  }

  /**
   * The nodes are visited in sorted order, their successors in the given order. The count is the
   * number of edges that lead back into the stack of their source, and positive exactly for cyclic
   * graphs.
   */
  method CountCycles(g: Graph, ord: DepthFirst.Orders) returns (cycles: nat)
    requires Closed(g) && DepthFirst.Lists(ord, g)
    ensures cycles == |VisitingOrders.Counted(g, ord)|
    ensures cycles == 0 <==> Acyclic(g)
  {
    hide DepthFirst.Scan, DepthFirst.Lists, VisitingOrders.Counted, IsConsistent, Acyclic;
    VisitingOrders.ForestCounts(g, ord);
    DepthFirst.ListsAre(ord, g);
    var counter := new CycleCounter(g, ord);
    var roots := Text.SortKeys(g.Keys);
    counter.VisitAll(roots);
    AllDone(g, counter.state, counter.order, counter.cycles);
    cycles := counter.cycles;
  }

  lemma AllDone(g: Graph, state: map<string, int>, order: seq<string>, cycles: nat)
    requires IsConsistent(g, state, order, cycles, []) && forall n :: n in g ==> n in state
    ensures cycles == 0 <==> Acyclic(g)
  {
    hide Topological;
    if cycles == 0 {
      assert Elems([]) == {};
      assert g.Keys <= Elems(order);
      TopologicalIsAcyclic(g, order);
    }
  }

  lemma SingleIsPath(g: Graph, n: string)
    ensures IsPath(g, [] + [n])
  {}

  /** The successors of every node in some order. */
  method Listing(g: Graph) returns (ord: DepthFirst.Orders)
    ensures DepthFirst.Lists(ord, g)
  {
    ord := map[];
    var todo := g.Keys;
    while todo != {}
      invariant todo <= g.Keys && ord.Keys == g.Keys - todo
      invariant forall n :: n in ord ==> Elems(ord[n]) == g[n] && DepthFirst.Once(ord[n])
      decreases todo
    {
      var n :| n in todo;
      var targets := Text.SortKeys(g[n]);
      ord, todo := ord[n := targets], todo - {n};
    }
  }

  function IsUnresolved(n: Node): bool {
    n.status.Missing? || n.status.Uncertain?
  }

  function Unresolved(nodes: seq<Node>): (r: seq<Node>)
  {
    if nodes == [] then []
    else Unresolved(nodes[..|nodes| - 1])
         + if IsUnresolved(nodes[|nodes| - 1]) then [nodes[|nodes| - 1]] else []
  }

  function FindingFor(n: Node): Finding {
    if n.status.Missing? then MissingDependency(n.identity) else UncertainDependency(n.identity)
  }

  /** One finding per unresolved node, in node order, then at most one for cycles. */
  method GraphFindings(nodes: seq<Node>, edges: seq<Edge>) returns (findings: seq<Finding>, ghost g: Graph)
    ensures IsAdjacency(g, nodes, edges)
    ensures |findings| == |Unresolved(nodes)| + if Acyclic(g) then 0 else 1
    ensures forall i :: 0 <= i < |Unresolved(nodes)| ==>
              var n := Unresolved(nodes)[i];
              findings[i]
              == if n.status.Missing? then MissingDependency(n.identity) else UncertainDependency(n.identity)
    ensures DependencyCycle in findings <==> !Acyclic(g)
  {
    hide Acyclic, Closed, DepthFirst.Lists, VisitingOrders.Counted;
    findings := [];
    for i := 0 to |nodes|
      invariant |findings| == |Unresolved(nodes[..i])|
      invariant forall k :: 0 <= k < |findings| ==> findings[k] == FindingFor(Unresolved(nodes[..i])[k])
    {
      assert nodes[..i + 1][..i] == nodes[..i];
      if IsUnresolved(nodes[i]) {
        findings := findings + [FindingFor(nodes[i])];
      }
    }
    assert nodes[..|nodes|] == nodes;
    assert forall f :: f in findings ==> !f.DependencyCycle?;
    var adjacency := Adjacency(nodes, edges);
    g := adjacency;
    AdjacencyIsClosed(g, nodes, edges);
    var ord := Listing(adjacency);
    var cycles := CountCycles(adjacency, ord);
    if cycles > 0 {
      findings := findings + [DependencyCycle];
    }
  }

  /** What Unresolved keeps: exactly the missing and the uncertain nodes, with their multiplicity. */
  lemma {:induction false} UnresolvedCounts(nodes: seq<Node>, n: Node)
    ensures multiset(Unresolved(nodes))[n] == if n.status in {Missing, Uncertain} then multiset(nodes)[n] else 0
  {
    if nodes != [] {
      UnresolvedCounts(nodes[..|nodes| - 1], n);
      assert nodes == nodes[..|nodes| - 1] + [nodes[|nodes| - 1]];
    }
  }

  /** They are kept in the order of the nodes. */
  lemma {:induction false} UnresolvedKeepsOrder(a: seq<Node>, b: seq<Node>)
    ensures Unresolved(a + b) == Unresolved(a) + Unresolved(b)
  {
    if b == [] {
      assert a + b == a;
    } else {
      UnresolvedKeepsOrder(a, b[..|b| - 1]);
      assert (a + b)[..|a + b| - 1] == a + b[..|b| - 1] && (a + b)[|a + b| - 1] == b[|b| - 1];
    }
  }
}
