/** Directed graphs over string node names: paths, cycles and topological orders. */
module Digraph {

  // Every key is a node; the value is the set of its successors.
  type Graph = map<string, set<string>>

  ghost predicate IsPath(g: Graph, p: seq<string>) {
    && p != []
    && forall i :: 0 <= i < |p| - 1 ==> p[i] in g && p[i + 1] in g[p[i]]
  }

  /** A closed walk with at least one edge. */
  ghost predicate IsCycle(g: Graph, p: seq<string>) {
    |p| >= 2 && IsPath(g, p) && p[0] == p[|p| - 1]
  }

  ghost predicate Acyclic(g: Graph) {
    forall p :: !IsCycle(g, p)
  }

  /** Every successor is itself a node of the graph. */
  predicate Closed(g: Graph) {
    forall n :: n in g ==> g[n] <= g.Keys
  }

  function Elems(s: seq<string>): set<string> {
    set x | x in s
  }

  /** Successors come strictly before the nodes that need them. */
  ghost predicate Topological(g: Graph, order: seq<string>) {
    && (forall i :: 0 <= i < |order| ==> order[i] in g && order[i] !in order[..i])
    && (forall i, d :: 0 <= i < |order| && d in g[order[i]] ==> d in order[..i])
  }

  lemma TopologicalSnoc(g: Graph, order: seq<string>, n: string)
    requires Topological(g, order) && n in g && n !in order
    requires g[n] <= Elems(order)
    ensures Topological(g, order + [n])
    ensures Elems(order + [n]) == Elems(order) + {n}
  {
    var o := order + [n];
    forall i | 0 <= i < |o| ensures o[i] in g && o[i] !in o[..i] {
      assert o[..i] == order[..i];
    }
    forall i, d | 0 <= i < |o| && d in g[o[i]] ensures d in o[..i] {
      assert o[..i] == order[..i];
      if i == |order| { assert d in Elems(order); }
    }
  }

  /** Walking along edges goes strictly back in a topological order. */
  lemma {:induction false} PathGoesBack(g: Graph, order: seq<string>, p: seq<string>, k: nat)
    requires Topological(g, order) && IsPath(g, p) && |p| >= 2
    requires k < |order| && order[k] == p[0]
    ensures p[|p| - 1] in order[..k]
    decreases |p|
  {
    assert p[1] in order[..k];
    if |p| > 2 {
      var j :| 0 <= j < k && order[j] == p[1];
      PathGoesBack(g, order, p[1..], j);
      assert order[..j] <= order[..k];
    }
  }

  lemma TopologicalIsAcyclic(g: Graph, order: seq<string>)
    requires Topological(g, order) && g.Keys <= Elems(order)
    ensures Acyclic(g)
  {
    forall p ensures !IsCycle(g, p) {
      if IsCycle(g, p) {
        assert p[0] in Elems(order);
        var k :| 0 <= k < |order| && order[k] == p[0];
        PathGoesBack(g, order, p, k);
        assert false;
      }
    }
  }

  /** An edge from the end of a path back into it closes a cycle through the node it meets. */
  lemma BackEdgeIsCycle(g: Graph, stack: seq<string>, n: string)
    requires IsPath(g, stack + [n]) && n in stack
    ensures exists p :: IsCycle(g, p) && p[0] == n
  {
    var k :| 0 <= k < |stack| && stack[k] == n;
    var p := (stack + [n])[k..];
    assert IsCycle(g, p) && p[0] == n;
  }

  lemma PathSnoc(g: Graph, p: seq<string>, n: string)
    requires IsPath(g, p) && p[|p| - 1] in g && n in g[p[|p| - 1]]
    ensures IsPath(g, p + [n])
  {}
}
