/**
 * Depth-first search with the visiting order made explicit: every node has its successors in a
 * list, as the iteration over a set gives them. What is remembered of a node is the call stack at
 * its visit, up to and including the node.
 */
module DepthFirst {
  import opened Digraph
  import Text

  type Orders = map<string, seq<string>>

  type Paths = map<string, seq<string>>

  datatype Search = Search(paths: Paths, cycles: nat)

  const Start := Search(map[], 0)

  predicate Once(s: seq<string>) {
    forall i, j :: 0 <= i < j < |s| ==> s[i] != s[j]
  }

  /** The lists hold the successors of the graph, each once. */
  predicate Lists(ord: Orders, g: Graph) {
    ord.Keys == g.Keys && forall n :: n in g ==> Elems(ord[n]) == g[n] && Once(ord[n])
  }

  lemma ListsAre(ord: Orders, g: Graph)
    requires Lists(ord, g)
    ensures ord.Keys == g.Keys && forall n :: n in g ==> Elems(ord[n]) == g[n] && Once(ord[n])
  {}

  predicate IsClosed(ord: Orders) {
    forall n, t :: n in ord && t in ord[n] ==> t in ord
  }

  lemma ListsAreClosed(ord: Orders, g: Graph)
    requires Lists(ord, g) && Closed(g)
    ensures IsClosed(ord)
  {
    forall n, t | n in ord && t in ord[n] ensures t in ord {
      assert t in Elems(ord[n]) && g[n] <= g.Keys;
    }
  }

  // ----- The search -----

  ghost function Visit(ord: Orders, node: string, stack: seq<string>, s: Search): (r: Search)
    requires IsClosed(ord) && node in ord && s.paths.Keys <= ord.Keys
    ensures s.paths.Keys <= r.paths.Keys <= ord.Keys
    decreases ord.Keys - s.paths.Keys, 0, 0
  {
    if node in s.paths then s
    else
      assert ord.Keys - (s.paths.Keys + {node}) < ord.Keys - s.paths.Keys;
      Scan(ord, ord[node], stack + [node], s.(paths := s.paths[node := stack + [node]]))
  }

  /** The successors in turn: one on the stack closes a cycle, one not yet seen is visited. */
  ghost function Scan(ord: Orders, targets: seq<string>, stack: seq<string>, s: Search): (r: Search)
    requires IsClosed(ord) && (forall t :: t in targets ==> t in ord) && s.paths.Keys <= ord.Keys
    ensures s.paths.Keys <= r.paths.Keys <= ord.Keys
    decreases ord.Keys - s.paths.Keys, |targets|, 0
  {
    if targets == [] then s
    else
      var next := Follow(ord, targets[0], stack, s);
      assert next.paths.Keys == s.paths.Keys || ord.Keys - next.paths.Keys < ord.Keys - s.paths.Keys;
      Scan(ord, targets[1..], stack, next)
  }

  ghost function Follow(ord: Orders, target: string, stack: seq<string>, s: Search): (r: Search)
    requires IsClosed(ord) && target in ord && s.paths.Keys <= ord.Keys
    ensures s.paths.Keys <= r.paths.Keys <= ord.Keys
    decreases ord.Keys - s.paths.Keys, 0, 1
  {
    if target in stack then s.(cycles := s.cycles + 1) else Visit(ord, target, stack, s)
  }

  /** The whole search: the nodes of the graph in the given order, as far as they are not seen yet. */
  ghost function Forest(ord: Orders, roots: seq<string>): Search
    requires IsClosed(ord) && forall t :: t in roots ==> t in ord
  {
    Scan(ord, roots, [], Start)
  }

  lemma VisitIsScan(ord: Orders, node: string, stack: seq<string>, s: Search)
    requires IsClosed(ord) && node in ord && s.paths.Keys <= ord.Keys && node !in s.paths
    ensures Visit(ord, node, stack, s) == Scan(ord, ord[node], stack + [node],
        s.(paths := s.paths[node := stack + [node]]))
  {}

  lemma VisitSeen(ord: Orders, node: string, stack: seq<string>, s: Search)
    requires IsClosed(ord) && node in ord && s.paths.Keys <= ord.Keys && node in s.paths
    ensures Visit(ord, node, stack, s) == s
  {}

  lemma FollowRoot(ord: Orders, node: string, s: Search)
    requires IsClosed(ord) && node in ord && s.paths.Keys <= ord.Keys
    ensures Follow(ord, node, [], s) == Visit(ord, node, [], s) && node in Visit(ord, node, [], s).paths
    ensures s.paths.Keys <= Visit(ord, node, [], s).paths.Keys
  {
    VisitExtends(ord, node, [], s);
  }

  lemma ScanNext(ord: Orders, targets: seq<string>, k: nat, stack: seq<string>, s: Search)
    requires IsClosed(ord) && (forall t :: t in targets ==> t in ord) && s.paths.Keys <= ord.Keys && k < |targets|
    ensures (forall t :: t in targets[k..] ==> t in ord) && (forall t :: t in targets[k + 1..] ==> t in ord)
    ensures Scan(ord, targets[k..], stack, s) == Scan(ord, targets[k + 1..], stack, Follow(ord, targets[k], stack, s))
  {
    assert targets[k..][1..] == targets[k + 1..] && targets[k..][0] == targets[k];
  }

  lemma ScanDone(ord: Orders, targets: seq<string>, stack: seq<string>, s: Search)
    requires IsClosed(ord) && s.paths.Keys <= ord.Keys
    ensures Scan(ord, targets[|targets|..], stack, s) == s
  {}

  // ----- What was seen stays -----

  ghost predicate Extends(before: Paths, after: Paths) {
    before.Keys <= after.Keys && forall n :: n in before ==> after[n] == before[n]
  }

  lemma {:induction false} VisitExtends(ord: Orders, node: string, stack: seq<string>, s: Search)
    requires IsClosed(ord) && node in ord && s.paths.Keys <= ord.Keys
    ensures Extends(s.paths, Visit(ord, node, stack, s).paths)
    ensures node in Visit(ord, node, stack, s).paths
    ensures node !in s.paths ==> Visit(ord, node, stack, s).paths[node] == stack + [node]
    decreases ord.Keys - s.paths.Keys, 0, 0
  {
    if node !in s.paths {
      assert ord.Keys - (s.paths.Keys + {node}) < ord.Keys - s.paths.Keys;
      ScanExtends(ord, ord[node], stack + [node], s.(paths := s.paths[node := stack + [node]]));
    }
  }

  lemma {:induction false} ScanExtends(ord: Orders, targets: seq<string>, stack: seq<string>, s: Search)
    requires IsClosed(ord) && (forall t :: t in targets ==> t in ord) && s.paths.Keys <= ord.Keys
    ensures Extends(s.paths, Scan(ord, targets, stack, s).paths)
    decreases ord.Keys - s.paths.Keys, |targets|, 0
  {
    if targets != [] {
      var next := Follow(ord, targets[0], stack, s);
      VisitExtends(ord, targets[0], stack, s);
      assert next.paths.Keys == s.paths.Keys || ord.Keys - next.paths.Keys < ord.Keys - s.paths.Keys;
      ScanExtends(ord, targets[1..], stack, next);
    }
  }

  lemma FollowExtends(ord: Orders, target: string, stack: seq<string>, s: Search)
    requires IsClosed(ord) && target in ord && s.paths.Keys <= ord.Keys && Elems(stack) <= s.paths.Keys
    ensures Extends(s.paths, Follow(ord, target, stack, s).paths)
    ensures target in Follow(ord, target, stack, s).paths
  {
    VisitExtends(ord, target, stack, s);
    assert target in stack ==> target in Elems(stack);
  }

  // ----- What is closed -----

  /** After a visit, the successors of every newly seen node are seen as well. */
  ghost predicate Finished(ord: Orders, before: Paths, after: Paths) {
    forall n, t :: n in after && n !in before && n in ord && t in ord[n] ==> t in after
  }

  lemma {:induction false} VisitFinishes(ord: Orders, node: string, stack: seq<string>, s: Search)
    requires IsClosed(ord) && node in ord && s.paths.Keys <= ord.Keys && Elems(stack) <= s.paths.Keys
    ensures Finished(ord, s.paths, Visit(ord, node, stack, s).paths)
    decreases ord.Keys - s.paths.Keys, 0, 0
  {
    if node !in s.paths {
      assert ord.Keys - (s.paths.Keys + {node}) < ord.Keys - s.paths.Keys;
      assert Elems(stack + [node]) == Elems(stack) + {node};
      ScanFinishes(ord, ord[node], stack + [node], s.(paths := s.paths[node := stack + [node]]));
    }
  }

  lemma {:induction false} ScanFinishes(ord: Orders, targets: seq<string>, stack: seq<string>, s: Search)
    requires IsClosed(ord) && (forall t :: t in targets ==> t in ord) && s.paths.Keys <= ord.Keys
    requires Elems(stack) <= s.paths.Keys
    ensures Finished(ord, s.paths, Scan(ord, targets, stack, s).paths)
    ensures forall t :: t in targets ==> t in Scan(ord, targets, stack, s).paths
    decreases ord.Keys - s.paths.Keys, |targets|, 0
  {
    if targets != [] {
      var next := Follow(ord, targets[0], stack, s);
      VisitFinishes(ord, targets[0], stack, s);
      FollowExtends(ord, targets[0], stack, s);
      assert next.paths.Keys == s.paths.Keys || ord.Keys - next.paths.Keys < ord.Keys - s.paths.Keys;
      ScanFinishes(ord, targets[1..], stack, next);
      ScanExtends(ord, targets[1..], stack, next);
      assert targets == [targets[0]] + targets[1..];
    }
  }

  // ----- The stack is a simple path -----

  predicate Follows(ord: Orders, p: seq<string>) {
    p != [] && Once(p) && forall i :: 0 <= i < |p| - 1 ==> p[i] in ord && p[i + 1] in ord[p[i]]
  }

  /** A newly seen node has a simple path that goes on from the given stack. */
  ghost predicate NewPaths(ord: Orders, stack: seq<string>, before: Paths, after: Paths) {
    forall n :: n in after && n !in before ==>
      stack < after[n] && Follows(ord, after[n]) && after[n][|after[n]| - 1] == n && Elems(after[n]) <= after.Keys
  }

  lemma PathGoesOn(ord: Orders, stack: seq<string>, t: string)
    requires (stack == [] || Follows(ord, stack)) && t !in stack
    requires stack != [] ==> stack[|stack| - 1] in ord && t in ord[stack[|stack| - 1]]
    ensures Follows(ord, stack + [t])
  {}

  lemma {:induction false} VisitPaths(ord: Orders, node: string, stack: seq<string>, s: Search)
    requires IsClosed(ord) && node in ord && s.paths.Keys <= ord.Keys && Elems(stack) <= s.paths.Keys
    requires node !in s.paths && Follows(ord, stack + [node])
    ensures NewPaths(ord, stack, s.paths, Visit(ord, node, stack, s).paths)
    ensures forall n :: n in Visit(ord, node, stack, s).paths && n !in s.paths ==>
              stack + [node] <= Visit(ord, node, stack, s).paths[n]
    decreases ord.Keys - s.paths.Keys, 0, 0
  {
    assert ord.Keys - (s.paths.Keys + {node}) < ord.Keys - s.paths.Keys;
    assert Elems(stack + [node]) == Elems(stack) + {node};
    var entered := s.(paths := s.paths[node := stack + [node]]);
    ScanPaths(ord, ord[node], stack + [node], entered);
    ScanExtends(ord, ord[node], stack + [node], entered);
  }

  lemma {:induction false} ScanPaths(ord: Orders, targets: seq<string>, stack: seq<string>, s: Search)
    requires IsClosed(ord) && (forall t :: t in targets ==> t in ord) && s.paths.Keys <= ord.Keys
    requires Elems(stack) <= s.paths.Keys
    requires stack == [] || (Follows(ord, stack) && stack[|stack| - 1] in ord
                             && forall t :: t in targets ==> t in ord[stack[|stack| - 1]])
    ensures NewPaths(ord, stack, s.paths, Scan(ord, targets, stack, s).paths)
    decreases ord.Keys - s.paths.Keys, |targets|, 0
  {
    hide Follows, NewPaths, Extends;
    if targets != [] {
      var t, next := targets[0], Follow(ord, targets[0], stack, s);
      assert t in targets && forall x :: x in targets[1..] ==> x in targets;
      FollowExtends(ord, t, stack, s);
      NothingNew(ord, stack, s.paths);
      if t !in stack && t !in s.paths {
        PathGoesOn(ord, stack, t);
        VisitPaths(ord, t, stack, s);
      }
      assert next.paths.Keys == s.paths.Keys || ord.Keys - next.paths.Keys < ord.Keys - s.paths.Keys;
      ScanPaths(ord, targets[1..], stack, next);
      ScanExtends(ord, targets[1..], stack, next);
      NewPathsChain(ord, stack, s.paths, next.paths, Scan(ord, targets[1..], stack, next).paths);
    } else {
      NothingNew(ord, stack, s.paths);
    }
  }

  lemma NothingNew(ord: Orders, stack: seq<string>, paths: Paths)
    ensures NewPaths(ord, stack, paths, paths)
  {}

  lemma NewPathsChain(ord: Orders, stack: seq<string>, a: Paths, b: Paths, c: Paths)
    requires NewPaths(ord, stack, a, b) && NewPaths(ord, stack, b, c) && Extends(b, c)
    ensures NewPaths(ord, stack, a, c)
  {
    hide Follows;
  }

  // ----- The count -----

  /** The edges that lead back into the stack of their source. */
  ghost function Back(ord: Orders, paths: Paths, among: set<string>): set<(string, string)> {
    set u, v | u in among && u in paths && u in ord && v in ord[u] && v in paths[u] :: (u, v)
  }

  ghost function Inside(targets: seq<string>, stack: seq<string>): set<string> {
    set t | t in targets && t in stack
  }

  lemma {:induction false} VisitCounts(ord: Orders, node: string, stack: seq<string>, s: Search)
    requires IsClosed(ord) && node in ord && s.paths.Keys <= ord.Keys && Elems(stack) <= s.paths.Keys
    requires forall n :: n in ord ==> Once(ord[n])
    ensures var r := Visit(ord, node, stack, s);
            r.cycles == s.cycles + |Back(ord, r.paths, r.paths.Keys - s.paths.Keys)|
    decreases ord.Keys - s.paths.Keys, 0, 0
  {
    var r := Visit(ord, node, stack, s);
    if node in s.paths {
      assert Back(ord, r.paths, r.paths.Keys - s.paths.Keys) == {};
    } else {
      assert ord.Keys - (s.paths.Keys + {node}) < ord.Keys - s.paths.Keys;
      assert Elems(stack + [node]) == Elems(stack) + {node};
      var entered := s.(paths := s.paths[node := stack + [node]]);
      ScanCounts(ord, ord[node], stack + [node], entered);
      VisitExtends(ord, node, stack, s);
      BackOfNode(ord, r.paths, node, stack + [node], r.paths.Keys - entered.paths.Keys);
      assert r.paths.Keys - s.paths.Keys == (r.paths.Keys - entered.paths.Keys) + {node};
    }
  }

  lemma BackOfNode(ord: Orders, paths: Paths, node: string, stack: seq<string>, others: set<string>)
    requires node in paths && node in ord && paths[node] == stack && node !in others
    ensures |Back(ord, paths, others + {node})| == |Back(ord, paths, others)| + |Inside(ord[node], stack)|
  {
    var own := set v | v in Inside(ord[node], stack) :: (node, v);
    PairsOf(node, Inside(ord[node], stack));
    assert Back(ord, paths, others + {node}) == Back(ord, paths, others) + own;
    assert Back(ord, paths, others) !! own;
  }

  lemma {:induction false} PairsOf(u: string, vs: set<string>)
    ensures |set v | v in vs :: (u, v)| == |vs|
    decreases |vs|
  {
    var pairs := set v | v in vs :: (u, v);
    if vs == {} {
      assert pairs == {};
    } else {
      var v :| v in vs;
      PairsOf(u, vs - {v});
      assert pairs == (set x | x in vs - {v} :: (u, x)) + {(u, v)};
    }
  }

  lemma {:induction false} ScanCounts(ord: Orders, targets: seq<string>, stack: seq<string>, s: Search)
    requires IsClosed(ord) && (forall t :: t in targets ==> t in ord) && s.paths.Keys <= ord.Keys
    requires Elems(stack) <= s.paths.Keys && Once(targets) && forall n :: n in ord ==> Once(ord[n])
    ensures var r := Scan(ord, targets, stack, s);
            r.cycles == s.cycles + |Back(ord, r.paths, r.paths.Keys - s.paths.Keys)| + |Inside(targets, stack)|
    decreases ord.Keys - s.paths.Keys, |targets|, 0
  {
    var r := Scan(ord, targets, stack, s);
    if targets == [] {
      assert Back(ord, r.paths, r.paths.Keys - s.paths.Keys) == {} && Inside(targets, stack) == {};
    } else {
      var t, next := targets[0], Follow(ord, targets[0], stack, s);
      VisitCounts(ord, t, stack, s);
      FollowExtends(ord, t, stack, s);
      assert next.paths.Keys == s.paths.Keys || ord.Keys - next.paths.Keys < ord.Keys - s.paths.Keys;
      ScanCounts(ord, targets[1..], stack, next);
      ScanExtends(ord, targets[1..], stack, next);
      BackSplits(ord, s.paths, next.paths, r.paths);
      InsideSplits(targets, stack);
      if t in stack {
        assert Back(ord, next.paths, next.paths.Keys - s.paths.Keys) == {};
      }
    }
  }

  lemma BackSplits(ord: Orders, a: Paths, b: Paths, c: Paths)
    requires Extends(a, b) && Extends(b, c)
    ensures |Back(ord, c, c.Keys - a.Keys)| == |Back(ord, b, b.Keys - a.Keys)| + |Back(ord, c, c.Keys - b.Keys)|
  {
    assert Back(ord, c, c.Keys - a.Keys) == Back(ord, b, b.Keys - a.Keys) + Back(ord, c, c.Keys - b.Keys);
    assert Back(ord, b, b.Keys - a.Keys) !! Back(ord, c, c.Keys - b.Keys);
  }

  lemma InsideSplits(targets: seq<string>, stack: seq<string>)
    requires targets != [] && Once(targets)
    ensures |Inside(targets, stack)| == |Inside(targets[1..], stack)| + if targets[0] in stack then 1 else 0
  {
    var t := targets[0];
    assert targets == [t] + targets[1..];
    assert t !in targets[1..];
    assert Inside(targets, stack) == Inside(targets[1..], stack) + if t in stack then {t} else {};
  }

  // ----- Scanning lists in parts -----

  lemma {:induction false} ScanConcat(ord: Orders, a: seq<string>, b: seq<string>, stack: seq<string>, s: Search)
    requires IsClosed(ord) && (forall t :: t in a + b ==> t in ord) && s.paths.Keys <= ord.Keys
    ensures (forall t :: t in a ==> t in ord) && (forall t :: t in b ==> t in ord)
    ensures Scan(ord, a + b, stack, s) == Scan(ord, b, stack, Scan(ord, a, stack, s))
    decreases |a|
  {
    assert forall t :: t in a ==> t in a + b;
    assert forall t :: t in b ==> t in a + b;
    if a == [] {
      assert a + b == b;
    } else {
      assert (a + b)[0] == a[0] && (a + b)[1..] == a[1..] + b;
      assert forall t :: t in a[1..] + b ==> t in a + b;
      ScanConcat(ord, a[1..], b, stack, Follow(ord, a[0], stack, s));
    }
  }

  // ----- Which root sees which node -----

  ghost predicate Reaches(g: Graph, u: string, v: string) {
    exists p :: IsPath(g, p) && p[0] == u && p[|p| - 1] == v
  }

  lemma ReachesOn(g: Graph, u: string, p: seq<string>)
    requires IsPath(g, p) && Reaches(g, u, p[0])
    ensures Reaches(g, u, p[|p| - 1])
  {
    var q :| IsPath(g, q) && q[0] == u && q[|q| - 1] == p[0];
    var r := q + p[1..];
    assert forall i :: |q| <= i < |r| ==> r[i] == p[i - |q| + 1];
    assert IsPath(g, r);
  }

  /** The first of the roots that reaches a node. */
  ghost predicate IsFirst(g: Graph, roots: seq<string>, k: nat, v: string) {
    k < |roots| && Reaches(g, roots[k], v) && forall i :: 0 <= i < k ==> !Reaches(g, roots[i], v)
  }

  lemma FollowsIsPath(ord: Orders, g: Graph, p: seq<string>)
    requires Lists(ord, g)
    ensures Follows(ord, p) <==> IsPath(g, p) && Once(p)
  {
    forall i | 0 <= i < |p| - 1
      ensures p[i] in ord && p[i + 1] in ord[p[i]] <==> p[i] in g && p[i + 1] in g[p[i]]
    {
      if p[i] in g { assert p[i + 1] in Elems(ord[p[i]]) <==> p[i + 1] in g[p[i]]; }
    }
  }

  lemma {:induction false} AllReached(ord: Orders, g: Graph, paths: Paths, p: seq<string>, j: nat)
    requires Lists(ord, g) && Finished(ord, map[], paths) && IsPath(g, p) && p[0] in paths && j < |p|
    ensures p[j] in paths
  {
    if j > 0 {
      AllReached(ord, g, paths, p, j - 1);
      assert p[j] in Elems(ord[p[j - 1]]);
    }
  }

  /** After the first k roots: what they reach is seen, by the first that reaches it. */
  ghost predicate SeenByFirst(g: Graph, ord: Orders, roots: seq<string>, k: nat, paths: Paths) {
    && (forall n :: n in paths ==>
          paths[n] != [] && Follows(ord, paths[n]) && paths[n][|paths[n]| - 1] == n
          && exists i :: 0 <= i < k && IsFirst(g, roots, i, n) && paths[n][0] == roots[i])
    && (forall i, v :: 0 <= i < k <= |roots| && Reaches(g, roots[i], v) ==> v in paths)
  }

  lemma {:induction false} ForestIsSeenByFirst(g: Graph, ord: Orders, roots: seq<string>, k: nat)
    requires Lists(ord, g) && IsClosed(ord) && (forall t :: t in roots ==> t in ord) && k <= |roots|
    ensures SeenByFirst(g, ord, roots, k, Forest(ord, roots[..k]).paths)
  {
    if k > 0 {
      var t, before := roots[k - 1], Forest(ord, roots[..k - 1]);
      assert t in roots && forall x :: x in roots[..k] ==> x in roots;
      ForestIsSeenByFirst(g, ord, roots, k - 1);
      assert roots[..k] == roots[..k - 1] + [t];
      ScanConcat(ord, roots[..k - 1], [t], [], Start);
      var after := Visit(ord, t, [], before);
      assert Forest(ord, roots[..k]) == after by { ScanOne(ord, t, before); }
      ScanFinishes(ord, roots[..k], [], Start);
      VisitExtends(ord, t, [], before);
      if t !in before.paths {
        VisitPaths(ord, t, [], before);
      }
      OneMoreRoot(g, ord, roots, k, before.paths, after.paths);
    }
  }

  lemma ScanOne(ord: Orders, t: string, s: Search)
    requires IsClosed(ord) && t in ord && s.paths.Keys <= ord.Keys
    ensures Scan(ord, [t], [], s) == Visit(ord, t, [], s)
  {}

  lemma OneMoreRoot(g: Graph, ord: Orders, roots: seq<string>, k: nat, before: Paths, after: Paths)
    requires Lists(ord, g) && 0 < k <= |roots| && SeenByFirst(g, ord, roots, k - 1, before)
    requires Extends(before, after) && roots[k - 1] in after && Finished(ord, map[], after)
    requires forall n :: n in after && n !in before ==>
               [roots[k - 1]] <= after[n] && Follows(ord, after[n]) && after[n][|after[n]| - 1] == n
    ensures SeenByFirst(g, ord, roots, k, after)
  {
    hide Follows, Finished;
    forall n | n in after
      ensures after[n] != [] && Follows(ord, after[n]) && after[n][|after[n]| - 1] == n
      ensures exists i :: 0 <= i < k && IsFirst(g, roots, i, n) && after[n][0] == roots[i]
    {
      if n in before {
        var i :| 0 <= i < k - 1 && IsFirst(g, roots, i, n) && before[n][0] == roots[i];
        assert IsFirst(g, roots, i, n);
      } else {
        FollowsIsPath(ord, g, after[n]);
        assert Reaches(g, roots[k - 1], n);
        assert IsFirst(g, roots, k - 1, n);
      }
    }
    forall i, v | 0 <= i < k && Reaches(g, roots[i], v) ensures v in after {
      if i < k - 1 {
        assert v in before;
      } else {
        var p :| IsPath(g, p) && p[0] == roots[i] && p[|p| - 1] == v;
        AllReached(ord, g, after, p, |p| - 1);
      }
    }
  }

  // ----- Every entry is taken in some order -----

  predicate Prefers(ord: Orders, p: seq<string>) {
    forall i :: 0 <= i < |p| - 1 ==> p[i] in ord && ord[p[i]] != [] && ord[p[i]][0] == p[i + 1]
  }

  /** A search that prefers a path and has seen none of it goes down along it. */
  lemma {:induction false} DescendsAlong(ord: Orders, p: seq<string>, i: nat, s: Search)
    requires IsClosed(ord) && s.paths.Keys <= ord.Keys && i < |p| && Follows(ord, p) && Prefers(ord, p) && p[i] in ord
    requires forall j :: i <= j < |p| ==> p[j] !in s.paths
    ensures var r := Visit(ord, p[i], p[..i], s).paths; p[|p| - 1] in r && r[p[|p| - 1]] == p
    decreases |p| - i
  {
    assert p[..i] + [p[i]] == p[..i + 1];
    var entered := s.(paths := s.paths[p[i] := p[..i + 1]]);
    if i == |p| - 1 {
      assert p[..i + 1] == p;
      ScanExtends(ord, ord[p[i]], p[..i + 1], entered);
    } else {
      assert p[i + 1] in ord[p[i]];
      DescendsAlong(ord, p, i + 1, entered);
      var next := Follow(ord, p[i + 1], p[..i + 1], entered);
      assert p[i + 1] !in p[..i + 1];
      ScanExtends(ord, ord[p[i]][1..], p[..i + 1], next);
    }
  }

  ghost function NextOn(p: seq<string>, n: string, otherwise: string): string {
    if exists i :: 0 <= i < |p| - 1 && p[i] == n then
      var i :| 0 <= i < |p| - 1 && p[i] == n;
      p[i + 1]
    else otherwise
  }

  /** The elements of a set in a list that begins with a given one, if it is an element. */
  ghost function ListFrom(first: string, all: set<string>): (r: seq<string>)
    ensures Elems(r) == all && Once(r)
    ensures first in all ==> r != [] && r[0] == first
  {
    if first in all then [first] + Text.SortedKeys(all - {first}) else Text.SortedKeys(all)
  }

  lemma ListingAlong(g: Graph, p: seq<string>) returns (ord: Orders)
    requires IsPath(g, p) && Once(p)
    ensures Lists(ord, g) && Prefers(ord, p)
  {
    hide ListFrom, NextOn, Elems, Once;
    ord := map n | n in g :: ListFrom(NextOn(p, n, ""), g[n]);
    forall n | n in g ensures Elems(ord[n]) == g[n] && Once(ord[n]) {
      ListFromHolds(NextOn(p, n, ""), g[n]);
    }
    forall i | 0 <= i < |p| - 1
      ensures p[i] in ord && ord[p[i]] != [] && ord[p[i]][0] == p[i + 1]
    {
      NextOnAt(p, i);
      ListFromHolds(p[i + 1], g[p[i]]);
    }
  }

  lemma ListFromHolds(first: string, all: set<string>)
    ensures Elems(ListFrom(first, all)) == all && Once(ListFrom(first, all))
    ensures first in all ==> ListFrom(first, all) != [] && ListFrom(first, all)[0] == first
  {}

  lemma NextOnAt(p: seq<string>, i: nat)
    requires Once(p) && i < |p| - 1
    ensures NextOn(p, p[i], "") == p[i + 1]
  {
    var j :| 0 <= j < |p| - 1 && p[j] == p[i] && NextOn(p, p[i], "") == p[j + 1];
    assert i == j;
  }

  lemma EntryIsTaken(g: Graph, ord: Orders, roots: seq<string>, k: nat, p: seq<string>)
    requires Lists(ord, g) && IsClosed(ord) && (forall t :: t in roots ==> t in ord)
    requires IsPath(g, p) && Once(p) && Prefers(ord, p) && IsFirst(g, roots, k, p[|p| - 1]) && p[0] == roots[k]
    ensures var r := Forest(ord, roots).paths; p[|p| - 1] in r && r[p[|p| - 1]] == p
  {
    hide Scan, Visit, Reaches, SeenByFirst, Follows, Lists;
    var before := Forest(ord, roots[..k]);
    ForestIsSeenByFirst(g, ord, roots, k);
    FollowsIsPath(ord, g, p);
    assert forall x :: x in roots[..k] ==> x in roots;
    forall j | 0 <= j < |p| ensures p[j] !in before.paths {
      NotYetReached(g, ord, roots, k, before.paths, p, j);
    }
    assert p[..0] == [];
    DescendsAlong(ord, p, 0, before);
    assert forall x :: x in roots[k + 1..] ==> x in roots;
    ScanConcat(ord, roots[..k], [roots[k]], [], Start);
    ScanOne(ord, roots[k], before);
    assert roots[..k + 1] == roots[..k] + [roots[k]];
    assert roots == roots[..k + 1] + roots[k + 1..];
    ScanConcat(ord, roots[..k + 1], roots[k + 1..], [], Start);
    ScanExtends(ord, roots[k + 1..], [], Visit(ord, roots[k], [], before));
  }

  lemma NotYetReached(g: Graph, ord: Orders, roots: seq<string>, k: nat, paths: Paths, p: seq<string>, j: nat)
    requires SeenByFirst(g, ord, roots, k, paths) && IsPath(g, p) && j < |p| && IsFirst(g, roots, k, p[|p| - 1])
    ensures p[j] !in paths
  {
    hide Follows;
    if p[j] in paths {
      var i :| 0 <= i < k && IsFirst(g, roots, i, p[j]) && paths[p[j]][0] == roots[i];
      assert IsPath(g, p[j..]);
      ReachesOn(g, roots[i], p[j..]);
    }
  }
}
