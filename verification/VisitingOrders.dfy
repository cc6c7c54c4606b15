/**
 * How the cycle count depends on the order in which the successors of nodes are visited
 * (namespace_twin/dependency_graph.py, _cycle_count).
 */
module VisitingOrders {
  import opened Digraph
  import opened DepthFirst
  import Text

  // ----- Which edges are counted, in which orders -----

  /** The search starts from the nodes in sorted order. */
  ghost function Roots(g: Graph): seq<string> {
    Text.SortedKeys(g.Keys)
  }

  ghost function Seen(g: Graph, ord: Orders): Paths
    requires Closed(g) && Lists(ord, g)
  {
    ListsAreClosed(ord, g);
    Forest(ord, Roots(g)).paths
  }

  /** The edges that lead back into the stack of their source, in a search in the given order. */
  ghost function Counted(g: Graph, ord: Orders): set<(string, string)>
    requires Closed(g) && Lists(ord, g)
  {
    Back(ord, Seen(g, ord), Seen(g, ord).Keys)
  }

  /** A simple path to u from the first node, in sorted order, that reaches u. */
  ghost predicate IsEntry(g: Graph, p: seq<string>, u: string) {
    && IsPath(g, p) && Once(p) && p[|p| - 1] == u
    && exists k: nat :: IsFirst(g, Roots(g), k, u) && p[0] == Roots(g)[k]
  }

  /** In every order, the stack at a node is such a path. */
  lemma StackIsEntry(g: Graph, ord: Orders, u: string)
    requires Closed(g) && Lists(ord, g) && u in g
    ensures u in Seen(g, ord) && IsEntry(g, Seen(g, ord)[u], u)
  {
    hide Follows, Scan, Visit, Forest, IsFirst, Lists, SeenByFirst;
    ListsAreClosed(ord, g);
    var roots, paths := Roots(g), Seen(g, ord);
    RootsAreNodes(g, ord);
    ForestIsSeenByFirst(g, ord, roots, |roots|);
    assert roots[..|roots|] == roots;
    EntryOfSeen(g, ord, roots, paths, u);
    FollowsIsPath(ord, g, paths[u]);
  }

  lemma RootsAreNodes(g: Graph, ord: Orders)
    requires Lists(ord, g)
    ensures forall t :: t in Roots(g) <==> t in ord
  {}

  lemma EntryOfSeen(g: Graph, ord: Orders, roots: seq<string>, paths: Paths, u: string)
    requires SeenByFirst(g, ord, roots, |roots|, paths) && u in roots
    ensures u in paths && paths[u] != [] && Follows(ord, paths[u]) && paths[u][|paths[u]| - 1] == u
    ensures exists k: nat :: IsFirst(g, roots, k, u) && paths[u][0] == roots[k]
  {
    hide Follows, IsFirst;
    assert IsPath(g, [u]) && Reaches(g, u, u);
    var i :| 0 <= i < |roots| && roots[i] == u;
    assert u in paths;
  }

  /** Each such path is the stack at its node in some order. */
  lemma EntryIsStack(g: Graph, p: seq<string>, u: string) returns (ord: Orders)
    requires Closed(g) && IsEntry(g, p, u)
    ensures Lists(ord, g) && u in Seen(g, ord) && Seen(g, ord)[u] == p
  {
    ord := ListingAlong(g, p);
    ListsAreClosed(ord, g);
    var k: nat :| IsFirst(g, Roots(g), k, u) && p[0] == Roots(g)[k];
    EntryIsTaken(g, ord, Roots(g), k, p);
  }

  lemma CountedIff(g: Graph, ord: Orders, u: string, v: string)
    requires Closed(g) && Lists(ord, g)
    ensures (u, v) in Counted(g, ord) <==> u in g && v in g[u] && u in Seen(g, ord) && v in Seen(g, ord)[u]
  {
    hide Forest;
    if u in g { assert v in Elems(ord[u]) <==> v in g[u]; }
  }

  /** An edge is counted in some order exactly when a simple path from the entry to its source meets its target. */
  lemma CountedInSomeOrderIff(g: Graph, u: string, v: string)
    requires Closed(g)
    ensures (exists ord :: Lists(ord, g) && (u, v) in Counted(g, ord))
       <==> u in g && v in g[u] && exists p :: IsEntry(g, p, u) && v in p
  {
    hide Lists, Counted, Seen, IsEntry;
    if ord :| Lists(ord, g) && (u, v) in Counted(g, ord) {
      CountedIff(g, ord, u, v);
      StackIsEntry(g, ord, u);
    }
    if u in g && v in g[u] {
      if p :| IsEntry(g, p, u) && v in p {
        var ord := EntryIsStack(g, p, u);
        CountedIff(g, ord, u, v);
      }
    }
  }

  /** And in every order exactly when all of them do: its target dominates its source. */
  lemma CountedInEveryOrderIff(g: Graph, u: string, v: string)
    requires Closed(g)
    ensures (forall ord :: Lists(ord, g) ==> (u, v) in Counted(g, ord))
       <==> u in g && v in g[u] && forall p :: IsEntry(g, p, u) ==> v in p
  {
    hide Lists, Counted, Seen, IsEntry;
    if u in g && v in g[u] && forall p :: IsEntry(g, p, u) ==> v in p {
      forall ord | Lists(ord, g) ensures (u, v) in Counted(g, ord) {
        StackIsEntry(g, ord, u);
        CountedIff(g, ord, u, v);
      }
    } else if u in g && v in g[u] {
      var p :| IsEntry(g, p, u) && v !in p;
      var ord := EntryIsStack(g, p, u);
      CountedIff(g, ord, u, v);
    } else {
      var ord := SomeListing(g);
      CountedIff(g, ord, u, v);
    }
  }

  lemma SomeListing(g: Graph) returns (ord: Orders)
    ensures Lists(ord, g)
  {
    ord := map n | n in g :: ListFrom("", g[n]);
  }

  /** Whether the target of each edge lies on all or on none of the entry paths of its source. */
  ghost predicate EntriesAgree(g: Graph) {
    forall u, v, p, q :: u in g && v in g[u] && IsEntry(g, p, u) && IsEntry(g, q, u) ==> (v in p <==> v in q)
  }

  /** The counted edges are the same in every order exactly when the entry paths agree about every edge. */
  lemma SameEdgesInEveryOrderIff(g: Graph)
    requires Closed(g)
    ensures (forall a, b :: Lists(a, g) && Lists(b, g) ==> Counted(g, a) == Counted(g, b)) <==> EntriesAgree(g)
  {
    hide Lists, Counted, Seen, IsEntry;
    if EntriesAgree(g) {
      forall a, b | Lists(a, g) && Lists(b, g) ensures Counted(g, a) == Counted(g, b) {
        forall u, v ensures (u, v) in Counted(g, a) <==> (u, v) in Counted(g, b) {
          CountedIff(g, a, u, v);
          CountedIff(g, b, u, v);
          if u in g {
            StackIsEntry(g, a, u);
            StackIsEntry(g, b, u);
          }
        }
        PairsWithin(Counted(g, a), Counted(g, b));
        PairsWithin(Counted(g, b), Counted(g, a));
      }
    } else {
      var u, v, p, q :| u in g && v in g[u] && IsEntry(g, p, u) && IsEntry(g, q, u) && v in p && v !in q;
      var a := EntryIsStack(g, p, u);
      var b := EntryIsStack(g, q, u);
      CountedIff(g, a, u, v);
      CountedIff(g, b, u, v);
      assert Counted(g, a) != Counted(g, b);
    }
  }

  ghost function CountedAlways(g: Graph): set<(string, string)> {
    set u, v | u in g && v in g[u] && (forall p :: IsEntry(g, p, u) ==> v in p) :: (u, v)
  }

  ghost function CountedSometimes(g: Graph): set<(string, string)> {
    set u, v | u in g && v in g[u] && (exists p :: IsEntry(g, p, u) && v in p) :: (u, v)
  }

  /** The count lies between two bounds that do not depend on the order, and is fixed where the entries agree. */
  lemma CountIsBounded(g: Graph, ord: Orders)
    requires Closed(g) && Lists(ord, g)
    ensures |CountedAlways(g)| <= |Counted(g, ord)| <= |CountedSometimes(g)|
    ensures EntriesAgree(g) ==> |Counted(g, ord)| == |CountedSometimes(g)|
  {
    hide Lists, Counted, Seen, IsEntry;
    forall u, v
      ensures (u, v) in CountedAlways(g) ==> (u, v) in Counted(g, ord)
      ensures (u, v) in Counted(g, ord) ==> (u, v) in CountedSometimes(g)
      ensures EntriesAgree(g) && (u, v) in CountedSometimes(g) ==> (u, v) in Counted(g, ord)
    {
      CountedIff(g, ord, u, v);
      if u in g { StackIsEntry(g, ord, u); }
    }
    PairsWithin(CountedAlways(g), Counted(g, ord));
    PairsWithin(Counted(g, ord), CountedSometimes(g));
    PairsWithin(CountedSometimes(g), Counted(g, ord));
    Sizes(CountedAlways(g), Counted(g, ord));
    Sizes(Counted(g, ord), CountedSometimes(g));
    assert EntriesAgree(g) ==> Counted(g, ord) == CountedSometimes(g);
  }

  lemma PairsWithin(a: set<(string, string)>, b: set<(string, string)>)
    ensures (forall u, v :: (u, v) in a ==> (u, v) in b) <==> a <= b
  {
    forall x | x in a && forall u, v :: (u, v) in a ==> (u, v) in b ensures x in b {
      assert x == (x.0, x.1);
    }
  }

  lemma {:induction false} Sizes<T>(a: set<T>, b: set<T>)
    ensures a <= b ==> |a| <= |b|
    decreases |a|
  {
    if a <= b && a != {} {
      var x :| x in a;
      Sizes(a - {x}, b - {x});
    }
  }

  /** The counter of the search is the number of these edges. */
  lemma ForestCounts(g: Graph, ord: Orders)
    requires Closed(g) && Lists(ord, g)
    ensures IsClosed(ord) && Forest(ord, Roots(g)).cycles == |Counted(g, ord)|
  {
    hide Scan, Lists, Closed, Back, Inside;
    ListsAreClosed(ord, g);
    ListsAre(ord, g);
    var roots := Roots(g);
    assert Once(roots);
    ScanCounts(ord, roots, [], Start);
    NothingInside(roots);
    assert Start.paths == map[] && Seen(g, ord).Keys - Start.paths.Keys == Seen(g, ord).Keys;
  }

  lemma NothingInside(targets: seq<string>)
    ensures Inside(targets, []) == {}
  {
  }

  // ----- A graph whose count depends on the order -----

  lemma ScanTwo(ord: Orders, x: string, y: string, stack: seq<string>, s: Search)
    requires IsClosed(ord) && x in ord && y in ord && s.paths.Keys <= ord.Keys
    ensures Scan(ord, [x, y], stack, s) == Follow(ord, y, stack, Follow(ord, x, stack, s))
  {
    hide Visit, Follow;
    var next := Follow(ord, x, stack, s);
    assert [x, y][1..] == [y];
    ScanLast(ord, y, stack, next);
  }

  lemma ScanLast(ord: Orders, x: string, stack: seq<string>, s: Search)
    requires IsClosed(ord) && x in ord && s.paths.Keys <= ord.Keys
    ensures Scan(ord, [x], stack, s) == Follow(ord, x, stack, s)
  {
    hide Visit, Follow;
    assert [x][1..] == [];
  }

  lemma {:induction false} ScanSeen(ord: Orders, targets: seq<string>, s: Search)
    requires IsClosed(ord) && (forall t :: t in targets ==> t in s.paths) && s.paths.Keys <= ord.Keys
    ensures (forall t :: t in targets ==> t in ord) && Scan(ord, targets, [], s) == s
  {
    if targets != [] {
      VisitSeen(ord, targets[0], [], s);
      ScanSeen(ord, targets[1..], s);
    }
  }

  // Two edges leave a, to b and to c; b leads to c, c to b and d, and d to b.
  function Tangle(): Graph {
    map["a" := {"b", "c"}, "b" := {"c"}, "c" := {"b", "d"}, "d" := {"b"}]
  }

  function TangleFrom(first: seq<string>): Orders {
    map["a" := first, "b" := ["c"], "c" := ["b", "d"], "d" := ["b"]]
  }

  /** With b first the edges back are from c and from d to b, with c first there is only the one from b to c. */
  lemma CountDependsOnOrder()
    ensures Closed(Tangle()) && Lists(TangleFrom(["b", "c"]), Tangle()) && Lists(TangleFrom(["c", "b"]), Tangle())
    ensures |Counted(Tangle(), TangleFrom(["b", "c"]))| == 2
    ensures |Counted(Tangle(), TangleFrom(["c", "b"]))| == 1
  {
    hide Counted, Forest, Lists, Closed, Visit, Tangle, TangleFrom;
    TangleIsListed();
    TangleRoots();
    ForestCounts(Tangle(), TangleFrom(["b", "c"]));
    ForestCounts(Tangle(), TangleFrom(["c", "b"]));
    TangleLists(["b", "c"]);
    TangleLists(["c", "b"]);
    BFirst(TangleFrom(["b", "c"]), "a", "b", "c", "d");
    CFirst(TangleFrom(["c", "b"]), "a", "b", "c", "d");
    FromFirst(TangleFrom(["b", "c"]), ["a", "b", "c", "d"]);
    FromFirst(TangleFrom(["c", "b"]), ["a", "b", "c", "d"]);
  }

  lemma TangleIsListed()
    ensures Closed(Tangle()) && Lists(TangleFrom(["b", "c"]), Tangle()) && Lists(TangleFrom(["c", "b"]), Tangle())
  {
    hide Lists, TangleFrom;
    TangleIsClosed();
    TangleListed("b", "c");
    TangleListed("c", "b");
  }

  lemma TangleIsClosed()
    ensures Closed(Tangle())
  {}

  lemma TangleListed(x: string, y: string)
    requires {x, y} == {"b", "c"} && x != y
    ensures Lists(TangleFrom([x, y]), Tangle())
  {
    hide TangleFrom, Tangle;
    TangleLists([x, y]);
    assert Tangle().Keys == {"a", "b", "c", "d"} && Tangle()["a"] == {"b", "c"} && Tangle()["b"] == {"c"}
      && Tangle()["c"] == {"b", "d"} && Tangle()["d"] == {"b"} by { TangleIs(); }
    TwoElems(x, y);
    TwoElems("b", "d");
    OneElem("b");
    OneElem("c");
  }

  lemma TangleIs()
    ensures Tangle().Keys == {"a", "b", "c", "d"} && Tangle()["a"] == {"b", "c"} && Tangle()["b"] == {"c"}
    ensures Tangle()["c"] == {"b", "d"} && Tangle()["d"] == {"b"}
  {}

  lemma TwoElems(x: string, y: string)
    ensures Elems([x, y]) == {x, y} && (x != y ==> Once([x, y]))
  {
    assert [x, y][0] == x && [x, y][1] == y;
  }

  lemma OneElem(x: string)
    ensures Elems([x]) == {x} && Once([x])
  {}

  lemma TangleLists(first: seq<string>)
    ensures var ord := TangleFrom(first);
            && ord.Keys == {"a", "b", "c", "d"} && ord["a"] == first
            && ord["b"] == ["c"] && ord["c"] == ["b", "d"] && ord["d"] == ["b"]
  {}

  lemma TangleRoots()
    ensures Roots(Tangle()) == ["a", "b", "c", "d"]
  {
    var s := ["a", "b", "c", "d"];
    assert forall i, j :: 0 <= i < j < |s| ==> Text.Leq(s[i], s[j]) && s[i] != s[j];
    Text.SortedIsUnique(s, Roots(Tangle()));
  }

  lemma FromFirst(ord: Orders, roots: seq<string>)
    requires IsClosed(ord) && roots != [] && forall t :: t in roots ==> t in ord
    requires forall t :: t in roots ==> t in Visit(ord, roots[0], [], Start).paths
    ensures Forest(ord, roots) == Visit(ord, roots[0], [], Start)
  {
    hide Visit, Scan, Follow;
    var next := Visit(ord, roots[0], [], Start);
    assert roots[0..] == roots;
    ScanNext(ord, roots, 0, [], Start);
    FollowRoot(ord, roots[0], Start);
    ScanSeen(ord, roots[1..], next);
  }

  lemma BFirst(ord: Orders, a: string, b: string, c: string, d: string)
    requires IsClosed(ord) && a != b && b != c && c != d && a != c && a != d && b != d && ord.Keys == {a, b, c, d}
    requires ord[a] == [b, c] && ord[b] == [c] && ord[c] == [b, d] && ord[d] == [b]
    ensures Visit(ord, a, [], Start).cycles == 2 && Visit(ord, a, [], Start).paths.Keys == {a, b, c, d}
  {
    hide Visit, Scan;
    var atA := Search(map[a := [a]], 0);
    var atB := atA.(paths := atA.paths[b := [a, b]]);
    CAfterB(ord, b, c, d, [a, b], atB);
    VisitIsScan(ord, b, [a], atA);
    assert [a] + [b] == [a, b];
    ScanLast(ord, c, [a, b], atB);
    VisitIsScan(ord, a, [], Start);
    assert [] + [a] == [a];
    ScanTwo(ord, b, c, [a], atA);
    VisitSeen(ord, c, [a], Visit(ord, c, [a, b], atB));
  }

  /** From c, below b: the edge to b and, after d, the edge from d to b. */
  lemma CAfterB(ord: Orders, b: string, c: string, d: string, stack: seq<string>, s: Search)
    requires IsClosed(ord) && b in ord && c in ord && d in ord && s.paths.Keys <= ord.Keys && c != d
    requires ord[c] == [b, d] && ord[d] == [b] && b in stack && c !in stack && d !in stack
    requires c !in s.paths && d !in s.paths
    ensures var r := Visit(ord, c, stack, s);
            r.cycles == s.cycles + 2 && r.paths.Keys == s.paths.Keys + {c, d}
  {
    hide Visit, Scan;
    var atC := s.(paths := s.paths[c := stack + [c]]);
    var once := atC.(cycles := s.cycles + 1);
    var atD := once.(paths := once.paths[d := stack + [c] + [d]]);
    VisitIsScan(ord, c, stack, s);
    ScanTwo(ord, b, d, stack + [c], atC);
    VisitIsScan(ord, d, stack + [c], once);
    ScanLast(ord, b, stack + [c] + [d], atD);
  }

  lemma CFirst(ord: Orders, a: string, b: string, c: string, d: string)
    requires IsClosed(ord) && a != b && b != c && c != d && a != c && a != d && b != d && ord.Keys == {a, b, c, d}
    requires ord[a] == [c, b] && ord[b] == [c] && ord[c] == [b, d] && ord[d] == [b]
    ensures Visit(ord, a, [], Start).cycles == 1 && Visit(ord, a, [], Start).paths.Keys == {a, b, c, d}
  {
    hide Visit, Scan;
    var atA := Search(map[a := [a]], 0);
    COverB(ord, b, c, d, [a], atA);
    VisitIsScan(ord, a, [], Start);
    assert [] + [a] == [a];
    ScanTwo(ord, c, b, [a], atA);
    VisitSeen(ord, b, [a], Visit(ord, c, [a], atA));
  }

  /** From c, above b: only the edge from b to c, as b is done when d is visited. */
  lemma COverB(ord: Orders, b: string, c: string, d: string, stack: seq<string>, s: Search)
    requires IsClosed(ord) && b in ord && c in ord && d in ord && s.paths.Keys <= ord.Keys
    requires b != c && c != d && b != d
    requires ord[b] == [c] && ord[c] == [b, d] && ord[d] == [b] && b !in stack && c !in stack && d !in stack
    requires b !in s.paths && c !in s.paths && d !in s.paths
    ensures var r := Visit(ord, c, stack, s);
            r.cycles == s.cycles + 1 && r.paths.Keys == s.paths.Keys + {b, c, d}
  {
    hide Visit, Scan, Follow;
    var atC := s.(paths := s.paths[c := stack + [c]]);
    var once := Search(atC.paths[b := stack + [c] + [b]], s.cycles + 1);
    VisitIsScan(ord, c, stack, s);
    ScanTwo(ord, b, d, stack + [c], atC);
    FollowNew(ord, b, stack + [c], atC);
    LeafBack(ord, b, c, stack + [c], atC);
    FollowNew(ord, d, stack + [c], once);
    LeafDone(ord, d, b, stack + [c], once);
  }

  lemma FollowNew(ord: Orders, x: string, stack: seq<string>, s: Search)
    requires IsClosed(ord) && x in ord && s.paths.Keys <= ord.Keys && x !in stack
    ensures Follow(ord, x, stack, s) == Visit(ord, x, stack, s)
  {
    hide Visit;
  }

  lemma LeafBack(ord: Orders, x: string, y: string, stack: seq<string>, s: Search)
    requires IsClosed(ord) && x in ord && ord[x] == [y] && x !in s.paths && y in stack && s.paths.Keys <= ord.Keys
    ensures Visit(ord, x, stack, s) == Search(s.paths[x := stack + [x]], s.cycles + 1)
  {
    hide Visit, Scan;
    VisitIsScan(ord, x, stack, s);
    assert y in ord[x];
    ScanLast(ord, y, stack + [x], s.(paths := s.paths[x := stack + [x]]));
  }

  lemma LeafDone(ord: Orders, x: string, y: string, stack: seq<string>, s: Search)
    requires IsClosed(ord) && x in ord && ord[x] == [y] && x !in s.paths && y !in stack && y != x && y in s.paths
    requires s.paths.Keys <= ord.Keys
    ensures Visit(ord, x, stack, s) == s.(paths := s.paths[x := stack + [x]])
  {
    hide Visit, Scan;
    var entered := s.(paths := s.paths[x := stack + [x]]);
    VisitIsScan(ord, x, stack, s);
    assert y in ord[x];
    ScanLast(ord, y, stack + [x], entered);
    VisitSeen(ord, y, stack + [x], entered);
  }

  // ----- A graph whose count does not depend on the order, although the edges do -----

  // Two edges leave a, to b and to c, which lead to each other.
  function Knot(): Graph {
    map["a" := {"b", "c"}, "b" := {"c"}, "c" := {"b"}]
  }

  /**
   * So there is no such condition for the number alone: here the entries disagree, and every order
   * counts one edge, but not the same one.
   */
  lemma CountMayAgreeWhereEdgesDiffer()
    ensures Closed(Knot()) && !EntriesAgree(Knot())
    ensures forall ord :: Lists(ord, Knot()) ==> |Counted(Knot(), ord)| == 1
  {
    hide Counted, Lists, Closed, Knot, EntriesAgree;
    KnotIsClosed();
    forall ord | Lists(ord, Knot()) ensures |Counted(Knot(), ord)| == 1 {
      KnotCount(ord);
    }
    KnotEdgesDiffer();
    SameEdgesInEveryOrderIff(Knot());
  }

  lemma KnotCount(ord: Orders)
    requires Lists(ord, Knot()) && Closed(Knot())
    ensures |Counted(Knot(), ord)| == 1
  {
    hide Counted, Lists, Closed, Knot, Forest;
    KnotOrders(ord);
    ForestCounts(Knot(), ord);
    if ord["a"] == ["b", "c"] { KnotFrom(ord, "b", "c"); } else { KnotFrom(ord, "c", "b"); }
  }

  lemma KnotEdgesDiffer()
    requires Closed(Knot())
    ensures exists first, second :: Lists(first, Knot()) && Lists(second, Knot())
                                    && Counted(Knot(), first) != Counted(Knot(), second)
  {
    hide Counted, Lists, Closed, Knot, Forest, Seen, KnotOrder, IsClosed;
    KnotListed("b", "c");
    KnotListed("c", "b");
    KnotIs();
    var first, second := KnotOrder("b", "c"), KnotOrder("c", "b");
    KnotFrom(first, "b", "c");
    KnotFrom(second, "c", "b");
    CountedIff(Knot(), first, "c", "b");
    CountedIff(Knot(), second, "c", "b");
    assert "b" in ["a", "b", "c"] && "b" !in ["a", "c"];
  }

  function KnotOrder(x: string, y: string): Orders {
    map["a" := [x, y], "b" := ["c"], "c" := ["b"]]
  }

  lemma KnotIsClosed()
    ensures Closed(Knot())
  {}

  lemma KnotIs()
    ensures Knot().Keys == {"a", "b", "c"} && Knot()["a"] == {"b", "c"} && Knot()["b"] == {"c"} && Knot()["c"] == {"b"}
  {}

  lemma KnotListed(x: string, y: string)
    requires {x, y} == {"b", "c"} && x != y
    ensures Lists(KnotOrder(x, y), Knot())
    ensures KnotOrder(x, y).Keys == {"a", "b", "c"} && KnotOrder(x, y)["a"] == [x, y]
    ensures KnotOrder(x, y)["b"] == ["c"] && KnotOrder(x, y)["c"] == ["b"]
  {
    hide Knot;
    KnotIs();
    TwoElems(x, y);
    OneElem("b");
    OneElem("c");
  }

  lemma KnotOrders(ord: Orders)
    requires Lists(ord, Knot())
    ensures ord.Keys == {"a", "b", "c"} && ord["b"] == ["c"] && ord["c"] == ["b"]
    ensures ord["a"] == ["b", "c"] || ord["a"] == ["c", "b"]
  {
    hide Knot;
    KnotIs();
    SingleList(ord["b"], "c");
    SingleList(ord["c"], "b");
    PairList(ord["a"], "b", "c");
  }

  lemma {:induction false} OnceLength(s: seq<string>)
    requires Once(s)
    ensures |s| == |Elems(s)| && forall i :: 0 <= i < |s| ==> s[i] in Elems(s)
  {
    if s == [] {
      assert Elems(s) == {};
    } else {
      var init, last := s[..|s| - 1], s[|s| - 1];
      OnceLength(init);
      assert s == init + [last];
      assert Elems(s) == Elems(init) + {last} && last !in Elems(init);
    }
  }

  lemma SingleList(s: seq<string>, x: string)
    requires Elems(s) == {x} && Once(s)
    ensures s == [x]
  {
    OnceLength(s);
  }

  lemma PairList(s: seq<string>, x: string, y: string)
    requires Elems(s) == {x, y} && x != y && Once(s)
    ensures s == [x, y] || s == [y, x]
  {
    OnceLength(s);
    assert s[0] != s[1];
  }

  lemma KnotFrom(ord: Orders, x: string, y: string)
    requires Lists(ord, Knot()) && Closed(Knot()) && ord.Keys == {"a", "b", "c"} && {x, y} == {"b", "c"} && x != y
    requires ord["a"] == [x, y] && ord[x] == [y] && ord[y] == [x]
    ensures IsClosed(ord) && Forest(ord, Roots(Knot())).cycles == 1
    ensures Seen(Knot(), ord) == map["a" := ["a"], x := ["a", x], y := ["a", x, y]]
  {
    hide Knot, Visit, Scan, Follow, Lists, Closed, Forest;
    ListsAreClosed(ord, Knot());
    KnotRoots();
    var atA := Search(map["a" := ["a"]], 0);
    var atX := atA.(paths := atA.paths[x := ["a", x]]);
    var done := Search(atX.paths[y := ["a", x, y]], 1);
    assert ["a"] + [x] == ["a", x] && ["a", x] + [y] == ["a", x, y] && [] + ["a"] == ["a"];
    LeafBack(ord, y, x, ["a", x], atX);
    FollowNew(ord, y, ["a", x], atX);
    VisitIsScan(ord, x, ["a"], atA);
    ScanLast(ord, y, ["a", x], atX);
    FollowNew(ord, x, ["a"], atA);
    VisitSeen(ord, y, ["a"], done);
    FollowNew(ord, y, ["a"], done);
    VisitIsScan(ord, "a", [], Start);
    ScanTwo(ord, x, y, ["a"], atA);
    FromFirst(ord, ["a", "b", "c"]);
  }

  lemma KnotRoots()
    ensures Roots(Knot()) == ["a", "b", "c"]
  {
    var s := ["a", "b", "c"];
    assert forall i, j :: 0 <= i < j < |s| ==> Text.Leq(s[i], s[j]) && s[i] != s[j];
    Text.SortedIsUnique(s, Roots(Knot()));
  }
}
