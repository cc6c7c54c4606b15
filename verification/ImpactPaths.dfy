/**
 * The bounded breadth-first search for impact paths
 * (namespace_twin/persistence.py, _selected_graph_context).
 */
module ImpactPaths {

  datatype Edge = Edge(source: string, target: string, relationship: string,
                       status: string, risk: string, confidence: string, evidenceRefs: seq<string>)

  datatype Node = Node(nodeId: string, identity: string)

  /** One reported path, as shown to the operator. */
  datatype ImpactPath = ImpactPath(nodes: seq<string>, relationships: seq<string>, status: string,
                                   risk: string, confidence: string, evidenceRefs: seq<string>)

  datatype Context =
    | NothingRequested
    | NotFound(requested: string)
    | Found(node: Node, inbound: seq<Edge>, outbound: seq<Edge>, impactPaths: seq<ImpactPath>)

  // The edges of a walk that starts at the selected node.
  type EdgePath = seq<Edge>

  const MaxPaths := 12
  const MaxNodes := 4
  const MaxListed := 25

  /**
   * The inputs of one search: the edges in order, the known node ids, the selected node, and the
   * bounds on the number of paths and on the nodes of a path.
   */
  datatype Search = Search(edges: seq<Edge>, known: set<string>, start: string, maxPaths: nat, maxNodes: nat) {

    /** The nodes on a path, in order. */
    function NodesOf(p: EdgePath): (r: seq<string>)
      ensures |r| == |p| + 1
      ensures r[|p|] == if p == [] then start else p[|p| - 1].target
    {
      if p == [] then [start] else NodesOf(p[..|p| - 1]) + [p[|p| - 1].target]
    }

    /** A walk along edges from the selected node over known nodes that repeats no node. */
    ghost predicate IsSimplePath(p: EdgePath) {
      && (forall k :: 0 <= k < |p| ==>
            && p[k] in edges
            && p[k].source == NodesOf(p)[k]
            && p[k].target == NodesOf(p)[k + 1]
            && p[k].target in known)
      && (forall j, k :: 0 <= j < k <= |p| ==> NodesOf(p)[j] != NodesOf(p)[k])
    }

    /** Whether an edge may continue path p. */
    predicate Extends(p: EdgePath, e: Edge) {
      e.source == NodesOf(p)[|p|] && e.target !in NodesOf(p) && e.target in known
    }

    /** The continuations of p by the first n edges, in edge order. */
    function Kids(p: EdgePath, n: nat): seq<EdgePath>
      requires n <= |edges|
    {
      if n == 0 then []
      else Kids(p, n - 1) + if Extends(p, edges[n - 1]) then [p + [edges[n - 1]]] else []
    }

    /** The continuations of all paths of a list, in order. */
    function AllKids(ps: seq<EdgePath>): seq<EdgePath> {
      if ps == [] then [] else AllKids(ps[..|ps| - 1]) + Kids(ps[|ps| - 1], |edges|)
    }

    /** All simple paths of k edges, in breadth-first order. */
    function Level(k: nat): seq<EdgePath> {
      if k == 0 then [[]] else AllKids(Level(k - 1))
    }

    /** All simple paths of 1 to k edges, shorter ones first. */
    function UpTo(k: nat): seq<EdgePath> {
      if k == 0 then [] else UpTo(k - 1) + Level(k)
    }

    /** Every path the search could ever report, in the order in which it would report them. */
    function Full(): seq<EdgePath>
      requires maxNodes > 0
    {
      UpTo(maxNodes - 1)
    }

    // ----- What the simple paths are -----

    lemma {:induction false} InKids(p: EdgePath, n: nat, q: EdgePath)
      requires n <= |edges|
      ensures q in Kids(p, n) <==>
                |q| == |p| + 1 && q[..|p|] == p && q[|p|] in edges[..n] && Extends(p, q[|p|])
    {
      if n > 0 {
        InKids(p, n - 1, q);
        assert edges[..n] == edges[..n - 1] + [edges[n - 1]];
        if |q| == |p| + 1 {
          assert q == q[..|p|] + [q[|p|]];
        }
      }
    }

    lemma {:induction false} InAllKids(ps: seq<EdgePath>, q: EdgePath)
      ensures q in AllKids(ps) <==>
                q != [] && q[..|q| - 1] in ps && q[|q| - 1] in edges && Extends(q[..|q| - 1], q[|q| - 1])
    {
      if ps != [] {
        var last := ps[|ps| - 1];
        assert ps == ps[..|ps| - 1] + [last];
        InAllKids(ps[..|ps| - 1], q);
        InKids(last, |edges|, q);
        assert edges[..|edges|] == edges;
      }
    }

    lemma NodesOfPrefix(p: EdgePath, e: Edge)
      ensures NodesOf(p + [e]) == NodesOf(p) + [e.target]
    {
      assert (p + [e])[..|p|] == p;
    }

    lemma SimplePathSnoc(p: EdgePath, e: Edge)
      ensures IsSimplePath(p + [e]) <==> IsSimplePath(p) && e in edges && Extends(p, e)
    {
      var q := p + [e];
      NodesOfPrefix(p, e);
      assert forall k :: 0 <= k < |p| ==> q[k] == p[k];
      assert forall k :: 0 <= k <= |p| ==> NodesOf(q)[k] == NodesOf(p)[k];
      if IsSimplePath(q) {
        assert q[|p|] == e;
        forall j | 0 <= j <= |p| ensures NodesOf(p)[j] != e.target {
          assert NodesOf(q)[j] != NodesOf(q)[|p| + 1];
        }
      }
    }

    /** Level k holds exactly the simple paths of k edges. */
    lemma {:induction false} LevelIsExact(k: nat, q: EdgePath)
      ensures q in Level(k) <==> |q| == k && IsSimplePath(q)
    {
      hide AllKids, Kids, NodesOf;
      if k > 0 {
        InAllKids(Level(k - 1), q);
        if q != [] {
          var p, e := q[..|q| - 1], q[|q| - 1];
          assert q == p + [e];
          LevelIsExact(k - 1, p);
          SimplePathSnoc(p, e);
        }
      } else if q == [] {
        assert NodesOf(q) == [start];
      }
    }

    // ----- The search -----

    lemma ReportedStep(k: nat, j: nat)
      requires j < |Level(k)|
      ensures AllKids(Level(k)[..j + 1]) == AllKids(Level(k)[..j]) + Kids(Level(k)[j], |edges|)
    {
      var level := Level(k);
      assert level[..j + 1][..j] == level[..j];
    }

    lemma {:induction false} KidsPrefix(p: EdgePath, n: nat)
      requires n <= |edges|
      ensures Kids(p, n) <= Kids(p, |edges|)
      decreases |edges| - n
    {
      if n < |edges| {
        KidsPrefix(p, n + 1);
      }
    }

    /** Everything reported on the way is a prefix of the full enumeration. */
    lemma {:induction false} ReportedPrefix(k: nat, j: nat)
      requires k < maxNodes - 1 && j <= |Level(k)|
      ensures UpTo(k) + AllKids(Level(k)[..j]) <= Full()
      decreases maxNodes - k, |Level(k)| - j
    {
      hide Kids, NodesOf;
      if j < |Level(k)| {
        ReportedStep(k, j);
        ReportedPrefix(k, j + 1);
        var kids := AllKids(Level(k)[..j + 1]);
        assert AllKids(Level(k)[..j]) <= kids;
        assert UpTo(k) + AllKids(Level(k)[..j]) <= UpTo(k) + kids;
      } else {
        assert Level(k)[..j] == Level(k);
        assert UpTo(k + 1) == UpTo(k) + AllKids(Level(k)[..j]);
        if k + 1 < maxNodes - 1 {
          ReportedPrefix(k + 1, 0);
          assert Level(k + 1)[..0] == [];
        }
      }
    }

    /** The inner loop: report the continuations of p, and queue the ones that may grow further. */
    method Expand(p: EdgePath, reported: seq<EdgePath>, waiting: seq<EdgePath>)
      returns (paths: seq<EdgePath>, queue: seq<EdgePath>)
      requires |reported| < maxPaths
      ensures |paths| <= maxPaths && paths <= reported + Kids(p, |edges|)
      ensures |paths| < maxPaths ==>
                && paths == reported + Kids(p, |edges|)
                && queue == waiting + if |p| + 2 < maxNodes then Kids(p, |edges|) else []
    {
      paths, queue := reported, waiting;
      var i := 0;
      while i < |edges|
        invariant i <= |edges| && |paths| < maxPaths
        invariant paths == reported + Kids(p, i)
        invariant queue == waiting + if |p| + 2 < maxNodes then Kids(p, i) else []
      {
        if Extends(p, edges[i]) {
          paths := paths + [p + [edges[i]]];
          if |p| + 2 < maxNodes {
            queue := queue + [p + [edges[i]]];
          }
        }
        i := i + 1;
        if |paths| >= maxPaths {
          KidsPrefix(p, i);
          break;
        }
      }
    }

    /** With nothing left to grow, the later levels are empty too. */
    lemma {:induction false} NothingFurther(k: nat, m: nat)
      requires k <= m && Level(k) == []
      ensures UpTo(m) == UpTo(k) && Level(m) == []
      decreases m
    {
      if k < m {
        NothingFurther(k, m - 1);
      }
    }

    /**
     * While the first j paths of level k are expanded: what is reported, and what waits, namely
     * the rest of the level and then the new paths that may grow further.
     */
    ghost predicate Progress(k: nat, j: nat, paths: seq<EdgePath>, queue: seq<EdgePath>) {
      && k + 1 < maxNodes && j <= |Level(k)|
      && paths == UpTo(k) + AllKids(Level(k)[..j])
      && queue == Level(k)[j..] + if k + 2 < maxNodes then AllKids(Level(k)[..j]) else []
    }

    lemma ProgressAtStart()
      requires maxNodes > 1
      ensures Progress(0, 0, [], [[]]) && |Level(0)| == 1
    {}

    lemma ProgressToNextLevel(k: nat, paths: seq<EdgePath>, queue: seq<EdgePath>)
      requires Progress(k, |Level(k)|, paths, queue) && queue != []
      ensures k + 2 < maxNodes && Level(k + 1) != []
      ensures Progress(k + 1, 0, paths, queue)
    {
      hide Kids, NodesOf;
      LevelDone(k);
      assert Level(k)[|Level(k)|..] == [];
    }

    lemma ProgressByOne(k: nat, j: nat, paths: seq<EdgePath>, queue: seq<EdgePath>)
      requires Progress(k, j, paths, queue) && j < |Level(k)|
      ensures queue != [] && queue[0] == Level(k)[j] && |queue[0]| == k
      ensures Progress(k, j + 1, paths + Kids(queue[0], |edges|),
                       queue[1..] + if k + 2 < maxNodes then Kids(queue[0], |edges|) else [])
    {
      hide Kids, Level, UpTo, NodesOf;
      ReportedStep(k, j);
      LevelIsExact(k, Level(k)[j]);
      assert Level(k)[j..] == [Level(k)[j]] + Level(k)[j + 1..];
    }

    lemma ProgressIsPrefix(k: nat, j: nat, paths: seq<EdgePath>, queue: seq<EdgePath>)
      requires Progress(k, j, paths, queue)
      ensures paths <= Full()
    {
      ReportedPrefix(k, j);
    }

    lemma ProgressComplete(k: nat, j: nat, paths: seq<EdgePath>)
      requires Progress(k, j, paths, [])
      ensures paths == Full()
    {
      hide Kids,NodesOf;
      LevelDone(k);
      assert j == |Level(k)|;
      if k + 2 < maxNodes {
        NothingFurther(k + 1, maxNodes - 1);
      }
    }

    /**
     * The search reports the first twelve paths of the breadth-first enumeration, or all of them
     * if there are fewer.
     */
    method FindImpactPaths() returns (paths: seq<EdgePath>)
      requires maxNodes > 1
      ensures |paths| <= maxPaths && paths <= Full()
      ensures |paths| < maxPaths ==> paths == Full()
    {
      hide Progress, Kids, AllKids, Level, UpTo, Full;
      paths := [];
      var queue: seq<EdgePath> := [[]];
      // level k is being expanded and its first j paths are done
      ghost var k, j := 0, 0;
      ProgressAtStart();
      while queue != [] && |paths| < maxPaths
        invariant |paths| <= maxPaths && paths <= Full()
        invariant k + 1 < maxNodes && j <= |Level(k)|
        invariant |paths| < maxPaths ==> Progress(k, j, paths, queue)
        decreases maxNodes - k, |Level(k)| - j
      {
        if j == |Level(k)| {
          ProgressToNextLevel(k, paths, queue);
          k, j := k + 1, 0;
        }
        ProgressByOne(k, j, paths, queue);
        ghost var kids := Kids(queue[0], |edges|);
        ProgressIsPrefix(k, j + 1, paths + kids, queue[1..] + if k + 2 < maxNodes then kids else []);
        paths, queue := Expand(queue[0], paths, queue[1..]);
        j := j + 1;
      }
      if |paths| < maxPaths {
        ProgressComplete(k, j, paths);
      }
    }

    lemma LevelDone(k: nat)
      ensures UpTo(k) + AllKids(Level(k)[..|Level(k)|]) == UpTo(k + 1)
      ensures AllKids(Level(k)[..|Level(k)|]) == Level(k + 1) == Level(k + 1)[0..]
      ensures AllKids(Level(k + 1)[..0]) == []
      ensures UpTo(k + 1) == UpTo(k + 1) + AllKids(Level(k + 1)[..0])
    {
      assert Level(k)[..|Level(k)|] == Level(k);
      assert Level(k + 1)[..0] == [];
    }

    // ----- What is reported -----

    lemma {:induction false} InUpTo(k: nat, q: EdgePath)
      ensures q in UpTo(k) <==> 1 <= |q| <= k && IsSimplePath(q)
    {
      hide Level, NodesOf;
      if k > 0 {
        InUpTo(k - 1, q);
        LevelIsExact(k, q);
      }
    }

    /** Shorter paths are reported before longer ones. */
    lemma {:induction false} UpToSorted(k: nat)
      ensures forall i, j :: 0 <= i < j < |UpTo(k)| ==> |UpTo(k)[i]| <= |UpTo(k)[j]|
    {
      hide Level, NodesOf;
      if k > 0 {
        UpToSorted(k - 1);
        forall q | q in UpTo(k - 1) ensures |q| <= k - 1 { InUpTo(k - 1, q); }
        forall q | q in Level(k) ensures |q| == k { LevelIsExact(k, q); }
        assert forall i :: 0 <= i < |UpTo(k - 1)| ==> UpTo(k)[i] in UpTo(k - 1);
        assert forall i :: |UpTo(k - 1)| <= i < |UpTo(k)| ==> UpTo(k)[i] in Level(k);
      }
    }

    /** Every reported path is simple, has at most four nodes, and comes in order of length. */
    lemma ReportedPathsAreSimple(paths: seq<EdgePath>)
      requires maxNodes > 0 && paths <= Full()
      ensures forall q :: q in paths ==> IsSimplePath(q) && 2 <= |NodesOf(q)| <= maxNodes
      ensures forall i, j :: 0 <= i < j < |paths| ==> |NodesOf(paths[i])| <= |NodesOf(paths[j])|
    {
      hide UpTo, Level, NodesOf, IsSimplePath;
      forall q | q in paths ensures IsSimplePath(q) && 1 <= |q| <= maxNodes - 1 {
        assert q in Full();
        InUpTo(maxNodes - 1, q);
      }
      UpToSorted(maxNodes - 1);
      assert forall i :: 0 <= i < |paths| ==> paths[i] == Full()[i];
    }

    /** With fewer than twelve paths reported, no simple path of at most four nodes is missing. */
    lemma NothingIsMissed(q: EdgePath)
      requires IsSimplePath(q) && 2 <= |NodesOf(q)| <= maxNodes
      ensures q in Full()
    {
      hide UpTo, Level, IsSimplePath;
      InUpTo(maxNodes - 1, q);
    }
  }

  predicate NoDuplicates<T(==)>(s: seq<T>) {
    forall i, j :: 0 <= i < j < |s| ==> s[i] != s[j]
  }

  lemma NoDuplicatesConcat<T>(a: seq<T>, b: seq<T>)
    requires NoDuplicates(a) && NoDuplicates(b)
    requires forall x :: x in a ==> x !in b
    ensures NoDuplicates(a + b)
  {
    forall i, j | 0 <= i < j < |a + b| ensures (a + b)[i] != (a + b)[j] {
      if i < |a| <= j {
        assert a[i] in a && b[j - |a|] in b;
      }
    }
  }

  lemma {:induction false} KidsOnce(s: Search, p: EdgePath, n: nat)
    requires n <= |s.edges| && NoDuplicates(s.edges)
    ensures NoDuplicates(s.Kids(p, n))
  {
    if n > 0 {
      KidsOnce(s, p, n - 1);
      var e := s.edges[n - 1];
      s.InKids(p, n - 1, p + [e]);
      assert e !in s.edges[..n - 1];
      assert (p + [e])[|p|] == e;
    }
  }

  lemma {:induction false} AllKidsOnce(s: Search, ps: seq<EdgePath>)
    requires NoDuplicates(s.edges) && NoDuplicates(ps)
    ensures NoDuplicates(s.AllKids(ps))
  {
    if ps != [] {
      var rest, last := ps[..|ps| - 1], ps[|ps| - 1];
      AllKidsOnce(s, rest);
      KidsOnce(s, last, |s.edges|);
      forall q | q in s.AllKids(rest) ensures q !in s.Kids(last, |s.edges|) {
        s.InAllKids(rest, q);
        s.InKids(last, |s.edges|, q);
        assert last !in rest;
      }
      NoDuplicatesConcat(s.AllKids(rest), s.Kids(last, |s.edges|));
    }
  }

  lemma {:induction false} LevelOnce(s: Search, k: nat)
    requires NoDuplicates(s.edges)
    ensures NoDuplicates(s.Level(k))
  {
    if k > 0 {
      LevelOnce(s, k - 1);
      AllKidsOnce(s, s.Level(k - 1));
    }
  }

  lemma LevelsApart(s: Search, k: nat)
    requires k > 0
    ensures forall q :: q in s.UpTo(k - 1) ==> q !in s.Level(k)
  {
    hide Search.UpTo, Search.Level, Search.IsSimplePath;
    forall q | q in s.UpTo(k - 1) ensures q !in s.Level(k) {
      s.InUpTo(k - 1, q);
      s.LevelIsExact(k, q);
    }
  }

  /** Over distinct edges no path is reported twice. */
  lemma {:induction false} UpToOnce(s: Search, k: nat)
    requires NoDuplicates(s.edges)
    ensures NoDuplicates(s.UpTo(k))
  {
    if k > 0 {
      UpToOnce(s, k - 1);
      LevelOnce(s, k);
      LevelsApart(s, k);
      NoDuplicatesConcat(s.UpTo(k - 1), s.Level(k));
    }
  }

  // ----- The selected context -----

  /** The first of the ranked labels that occurs among the given ones. */
  function FirstPresent(ranked: seq<string>, present: seq<string>, otherwise: string): (r: string)
    ensures r in present || r == otherwise
    ensures forall k :: 0 <= k < |ranked| && ranked[k] in present ==>
              r in ranked[..k + 1] && r in present
    ensures (forall k :: 0 <= k < |ranked| ==> ranked[k] !in present) ==> r == otherwise
  {
    if ranked == [] then otherwise
    else if ranked[0] in present then ranked[0]
    else FirstPresent(ranked[1..], present, otherwise)
  }

  /** x occurs before y does. */
  predicate OccursBefore(s: seq<string>, x: string, y: string) {
    exists k :: 0 <= k < |s| && s[k] == x && y !in s[..k + 1]
  }

  lemma OccursBeforeInLonger(s: seq<string>, x: string, y: string)
    requires s != [] && OccursBefore(s[..|s| - 1], x, y)
    ensures OccursBefore(s, x, y)
  {
    var init := s[..|s| - 1];
    var k :| 0 <= k < |init| && init[k] == x && y !in init[..k + 1];
    assert init[..k + 1] == s[..k + 1] && s[k] == x;
  }

  lemma LastIsNew(s: seq<string>, x: string)
    requires s != [] && x in s[..|s| - 1] && s[|s| - 1] !in s[..|s| - 1]
    ensures OccursBefore(s, x, s[|s| - 1])
  {
    var init := s[..|s| - 1];
    var k :| 0 <= k < |init| && init[k] == x;
    assert s[..k + 1] == init[..k + 1] && s[k] == x;
  }

  /** The first occurrence of each element, in order. */
  function Dedupe(s: seq<string>): (r: seq<string>)
    ensures NoDuplicates(r)
    ensures forall x :: x in r <==> x in s
  {
    if s == [] then []
    else
      var rest := Dedupe(s[..|s| - 1]);
      assert s == s[..|s| - 1] + [s[|s| - 1]];
      if s[|s| - 1] in rest then rest else rest + [s[|s| - 1]]
  }

  /** The elements keep the order in which they first occur. */
  lemma {:induction false} DedupeKeepsOrder(s: seq<string>, i: nat, j: nat)
    requires i < j < |Dedupe(s)|
    ensures OccursBefore(s, Dedupe(s)[i], Dedupe(s)[j])
  {
    hide OccursBefore;
    if s != [] {
      var init, last := s[..|s| - 1], s[|s| - 1];
      if j < |Dedupe(init)| {
        DedupeKeepsOrder(init, i, j);
        OccursBeforeInLonger(s, Dedupe(s)[i], Dedupe(s)[j]);
      } else {
        assert Dedupe(init)[i] in Dedupe(init);
        LastIsNew(s, Dedupe(s)[i]);
      }
    }
  }

  function AllEvidence(p: EdgePath): seq<string> {
    if p == [] then [] else AllEvidence(p[..|p| - 1]) + p[|p| - 1].evidenceRefs
  }

  /** The identity shown for a node id; the last node listed under an id counts. */
  function IdentityOf(nodes: seq<Node>, id: string): string {
    if nodes == [] then ""
    else if nodes[|nodes| - 1].nodeId == id then nodes[|nodes| - 1].identity
    else IdentityOf(nodes[..|nodes| - 1], id)
  }

  function Shown(search: Search, nodes: seq<Node>, p: EdgePath): ImpactPath {
    var ids := search.NodesOf(p);
    ImpactPath(
      seq(|ids|, k requires 0 <= k < |ids| => IdentityOf(nodes, ids[k])),
      seq(|p|, k requires 0 <= k < |p| => p[k].relationship),
      FirstPresent(["missing", "uncertain"], seq(|p|, k requires 0 <= k < |p| => p[k].status), "valid"),
      FirstPresent(["critical", "high", "medium", "unknown", "low"],
                   seq(|p|, k requires 0 <= k < |p| => p[k].risk), "low"),
      FirstPresent(["uncertain", "medium", "high", "deterministic"],
                   seq(|p|, k requires 0 <= k < |p| => p[k].confidence), "uncertain"),
      Dedupe(AllEvidence(p)))
  }

  predicate Matches(n: Node, requested: string) {
    requested == n.nodeId || requested == n.identity
  }

  function Filter(edges: seq<Edge>, keep: Edge -> bool): seq<Edge> {
    if edges == [] then []
    else
      var last := edges[|edges| - 1];
      Filter(edges[..|edges| - 1], keep) + if keep(last) then [last] else []
  }

  /** All edges that are wanted are kept, as often as they occur, and no others. */
  lemma {:induction false} FilterIsExact(edges: seq<Edge>, keep: Edge -> bool)
    ensures forall e :: multiset(Filter(edges, keep))[e] == if keep(e) then multiset(edges)[e] else 0
  {
    if edges != [] {
      var init, last := edges[..|edges| - 1], edges[|edges| - 1];
      FilterIsExact(init, keep);
      assert edges == init + [last];
    }
  }

  /** What is kept stays in its order. */
  lemma {:induction false} FilterKeepsOrder(a: seq<Edge>, b: seq<Edge>, keep: Edge -> bool)
    ensures Filter(a + b, keep) == Filter(a, keep) + Filter(b, keep)
  {
    hide Filter;
    FilterNext([], a, keep);
    if b == [] {
      assert a + b == a;
    } else {
      var init, last := b[..|b| - 1], b[|b| - 1];
      FilterKeepsOrder(a, init, keep);
      FilterNext([last], a + init, keep);
      FilterNext([last], init, keep);
      assert init + [last] == b && a + init + [last] == a + b;
    }
  }

  lemma FilterNext(more: seq<Edge>, edges: seq<Edge>, keep: Edge -> bool)
    requires |more| <= 1
    ensures Filter([], keep) == []
    ensures Filter(edges + more, keep) == Filter(edges, keep) + if more != [] && keep(more[0]) then more else []
  {
    if more == [] {
      assert edges + more == edges;
    } else {
      assert (edges + more)[..|edges|] == edges && (edges + more)[|edges|] == more[0] && more == [more[0]];
    }
  }

  function Take<T>(s: seq<T>, n: nat): (r: seq<T>)
    ensures r <= s && |r| == if |s| < n then |s| else n
  {
    if |s| <= n then s else s[..n]
  }

  function SearchFrom(nodes: seq<Node>, edges: seq<Edge>, start: string): Search {
    Search(edges, set n | n in nodes :: n.nodeId, start, MaxPaths, MaxNodes)
  }

  /** The whole operation: pick the requested node, list its edges and search from it. */
  method SelectedGraphContext(requested: string, nodes: seq<Node>, edges: seq<Edge>)
    returns (c: Context, ghost paths: seq<EdgePath>)
    ensures c.NothingRequested? <==> requested == ""
    ensures c.NotFound? <==>
              requested != "" && forall n :: n in nodes ==> n.nodeId != requested && n.identity != requested
    ensures c.Found? ==>
              exists i :: && 0 <= i < |nodes| && c.node == nodes[i]
                          && (nodes[i].nodeId == requested || nodes[i].identity == requested)
                          && forall k :: 0 <= k < i ==> nodes[k].nodeId != requested && nodes[k].identity != requested
    ensures c.Found? ==>
              && c.inbound == Take(Filter(edges, (e: Edge) => e.target == c.node.nodeId), 25)
              && c.outbound == Take(Filter(edges, (e: Edge) => e.source == c.node.nodeId), 25)
    ensures c.Found? ==>
              var search := SearchFrom(nodes, edges, c.node.nodeId);
              && search.edges == edges && search.start == c.node.nodeId && search.maxNodes == 4
              && (forall id :: id in search.known <==> exists n :: n in nodes && n.nodeId == id)
              && |c.impactPaths| == |paths| <= 12
              && paths <= search.Full()
              && (|paths| < 12 ==> paths == search.Full())
              && forall k :: 0 <= k < |paths| ==> c.impactPaths[k] == Shown(search, nodes, paths[k])
  {
    hide Search.UpTo, Search.Level;
    paths := [];
    if requested == "" {
      return NothingRequested, paths;
    }
    var i := 0;
    while i < |nodes| && !Matches(nodes[i], requested)
      invariant i <= |nodes|
      invariant forall k :: 0 <= k < i ==> !Matches(nodes[k], requested)
    {
      i := i + 1;
    }
    if i == |nodes| {
      return NotFound(requested), paths;
    }
    var selected := nodes[i];
    var search := SearchFrom(nodes, edges, selected.nodeId);
    var found := search.FindImpactPaths();
    paths := found;
    c := Found(selected,
               Take(Filter(edges, (e: Edge) => e.target == selected.nodeId), MaxListed),
               Take(Filter(edges, (e: Edge) => e.source == selected.nodeId), MaxListed),
               seq(|found|, k requires 0 <= k < |found| => Shown(search, nodes, found[k])));
  }

  // ----- What is shown of a path -----

  /** The identity stands with the node id, in the last node listed under it. */
  ghost predicate IsListedAs(nodes: seq<Node>, id: string, identity: string) {
    exists k :: && 0 <= k < |nodes| && nodes[k] == Node(id, identity)
                && forall j :: k < j < |nodes| ==> nodes[j].nodeId != id
  }

  lemma {:induction false} IdentityIsListed(nodes: seq<Node>, id: string)
    ensures (exists n :: n in nodes && n.nodeId == id) ==> IsListedAs(nodes, id, IdentityOf(nodes, id))
  {
    if n :| n in nodes && n.nodeId == id {
      var init, last := nodes[..|nodes| - 1], nodes[|nodes| - 1];
      if last.nodeId == id {
        assert nodes[|nodes| - 1] == Node(id, IdentityOf(nodes, id));
      } else {
        assert n in init;
        IdentityIsListed(init, id);
        var k :| 0 <= k < |init| && init[k] == Node(id, IdentityOf(init, id))
                 && forall j :: k < j < |init| ==> init[j].nodeId != id;
        assert nodes[k] == init[k] && forall j :: k < j < |nodes| - 1 ==> nodes[j] == init[j];
      }
    }
  }

  /** Some edge of the path is labelled so. */
  predicate HasStatus(p: EdgePath, text: string) {
    exists k :: 0 <= k < |p| && p[k].status == text
  }

  predicate HasRisk(p: EdgePath, text: string) {
    exists k :: 0 <= k < |p| && p[k].risk == text
  }

  predicate HasConfidence(p: EdgePath, text: string) {
    exists k :: 0 <= k < |p| && p[k].confidence == text
  }

  /** The worst status on the way is shown. */
  lemma StatusShown(search: Search, nodes: seq<Node>, p: EdgePath)
    ensures Shown(search, nodes, p).status
         == if HasStatus(p, "missing") then "missing" else if HasStatus(p, "uncertain") then "uncertain" else "valid"
  {
    hide FirstPresent, Dedupe, AllEvidence, IdentityOf, HasStatus, HasRisk, HasConfidence, Search.NodesOf;
    TwoStatuses(p, seq(|p|, k requires 0 <= k < |p| => p[k].status), "missing", "uncertain", "valid");
  }

  lemma TwoStatuses(p: EdgePath, s: seq<string>, a: string, b: string, otherwise: string)
    requires |s| == |p| && forall k :: 0 <= k < |p| ==> s[k] == p[k].status
    ensures FirstPresent([a, b], s, otherwise)
         == if HasStatus(p, a) then a else if HasStatus(p, b) then b else otherwise
  {
    hide FirstPresent, HasStatus;
    AmongStatuses(p, s);
    TwoRanked(a, b, s, otherwise);
  }

  /** And so is the highest risk, where an unknown one stands above a low one. */
  lemma RiskShown(search: Search, nodes: seq<Node>, p: EdgePath)
    ensures Shown(search, nodes, p).risk
         == if HasRisk(p, "critical") then "critical" else if HasRisk(p, "high") then "high"
            else if HasRisk(p, "medium") then "medium" else if HasRisk(p, "unknown") then "unknown" else "low"
  {
    hide FirstPresent, Dedupe, AllEvidence, IdentityOf, HasStatus, HasRisk, HasConfidence, Search.NodesOf;
    FiveRisks(p, seq(|p|, k requires 0 <= k < |p| => p[k].risk), "critical", "high", "medium", "unknown", "low");
  }

  lemma FiveRisks(p: EdgePath, s: seq<string>, a: string, b: string, c: string, d: string, e: string)
    requires |s| == |p| && forall k :: 0 <= k < |p| ==> s[k] == p[k].risk
    ensures FirstPresent([a, b, c, d, e], s, e)
         == if HasRisk(p, a) then a else if HasRisk(p, b) then b else if HasRisk(p, c) then c
            else if HasRisk(p, d) then d else e
  {
    hide FirstPresent, HasRisk;
    AmongRisks(p, s);
    FiveRanked(a, b, c, d, e, s, e);
  }

  /** And the lowest confidence. */
  lemma ConfidenceShown(search: Search, nodes: seq<Node>, p: EdgePath)
    ensures Shown(search, nodes, p).confidence
         == if HasConfidence(p, "uncertain") then "uncertain" else if HasConfidence(p, "medium") then "medium"
            else if HasConfidence(p, "high") then "high"
            else if HasConfidence(p, "deterministic") then "deterministic" else "uncertain"
  {
    hide FirstPresent, Dedupe, AllEvidence, IdentityOf, HasStatus, HasRisk, HasConfidence, Search.NodesOf;
    FourConfidences(p, seq(|p|, k requires 0 <= k < |p| => p[k].confidence), "uncertain", "medium", "high",
                    "deterministic");
  }

  lemma FourConfidences(p: EdgePath, s: seq<string>, a: string, b: string, c: string, d: string)
    requires |s| == |p| && forall k :: 0 <= k < |p| ==> s[k] == p[k].confidence
    ensures FirstPresent([a, b, c, d], s, a)
         == if HasConfidence(p, a) then a else if HasConfidence(p, b) then b else if HasConfidence(p, c) then c
            else if HasConfidence(p, d) then d else a
  {
    hide FirstPresent, HasConfidence;
    AmongConfidences(p, s);
    FourRanked(a, b, c, d, s, a);
  }

  lemma AmongStatuses(p: EdgePath, s: seq<string>)
    requires |s| == |p| && forall k :: 0 <= k < |p| ==> s[k] == p[k].status
    ensures forall x :: x in s <==> HasStatus(p, x)
  {
    forall k | 0 <= k < |p| ensures p[k].status in s { assert s[k] in s; }
  }

  lemma AmongRisks(p: EdgePath, s: seq<string>)
    requires |s| == |p| && forall k :: 0 <= k < |p| ==> s[k] == p[k].risk
    ensures forall x :: x in s <==> HasRisk(p, x)
  {
    forall k | 0 <= k < |p| ensures p[k].risk in s { assert s[k] in s; }
  }

  lemma AmongConfidences(p: EdgePath, s: seq<string>)
    requires |s| == |p| && forall k :: 0 <= k < |p| ==> s[k] == p[k].confidence
    ensures forall x :: x in s <==> HasConfidence(p, x)
  {
    forall k | 0 <= k < |p| ensures p[k].confidence in s { assert s[k] in s; }
  }

  lemma Ranked(first: string, rest: seq<string>, present: seq<string>, otherwise: string)
    ensures FirstPresent([first] + rest, present, otherwise)
         == if first in present then first else FirstPresent(rest, present, otherwise)
    ensures FirstPresent([], present, otherwise) == otherwise
  {
    assert ([first] + rest)[1..] == rest;
  }

  lemma TwoRanked(a: string, b: string, present: seq<string>, otherwise: string)
    ensures FirstPresent([a, b], present, otherwise)
         == if a in present then a else if b in present then b else otherwise
  {
    hide FirstPresent;
    assert [a, b] == [a] + [b] && [b] == [b] + [];
    Ranked(a, [b], present, otherwise);
    Ranked(b, [], present, otherwise);
  }

  lemma FourRanked(a: string, b: string, c: string, d: string, present: seq<string>, otherwise: string)
    ensures FirstPresent([a, b, c, d], present, otherwise)
         == if a in present then a else if b in present then b else if c in present then c
            else if d in present then d else otherwise
  {
    hide FirstPresent;
    assert [a, b, c, d] == [a] + [b, c, d] && [b, c, d] == [b] + [c, d];
    Ranked(a, [b, c, d], present, otherwise);
    Ranked(b, [c, d], present, otherwise);
    TwoRanked(c, d, present, otherwise);
  }

  lemma FiveRanked(a: string, b: string, c: string, d: string, e: string, present: seq<string>, otherwise: string)
    ensures FirstPresent([a, b, c, d, e], present, otherwise)
         == if a in present then a else if b in present then b else if c in present then c
            else if d in present then d else if e in present then e else otherwise
  {
    hide FirstPresent;
    assert [a, b, c, d, e] == [a] + [b, c, d, e];
    Ranked(a, [b, c, d, e], present, otherwise);
    FourRanked(b, c, d, e, present, otherwise);
  }

  lemma {:induction false} EvidenceOfPath(p: EdgePath, q: EdgePath)
    ensures AllEvidence([]) == [] && forall e :: AllEvidence([e]) == e.evidenceRefs
    ensures AllEvidence(p + q) == AllEvidence(p) + AllEvidence(q)
  {
    forall e ensures AllEvidence([e]) == e.evidenceRefs {
      assert [e][..0] == [];
    }
    if q == [] {
      assert p + q == p;
    } else {
      EvidenceOfPath(p, q[..|q| - 1]);
      assert (p + q)[..|p + q| - 1] == p + q[..|q| - 1] && (p + q)[|p + q| - 1] == q[|q| - 1];
    }
  }

  lemma {:induction false} EvidenceIsOfEdges(p: EdgePath)
    ensures forall x :: x in AllEvidence(p) <==> exists k :: 0 <= k < |p| && x in p[k].evidenceRefs
  {
    if p != [] {
      var init, last := p[..|p| - 1], p[|p| - 1];
      EvidenceIsOfEdges(init);
      forall x ensures x in AllEvidence(p) <==> exists k :: 0 <= k < |p| && x in p[k].evidenceRefs {
        if x in last.evidenceRefs {
          assert x in p[|p| - 1].evidenceRefs;
        }
        if k :| 0 <= k < |init| && x in init[k].evidenceRefs {
          assert x in p[k].evidenceRefs;
        }
        if k :| 0 <= k < |p| && x in p[k].evidenceRefs && x !in last.evidenceRefs {
          assert x in init[k].evidenceRefs;
        }
      }
    }
  }

  /**
   * What is shown of a simple path: its resources and relationships in order, from the selected
   * one on, and the references of all its edges, each once.
   */
  lemma PathShown(nodes: seq<Node>, edges: seq<Edge>, selected: Node, p: EdgePath)
    requires selected in nodes && SearchFrom(nodes, edges, selected.nodeId).IsSimplePath(p)
    ensures var shown := Shown(SearchFrom(nodes, edges, selected.nodeId), nodes, p);
            && |shown.nodes| == |p| + 1 && |shown.relationships| == |p|
            && IsListedAs(nodes, selected.nodeId, shown.nodes[0])
            && (forall k :: 0 <= k < |p| ==> IsListedAs(nodes, p[k].target, shown.nodes[k + 1]))
            && (forall k :: 0 <= k < |p| ==> shown.relationships[k] == p[k].relationship)
            && (forall x :: x in shown.evidenceRefs <==> exists k :: 0 <= k < |p| && x in p[k].evidenceRefs)
            && NoDuplicates(shown.evidenceRefs)
  {
    hide FirstPresent, AllEvidence, IdentityOf, IsListedAs;
    var search := SearchFrom(nodes, edges, selected.nodeId);
    EvidenceIsOfEdges(p);
    StartsAt(search, p);
    IdentityIsListed(nodes, selected.nodeId);
    forall k | 0 <= k < |p| ensures IsListedAs(nodes, p[k].target, IdentityOf(nodes, p[k].target)) {
      IdentityIsListed(nodes, p[k].target);
    }
  }

  lemma {:induction false} StartsAt(search: Search, p: EdgePath)
    ensures search.NodesOf(p)[0] == search.start
  {
    if p != [] {
      StartsAt(search, p[..|p| - 1]);
    }
  }
}
