/**
 * What the growth of the dependency graph keeps: every node that was added was made for an end that
 * was asked for, every end has its node, and every edge was read in the graph as it stood when its
 * reference was followed. From this follows when the finished graph says the same.
 */
module GraphHistory {
  import opened Options
  import opened NamespaceGraph

  function Upto(nodes: seq<Node>, k: nat): seq<Node> {
    if k <= |nodes| then nodes[..k] else nodes
  }

  /** The edge as it was read when it was granted. */
  function EdgeAt(nodes: seq<Node>, g: Grant): Edge {
    EdgeOf(Upto(nodes, g.at), g.wish)
  }

  predicate IsCleanEnd(d: End) {
    d.Known? || CleanRef(d.ref)
  }

  ghost predicate CleanRefs(ends: set<End>) {
    forall d :: d in ends ==> IsCleanEnd(d)
  }

  /** A new node: for an own kind, or for a reference that did not have exactly one candidate. */
  ghost predicate MadeFor(before: seq<Node>, n: Node, ends: set<End>) {
    && n == Synthetic(RefOf(n), n.status) && n.identity !in Identities(before)
    && (|| (Made(RefOf(n)) in ends && n.kind in OwnKinds)
        || (Sought(RefOf(n)) in ends && |Candidates(before, RefOf(n))| != 1))
  }

  ghost predicate Grown(inputs: seq<Node>, nodes: seq<Node>, ends: set<End>) {
    inputs <= nodes && forall j :: |inputs| <= j < |nodes| ==> MadeFor(nodes[..j], nodes[j], ends)
  }

  predicate Settled(nodes: seq<Node>, d: End) {
    EndOf(nodes, d) in Identities(nodes)
  }

  /** The end has a node, or at least candidates. */
  predicate Answered(nodes: seq<Node>, d: End) {
    match d
    case Known(identity) => identity in Identities(nodes)
    case Made(ref) => SyntheticIdentity(ref) in Identities(nodes)
    case Sought(ref) => Candidates(nodes, ref) != [] || SyntheticIdentity(ref) in Identities(nodes)
  }

  ghost predicate AllAnswered(nodes: seq<Node>, ends: set<End>) {
    forall d :: d in ends ==> Answered(nodes, d)
  }

  ghost predicate WasSettled(inputs: seq<Node>, nodes: seq<Node>, g: Grant) {
    && |inputs| <= g.at <= |nodes|
    && Settled(Upto(nodes, g.at), g.wish.source) && Settled(Upto(nodes, g.at), g.wish.target)
  }

  /** Every wish was granted, and the edges are the allowed ones among those granted. */
  ghost predicate Recorded(inputs: seq<Node>, nodes: seq<Node>, ends: set<End>, wishes: set<Wish>,
                           grants: set<Grant>, seen: set<Edge>)
  {
    && (forall g :: g in grants ==> g.wish in wishes && WasSettled(inputs, nodes, g))
    && (forall w :: w in wishes ==> w.source in ends && w.target in ends && exists g :: g in grants && g.wish == w)
    && (forall e :: e in seen <==> (Allowed(e) && exists g :: g in grants && EdgeAt(nodes, g) == e))
  }

  // ----- Keeping it -----

  lemma UptoNext(nodes: seq<Node>, n: Node, k: nat)
    requires k <= |nodes|
    ensures Upto(nodes + [n], k) == Upto(nodes, k)
  {
  }

  lemma GrownNext(inputs: seq<Node>, nodes: seq<Node>, ends: set<End>, n: Node, d: End)
    requires Grown(inputs, nodes, ends) && MadeFor(nodes, n, {d})
    ensures Grown(inputs, nodes + [n], ends + {d})
  {
    hide Synthetic, Identities, Candidates, OwnKinds;
    var next := nodes + [n];
    forall j | |inputs| <= j < |next|
      ensures MadeFor(next[..j], next[j], ends + {d})
    {
      if j < |nodes| {
        assert next[..j] == nodes[..j] && MadeFor(nodes[..j], nodes[j], ends);
      } else {
        assert next[..j] == nodes;
      }
    }
  }

  lemma GrownMore(inputs: seq<Node>, nodes: seq<Node>, ends: set<End>, more: set<End>)
    requires Grown(inputs, nodes, ends)
    ensures Grown(inputs, nodes, ends + more)
  {
    hide Synthetic, Identities, Candidates, OwnKinds;
  }

  lemma AnsweredNext(nodes: seq<Node>, ends: set<End>, n: Node)
    requires AllAnswered(nodes, ends)
    ensures AllAnswered(nodes + [n], ends)
  {
    hide SyntheticIdentity, Identities, ClusterScopedKinds;
    IdentitiesStep(nodes, n);
    forall d | d in ends ensures Answered(nodes + [n], d) {
      assert Answered(nodes, d);
      if d.Sought? {
        WithKeyStep(nodes, n, d.ref);
        WithKeyStep(nodes, n, d.ref.(namespace := None));
      }
    }
  }

  lemma SettledIsAnswered(nodes: seq<Node>, d: End)
    requires Settled(nodes, d)
    ensures Answered(nodes, d)
  {
    hide SyntheticIdentity, Identities, Candidates;
  }

  lemma RecordedNext(inputs: seq<Node>, nodes: seq<Node>, ends: set<End>, wishes: set<Wish>, grants: set<Grant>,
                     seen: set<Edge>, n: Node, d: End)
    requires Recorded(inputs, nodes, ends, wishes, grants, seen)
    ensures Recorded(inputs, nodes + [n], ends + {d}, wishes, grants, seen)
  {
    hide Settled, EdgeOf, Upto, Allowed;
    forall g | g in grants ensures Upto(nodes + [n], g.at) == Upto(nodes, g.at) {
      UptoNext(nodes, n, g.at);
    }
    assert forall g :: g in grants ==> EdgeAt(nodes + [n], g) == EdgeAt(nodes, g);
  }

  lemma RecordedMore(inputs: seq<Node>, nodes: seq<Node>, ends: set<End>, wishes: set<Wish>, grants: set<Grant>,
                     seen: set<Edge>, d: End)
    requires Recorded(inputs, nodes, ends, wishes, grants, seen)
    ensures Recorded(inputs, nodes, ends + {d}, wishes, grants, seen)
  {
    hide WasSettled, EdgeAt, Allowed;
  }

  lemma RecordedEdge(inputs: seq<Node>, nodes: seq<Node>, ends: set<End>, wishes: set<Wish>, grants: set<Grant>,
                     seen: set<Edge>, w: Wish)
    requires Recorded(inputs, nodes, ends, wishes, grants, seen) && inputs <= nodes
    requires Settled(nodes, w.source) && Settled(nodes, w.target)
    ensures var e, g := EdgeOf(nodes, w), Grant(w, |nodes|);
            Recorded(inputs, nodes, ends + {w.source, w.target}, wishes + {w}, grants + {g},
                     if Allowed(e) then seen + {e} else seen)
  {
    hide Settled, EdgeOf, Allowed;
    var g := Grant(w, |nodes|);
    assert Upto(nodes, |nodes|) == nodes;
    assert EdgeAt(nodes, g) == EdgeOf(nodes, w) && WasSettled(inputs, nodes, g);
  }

  // ----- The status of what was made -----

  predicate TwoWith(nodes: seq<Node>, key: Ref) {
    exists i, j :: 0 <= i < j < |nodes| && RefOf(nodes[i]) == key && RefOf(nodes[j]) == key
  }

  predicate OneWith(nodes: seq<Node>, key: Ref) {
    exists n :: n in nodes && RefOf(n) == key
  }

  /** Two or more nodes have the key of the reference, or of it without a namespace where that is looked up. */
  predicate IsAmbiguous(nodes: seq<Node>, ref: Ref) {
    || TwoWith(nodes, ref)
    || (ref.kind in ClusterScopedKinds && !OneWith(nodes, ref) && TwoWith(nodes, ref.(namespace := None)))
  }

  /**
   * The status of a node from what it was made for. The releases of Helm labels are present, and so
   * are the phases of the plan; what a selector, a dependency or a manifest reference misses is
   * missing. A reference is uncertain if two nodes might be meant, and missing otherwise, but for
   * the service account every namespace has.
   */
  predicate IsStatusOf(before: seq<Node>, maker: End, phaseIds: set<string>, status: Status) {
    match maker
    case Known(_) => false
    case Made(ref) =>
      if ref.kind == "PlanPhase" then status == if ref.name in phaseIds then Present else Missing
      else if ref.kind == "HelmRelease" then status == Present
      else status == Missing
    case Sought(ref) =>
      if IsAmbiguous(before, ref) then status == Uncertain
      else if ref.kind == "ServiceAccount" && ref.name == "default" && ref.namespace.Some? && ref.namespace.value != ""
      then status == Present
      else status == Missing
  }

  /** The node was made for one of the ends and has the status that goes with it. */
  ghost predicate HasStatus(before: seq<Node>, n: Node, ends: set<End>, phaseIds: set<string>) {
    exists d :: d in ends && !d.Known? && d.ref == RefOf(n) && IsStatusOf(before, d, phaseIds, n.status)
  }

  /** So has every node after the inputs. */
  ghost predicate HaveStatus(inputs: seq<Node>, nodes: seq<Node>, ends: set<End>, phaseIds: set<string>) {
    forall j :: |inputs| <= j < |nodes| ==> HasStatus(nodes[..j], nodes[j], ends, phaseIds)
  }

  lemma HaveStatusNext(inputs: seq<Node>, nodes: seq<Node>, ends: set<End>, phaseIds: set<string>, n: Node, d: End)
    requires HaveStatus(inputs, nodes, ends, phaseIds)
    requires !d.Known? && d.ref == RefOf(n) && IsStatusOf(nodes, d, phaseIds, n.status)
    ensures HaveStatus(inputs, nodes + [n], ends + {d}, phaseIds)
  {
    hide IsStatusOf;
    var next := nodes + [n];
    forall j | |inputs| <= j < |next|
      ensures HasStatus(next[..j], next[j], ends + {d}, phaseIds)
    {
      if j < |nodes| {
        assert next[..j] == nodes[..j] && HasStatus(nodes[..j], nodes[j], ends, phaseIds);
      } else {
        assert next[..j] == nodes && d in ends + {d};
      }
    }
  }

  lemma HaveStatusMore(inputs: seq<Node>, nodes: seq<Node>, ends: set<End>, phaseIds: set<string>, more: set<End>)
    requires HaveStatus(inputs, nodes, ends, phaseIds)
    ensures HaveStatus(inputs, nodes, ends + more, phaseIds)
  {
    hide IsStatusOf;
    forall j | |inputs| <= j < |nodes|
      ensures HasStatus(nodes[..j], nodes[j], ends + more, phaseIds)
    {
      assert HasStatus(nodes[..j], nodes[j], ends, phaseIds);
    }
  }

  lemma OneWithNext(nodes: seq<Node>, n: Node, key: Ref)
    ensures OneWith(nodes + [n], key) <==> OneWith(nodes, key) || RefOf(n) == key
  {
    hide RefOf;
    assert forall m :: m in nodes + [n] <==> m in nodes || m == n;
  }

  lemma TwoWithNext(nodes: seq<Node>, n: Node, key: Ref)
    ensures TwoWith(nodes + [n], key) <==> TwoWith(nodes, key) || (OneWith(nodes, key) && RefOf(n) == key)
  {
    hide RefOf;
    var next := nodes + [n];
    assert next[|nodes|] == n && forall i :: 0 <= i < |nodes| ==> next[i] == nodes[i];
    if m :| m in nodes && RefOf(m) == key {
      var i :| 0 <= i < |nodes| && nodes[i] == m;
      assert next[i] == m;
    }
    if i, j :| 0 <= i < j < |nodes| && RefOf(nodes[i]) == key && RefOf(nodes[j]) == key {
      assert next[i] == nodes[i] && next[j] == nodes[j];
    }
  }

  lemma {:induction false} KeyCounts(nodes: seq<Node>, key: Ref)
    ensures WithKey(nodes, key) != [] <==> OneWith(nodes, key)
    ensures |WithKey(nodes, key)| >= 2 <==> TwoWith(nodes, key)
  {
    if nodes == [] {
      return;
    }
    hide RefOf, OneWith, TwoWith;
    var init, last := nodes[..|nodes| - 1], nodes[|nodes| - 1];
    KeyCounts(init, key);
    assert nodes == init + [last];
    OneWithNext(init, last, key);
    TwoWithNext(init, last, key);
  }

  lemma AmbiguousIff(nodes: seq<Node>, ref: Ref)
    ensures |Candidates(nodes, ref)| > 1 <==> IsAmbiguous(nodes, ref)
  {
    hide WithKey, ClusterScopedKinds, TwoWith, OneWith;
    KeyCounts(nodes, ref);
    KeyCounts(nodes, ref.(namespace := None));
  }

  lemma SoughtStatus(nodes: seq<Node>, ref: Ref, phaseIds: set<string>)
    ensures IsStatusOf(nodes, Sought(ref), phaseIds, StatusOf(nodes, ref))
  {
    hide IsAmbiguous, Candidates;
    AmbiguousIff(nodes, ref);
  }

  /**
   * A node the graph made for itself has the status of its kind, unless the identity was taken by
   * an input or by the node of a reference.
   */
  lemma MadeHasStatus(inputs: seq<Node>, nodes: seq<Node>, ends: set<End>, phaseIds: set<string>, ref: Ref)
    requires HaveStatus(inputs, nodes, ends, phaseIds) && Grown(inputs, nodes, ends)
    requires SyntheticIdentity(ref) in Identities(nodes) && SyntheticIdentity(ref) !in Identities(inputs)
    requires forall d :: d in ends && !d.Known? && SyntheticIdentity(d.ref) == SyntheticIdentity(ref) ==> d == Made(ref)
    ensures exists n :: n in nodes && RefOf(n) == ref && n.identity == SyntheticIdentity(ref)
                        && (ref.kind in {"SelectorTarget", "ManifestArtifact"} ==> n.status == Missing)
                        && (ref.kind == "HelmRelease" ==> n.status == Present)
                        && (ref.kind == "PlanPhase" ==> (n.status == if ref.name in phaseIds then Present else Missing))
  {
    hide SyntheticIdentity, IsAmbiguous, Candidates, OwnKinds, Grown;
    var n :| n in nodes && n.identity == SyntheticIdentity(ref);
    var j :| 0 <= j < |nodes| && nodes[j] == n;
    InputsAreFirst(inputs, nodes, ends);
    assert forall i :: 0 <= i < |inputs| ==> inputs[i] in inputs && nodes[i] == inputs[i];
    MadeAt(inputs, nodes, ends, j);
    MadeIdentity(n);
    assert HasStatus(nodes[..j], n, ends, phaseIds);
  }

  // ----- Every end is as it was asked for -----

  /** No node that is added says something else than its synthetic identity. */
  lemma {:induction false} FaithfulThroughout(inputs: seq<Node>, nodes: seq<Node>, ends: set<End>, k: nat)
    requires Grown(inputs, nodes, ends) && Faithful(inputs) && CleanRefs(ends) && |inputs| <= k <= |nodes|
    ensures Faithful(nodes[..k])
  {
    hide Faithful, SyntheticIdentity, CleanRef, Identities, Candidates, OwnKinds;
    if k == |inputs| {
      assert nodes[..k] == inputs;
    } else {
      FaithfulThroughout(inputs, nodes, ends, k - 1);
      assert MadeFor(nodes[..k - 1], nodes[k - 1], ends);
      assert nodes[..k] == nodes[..k - 1] + [nodes[k - 1]];
      FaithfulStep(nodes[..k - 1], nodes[k - 1]);
    }
  }

  /** There is a node of the kind and name. */
  ghost predicate HasNode(nodes: seq<Node>, ref: Ref) {
    exists n :: n in nodes && n.kind == ref.kind && n.name == ref.name
  }

  /** The identity is that of a node of the kind and name. */
  ghost predicate IsNodeOf(nodes: seq<Node>, identity: string, ref: Ref) {
    exists n :: n in nodes && n.identity == identity && n.kind == ref.kind && n.name == ref.name
  }

  /** Whatever was asked for has a node of its kind and name: references of the graph's own kinds included. */
  lemma EndsAreAsAsked(inputs: seq<Node>, nodes: seq<Node>, ends: set<End>)
    requires Grown(inputs, nodes, ends) && AllAnswered(nodes, ends) && Faithful(inputs) && CleanRefs(ends)
    ensures Faithful(nodes)
    ensures forall d :: d in ends && !d.Known? ==> HasNode(nodes, d.ref)
  {
    hide Grown, Faithful, SyntheticIdentity, CleanRef, Identities, Candidates;
    InputsAreFirst(inputs, nodes, ends);
    FaithfulThroughout(inputs, nodes, ends, |nodes|);
    assert nodes[..|nodes|] == nodes;
    forall d | d in ends && !d.Known? ensures HasNode(nodes, d.ref) {
      AnsweredHasNode(nodes, d);
    }
  }

  lemma InputsAreFirst(inputs: seq<Node>, nodes: seq<Node>, ends: set<End>)
    requires Grown(inputs, nodes, ends)
    ensures inputs <= nodes
  {
  }

  lemma AnsweredHasNode(nodes: seq<Node>, d: End)
    requires Faithful(nodes) && Answered(nodes, d) && !d.Known? && CleanRef(d.ref)
    ensures HasNode(nodes, d.ref)
  {
    hide SyntheticIdentity, CleanRef, Candidates;
    CandidatesAreAsAsked(nodes, d.ref);
    if SyntheticIdentity(d.ref) in Identities(nodes) {
      var n :| n in nodes && n.identity == SyntheticIdentity(d.ref);
      assert n.kind == d.ref.kind;
    } else {
      var n := Candidates(nodes, d.ref)[0];
      assert n in Candidates(nodes, d.ref);
    }
  }

  /** A settled end names a node of its kind and name. */
  lemma SettledIsNodeOf(nodes: seq<Node>, d: End)
    requires Faithful(nodes) && Settled(nodes, d) && !d.Known? && CleanRef(d.ref)
    ensures IsNodeOf(nodes, EndOf(nodes, d), d.ref)
  {
    hide Faithful, EndOf, CleanRef, Identities;
    EndIsAsAsked(nodes, d);
  }

  /** So does every end of an edge: when it was recorded, and still in the finished graph. */
  lemma GrantsAreAsAsked(inputs: seq<Node>, nodes: seq<Node>, ends: set<End>, wishes: set<Wish>,
                         grants: set<Grant>, seen: set<Edge>, g: Grant)
    requires Grown(inputs, nodes, ends) && Faithful(inputs) && CleanRefs(ends)
    requires Recorded(inputs, nodes, ends, wishes, grants, seen) && g in grants
    ensures !g.wish.source.Known? ==> IsNodeOf(nodes, EdgeAt(nodes, g).source, g.wish.source.ref)
    ensures !g.wish.target.Known? ==> IsNodeOf(nodes, EdgeAt(nodes, g).target, g.wish.target.ref)
  {
    hide Grown, Faithful, CleanRef, Settled, EndOf, IsNodeOf;
    assert WasSettled(inputs, nodes, g);
    var back := nodes[..g.at];
    assert Upto(nodes, g.at) == back;
    FaithfulThroughout(inputs, nodes, ends, g.at);
    assert g.wish in wishes && IsCleanEnd(g.wish.source) && IsCleanEnd(g.wish.target);
    if !g.wish.source.Known? {
      SettledIsNodeOf(back, g.wish.source);
      StillNodeOf(back, nodes, EndOf(back, g.wish.source), g.wish.source.ref);
    }
    if !g.wish.target.Known? {
      SettledIsNodeOf(back, g.wish.target);
      StillNodeOf(back, nodes, EndOf(back, g.wish.target), g.wish.target.ref);
    }
  }

  lemma StillNodeOf(before: seq<Node>, after: seq<Node>, identity: string, ref: Ref)
    requires before <= after && IsNodeOf(before, identity, ref)
    ensures IsNodeOf(after, identity, ref)
  {
    var n :| n in before && n.identity == identity && n.kind == ref.kind && n.name == ref.name;
    assert n in after;
  }

  // ----- When an answer changes -----

  /** A reference with one candidate that another node of the very same key joined later. */
  ghost predicate Overtaken(nodes: seq<Node>, at: nat, d: End) {
    && d.Sought? && |Candidates(Upto(nodes, at), d.ref)| == 1
    && exists j :: at <= j < |nodes| && RefOf(nodes[j]) == d.ref
  }

  lemma KindsAreApart(kind: string)
    ensures !(kind in OwnKinds && kind in ClusterScopedKinds)
  {}

  lemma PrefixStep(nodes: seq<Node>, k: nat)
    requires k < |nodes|
    ensures nodes[..k + 1] == nodes[..k] + [nodes[k]]
  {}

  /** While no node of its own key comes, a single candidate stays the single candidate. */
  lemma {:induction false} OneCandidateStays(inputs: seq<Node>, nodes: seq<Node>, ends: set<End>, ref: Ref, t: nat,
      k: nat)
    requires Grown(inputs, nodes, ends) && |inputs| <= t <= k <= |nodes|
    requires |Candidates(nodes[..t], ref)| == 1
    requires forall j :: t <= j < k ==> RefOf(nodes[j]) != ref
    ensures Candidates(nodes[..k], ref) == Candidates(nodes[..t], ref)
  {
    hide WithKey, Synthetic, Identities, Grown, OwnKinds, ClusterScopedKinds;
    if k > t {
      OneCandidateStays(inputs, nodes, ends, ref, t, k - 1);
      var before, n := nodes[..k - 1], nodes[k - 1];
      MadeAt(inputs, nodes, ends, k - 1);
      PrefixStep(nodes, k - 1);
      WithKeyStep(before, n, ref);
      WithKeyStep(before, n, ref.(namespace := None));
      KindsAreApart(ref.kind);
      WideHasItsOwn(before, ref);
    }
  }

  lemma MadeAt(inputs: seq<Node>, nodes: seq<Node>, ends: set<End>, j: nat)
    requires Grown(inputs, nodes, ends) && |inputs| <= j < |nodes|
    ensures MadeFor(nodes[..j], nodes[j], ends)
  {}

  /** What a cluster-scoped reference finds without its namespace, the bare reference finds as its own. */
  lemma WideHasItsOwn(nodes: seq<Node>, ref: Ref)
    ensures var wide := ref.(namespace := None);
            WithKey(nodes, wide) != [] ==> Candidates(nodes, wide) == WithKey(nodes, wide)
  {
    hide WithKey;
  }

  /** The node that overtakes a reference is one the graph made for itself, under a new identity. */
  lemma OvertakerIsMade(inputs: seq<Node>, nodes: seq<Node>, ends: set<End>, ref: Ref, t: nat) returns (j: nat)
    requires Grown(inputs, nodes, ends) && |inputs| <= t <= |nodes| && Overtaken(nodes, t, Sought(ref))
    ensures t <= j < |nodes| && RefOf(nodes[j]) == ref && nodes[j].identity == SyntheticIdentity(ref)
    ensures nodes[j].identity !in Identities(nodes[..j]) && ref.kind in OwnKinds && Made(ref) in ends
  {
    hide Candidates, SyntheticIdentity, Identities, OwnKinds, Grown;
    assert Upto(nodes, t) == nodes[..t];
    j :| t <= j < |nodes| && RefOf(nodes[j]) == ref;
    j := FirstWith(nodes, ref, t, j);
    OneCandidateStays(inputs, nodes, ends, ref, t, j);
    MadeAt(inputs, nodes, ends, j);
  }

  lemma {:induction false} FirstWith(nodes: seq<Node>, ref: Ref, t: nat, j: nat) returns (first: nat)
    requires t <= j < |nodes| && RefOf(nodes[j]) == ref
    ensures t <= first <= j && RefOf(nodes[first]) == ref && forall i :: t <= i < first ==> RefOf(nodes[i]) != ref
  {
    first := t;
    while RefOf(nodes[first]) != ref
      invariant t <= first <= j && forall i :: t <= i < first ==> RefOf(nodes[i]) != ref
      decreases j - first
    {
      first := first + 1;
    }
  }

  /** An overtaken reference reads as its synthetic node at the end, and no reference reads as its candidate. */
  lemma OvertakenMoves(inputs: seq<Node>, nodes: seq<Node>, ends: set<End>, ref: Ref, t: nat)
    requires Grown(inputs, nodes, ends) && |inputs| <= t <= |nodes| && Overtaken(nodes, t, Sought(ref))
    ensures EndOf(nodes, Sought(ref)) == SyntheticIdentity(ref) && SyntheticIdentity(ref) !in Identities(nodes[..t])
    ensures EndOf(nodes[..t], Sought(ref)) in Identities(nodes[..t])
    ensures EndOf(nodes[..t], Sought(ref)) != EndOf(nodes, Sought(ref))
  {
    hide SyntheticIdentity, Identities, Grown, WithKey, OwnKinds, ClusterScopedKinds;
    assert Upto(nodes, t) == nodes[..t];
    var j := OvertakerIsMade(inputs, nodes, ends, ref, t);
    ResolvedIsPresent(nodes[..t], ref);
    Earlier(nodes, t, j);
    FoundUnderKey(nodes, nodes[j]);
  }

  lemma Earlier(nodes: seq<Node>, t: nat, j: nat)
    requires t <= j <= |nodes|
    ensures Identities(nodes[..t]) <= Identities(nodes[..j])
  {
    assert forall n :: n in nodes[..t] ==> n in nodes[..j];
  }

  lemma FoundUnderKey(nodes: seq<Node>, n: Node)
    requires n in nodes && n.identity == SyntheticIdentity(RefOf(n))
    ensures Resolved(nodes, RefOf(n)) == SyntheticIdentity(RefOf(n)) && n in WithKey(nodes, RefOf(n))
  {
    hide SyntheticIdentity, WithKey, ClusterScopedKinds;
    WithKeyMembers(nodes, RefOf(n));
  }

  lemma {:induction false} AnswerStays(inputs: seq<Node>, nodes: seq<Node>, ends: set<End>, ref: Ref, t: nat, k: nat)
    requires Grown(inputs, nodes, ends) && Faithful(inputs) && CleanRefs(ends) && CleanRef(ref)
    requires |inputs| <= t <= k <= |nodes| && Settled(nodes[..t], Sought(ref)) && !Overtaken(nodes, t, Sought(ref))
    ensures Resolved(nodes[..k], ref) == Resolved(nodes[..t], ref) && Settled(nodes[..k], Sought(ref))
  {
    hide Faithful, SyntheticIdentity, CleanRef, Identities, Candidates, Grown, OwnKinds, Synthetic, Resolved, WithKey;
    if k > t {
      AnswerStays(inputs, nodes, ends, ref, t, k - 1);
      FaithfulThroughout(inputs, nodes, ends, k - 1);
      MadeAt(inputs, nodes, ends, k - 1);
      PrefixStep(nodes, k - 1);
      IdentitiesStep(nodes[..k - 1], nodes[k - 1]);
      MadeIdentity(nodes[k - 1]);
      AnswerMovesIff(nodes[..k - 1], ref, nodes[k - 1]);
      assert Upto(nodes, t) == nodes[..t];
      WithoutOne(nodes[..t], ref);
      NoMove(nodes[..k - 1], ref, nodes[k - 1], ends, Resolved(nodes[..t], ref), |Candidates(nodes[..t], ref)| == 1);
    }
  }

  lemma NoMove(before: seq<Node>, ref: Ref, n: Node, ends: set<End>, answer: string, wasOne: bool)
    requires MadeFor(before, n, ends) && Resolved(before, ref) == answer
    requires !wasOne ==> answer == SyntheticIdentity(ref)
    requires wasOne ==> RefOf(n) != ref
    ensures |Candidates(before, ref)| == 1 ==> RefOf(n) != ref && RefOf(n) != RefOf(Candidates(before, ref)[0])
  {
    hide SyntheticIdentity, Identities, WithKey, OwnKinds, ClusterScopedKinds;
    CandidateRefs(before, ref);
    KindsAreApart(ref.kind);
    WideHasItsOwn(before, ref);
    MadeIdentity(n);
  }

  lemma MadeIdentity(n: Node)
    ensures n == Synthetic(RefOf(n), n.status) ==> n.identity == SyntheticIdentity(RefOf(n))
  {
    hide SyntheticIdentity;
  }

  lemma WithoutOne(nodes: seq<Node>, ref: Ref)
    ensures |Candidates(nodes, ref)| != 1 ==> Resolved(nodes, ref) == SyntheticIdentity(ref)
  {
    hide SyntheticIdentity, Candidates;
  }

  /** A settled end reads differently in the finished graph exactly when it was overtaken. */
  lemma EndMovesIff(inputs: seq<Node>, nodes: seq<Node>, ends: set<End>, d: End, t: nat)
    requires Grown(inputs, nodes, ends) && Faithful(inputs) && CleanRefs(ends) && IsCleanEnd(d)
    requires |inputs| <= t <= |nodes| && Settled(nodes[..t], d)
    ensures EndOf(nodes, d) != EndOf(nodes[..t], d) <==> Overtaken(nodes, t, d)
  {
    hide Grown, Faithful, SyntheticIdentity, CleanRef, Resolved, Overtaken;
    if d.Sought? {
      if Overtaken(nodes, t, d) {
        OvertakenMoves(inputs, nodes, ends, d.ref, t);
      } else {
        AnswerStays(inputs, nodes, ends, d.ref, t, |nodes|);
        assert nodes[..|nodes|] == nodes;
      }
    } else {
      OnlySoughtIsOvertaken(nodes, t, d);
    }
  }

  lemma OnlySoughtIsOvertaken(nodes: seq<Node>, t: nat, d: End)
    requires !d.Sought?
    ensures !Overtaken(nodes, t, d)
  {}

  /** Nothing that is asked for reads as the candidate of an overtaken reference in the finished graph. */
  lemma OvertakenIsLost(inputs: seq<Node>, nodes: seq<Node>, ends: set<End>, ref: Ref, t: nat, other: End)
    requires Grown(inputs, nodes, ends) && Faithful(inputs) && CleanRefs(ends) && UniqueIdentities(nodes)
    requires |inputs| <= t <= |nodes| && Overtaken(nodes, t, Sought(ref))
    requires !other.Known? && IsCleanEnd(other)
    ensures EndOf(nodes, other) != EndOf(nodes[..t], Sought(ref))
  {
    hide Grown, Faithful, SyntheticIdentity, CleanRef, Identities, WithKey, Overtaken, UniqueIdentities, OwnKinds;
    var j := OvertakerIsMade(inputs, nodes, ends, ref, t);
    OvertakenMoves(inputs, nodes, ends, ref, t);
    var c := OneCandidate(nodes, t, ref);
    KindsAreApart(ref.kind);
    CandidateRefs(nodes[..t], ref);
    assert RefOf(c) == ref;
    FoundUnderKey(nodes, nodes[j]);
    WithKeyMembers(nodes, ref);
    FaithfulThroughout(inputs, nodes, ends, |nodes|) by { InputsAreFirst(inputs, nodes, ends); }
    assert nodes[..|nodes|] == nodes;
    NotByIdentity(nodes, c, ref, other.ref);
    if other.Sought? {
      NotByCandidate(nodes, c, nodes[j], other.ref);
    }
  }

  lemma OneCandidate(nodes: seq<Node>, t: nat, ref: Ref) returns (c: Node)
    requires t <= |nodes| && Overtaken(nodes, t, Sought(ref))
    ensures Candidates(nodes[..t], ref) == [c] && c in nodes && c.identity == EndOf(nodes[..t], Sought(ref))
    ensures c in nodes[..t]
  {
    hide WithKey, SyntheticIdentity;
    assert Upto(nodes, t) == nodes[..t];
    c := Candidates(nodes[..t], ref)[0];
    CandidateRefs(nodes[..t], ref);
    assert c in nodes[..t];
  }

  /** A node that does not carry its own synthetic identity carries that of no other clean reference. */
  lemma NotByIdentity(nodes: seq<Node>, c: Node, ref: Ref, other: Ref)
    requires Faithful(nodes) && c in nodes && RefOf(c) == ref && c.identity != SyntheticIdentity(ref) && CleanRef(other)
    ensures c.identity != SyntheticIdentity(other)
  {
    hide SyntheticIdentity, CleanRef;
    if c.identity == SyntheticIdentity(other) {
      SamePlace(ref, other);
    }
  }

  /** No reference has the node as its only candidate when another one has the same key. */
  lemma NotByCandidate(nodes: seq<Node>, c: Node, n: Node, other: Ref)
    requires UniqueIdentities(nodes) && c in nodes && n in nodes && RefOf(n) == RefOf(c) && n.identity != c.identity
    requires c.kind !in ClusterScopedKinds
    ensures |Candidates(nodes, other)| == 1 ==> Candidates(nodes, other)[0].identity != c.identity
  {
    hide WithKey, UniqueIdentities, ClusterScopedKinds;
    WithKeyMembers(nodes, other);
    WithKeyMembers(nodes, RefOf(c));
    CandidateRefs(nodes, other);
    if |Candidates(nodes, other)| == 1 {
      var x := Candidates(nodes, other)[0];
      SameNodeByIdentity(nodes, x, c);
      assert x.identity == c.identity ==> other == RefOf(c) && WithKey(nodes, other) == [c];
      assert n in WithKey(nodes, RefOf(c));
    }
  }

  lemma SameNodeByIdentity(nodes: seq<Node>, a: Node, b: Node)
    requires UniqueIdentities(nodes) && a in nodes && b in nodes
    ensures a.identity == b.identity ==> a == b
  {
    var i, j :| 0 <= i < |nodes| && 0 <= j < |nodes| && nodes[i] == a && nodes[j] == b;
  }

  // ----- When the finished graph is exact -----

  /** The edges are the allowed ones among those asked for, with every reference read in the finished graph. */
  ghost predicate IsExact(nodes: seq<Node>, edges: seq<Edge>, wishes: set<Wish>) {
    forall e :: e in edges <==> (Allowed(e) && exists w :: w in wishes && EdgeOf(nodes, w) == e)
  }

  /** References of the graph's own kinds are asked for by manifests only, in the direction of their type. */
  ghost predicate IsShaped(w: Wish) {
    && w.edgeType != UnlistedType
    && (w.edgeType in ReferenceTypes ==> SoughtEnd(w).Sought? && GivenEnd(w).Known?)
    && (w.edgeType !in ReferenceTypes && w.source.Sought? ==> w.source.ref.kind !in OwnKinds)
    && (w.edgeType !in ReferenceTypes && w.target.Sought? ==> w.target.ref.kind !in OwnKinds)
  }

  ghost predicate IsOvertaken(nodes: seq<Node>, g: Grant) {
    Overtaken(nodes, g.at, g.wish.source) || Overtaken(nodes, g.at, g.wish.target)
  }

  /** The end of a wish that is resolved, if its type is one of manifests. */
  function SoughtEnd(w: Wish): End {
    if IsOutgoing(w.edgeType) then w.target else w.source
  }

  function GivenEnd(w: Wish): End {
    if IsOutgoing(w.edgeType) then w.source else w.target
  }

  lemma OvertakenShape(inputs: seq<Node>, nodes: seq<Node>, ends: set<End>, g: Grant)
    requires Grown(inputs, nodes, ends) && |inputs| <= g.at <= |nodes| && IsShaped(g.wish) && IsOvertaken(nodes, g)
    ensures g.wish.edgeType in ReferenceTypes && SoughtEnd(g.wish).Sought? && GivenEnd(g.wish).Known?
    ensures Overtaken(nodes, g.at, SoughtEnd(g.wish))
  {
    hide Grown, OwnKinds, Overtaken, ReferenceTypes;
    forall d | d == g.wish.source || d == g.wish.target
      ensures Overtaken(nodes, g.at, d) ==> d.Sought? && d.ref.kind in OwnKinds
    {
      if Overtaken(nodes, g.at, d) {
        OvertakenIsSought(nodes, g.at, d);
        var j := OvertakerIsMade(inputs, nodes, ends, d.ref, g.at);
      }
    }
  }

  lemma OvertakenIsSought(nodes: seq<Node>, t: nat, d: End)
    requires Overtaken(nodes, t, d)
    ensures d.Sought? && d == Sought(d.ref)
  {}

  /** An edge that was read of an overtaken reference is not among those asked for in the finished graph. */
  lemma OvertakenEdgeIsWrong(inputs: seq<Node>, nodes: seq<Node>, ends: set<End>, g: Grant, w: Wish)
    requires Grown(inputs, nodes, ends) && Faithful(inputs) && CleanRefs(ends) && UniqueIdentities(nodes)
    requires |inputs| <= g.at <= |nodes| && IsShaped(g.wish) && IsOvertaken(nodes, g)
    requires IsShaped(w) && IsCleanEnd(w.source) && IsCleanEnd(w.target)
    ensures EdgeOf(nodes, w) != EdgeAt(nodes, g)
  {
    hide Grown, Faithful, Overtaken, UniqueIdentities, EndOf, CleanRef, OwnKinds, ReferenceTypes, IsOvertaken,
        CleanRefs;
    OvertakenShape(inputs, nodes, ends, g);
    assert Upto(nodes, g.at) == nodes[..g.at];
    if w.edgeType == g.wish.edgeType {
      var d := SoughtEnd(g.wish);
      OvertakenIsSought(nodes, g.at, d);
      OvertakenIsLost(inputs, nodes, ends, d.ref, g.at, SoughtEnd(w));
    }
  }

  /** As it reads in the finished graph, an overtaken reference asks for an edge that may stand there. */
  lemma OvertakenEdgeIsAllowed(inputs: seq<Node>, nodes: seq<Node>, ends: set<End>, g: Grant)
    requires Grown(inputs, nodes, ends) && WasSettled(inputs, nodes, g) && IsShaped(g.wish) && IsOvertaken(nodes, g)
    ensures Allowed(EdgeOf(nodes, g.wish))
  {
    hide Grown, Overtaken, SyntheticIdentity, Resolved, OwnKinds, ReferenceTypes, IsOvertaken, Identities;
    OvertakenShape(inputs, nodes, ends, g);
    assert Upto(nodes, g.at) == nodes[..g.at];
    var d := SoughtEnd(g.wish);
    OvertakenIsSought(nodes, g.at, d);
    OvertakenMoves(inputs, nodes, ends, d.ref, g.at);
    assert EndOf(nodes[..g.at], GivenEnd(g.wish)) == GivenEnd(g.wish).identity;
    assert GivenEnd(g.wish).identity in Identities(nodes[..g.at]);
  }

  lemma NotOvertakenReadsSame(inputs: seq<Node>, nodes: seq<Node>, ends: set<End>, g: Grant)
    requires Grown(inputs, nodes, ends) && Faithful(inputs) && CleanRefs(ends) && WasSettled(inputs, nodes, g)
    requires IsCleanEnd(g.wish.source) && IsCleanEnd(g.wish.target) && !IsOvertaken(nodes, g)
    ensures EdgeAt(nodes, g) == EdgeOf(nodes, g.wish)
  {
    hide Grown, Faithful, Overtaken, EndOf, CleanRef, CleanRefs;
    assert Upto(nodes, g.at) == nodes[..g.at];
    EndMovesIff(inputs, nodes, ends, g.wish.source, g.at);
    EndMovesIff(inputs, nodes, ends, g.wish.target, g.at);
  }

  /**
   * What an overtaken reference does to exactness, unless it is one of a resource to itself that
   * was followed again.
   */
  ghost predicate IsRepaired(nodes: seq<Node>, edges: seq<Edge>, g: Grant) {
    !Allowed(EdgeAt(nodes, g)) && EdgeOf(nodes, g.wish) in edges
  }

  /**
   * The finished graph is exact if and only if no reference was overtaken: followed while a
   * resource was its only candidate, which a node the graph made under the same kind, namespace and
   * name joined later. The one exception is a reference of a resource to itself, which gives no
   * edge when it is followed, if the edge it stands for at the end was recorded all the same.
   */
  lemma ExactIff(inputs: seq<Node>, nodes: seq<Node>, ends: set<End>, wishes: set<Wish>, grants: set<Grant>,
                 seen: set<Edge>, edges: seq<Edge>)
    requires Grown(inputs, nodes, ends) && Faithful(inputs) && CleanRefs(ends) && UniqueIdentities(nodes)
    requires Recorded(inputs, nodes, ends, wishes, grants, seen) && forall e :: e in edges <==> e in seen
    requires forall w :: w in wishes ==> IsShaped(w)
    ensures IsExact(nodes, edges, wishes)
       <==> forall g :: g in grants && IsOvertaken(nodes, g) ==> IsRepaired(nodes, edges, g)
  {
    hide Grown, Faithful, UniqueIdentities, EdgeOf, EdgeAt, CleanRef, IsShaped, IsOvertaken, Allowed, WasSettled;
    assert forall w :: w in wishes ==> IsCleanEnd(w.source) && IsCleanEnd(w.target);
    if IsExact(nodes, edges, wishes) {
      forall g | g in grants && IsOvertaken(nodes, g) ensures IsRepaired(nodes, edges, g) {
        ExactIsRepaired(inputs, nodes, ends, wishes, grants, seen, edges, g);
      }
    }
    if forall g :: g in grants && IsOvertaken(nodes, g) ==> IsRepaired(nodes, edges, g) {
      RepairedIsExact(inputs, nodes, ends, wishes, grants, seen, edges);
    }
  }

  lemma ExactIsRepaired(inputs: seq<Node>, nodes: seq<Node>, ends: set<End>, wishes: set<Wish>, grants: set<Grant>,
                        seen: set<Edge>, edges: seq<Edge>, g: Grant)
    requires Grown(inputs, nodes, ends) && Faithful(inputs) && CleanRefs(ends) && UniqueIdentities(nodes)
    requires Recorded(inputs, nodes, ends, wishes, grants, seen) && forall e :: e in edges <==> e in seen
    requires forall w :: w in wishes ==> IsShaped(w)
    requires IsExact(nodes, edges, wishes) && g in grants && IsOvertaken(nodes, g)
    ensures IsRepaired(nodes, edges, g)
  {
    hide Grown, Faithful, UniqueIdentities, EdgeOf, EdgeAt, CleanRef, IsShaped, IsOvertaken, Allowed;
    assert g.wish in wishes && WasSettled(inputs, nodes, g);
    OvertakenEdgeIsAllowed(inputs, nodes, ends, g);
    forall w | w in wishes ensures EdgeOf(nodes, w) != EdgeAt(nodes, g) {
      assert IsCleanEnd(w.source) && IsCleanEnd(w.target);
      OvertakenEdgeIsWrong(inputs, nodes, ends, g, w);
    }
    assert Allowed(EdgeAt(nodes, g)) ==> EdgeAt(nodes, g) in edges;
  }

  lemma RepairedIsExact(inputs: seq<Node>, nodes: seq<Node>, ends: set<End>, wishes: set<Wish>, grants: set<Grant>,
                        seen: set<Edge>, edges: seq<Edge>)
    requires Grown(inputs, nodes, ends) && Faithful(inputs) && CleanRefs(ends)
    requires Recorded(inputs, nodes, ends, wishes, grants, seen) && forall e :: e in edges <==> e in seen
    requires forall g :: g in grants && IsOvertaken(nodes, g) ==> IsRepaired(nodes, edges, g)
    ensures IsExact(nodes, edges, wishes)
  {
    hide Grown, Faithful, EdgeOf, EdgeAt, CleanRef, IsOvertaken, Allowed, WasSettled;
    forall g | g in grants && !IsOvertaken(nodes, g) ensures EdgeAt(nodes, g) == EdgeOf(nodes, g.wish) {
      assert g.wish in wishes && IsCleanEnd(g.wish.source) && IsCleanEnd(g.wish.target);
      NotOvertakenReadsSame(inputs, nodes, ends, g);
    }
    forall e ensures e in edges <==> (Allowed(e) && exists w :: w in wishes && EdgeOf(nodes, w) == e) {
      if e in edges {
        var g :| g in grants && EdgeAt(nodes, g) == e;
        assert g.wish in wishes && EdgeOf(nodes, g.wish) == e;
      }
      if w :| w in wishes && EdgeOf(nodes, w) == e && Allowed(e) {
        var g :| g in grants && g.wish == w;
      }
    }
  }

  /** Without references of the graph's own kinds nothing is overtaken, and the graph is exact. */
  lemma CleanIsExact(inputs: seq<Node>, nodes: seq<Node>, ends: set<End>, wishes: set<Wish>, grants: set<Grant>,
                     seen: set<Edge>, edges: seq<Edge>)
    requires Grown(inputs, nodes, ends) && Faithful(inputs) && AllClean(ends)
    requires Recorded(inputs, nodes, ends, wishes, grants, seen) && forall e :: e in edges <==> e in seen
    ensures IsExact(nodes, edges, wishes)
  {
    hide Grown, Faithful, EdgeOf, EdgeAt, CleanRef, Allowed, OwnKinds, Overtaken;
    assert forall d :: d in ends ==> CleanEnd(d) && IsCleanEnd(d);
    forall g | g in grants ensures !IsOvertaken(nodes, g) {
      assert g.wish in wishes && WasSettled(inputs, nodes, g);
      CleanIsNotOvertaken(inputs, nodes, ends, g.wish.source, g.at);
      CleanIsNotOvertaken(inputs, nodes, ends, g.wish.target, g.at);
    }
    RepairedIsExact(inputs, nodes, ends, wishes, grants, seen, edges);
  }

  lemma CleanIsNotOvertaken(inputs: seq<Node>, nodes: seq<Node>, ends: set<End>, d: End, t: nat)
    requires Grown(inputs, nodes, ends) && CleanEnd(d) && |inputs| <= t <= |nodes|
    ensures !Overtaken(nodes, t, d)
  {
    hide Grown, CleanRef, OwnKinds, Overtaken;
    if Overtaken(nodes, t, d) {
      OvertakenIsSought(nodes, t, d);
      var j := OvertakerIsMade(inputs, nodes, ends, d.ref, t);
    }
  }

  /**
   * In terms of what is asked for: a reference with a single candidate is overtaken exactly when
   * the graph makes a node for it that it did not have yet. Namespaces that read as no namespace
   * are left aside, as they share identities but not keys.
   */
  lemma OvertakenIffMade(inputs: seq<Node>, nodes: seq<Node>, ends: set<End>, ref: Ref, t: nat)
    requires Grown(inputs, nodes, ends) && Faithful(inputs) && CleanRefs(ends) && AllAnswered(nodes, ends)
    requires CleanRef(ref) && Place(ref.namespace) != "_cluster" && |inputs| <= t <= |nodes|
    ensures Overtaken(nodes, t, Sought(ref)) <==>
              && |Candidates(nodes[..t], ref)| == 1
              && SyntheticIdentity(ref) !in Identities(nodes[..t]) && Made(ref) in ends
  {
    hide Grown, Faithful, SyntheticIdentity, CleanRef, Candidates, OwnKinds;
    assert Upto(nodes, t) == nodes[..t];
    if Overtaken(nodes, t, Sought(ref)) {
      var j := OvertakerIsMade(inputs, nodes, ends, ref, t);
      OvertakenMoves(inputs, nodes, ends, ref, t);
    }
    if SyntheticIdentity(ref) !in Identities(nodes[..t]) && Made(ref) in ends {
      assert Answered(nodes, Made(ref));
      MadeStandsUnderKey(inputs, nodes, ends, ref, t);
    }
  }

  lemma MadeStandsUnderKey(inputs: seq<Node>, nodes: seq<Node>, ends: set<End>, ref: Ref, t: nat)
    requires Grown(inputs, nodes, ends) && Faithful(inputs) && CleanRefs(ends)
    requires CleanRef(ref) && Place(ref.namespace) != "_cluster" && |inputs| <= t <= |nodes|
    requires SyntheticIdentity(ref) in Identities(nodes) && SyntheticIdentity(ref) !in Identities(nodes[..t])
    ensures exists j :: t <= j < |nodes| && RefOf(nodes[j]) == ref
  {
    hide Grown, SyntheticIdentity, CleanRef, OwnKinds;
    FaithfulThroughout(inputs, nodes, ends, |nodes|);
    assert nodes[..|nodes|] == nodes;
    assert forall i :: 0 <= i < t ==> nodes[i] in nodes[..t];
    var j :| 0 <= j < |nodes| && nodes[j].identity == SyntheticIdentity(ref);
    assert RefOf(nodes[j]) == ref;
  }
}
