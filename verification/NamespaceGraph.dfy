/**
 * The Kubernetes dependency graph (namespace_twin/dependency_graph.py): its nodes and edges, how a
 * reference is resolved while the graph grows, and which edges the resources and the plan ask for.
 * What a manifest refers to, selects and defines is taken as already read from it.
 */
module NamespaceGraph {
  import opened Options
  import Text

  datatype EdgeType =
    | ConfigmapRef | CrdOwnsCustomResource | HelmOwnsResource | OwnerReference | PlanApplies | PlanDependsOn
    | PvcRef | RbacRoleRef | RbacSubject | RouteBackend | SecretNameRef | SelectorMatches | ServiceAccountRef
    | UnlistedType

  datatype Status = Present | Missing | Uncertain

  datatype Ref = Ref(kind: string, namespace: Option<string>, name: string)

  const ReferenceTypes :=
    {ConfigmapRef, OwnerReference, PvcRef, RbacRoleRef, RbacSubject, RouteBackend, SecretNameRef, ServiceAccountRef}

  type ReferenceType = t: EdgeType | t in ReferenceTypes witness OwnerReference

  // A reference read from a manifest, in the order of reading.
  datatype Link =
    | Reference(ref: Ref, edgeType: ReferenceType)
    | Helm(release: string)

  /** Backends and subjects are pointed to by the resource; all other references point to it. */
  predicate IsOutgoing(t: EdgeType) {
    t == RouteBackend || t == RbacSubject
  }

  datatype Node = Node(identity: string, kind: string, namespace: Option<string>, name: string,
                       status: Status, synthetic: bool, links: seq<Link>, path: string,
                       labels: map<string, string>, selector: map<string, string>, selectorName: string,
                       defines: Option<(string, string)>, apiGroup: string)

  datatype Edge = Edge(source: string, target: string, edgeType: EdgeType)

  datatype Phase = Phase(id: string, dependsOn: set<string>, manifestRefs: seq<string>)

  // One end of an edge as it is asked for: a resource at hand, a node the graph makes for its own
  // bookkeeping, or whatever a reference is resolved to.
  datatype End = Known(identity: string) | Made(ref: Ref) | Sought(ref: Ref)

  datatype Wish = Wish(source: End, target: End, edgeType: EdgeType)

  const ClusterScopedKinds := {"ClusterRole", "CustomResourceDefinition", "Namespace"}
  const WorkloadKinds := {"CronJob", "DaemonSet", "Deployment", "Job", "Pod", "StatefulSet"}
  const OwnKinds := {"HelmRelease", "ManifestArtifact", "PlanPhase", "SelectorTarget"}
  const KnownGroups :=
    {"admissionregistration.k8s.io", "apiextensions.k8s.io", "apps", "authentication.k8s.io",
     "authorization.k8s.io", "autoscaling", "batch", "certificates.k8s.io", "coordination.k8s.io",
     "discovery.k8s.io", "events.k8s.io", "flowcontrol.apiserver.k8s.io", "networking.k8s.io",
     "reference.esda", "node.k8s.io", "policy", "rbac.authorization.k8s.io", "scheduling.k8s.io",
     "storage.k8s.io"}

  function RefOf(n: Node): Ref {
    Ref(n.kind, n.namespace, n.name)
  }

  function SyntheticPrefix(): string { "reference.esda/v1:" }

  function Place(namespace: Option<string>): string {
    if namespace.Some? && namespace.value != "" then namespace.value else "_cluster"
  }

  function SyntheticIdentity(ref: Ref): string {
    SyntheticPrefix() + (ref.kind + ":" + (Place(ref.namespace) + ":" + ref.name))
  }

  function Synthetic(ref: Ref, status: Status): Node {
    Node(SyntheticIdentity(ref), ref.kind, ref.namespace, ref.name, status, true, [], "", map[], map[], "", None,
         "reference.esda")
  }

  function Identities(nodes: seq<Node>): set<string> {
    set n | n in nodes :: n.identity
  }

  // ---------------------------------------------------------------- resolving

  /** The nodes with a key, in order. */
  function WithKey(nodes: seq<Node>, key: Ref): seq<Node> {
    if nodes == [] then []
    else
      var last := nodes[|nodes| - 1];
      WithKey(nodes[..|nodes| - 1], key) + if RefOf(last) == key then [last] else []
  }

  /** The nodes a reference may mean; a cluster-scoped kind is looked up without a namespace too. */
  function Candidates(nodes: seq<Node>, ref: Ref): seq<Node> {
    var own := WithKey(nodes, ref);
    if own == [] && ref.kind in ClusterScopedKinds then WithKey(nodes, ref.(namespace := None)) else own
  }

  function Resolved(nodes: seq<Node>, ref: Ref): string {
    var found := Candidates(nodes, ref);
    if |found| == 1 then found[0].identity else SyntheticIdentity(ref)
  }

  function StatusOf(nodes: seq<Node>, ref: Ref): Status {
    if |Candidates(nodes, ref)| > 1 then Uncertain
    else if ref.kind == "ServiceAccount" && ref.name == "default" && ref.namespace.Some? && ref.namespace.value != ""
    then Present
    else Missing
  }

  function EndOf(nodes: seq<Node>, d: End): string {
    match d
    case Known(identity) => identity
    case Made(ref) => SyntheticIdentity(ref)
    case Sought(ref) => Resolved(nodes, ref)
  }

  function EdgeOf(nodes: seq<Node>, w: Wish): Edge {
    Edge(EndOf(nodes, w.source), EndOf(nodes, w.target), w.edgeType)
  }

  // ---------------------------------------------------------------- what a graph keeps

  ghost predicate UniqueIdentities(nodes: seq<Node>) {
    forall i, j :: 0 <= i < j < |nodes| ==> nodes[i].identity != nodes[j].identity
  }

  predicate Allowed(e: Edge) {
    e.source != e.target && e.edgeType != UnlistedType
  }

  predicate NoColon(s: string) {
    ':' !in s
  }

  predicate CleanRef(ref: Ref) {
    NoColon(ref.kind) && NoColon(Place(ref.namespace))
  }

  /** References that are safe to resolve while the graph grows; see OwnKindsMayMoveAReference. */
  predicate CleanEnd(d: End) {
    match d
    case Known(_) => true
    case Made(ref) => CleanRef(ref) && ref.kind in OwnKinds
    case Sought(ref) => CleanRef(ref) && ref.kind !in OwnKinds
  }

  /** No node carries a synthetic identity that says something else than the node. */
  ghost predicate Faithful(nodes: seq<Node>) {
    forall n, ref :: n in nodes && CleanRef(ref) && n.identity == SyntheticIdentity(ref)
      ==> (n.kind == ref.kind && n.name == ref.name && Place(n.namespace) == Place(ref.namespace))
  }

  ghost predicate Indexed(nodes: seq<Node>, byIdentity: map<string, Node>, byKey: map<Ref, seq<Node>>) {
    && UniqueIdentities(nodes)
    && byIdentity.Keys == Identities(nodes)
    && forall key :: Listed(byKey, key) == WithKey(nodes, key)
  }

  function Listed<K, V>(index: map<K, seq<V>>, key: K): seq<V> {
    if key in index then index[key] else []
  }

  ghost predicate SoundEdges(identities: set<string>, edges: seq<Edge>, seen: set<Edge>) {
    && (forall e :: e in seen ==> Allowed(e) && e.source in identities && e.target in identities)
    && (forall e :: e in edges <==> e in seen)
    && (forall i, j :: 0 <= i < j < |edges| ==> edges[i] != edges[j])
  }

  /** The identities of the nodes read from a file, in order. */
  function IdentitiesAt(nodes: seq<Node>, path: string): seq<string> {
    if nodes == [] then []
    else
      var last := nodes[|nodes| - 1];
      IdentitiesAt(nodes[..|nodes| - 1], path) + if last.path == path != "" then [last.identity] else []
  }

  ghost predicate Located(nodes: seq<Node>, paths: map<string, seq<string>>) {
    forall path :: Listed(paths, path) == IdentitiesAt(nodes, path)
  }

  ghost predicate AllClean(ends: set<End>) {
    forall d :: d in ends ==> CleanEnd(d)
  }

  // ---------------------------------------------------------------- what the graph should hold

  function EndsOf(wishes: set<Wish>): set<End> {
    (set w | w in wishes :: w.source) + (set w | w in wishes :: w.target)
  }

  function LinkWish(n: Node, link: Link): Wish {
    match link
    case Reference(ref, edgeType) =>
      if IsOutgoing(edgeType) then Wish(Known(n.identity), Sought(ref), edgeType)
      else Wish(Sought(ref), Known(n.identity), edgeType)
    case Helm(release) =>
      Wish(Made(Ref("HelmRelease", n.namespace, release)), Known(n.identity), HelmOwnsResource)
  }

  function NodeWishes(n: Node): set<Wish> {
    if n.synthetic then {} else WishesFor(n, n.links)
  }

  function WishesFor(n: Node, links: seq<Link>): set<Wish> {
    set link | link in links :: LinkWish(n, link)
  }

  /** What the references in the manifests of the resources ask for. */
  function LinkWishes(nodes: seq<Node>): set<Wish> {
    set n, w | n in nodes && w in NodeWishes(n) :: w
  }

  // ---- the same, step by step

  datatype Graph = Graph(nodes: seq<Node>, edges: seq<Edge>)

  function WithNode(g: Graph, n: Node): Graph {
    if n.identity in Identities(g.nodes) then g else g.(nodes := g.nodes + [n])
  }

  function WithEdge(g: Graph, e: Edge): Graph {
    if Allowed(e) && e !in g.edges then g.(edges := g.edges + [e]) else g
  }

  /** What one reference or release of a resource adds to the graph as it stands. */
  function Linked(g: Graph, n: Node, link: Link): Graph {
    match link
    case Reference(ref, edgeType) =>
      var found := Resolved(g.nodes, ref);
      var grown := if found in Identities(g.nodes) then g
                   else g.(nodes := g.nodes + [Synthetic(ref, StatusOf(g.nodes, ref))]);
      WithEdge(grown,
               if IsOutgoing(edgeType) then Edge(n.identity, found, edgeType) else Edge(found, n.identity, edgeType))
    case Helm(release) =>
      var made := Synthetic(Ref("HelmRelease", n.namespace, release), Present);
      WithEdge(WithNode(g, made), Edge(made.identity, n.identity, HelmOwnsResource))
  }

  function LinkedNode(g: Graph, n: Node, links: seq<Link>): Graph {
    if links == [] then g else Linked(LinkedNode(g, n, links[..|links| - 1]), n, links[|links| - 1])
  }

  /** The graph after the references of the given resources were followed in turn. */
  function LinkedAll(g: Graph, nodes: seq<Node>): Graph {
    if nodes == [] then g
    else
      var before, last := LinkedAll(g, nodes[..|nodes| - 1]), nodes[|nodes| - 1];
      if last.synthetic then before else LinkedNode(before, last, last.links)
  }

  // A wish that was granted, with the number of nodes the graph had then.
  datatype Grant = Grant(wish: Wish, at: nat)

  function LinkedGrants(g: Graph, n: Node, links: seq<Link>): set<Grant> {
    if links == [] then {}
    else
      var init, last := links[..|links| - 1], links[|links| - 1];
      LinkedGrants(g, n, init) + {Grant(LinkWish(n, last), |LinkedNode(g, n, links).nodes|)}
  }

  /** When each reference of the resources is followed. */
  function AllLinkedGrants(g: Graph, nodes: seq<Node>): set<Grant> {
    if nodes == [] then {}
    else
      var init, last := nodes[..|nodes| - 1], nodes[|nodes| - 1];
      AllLinkedGrants(g, init) + if last.synthetic then {} else LinkedGrants(LinkedAll(g, init), last, last.links)
  }

  // An absent label reads as the text None.
  function LabelText(labels: map<string, string>, key: string): string {
    if key in labels then labels[key] else "None"
  }

  predicate Selects(s: Node, w: Node, target: string) {
    && w.kind in WorkloadKinds
    && w.namespace == Some(if s.namespace.Some? && s.namespace.value != "" then s.namespace.value else target)
    && forall key :: key in s.selector ==> LabelText(w.labels, key) == s.selector[key]
  }

  function Matches(nodes: seq<Node>, s: Node, target: string): seq<Node> {
    if nodes == [] then []
    else
      var last := nodes[|nodes| - 1];
      Matches(nodes[..|nodes| - 1], s, target) + if Selects(s, last, target) then [last] else []
  }

  /** What the selector of a service asks for: every workload it matches, or a node that says there is none. */
  function SelectorWishes(nodes: seq<Node>, s: Node, target: string): set<Wish> {
    if s.kind != "Service" || s.selector == map[] then {}
    else if forall w :: w in nodes ==> !Selects(s, w, target) then {UnmatchedWish(s)}
    else set w | w in nodes && Selects(s, w, target) :: MatchWish(s, w)
  }

  function MatchWishes(s: Node, matches: seq<Node>): set<Wish> {
    set w | w in matches :: MatchWish(s, w)
  }

  function UnmatchedWish(s: Node): Wish {
    Wish(Known(s.identity), Made(Ref("SelectorTarget", s.namespace, s.selectorName)), SelectorMatches)
  }

  function MatchWish(s: Node, w: Node): Wish {
    Wish(Known(s.identity), Known(w.identity), SelectorMatches)
  }

  function SelectorsOf(services: seq<Node>, nodes: seq<Node>, target: string): set<Wish> {
    set s, w | s in services && w in SelectorWishes(nodes, s, target) :: w
  }

  /** What the services ask for, among the given nodes. */
  function AllSelectorWishes(nodes: seq<Node>, target: string): set<Wish> {
    SelectorsOf(nodes, nodes, target)
  }

  function Defines(n: Node, key: (string, string)): bool {
    !n.synthetic && n.kind == "CustomResourceDefinition" && n.defines == Some(key)
  }

  /** The identity of the last definition of a custom resource kind, or nothing. */
  function LastDefinition(nodes: seq<Node>, key: (string, string)): string {
    if nodes == [] then ""
    else
      var last := nodes[|nodes| - 1];
      if Defines(last, key) then last.identity else LastDefinition(nodes[..|nodes| - 1], key)
  }

  function DefinitionRef(n: Node): Ref {
    Ref("CustomResourceDefinition", None, Text.Lower(n.kind) + "s." + n.apiGroup)
  }

  function CrdWish(nodes: seq<Node>, n: Node): Wish {
    var definition := LastDefinition(nodes, (n.apiGroup, n.kind));
    Wish(if definition != "" then Known(definition) else Sought(DefinitionRef(n)), Known(n.identity),
        CrdOwnsCustomResource)
  }

  predicate IsCustom(n: Node) {
    n.apiGroup != "" && n.apiGroup !in KnownGroups
  }

  /** What the resources of unknown API groups ask for: the definition of their kind. */
  function CrdWishes(nodes: seq<Node>, among: seq<Node>): set<Wish> {
    set n | n in among && IsCustom(n) :: CrdWish(nodes, n)
  }

  function ApplyWishes(phase: Ref, identities: seq<string>): set<Wish> {
    set id | id in identities :: Wish(Made(phase), Known(id), PlanApplies)
  }

  datatype Plan = Plan(phases: seq<Phase>, dependencyGraph: map<string, set<string>>, target: string,
      ignored: set<string>)
  {
    function PhaseRef(id: string): Ref {
      Ref("PlanPhase", Some(target), id)
    }

    function Dependencies(p: Phase): set<string> {
      p.dependsOn + if p.id in dependencyGraph then dependencyGraph[p.id] else {}
    }

    function DependsWish(p: Phase, d: string): Wish {
      Wish(Made(PhaseRef(d)), Made(PhaseRef(p.id)), PlanDependsOn)
    }

    function DependsWishes(p: Phase): set<Wish> {
      set d | d in Dependencies(p) :: DependsWish(p, d)
    }

    /** What applying a manifest file asks for: the resources read from it, or a node for the missing file. */
    function RefWishes(resources: seq<Node>, p: Phase, ref: string): set<Wish> {
      var found := IdentitiesAt(resources, ref);
      if ref in ignored then {}
      else if found == [] then
        {Wish(Made(PhaseRef(p.id)), Made(Ref("ManifestArtifact", Some(target), ref)), PlanApplies)}
      else ApplyWishes(PhaseRef(p.id), found)
    }

    function PhaseWishes(resources: seq<Node>, p: Phase): set<Wish> {
      DependsWishes(p) + ManifestWishes(resources, p, p.manifestRefs)
    }

    function ManifestWishes(resources: seq<Node>, p: Phase, refs: seq<string>): set<Wish> {
      set ref, w | ref in refs && w in RefWishes(resources, p, ref) :: w
    }

    function WishesOf(resources: seq<Node>, among: seq<Phase>): set<Wish> {
      set p, w | p in among && w in PhaseWishes(resources, p) :: w
    }

    /** What the plan asks for: its phases in order of dependence, and what they apply. */
    function Wishes(resources: seq<Node>): set<Wish> {
      WishesOf(resources, phases)
    }

    /** The first n phases have their nodes. */
    ghost predicate Stands(n: nat, nodes: seq<Node>) {
      forall i :: 0 <= i < n && i < |phases| ==> SyntheticIdentity(PhaseRef(phases[i].id)) in Identities(nodes)
    }

    function PhaseIds(): set<string> {
      set p | p in phases :: p.id
    }

    function PhaseEnds(): set<End> {
      set p | p in phases :: Made(PhaseRef(p.id))
    }
  }

  // ---------------------------------------------------------------- synthetic identities

  lemma {:induction false} FirstColon(a: string, b: string, x: string, y: string)
    requires NoColon(a) && NoColon(b) && a + ":" + x == b + ":" + y
    ensures a == b && x == y
  {
    var s, t := a + ":" + x, b + ":" + y;
    assert s[|a|] == ':' && t[|b|] == ':';
    assert forall k :: 0 <= k < |a| ==> s[k] == a[k];
    assert forall k :: 0 <= k < |b| ==> t[k] == b[k];
    assert |a| == |b|;
    assert a == s[..|a|] && b == t[..|b|];
    assert x == s[|a| + 1..] && y == t[|b| + 1..];
  }

  /** Synthetic identities tell kinds, places and names apart when kinds and places hold no colon. */
  lemma SyntheticIdentityIsInjective(a: Ref, b: Ref)
    requires CleanRef(a) && CleanRef(b) && SyntheticIdentity(a) == SyntheticIdentity(b)
    ensures a.kind == b.kind && a.name == b.name && Place(a.namespace) == Place(b.namespace)
  {
    hide SyntheticPrefix, Place, NoColon;
    var p, x, y := SyntheticPrefix(), Place(a.namespace) + ":" + a.name, Place(b.namespace) + ":" + b.name;
    SamePrefix(p, a.kind + ":" + x, b.kind + ":" + y);
    FirstColon(a.kind, b.kind, x, y);
    FirstColon(Place(a.namespace), Place(b.namespace), a.name, b.name);
  }

  lemma SamePrefix(p: string, x: string, y: string)
    requires p + x == p + y
    ensures x == y
  {
    assert x == (p + x)[|p|..];
    assert y == (p + y)[|p|..];
  }

  /** A colon in a kind can make two different references share one synthetic identity. */
  lemma ColonsConfuseIdentities(kind: string, place: string, more: string, name: string)
    requires place != "" && more != ""
    ensures SyntheticIdentity(Ref(kind + ":" + place, Some(more), name))
         == SyntheticIdentity(Ref(kind, Some(place), more + ":" + name))
  {
    assert (kind + ":" + place) + ":" + (more + ":" + name) == kind + ":" + (place + ":" + (more + ":" + name));
  }

  /** The text after the fixed prefix: three parts with colons between them. */
  function Tail(ref: Ref): string {
    ref.kind + ":" + (Place(ref.namespace) + ":" + ref.name)
  }

  predicate SameNode(a: Ref, b: Ref) {
    a.kind == b.kind && Place(a.namespace) == Place(b.namespace) && a.name == b.name
  }

  lemma IdentitiesAgreeIff(a: Ref, b: Ref)
    ensures SyntheticIdentity(a) == SyntheticIdentity(b) <==> Tail(a) == Tail(b)
  {
    hide SyntheticPrefix, Place;
    if SyntheticIdentity(a) == SyntheticIdentity(b) {
      SamePrefix(SyntheticPrefix(), Tail(a), Tail(b));
    }
  }

  /**
   * A synthetic identity stands for one kind, place and name only, exactly when none of the three
   * holds a colon, or the place is a single colon and the others hold none.
   */
  lemma IdentityIsUniqueIff(a: Ref)
    ensures (forall b :: SyntheticIdentity(b) == SyntheticIdentity(a) ==> SameNode(a, b))
       <==> NoColon(a.kind) && NoColon(a.name) && (NoColon(Place(a.namespace)) || Place(a.namespace) == ":")
  {
    hide SyntheticIdentity;
    forall b ensures SyntheticIdentity(b) == SyntheticIdentity(a) <==> Tail(b) == Tail(a) {
      IdentitiesAgreeIff(b, a);
    }
    if NoColon(a.kind) && NoColon(a.name) && (NoColon(Place(a.namespace)) || Place(a.namespace) == ":") {
      forall b | Tail(b) == Tail(a) ensures SameNode(a, b) {
        OneReading(a, b);
      }
    } else {
      var b := AnotherReading(a);
    }
  }

  /** The parts of a text with exactly two colons, or with three colons in a row, are determined. */
  lemma OneReading(a: Ref, b: Ref)
    requires NoColon(a.kind) && NoColon(a.name) && (NoColon(Place(a.namespace)) || Place(a.namespace) == ":")
    requires Tail(b) == Tail(a)
    ensures SameNode(a, b)
  {
    hide NoColon;
    var s, p, q := Tail(a), Place(a.namespace), Place(b.namespace);
    var i, j := |b.kind|, |b.kind| + 1 + |q|;
    PlaceIsNotEmpty(a.namespace);
    PlaceIsNotEmpty(b.namespace);
    ColonsOf(b);
    ColonsAre(a);
    assert s[i] == ':' && s[j] == ':' && i + 1 < j;
    PartsAt(a, |a.kind|, |a.kind| + 1 + |p|);
    PartsAt(b, i, j);
  }

  lemma PlaceIsNotEmpty(namespace: Option<string>)
    ensures Place(namespace) != ""
  {}

  lemma ColonsOf(ref: Ref)
    ensures var i, j := |ref.kind|, |ref.kind| + 1 + |Place(ref.namespace)|;
            i < j < |Tail(ref)| && Tail(ref)[i] == ':' && Tail(ref)[j] == ':'
  {
    hide Place;
  }

  lemma PartsAt(ref: Ref, i: nat, j: nat)
    requires i == |ref.kind| && j == |ref.kind| + 1 + |Place(ref.namespace)|
    ensures i < j < |Tail(ref)|
    ensures ref.kind == Tail(ref)[..i] && Place(ref.namespace) == Tail(ref)[i + 1..j] && ref.name == Tail(ref)[j + 1..]
  {
    hide Place;
  }

  /** Where the colons are. */
  lemma ColonsAre(ref: Ref)
    requires NoColon(ref.kind) && NoColon(ref.name) && (NoColon(Place(ref.namespace)) || Place(ref.namespace) == ":")
    ensures var i, j := |ref.kind|, |ref.kind| + 1 + |Place(ref.namespace)|;
            forall k :: 0 <= k < |Tail(ref)| && Tail(ref)[k] == ':' ==>
              k == i || k == j || (k == i + 1 && j == i + 2)
  {
    hide Place;
    var p := Place(ref.namespace);
    var s := Tail(ref);
    assert forall k :: 0 <= k < |ref.kind| ==> s[k] == ref.kind[k];
    assert forall k :: |ref.kind| < k < |ref.kind| + 1 + |p| ==> s[k] == p[k - |ref.kind| - 1];
    assert forall k :: |ref.kind| + 1 + |p| < k < |s| ==> s[k] == ref.name[k - |ref.kind| - |p| - 2];
  }

  /** Another reading of the same text, when there is one more colon to choose. */
  lemma AnotherReading(a: Ref) returns (b: Ref)
    requires !(NoColon(a.kind) && NoColon(a.name) && (NoColon(Place(a.namespace)) || Place(a.namespace) == ":"))
    ensures Tail(b) == Tail(a) && !SameNode(a, b)
  {
    hide Tail, Place;
    var p := Place(a.namespace);
    PlaceIsNotEmpty(a.namespace);
    if !NoColon(a.kind) {
      var x, y := SplitAtColon(a.kind);
      b := Ref(x, Some(y + ":" + p), a.name);
      ReadsAs(a, b, x, y, p, a.name);
    } else if !NoColon(a.name) {
      var x, y := SplitAtColon(a.name);
      b := Ref(a.kind, Some(p + ":" + x), y);
      ReadsAsName(a, b, p, x, y);
    } else {
      var x, y := SplitAtColon(p);
      if x != "" {
        b := Ref(a.kind, Some(x), y + ":" + a.name);
        ReadsAsPlace(a, b, x, y);
      } else {
        assert y == "" ==> p == ":";
        b := Ref(a.kind + ":" + x, Some(y), a.name);
        ReadsAsKind(a, b, x, y);
      }
    }
  }

  lemma SplitAtColon(s: string) returns (x: string, y: string)
    requires !NoColon(s)
    ensures s == x + ":" + y
  {
    var k :| 0 <= k < |s| && s[k] == ':';
    x, y := s[..k], s[k + 1..];
  }

  lemma ReadsAs(a: Ref, b: Ref, x: string, y: string, p: string, name: string)
    requires a.kind == x + ":" + y && Place(a.namespace) == p && a.name == name && b == Ref(x, Some(y + ":" + p), name)
    ensures Tail(b) == Tail(a) && !SameNode(a, b)
  {
    assert Tail(a) == (x + ":" + y) + ":" + (p + ":" + name) == x + ":" + ((y + ":" + p) + ":" + name);
    assert |a.kind| > |b.kind|;
  }

  lemma ReadsAsName(a: Ref, b: Ref, p: string, x: string, y: string)
    requires a.name == x + ":" + y && Place(a.namespace) == p && b == Ref(a.kind, Some(p + ":" + x), y)
    ensures Tail(b) == Tail(a) && !SameNode(a, b)
  {
    assert p + ":" + (x + ":" + y) == (p + ":" + x) + ":" + y;
    assert |a.name| > |b.name|;
  }

  lemma ReadsAsPlace(a: Ref, b: Ref, x: string, y: string)
    requires Place(a.namespace) == x + ":" + y && x != "" && b == Ref(a.kind, Some(x), y + ":" + a.name)
    ensures Tail(b) == Tail(a) && !SameNode(a, b)
  {
    assert (x + ":" + y) + ":" + a.name == x + ":" + (y + ":" + a.name);
    assert |b.name| > |a.name|;
  }

  lemma ReadsAsKind(a: Ref, b: Ref, x: string, y: string)
    requires Place(a.namespace) == x + ":" + y && y != "" && b == Ref(a.kind + ":" + x, Some(y), a.name)
    ensures Tail(b) == Tail(a) && !SameNode(a, b)
  {
    assert a.kind + ":" + ((x + ":" + y) + ":" + a.name) == (a.kind + ":" + x) + ":" + (y + ":" + a.name);
    assert |b.kind| > |a.kind|;
  }

  // ---------------------------------------------------------------- one node more

  lemma WithKeyStep(nodes: seq<Node>, n: Node, key: Ref)
    ensures WithKey(nodes + [n], key) == WithKey(nodes, key) + if RefOf(n) == key then [n] else []
  {
    assert (nodes + [n])[..|nodes|] == nodes;
  }

  lemma {:induction false} WithKeyMembers(nodes: seq<Node>, key: Ref)
    ensures forall n :: n in WithKey(nodes, key) <==> n in nodes && RefOf(n) == key
  {
    if nodes != [] {
      var init := nodes[..|nodes| - 1];
      assert nodes == init + [nodes[|nodes| - 1]];
      WithKeyMembers(init, key);
    }
  }

  lemma IdentitiesStep(nodes: seq<Node>, n: Node)
    ensures Identities(nodes + [n]) == Identities(nodes) + {n.identity}
  {
  }

  /** A reference is resolved to a node of the graph once its synthetic node stands in it. */
  lemma ResolvedIsPresent(nodes: seq<Node>, ref: Ref)
    requires |Candidates(nodes, ref)| == 1 || SyntheticIdentity(ref) in Identities(nodes)
    ensures Resolved(nodes, ref) in Identities(nodes)
  {
    hide SyntheticIdentity;
    WithKeyMembers(nodes, ref);
    WithKeyMembers(nodes, ref.(namespace := None));
    var found := Candidates(nodes, ref);
    assert |found| == 1 ==> found[0] in found && found[0] in nodes;
  }

  /** Making the synthetic node of a reference does not change what the reference is resolved to. */
  lemma OwnNodeIsStable(nodes: seq<Node>, ref: Ref, n: Node)
    requires |Candidates(nodes, ref)| != 1 && RefOf(n) == ref && n.identity == SyntheticIdentity(ref)
    ensures Resolved(nodes + [n], ref) == Resolved(nodes, ref) == n.identity
  {
    hide SyntheticIdentity;
    WithKeyStep(nodes, n, ref);
    WithKeyStep(nodes, n, ref.(namespace := None));
  }

  /** A node that stands under a synthetic identity is found under the reference it was made for. */
  lemma FaithfulIsFound(nodes: seq<Node>, ref: Ref)
    requires Faithful(nodes) && CleanRef(ref) && SyntheticIdentity(ref) in Identities(nodes)
    requires Place(ref.namespace) != "_cluster"
    ensures WithKey(nodes, ref) != []
  {
    hide SyntheticIdentity, CleanRef;
    var n :| n in nodes && n.identity == SyntheticIdentity(ref);
    assert RefOf(n) == ref;
    WithKeyMembers(nodes, ref);
    assert n in WithKey(nodes, ref);
  }

  /**
   * A new synthetic node changes what a settled reference is resolved to exactly when there was
   * one candidate, and the node is found under the reference itself or beside that candidate.
   */
  lemma AnswerMovesIff(nodes: seq<Node>, ref: Ref, n: Node)
    requires Faithful(nodes) && CleanRef(ref) && Resolved(nodes, ref) in Identities(nodes)
    requires n.identity == SyntheticIdentity(RefOf(n)) && n.identity !in Identities(nodes)
    ensures Resolved(nodes + [n], ref) != Resolved(nodes, ref) <==>
              && |Candidates(nodes, ref)| == 1
              && (RefOf(n) == ref || RefOf(n) == RefOf(Candidates(nodes, ref)[0]))
  {
    hide SyntheticIdentity, CleanRef, Faithful, ClusterScopedKinds, Identities, WithKey;
    var wide := ref.(namespace := None);
    WithKeyStep(nodes, n, ref);
    WithKeyStep(nodes, n, wide);
    var own, all := WithKey(nodes, ref), WithKey(nodes, wide);
    CandidateRefs(nodes, ref);
    if RefOf(n) == ref {
      SettledIsOne(nodes, ref, n);
    } else if RefOf(n) == wide && own == [] && ref.kind in ClusterScopedKinds {
      if all == [] {
        NothingElsewhere(nodes, ref, n);
      } else if |all| == 1 {
        OnlyWideIsNotOwn(nodes, ref, n, all[0]);
      }
    }
  }

  lemma CandidateRefs(nodes: seq<Node>, ref: Ref)
    ensures forall key, i :: 0 <= i < |WithKey(nodes, key)| ==>
              RefOf(WithKey(nodes, key)[i]) == key && WithKey(nodes, key)[i] in nodes
              && WithKey(nodes, key)[i].identity in Identities(nodes)
  {
    forall key, i | 0 <= i < |WithKey(nodes, key)|
      ensures RefOf(WithKey(nodes, key)[i]) == key && WithKey(nodes, key)[i] in nodes
              && WithKey(nodes, key)[i].identity in Identities(nodes)
    {
      WithKeyMembers(nodes, key);
      assert WithKey(nodes, key)[i] in WithKey(nodes, key);
    }
  }

  lemma SettledIsOne(nodes: seq<Node>, ref: Ref, n: Node)
    requires Resolved(nodes, ref) in Identities(nodes) && RefOf(n) == ref
    requires n.identity == SyntheticIdentity(ref) && n.identity !in Identities(nodes)
    ensures |Candidates(nodes, ref)| == 1
  {
    hide SyntheticIdentity, Identities, Candidates;
  }

  lemma NothingElsewhere(nodes: seq<Node>, ref: Ref, n: Node)
    requires Faithful(nodes) && CleanRef(ref) && Resolved(nodes, ref) in Identities(nodes)
    requires n.identity == SyntheticIdentity(ref.(namespace := None)) && n.identity !in Identities(nodes)
    ensures Candidates(nodes, ref) != []
  {
    hide SyntheticIdentity, CleanRef, Faithful, Identities;
    if Place(ref.namespace) == "_cluster" {
      SamePlace(ref, ref.(namespace := None));
    } else if Candidates(nodes, ref) == [] {
      FaithfulIsFound(nodes, ref);
    }
  }

  lemma OnlyWideIsNotOwn(nodes: seq<Node>, ref: Ref, n: Node, c: Node)
    requires Faithful(nodes) && CleanRef(ref) && c in nodes && RefOf(c) == ref.(namespace := None)
    requires n.identity == SyntheticIdentity(RefOf(c)) && n.identity !in Identities(nodes)
    ensures c.identity != SyntheticIdentity(ref)
  {
    hide SyntheticIdentity, CleanRef;
    if c.identity == SyntheticIdentity(ref) {
      SamePlace(ref, RefOf(c));
    }
  }

  /**
   * What a reference is resolved to never changes while the graph grows: not by another node of the
   * graph's own kinds, and not by the synthetic node of another reference.
   */
  lemma AnswerIsStable(nodes: seq<Node>, ref: Ref, n: Node)
    requires Faithful(nodes) && CleanRef(ref) && Resolved(nodes, ref) in Identities(nodes)
    requires n.identity == SyntheticIdentity(RefOf(n)) && n.identity !in Identities(nodes)
    requires n.kind != ref.kind || |Candidates(nodes, RefOf(n))| != 1
    ensures Resolved(nodes + [n], ref) == Resolved(nodes, ref)
  {
    hide SyntheticIdentity, CleanRef, Faithful, ClusterScopedKinds, Identities, WithKey, Resolved;
    AnswerMovesIff(nodes, ref, n);
    CandidateRefs(nodes, ref);
  }

  lemma SamePlace(a: Ref, b: Ref)
    requires a.kind == b.kind && a.name == b.name && Place(a.namespace) == Place(b.namespace)
    ensures SyntheticIdentity(a) == SyntheticIdentity(b)
  {
  }

  lemma FaithfulStep(nodes: seq<Node>, n: Node)
    requires Faithful(nodes) && CleanRef(RefOf(n)) && n.identity == SyntheticIdentity(RefOf(n))
    ensures Faithful(nodes + [n])
  {
    hide SyntheticIdentity, CleanRef, Place;
    forall m, ref | m in nodes + [n] && CleanRef(ref) && m.identity == SyntheticIdentity(ref)
      ensures m.kind == ref.kind && m.name == ref.name && Place(m.namespace) == Place(ref.namespace)
    {
      if m !in nodes {
        SyntheticIdentityIsInjective(RefOf(n), ref);
      }
    }
  }

  /** An end that is settled in the graph names the same node after any clean growth. */
  lemma EndIsStable(nodes: seq<Node>, d: End, n: Node)
    requires Faithful(nodes) && CleanEnd(d) && EndOf(nodes, d) in Identities(nodes)
    requires n.identity == SyntheticIdentity(RefOf(n)) && n.identity !in Identities(nodes)
    requires n.kind in OwnKinds || |Candidates(nodes, RefOf(n))| != 1
    ensures EndOf(nodes + [n], d) == EndOf(nodes, d)
  {
    hide SyntheticIdentity, CleanRef, Faithful, OwnKinds, Identities, Candidates;
    if d.Sought? {
      AnswerIsStable(nodes, d.ref, n);
    }
  }

  lemma NewEnd(nodes: seq<Node>, n: Node, d: End)
    requires n.identity == SyntheticIdentity(RefOf(n))
    requires d == Made(RefOf(n)) || (d == Sought(RefOf(n)) && |Candidates(nodes, RefOf(n))| != 1)
    ensures EndOf(nodes + [n], d) == n.identity
  {
    hide SyntheticIdentity;
    if d.Sought? {
      OwnNodeIsStable(nodes, RefOf(n), n);
    }
  }

  /** Every settled end is a node of the requested kind and name, as a synthetic node or not. */
  lemma EndIsAsAsked(nodes: seq<Node>, d: End)
    requires Faithful(nodes) && (d.Known? || CleanRef(d.ref)) && EndOf(nodes, d) in Identities(nodes)
    ensures exists n :: (n in nodes && n.identity == EndOf(nodes, d)
                         && (!d.Known? ==> n.kind == d.ref.kind && n.name == d.ref.name))
  {
    hide SyntheticIdentity, CleanRef, OwnKinds, Candidates, ClusterScopedKinds;
    if d.Sought? && |Candidates(nodes, d.ref)| == 1 {
      CandidatesAreAsAsked(nodes, d.ref);
      var n := Candidates(nodes, d.ref)[0];
      assert n in nodes;
    } else {
      var n :| n in nodes && n.identity == EndOf(nodes, d);
    }
  }

  lemma CandidatesAreAsAsked(nodes: seq<Node>, ref: Ref)
    ensures forall n :: n in Candidates(nodes, ref) ==> n in nodes && n.kind == ref.kind && n.name == ref.name
  {
    WithKeyMembers(nodes, ref);
    WithKeyMembers(nodes, ref.(namespace := None));
  }

  /**
   * The exclusion of the graph's own kinds is needed: the node made for a Helm release turns the
   * only candidate of a reference to a HelmRelease resource into one of two.
   */
  lemma OwnKindsMayMoveAReference(n: Node)
    requires n.kind == "HelmRelease" && n.identity != SyntheticIdentity(RefOf(n))
    ensures Resolved([n], RefOf(n)) == n.identity
    ensures Resolved([n, Synthetic(RefOf(n), Present)], RefOf(n)) == SyntheticIdentity(RefOf(n)) != n.identity
  {
    hide SyntheticIdentity;
    var made := Synthetic(RefOf(n), Present);
    WithKeyStep([], n, RefOf(n));
    assert [] + [n] == [n];
    WithKeyStep([n], made, RefOf(n));
    assert [n] + [made] == [n, made];
    assert RefOf(made) == RefOf(n);
  }
}
