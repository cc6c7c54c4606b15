/**
 * What a resource list and a plan ask the dependency graph for
 * (namespace_twin/dependency_graph.py), edge by edge: between what, in which direction, of which type.
 */
module GraphWishes {
  import opened Options
  import opened NamespaceGraph
  import Text

  // ----- References and releases -----

  /** What one reference asks for: backends and subjects are pointed to, all else points to the resource. */
  ghost predicate AsksByReference(n: Node, ref: Ref, edgeType: EdgeType, w: Wish) {
    && w.edgeType == edgeType
    && if edgeType == RouteBackend || edgeType == RbacSubject
       then w.source == Known(n.identity) && w.target == Sought(ref)
       else w.source == Sought(ref) && w.target == Known(n.identity)
  }

  /** What the label of a Helm release asks for: that the release owns the resource, in its namespace. */
  ghost predicate AsksByRelease(n: Node, release: string, w: Wish) {
    w == Wish(Made(Ref("HelmRelease", n.namespace, release)), Known(n.identity), HelmOwnsResource)
  }

  ghost predicate AsksByLink(n: Node, link: Link, w: Wish) {
    match link
    case Reference(ref, edgeType) => AsksByReference(n, ref, edgeType, w)
    case Helm(release) => AsksByRelease(n, release, w)
  }

  lemma LinkIff(n: Node, link: Link, w: Wish)
    ensures w == LinkWish(n, link) <==> AsksByLink(n, link, w)
  {}

  /** The resources ask for what their references and release labels say, and for nothing else. */
  lemma LinksAskFor(nodes: seq<Node>, w: Wish)
    ensures w in LinkWishes(nodes) <==>
              exists n, link :: n in nodes && !n.synthetic && link in n.links && AsksByLink(n, link, w)
  {
    hide LinkWish, AsksByLink;
    if w in LinkWishes(nodes) {
      var n :| n in nodes && w in NodeWishes(n);
      var link :| link in n.links && w == LinkWish(n, link);
      LinkIff(n, link, w);
    }
    if n, link :| n in nodes && !n.synthetic && link in n.links && AsksByLink(n, link, w) {
      LinkIff(n, link, w);
      assert w in NodeWishes(n);
    }
  }

  // ----- Selectors -----

  /** The service selects the workload: in its namespace, by all its labels. */
  ghost predicate SelectsWorkload(s: Node, w: Node, target: string) {
    && w.kind in {"CronJob", "DaemonSet", "Deployment", "Job", "Pod", "StatefulSet"}
    && w.namespace == (if s.namespace in {None, Some("")} then Some(target) else s.namespace)
    && forall key :: key in s.selector ==> (if key in w.labels then w.labels[key] else "None") == s.selector[key]
  }

  lemma SelectsIff(s: Node, w: Node, target: string)
    ensures Selects(s, w, target) <==> SelectsWorkload(s, w, target)
  {}

  /** A service with a selector asks for every workload it selects, or for one node that says there is none. */
  ghost predicate AsksBySelector(nodes: seq<Node>, s: Node, target: string, w: Wish) {
    && s.kind == "Service" && s.selector != map[] && w.source == Known(s.identity) && w.edgeType == SelectorMatches
    && if exists n :: n in nodes && SelectsWorkload(s, n, target)
       then exists n :: n in nodes && SelectsWorkload(s, n, target) && w.target == Known(n.identity)
       else w.target == Made(Ref("SelectorTarget", s.namespace, s.selectorName))
  }

  lemma SelectorIff(nodes: seq<Node>, s: Node, target: string, w: Wish)
    ensures w in SelectorWishes(nodes, s, target) <==> AsksBySelector(nodes, s, target, w)
  {
    hide Selects, SelectsWorkload;
    forall n ensures Selects(s, n, target) <==> SelectsWorkload(s, n, target) {
      SelectsIff(s, n, target);
    }
    if AsksBySelector(nodes, s, target, w) {
      if n :| n in nodes && SelectsWorkload(s, n, target) && w.target == Known(n.identity) {
        assert w == MatchWish(s, n);
      }
    }
  }

  lemma SelectorsAskFor(nodes: seq<Node>, target: string, w: Wish)
    ensures w in AllSelectorWishes(nodes, target) <==> exists s :: s in nodes && AsksBySelector(nodes, s, target, w)
  {
    hide SelectorWishes, AsksBySelector;
    forall s ensures w in SelectorWishes(nodes, s, target) <==> AsksBySelector(nodes, s, target, w) {
      SelectorIff(nodes, s, target, w);
    }
  }

  // ----- Definitions -----

  predicate IsDefinition(n: Node, apiGroup: string, kind: string) {
    !n.synthetic && n.kind == "CustomResourceDefinition" && n.defines == Some((apiGroup, kind))
  }

  /** The k-th node is the last definition of the kind. */
  ghost predicate IsLastDefinition(nodes: seq<Node>, apiGroup: string, kind: string, k: nat) {
    && k < |nodes| && IsDefinition(nodes[k], apiGroup, kind)
    && forall j :: k < j < |nodes| ==> !IsDefinition(nodes[j], apiGroup, kind)
  }

  /** The last definition counts, and without any there is none. */
  lemma {:induction false} DefinitionIsLast(nodes: seq<Node>, apiGroup: string, kind: string)
    ensures (exists k: nat :: IsLastDefinition(nodes, apiGroup, kind, k)
                              && LastDefinition(nodes, (apiGroup, kind)) == nodes[k].identity)
         || (&& LastDefinition(nodes, (apiGroup, kind)) == ""
             && forall n :: n in nodes ==> !IsDefinition(n, apiGroup, kind))
  {
    hide IsDefinition;
    if nodes != [] {
      var init, last := nodes[..|nodes| - 1], nodes[|nodes| - 1];
      assert Defines(last, (apiGroup, kind)) <==> IsDefinition(last, apiGroup,
          kind) by { DefinesIff(last, apiGroup, kind); }
      assert nodes == init + [last];
      hide Defines;
      if IsDefinition(last, apiGroup, kind) {
        assert IsLastDefinition(nodes, apiGroup, kind, |nodes| - 1);
      } else {
        DefinitionIsLast(init, apiGroup, kind);
        var found := LastDefinition(init, (apiGroup, kind));
        if k: nat :| IsLastDefinition(init, apiGroup, kind, k) && found == init[k].identity {
          assert IsLastDefinition(nodes, apiGroup, kind, k);
        }
      }
    }
  }

  lemma DefinesIff(n: Node, apiGroup: string, kind: string)
    ensures Defines(n, (apiGroup, kind)) <==> IsDefinition(n, apiGroup, kind)
  {}

  /** A resource of an API group that is not built in asks for the definition of its kind, by that or by name. */
  lemma DefinitionsAskFor(nodes: seq<Node>, w: Wish)
    ensures w in CrdWishes(nodes, nodes) <==>
              exists n :: && n in nodes && w.target == Known(n.identity) && w.edgeType == CrdOwnsCustomResource
                          && n.apiGroup !in
                               {"", "admissionregistration.k8s.io", "apiextensions.k8s.io", "apps",
                                "authentication.k8s.io", "authorization.k8s.io", "autoscaling", "batch",
                                "certificates.k8s.io", "coordination.k8s.io", "discovery.k8s.io", "events.k8s.io",
                                "flowcontrol.apiserver.k8s.io", "networking.k8s.io", "reference.esda", "node.k8s.io",
                                "policy", "rbac.authorization.k8s.io", "scheduling.k8s.io", "storage.k8s.io"}
                          && w.source ==
                               (if LastDefinition(nodes, (n.apiGroup, n.kind)) != ""
                                then Known(LastDefinition(nodes, (n.apiGroup, n.kind)))
                                else Sought(Ref("CustomResourceDefinition", None,
                                                Text.Lower(n.kind) + "s." + n.apiGroup)))
  {
    hide LastDefinition, Text.Lower;
  }

  // ----- The plan -----

  function PhaseNode(plan: Plan, id: string): End {
    Made(Ref("PlanPhase", Some(plan.target), id))
  }

  /** A phase depends on what it says and on what the dependency graph of the plan says of it. */
  ghost predicate AsksByDependency(plan: Plan, p: Phase, w: Wish) {
    exists d :: (d in p.dependsOn || (p.id in plan.dependencyGraph && d in plan.dependencyGraph[p.id]))
                && w == Wish(PhaseNode(plan, d), PhaseNode(plan, p.id), PlanDependsOn)
  }

  /** A file that is not ignored stands for all resources read from it, or for a node that says it is missing. */
  ghost predicate AsksByFile(plan: Plan, resources: seq<Node>, p: Phase, ref: string, w: Wish) {
    && ref !in plan.ignored && w.source == PhaseNode(plan, p.id) && w.edgeType == PlanApplies
    && if ref != "" && exists n :: n in resources && n.path == ref
       then exists n :: n in resources && n.path == ref && w.target == Known(n.identity)
       else w.target == Made(Ref("ManifestArtifact", Some(plan.target), ref))
  }

  lemma {:induction false} ReadFromFile(resources: seq<Node>, path: string)
    ensures forall id :: id in IdentitiesAt(resources, path) <==>
              path != "" && exists n :: n in resources && n.path == path && n.identity == id
  {
    if resources != [] {
      var init, last := resources[..|resources| - 1], resources[|resources| - 1];
      ReadFromFile(init, path);
      assert forall n :: n in resources <==> n in init || n == last;
    }
  }

  lemma FileIff(plan: Plan, resources: seq<Node>, p: Phase, ref: string, w: Wish)
    ensures w in plan.RefWishes(resources, p, ref) <==> AsksByFile(plan, resources, p, ref, w)
  {
    hide IdentitiesAt;
    ReadFromFile(resources, ref);
    var found := IdentitiesAt(resources, ref);
    if found != [] {
      assert found[0] in found;
    }
    if n :| n in resources && n.path == ref && ref != "" {
      assert n.identity in found;
    }
  }

  /** The plan asks for the order of its phases and for what they apply, and for nothing else. */
  lemma PlanAsksFor(plan: Plan, resources: seq<Node>, w: Wish)
    ensures w in plan.Wishes(resources) <==>
              exists p :: p in plan.phases && (AsksByDependency(plan, p, w) || AsksByFiles(plan, resources, p, w))
  {
    hide AsksByFiles, AsksByDependency, Plan.ManifestWishes, Plan.DependsWishes;
    forall p ensures w in plan.PhaseWishes(resources, p)
                <==> AsksByDependency(plan, p, w) || AsksByFiles(plan, resources, p, w) {
      DependencyIff(plan, p, w);
      FilesIff(plan, resources, p, w);
    }
    hide Plan.PhaseWishes;
  }

  ghost predicate AsksByFiles(plan: Plan, resources: seq<Node>, p: Phase, w: Wish) {
    exists ref :: ref in p.manifestRefs && AsksByFile(plan, resources, p, ref, w)
  }

  lemma FilesIff(plan: Plan, resources: seq<Node>, p: Phase, w: Wish)
    ensures w in plan.ManifestWishes(resources, p, p.manifestRefs) <==> AsksByFiles(plan, resources, p, w)
  {
    hide AsksByFile, Plan.RefWishes;
    forall ref ensures w in plan.RefWishes(resources, p, ref) <==> AsksByFile(plan, resources, p, ref, w) {
      FileIff(plan, resources, p, ref, w);
    }
  }

  lemma DependencyIff(plan: Plan, p: Phase, w: Wish)
    ensures w in plan.DependsWishes(p) <==> AsksByDependency(plan, p, w)
  {
    if d :| (d in p.dependsOn || (p.id in plan.dependencyGraph && d in plan.dependencyGraph[p.id]))
            && w == Wish(PhaseNode(plan, d), PhaseNode(plan, p.id), PlanDependsOn) {
      assert d in plan.Dependencies(p) && plan.DependsWish(p, d) == w;
    }
    if w in plan.DependsWishes(p) {
      var d :| d in plan.Dependencies(p) && w == plan.DependsWish(p, d);
      assert w == Wish(PhaseNode(plan, d), PhaseNode(plan, p.id), PlanDependsOn);
    }
  }
}
