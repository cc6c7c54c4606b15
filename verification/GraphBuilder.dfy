/** The construction of the Kubernetes dependency graph (namespace_twin/dependency_graph.py). */
module GraphBuilder {
  import opened Options
  import opened NamespaceGraph
  import opened GraphHistory

  lemma UniqueNext(nodes: seq<Node>, n: Node)
    requires UniqueIdentities(nodes) && n.identity !in Identities(nodes)
    ensures UniqueIdentities(nodes + [n])
  {
    forall i, j | 0 <= i < j < |nodes + [n]|
      ensures (nodes + [n])[i].identity != (nodes + [n])[j].identity
    {
      assert nodes[i].identity in Identities(nodes);
    }
  }

  lemma IndexedNext(nodes: seq<Node>, byIdentity: map<string, Node>, byKey: map<Ref, seq<Node>>, n: Node)
    requires Indexed(nodes, byIdentity, byKey) && n.identity !in Identities(nodes)
    ensures Indexed(nodes + [n], byIdentity[n.identity := n], byKey[RefOf(n) := Listed(byKey, RefOf(n)) + [n]])
  {
    hide Identities, UniqueIdentities;
    UniqueNext(nodes, n);
    IdentitiesStep(nodes, n);
    var next := byKey[RefOf(n) := Listed(byKey, RefOf(n)) + [n]];
    forall key
      ensures Listed(next, key) == WithKey(nodes + [n], key)
    {
      WithKeyStep(nodes, n, key);
      assert Listed(byKey, key) == WithKey(nodes, key);
    }
  }

  lemma LocatedNext(nodes: seq<Node>, n: Node, paths: map<string, seq<string>>)
    requires Located(nodes, paths)
    ensures Located(nodes + [n], if n.path != "" then paths[n.path := Listed(paths, n.path) + [n.identity]] else paths)
  {
    var next := if n.path != "" then paths[n.path := Listed(paths, n.path) + [n.identity]] else paths;
    assert (nodes + [n])[..|nodes|] == nodes;
    forall path
      ensures Listed(next, path) == IdentitiesAt(nodes + [n], path)
    {
      assert Listed(paths, path) == IdentitiesAt(nodes, path);
    }
  }

  /**
   * The graph while it is built, with the lookup tables the resolving of references uses. The ghost
   * fields say what was asked for so far: every end that was resolved or made, every edge, and when
   * it was granted.
   */
  class Builder {
    var nodes: seq<Node>
    var byIdentity: map<string, Node>
    var byKey: map<Ref, seq<Node>>
    var edges: seq<Edge>
    var seenEdges: set<Edge>
    const pathTo: map<string, seq<string>>
    ghost const inputs: seq<Node>
    ghost const phaseIds: set<string>
    ghost var ends: set<End>
    ghost var wishes: set<Wish>
    ghost var grants: set<Grant>

    ghost predicate Valid()
      reads this
    {
      && Indexed(nodes, byIdentity, byKey)
      && SoundEdges(Identities(nodes), edges, seenEdges)
      && Grown(inputs, nodes, ends) && HaveStatus(inputs, nodes, ends, phaseIds)
      && Located(inputs, pathTo)
      && AllAnswered(nodes, ends)
      && Recorded(inputs, nodes, ends, wishes, grants, seenEdges)
    }

    constructor (resources: seq<Node>, ghost phaseIds: set<string>)
      requires UniqueIdentities(resources)
      ensures Valid() && inputs == nodes == resources && edges == [] && this.phaseIds == phaseIds
      ensures ends == {} && wishes == {} && grants == {}
    {
      hide UniqueIdentities, Indexed, Identities, Located;
      nodes, edges, seenEdges := resources, [], {};
      inputs, ends, wishes, grants := resources, {}, {}, {};
      this.phaseIds := phaseIds;
      var identities: map<string, Node> := map[];
      var keys: map<Ref, seq<Node>> := map[];
      var paths: map<string, seq<string>> := map[];
      EmptyIndex();
      for i := 0 to |resources|
        invariant Indexed(resources[..i], identities, keys) && Located(resources[..i], paths)
      {
        var n := resources[i];
        NotYetSeen(resources, i);
        assert resources[..i + 1] == resources[..i] + [n];
        IndexedNext(resources[..i], identities, keys, n);
        identities := identities[n.identity := n];
        keys := keys[RefOf(n) := Listed(keys, RefOf(n)) + [n]];
        LocatedNext(resources[..i], n, paths);
        if n.path != "" {
          paths := paths[n.path := Listed(paths, n.path) + [n.identity]];
        }
      }
      assert resources[..|resources|] == resources;
      byIdentity, byKey, pathTo := identities, keys, paths;
    }

    /** Makes a node of the graph's own under its synthetic identity, unless that identity is taken. */
    method AddSynthetic(ref: Ref, status: Status, ghost asked: End) returns (identity: string)
      requires Valid()
      requires (asked == Made(ref) && ref.kind in OwnKinds) || (asked == Sought(ref) && |Candidates(nodes, ref)| != 1)
      requires SyntheticIdentity(ref) !in Identities(nodes) ==> IsStatusOf(nodes, asked, phaseIds, status)
      modifies this`nodes, this`byIdentity, this`byKey, this`ends
      ensures Valid() && ends == old(ends) + {asked}
      ensures identity == SyntheticIdentity(ref) == EndOf(nodes, asked) && identity in Identities(nodes)
      ensures identity == EndOf(old(nodes), asked)
      ensures nodes == old(nodes) + if identity in Identities(old(nodes)) then [] else [Synthetic(ref, status)]
    {
      hide Indexed, SoundEdges, Grown, Located, AllAnswered, Recorded, SyntheticIdentity, Candidates, Identities,
          OwnKinds, HaveStatus, IsStatusOf;
      identity := SyntheticIdentity(ref);
      ghost var was := nodes;
      KeysAreIdentities(nodes, byIdentity, byKey);
      if identity !in byIdentity {
        var n := Synthetic(ref, status);
        AddedNode(this, n, ref, status, asked);
        nodes, byIdentity := nodes + [n], byIdentity[identity := n];
        byKey := byKey[ref := Listed(byKey, ref) + [n]];
        ends := ends + {asked};
      } else {
        EndBefore(nodes, asked);
        AskedAgain(this, asked);
        ends := ends + {asked};
      }
    }

    /** What a reference means: its only candidate, or else a node that stands for it. */
    method Resolve(ref: Ref) returns (identity: string)
      requires Valid()
      modifies this`nodes, this`byIdentity, this`byKey, this`ends
      ensures Valid() && ends == old(ends) + {Sought(ref)}
      ensures identity == Resolved(nodes, ref) == Resolved(old(nodes), ref) && identity in Identities(nodes)
      ensures nodes == old(nodes)
                       + if identity in Identities(old(nodes)) then [] else [Synthetic(ref, StatusOf(old(nodes), ref))]
      ensures Faithful(inputs) && CleanRefs(ends) ==> IsNodeOf(nodes, identity, ref)
    {
      hide Indexed, SoundEdges, Grown, Located, AllAnswered, Recorded, Faithful, CleanRefs, SyntheticIdentity,
          Identities, HaveStatus, IsStatusOf, WithKey, IsNodeOf;
      SoughtStatus(nodes, ref, phaseIds);
      ListedIsWithKey(nodes, byIdentity, byKey, ref);
      ListedIsWithKey(nodes, byIdentity, byKey, ref.(namespace := None));
      var candidates := Listed(byKey, ref);
      if candidates == [] && ref.kind in ClusterScopedKinds {
        candidates := Listed(byKey, ref.(namespace := None));
      }
      if |candidates| == 1 {
        identity := candidates[0].identity;
        ResolvedIsPresent(nodes, ref);
        AskedAgain(this, Sought(ref));
        ends := ends + {Sought(ref)};
      } else if |candidates| > 1 {
        identity := AddSynthetic(ref, Uncertain, Sought(ref));
      } else if ref.kind == "ServiceAccount" && ref.name == "default" && ref.namespace.Some?
          && ref.namespace.value != "" {
        identity := AddSynthetic(ref, Present, Sought(ref));
      } else {
        identity := AddSynthetic(ref, Missing, Sought(ref));
      }
      ResolvedIsNodeOf(inputs, nodes, ends, ref);
    }

    /** Adds an edge unless it is of an unknown type, a loop or there already. */
    method AddEdge(source: string, target: string, edgeType: EdgeType, ghost wish: Wish)
      requires Valid() && EdgeOf(nodes, wish) == Edge(source, target, edgeType)
      requires source in Identities(nodes) && target in Identities(nodes)
      modifies this`edges, this`seenEdges, this`ends, this`wishes, this`grants
      ensures Valid() && grants == old(grants) + {Grant(wish, |nodes|)}
      ensures ends == old(ends) + {wish.source, wish.target} && wishes == old(wishes) + {wish}
      ensures var e := Edge(source, target, edgeType);
              edges == old(edges) + if Allowed(e) && e !in old(edges) then [e] else []
    {
      hide Indexed, Grown, Located, AllAnswered, Recorded, Identities, SoundEdges, EdgeOf, HaveStatus;
      var e := Edge(source, target, edgeType);
      AddedEdge(this, e, wish);
      ends, wishes := ends + {wish.source, wish.target}, wishes + {wish};
      grants := grants + {Grant(wish, |nodes|)};
      if edgeType != UnlistedType && source != target {
        if e !in seenEdges {
          seenEdges, edges := seenEdges + {e}, edges + [e];
        }
      }
    }

    method LinkOne(n: Node, link: Link)
      requires Valid() && n.identity in Identities(nodes)
      modifies this
      ensures Valid() && old(nodes) <= nodes && old(edges) <= edges
      ensures wishes == old(wishes) + {LinkWish(n, link)}
      ensures ends == old(ends) + {LinkWish(n, link).source, LinkWish(n, link).target}
      ensures Graph(nodes, edges) == Linked(Graph(old(nodes), old(edges)), n, link)
      ensures grants == old(grants) + {Grant(LinkWish(n, link), |nodes|)}
    {
      hide Valid, Identities, SyntheticIdentity, Resolved, Allowed, StatusOf;
      ghost var was := nodes;
      match link
      case Reference(ref, edgeType) =>
        var found := Resolve(ref);
        Remains(was, nodes, n.identity);
        if IsOutgoing(edgeType) {
          AddEdge(n.identity, found, edgeType, LinkWish(n, link));
        } else {
          AddEdge(found, n.identity, edgeType, LinkWish(n, link));
        }
      case Helm(release) =>
        var ref := Ref("HelmRelease", n.namespace, release);
        var made := AddSynthetic(ref, Present, Made(ref));
        Remains(was, nodes, n.identity);
        AddEdge(made, n.identity, HelmOwnsResource, LinkWish(n, link));
    }

    method LinkNode(n: Node)
      requires Valid() && n.identity in Identities(nodes) && !n.synthetic
      modifies this
      ensures Valid() && old(nodes) <= nodes && old(edges) <= edges
      ensures wishes == old(wishes) + NodeWishes(n)
      ensures ends == old(ends) + EndsOf(NodeWishes(n))
      ensures Graph(nodes, edges) == LinkedNode(Graph(old(nodes), old(edges)), n, n.links)
      ensures grants == old(grants) + LinkedGrants(Graph(old(nodes), old(edges)), n, n.links)
    {
      hide Valid, Identities, LinkWish, LinkedNode, LinkedGrants, EndsOf, WishesFor;
      LinksOfNone(Graph(nodes, edges), n);
      for i := 0 to |n.links|
        invariant Valid() && old(nodes) <= nodes && old(edges) <= edges
        invariant wishes == old(wishes) + WishesFor(n, n.links[..i])
        invariant ends == old(ends) + EndsOf(WishesFor(n, n.links[..i]))
        invariant Graph(nodes, edges) == LinkedNode(Graph(old(nodes), old(edges)), n, n.links[..i])
        invariant grants == old(grants) + LinkedGrants(Graph(old(nodes), old(edges)), n, n.links[..i])
      {
        Remains(old(nodes), nodes, n.identity);
        LinkOne(n, n.links[i]);
        assert n.links[..i + 1] == n.links[..i] + [n.links[i]];
        LinksStep(Graph(old(nodes), old(edges)), n, n.links[..i], n.links[i]);
      }
      assert n.links[..|n.links|] == n.links;
    }

    /** Adds the edges that the manifests of the resources at hand refer to. */
    method LinkResources()
      requires Valid()
      modifies this
      ensures Valid() && old(nodes) <= nodes && old(edges) <= edges
      ensures wishes == old(wishes) + LinkWishes(old(nodes))
      ensures ends == old(ends) + EndsOf(LinkWishes(old(nodes)))
      ensures Graph(nodes, edges) == LinkedAll(Graph(old(nodes), old(edges)), old(nodes))
      ensures grants == old(grants) + AllLinkedGrants(Graph(old(nodes), old(edges)), old(nodes))
    {
      hide Valid, Identities, EndsOf, NodeWishes, LinkWishes, LinkedNode, LinkedGrants, LinkedAll, AllLinkedGrants;
      var snapshot := nodes;
      ghost var g := Graph(nodes, edges);
      LinkWishesOfNone(g);
      for i := 0 to |snapshot|
        invariant Valid() && old(nodes) <= nodes && old(edges) <= edges
        invariant wishes == old(wishes) + LinkWishes(snapshot[..i])
        invariant ends == old(ends) + EndsOf(LinkWishes(snapshot[..i]))
        invariant Graph(nodes, edges) == LinkedAll(g, snapshot[..i])
        invariant grants == old(grants) + AllLinkedGrants(g, snapshot[..i])
      {
        var n := snapshot[i];
        LinkWishesStep(snapshot[..i], n);
        LinkedAllStep(g, snapshot[..i], n);
        assert snapshot[..i + 1] == snapshot[..i] + [n];
        if !n.synthetic {
          IsPresent(snapshot, nodes, i);
          LinkNode(n);
        }
      }
      assert snapshot[..|snapshot|] == snapshot;
    }

    method SelectOne(s: Node, resources: seq<Node>, target: string)
      requires Valid() && resources <= nodes && s in resources && s.kind == "Service"
      modifies this
      ensures Valid() && old(nodes) <= nodes && old(edges) <= edges
      ensures OnlyLater(old(grants), grants)
      ensures wishes == old(wishes) + SelectorWishes(resources, s, target)
      ensures ends == old(ends) + EndsOf(SelectorWishes(resources, s, target))
    {
      hide Valid, Identities, SyntheticIdentity, Selects, Allowed, Matches, SelectorWishes, EndsOf, EndOf;
      SelectorWishesAre(resources, s, target);
      if s.selector == map[] {
        return;
      }
      var matches := Matches(resources, s, target);
      IsAmong(resources, nodes, s);
      if matches == [] {
        ghost var was := nodes;
        var ref := Ref("SelectorTarget", s.namespace, s.selectorName);
        var made := AddSynthetic(ref, Missing, Made(ref));
        Remains(was, nodes, s.identity);
        UnmatchedEdge(nodes, s);
        AddEdge(s.identity, made, SelectorMatches, UnmatchedWish(s));
      } else {
        SelectMatches(s, matches);
      }
    }

    method SelectMatches(s: Node, matches: seq<Node>)
      requires Valid() && s in nodes && forall w :: w in matches ==> w in nodes
      modifies this
      ensures Valid() && nodes == old(nodes) && old(edges) <= edges
      ensures OnlyLater(old(grants), grants)
      ensures wishes == old(wishes) + MatchWishes(s, matches)
      ensures ends == old(ends) + EndsOf(MatchWishes(s, matches))
    {
      hide Valid, Identities, Allowed, EndsOf, MatchWishes, MatchWish;
      MatchWishesOfNone(s);
      for i := 0 to |matches|
        invariant Valid() && nodes == old(nodes) && old(edges) <= edges
        invariant OnlyLater(old(grants), grants)
        invariant wishes == old(wishes) + MatchWishes(s, matches[..i])
        invariant ends == old(ends) + EndsOf(MatchWishes(s, matches[..i]))
      {
        var w := matches[i];
        IsAmong(nodes, nodes, s);
        IsAmong(nodes, nodes, w);
        MatchEdge(nodes, s, w);
        AddEdge(s.identity, w.identity, SelectorMatches, MatchWish(s, w));
        assert matches[..i + 1] == matches[..i] + [w];
        MatchWishesStep(s, matches[..i], w);
      }
      assert matches[..|matches|] == matches;
    }

    /** Connects every service with the workloads it selects; the services are taken key by key. */
    method SelectAll(target: string)
      requires Valid()
      modifies this
      ensures Valid() && old(nodes) <= nodes && old(edges) <= edges
      ensures OnlyLater(old(grants), grants)
      ensures wishes == old(wishes) + AllSelectorWishes(old(nodes), target)
      ensures ends == old(ends) + EndsOf(AllSelectorWishes(old(nodes), target))
    {
      hide Valid, Identities, SelectorWishes, EndsOf, WithKey;
      var resources, table := nodes, byKey;
      var todo := table.Keys;
      ghost var done: set<Wish> := {};
      ghost var seen: set<Ref> := {};
      NoEnds();
      assert forall key :: Listed(table, key) == WithKey(resources, key) by {
        TablesAgree(this);
      }
      while todo != {}
        invariant Valid() && resources <= nodes && old(edges) <= edges && todo <= table.Keys
        invariant OnlyLater(old(grants), grants)
        invariant seen == table.Keys - todo
        invariant done == set s, w | s in resources && RefOf(s) in seen
            && w in SelectorWishes(resources, s, target) :: w
        invariant wishes == old(wishes) + done && ends == old(ends) + EndsOf(done)
      {
        var key :| key in todo;
        assert Listed(table, key) == table[key] == WithKey(resources, key);
        WithKeyMembers(resources, key);
        if key.kind == "Service" {
          SelectKey(table[key], resources, target);
        }
        ghost var more := SelectorsOf(table[key], resources, target);
        OnlyServicesSelect(resources, table[key], target);
        EndsOfUnion(done, more);
        done, seen, todo := done + more, seen + {key}, todo - {key};
      }
      EveryKeyIsListed(resources, table);
      assert done == AllSelectorWishes(resources, target);
    }

    method SelectKey(services: seq<Node>, resources: seq<Node>, target: string)
      requires Valid() && resources <= nodes && forall s :: s in services ==> s in resources && s.kind == "Service"
      modifies this
      ensures Valid() && old(nodes) <= nodes && old(edges) <= edges
      ensures OnlyLater(old(grants), grants)
      ensures wishes == old(wishes) + SelectorsOf(services, resources, target)
      ensures ends == old(ends) + EndsOf(SelectorsOf(services, resources, target))
    {
      hide Valid, Identities, SelectorWishes, EndsOf;
      NoEnds();
      assert SelectorsOf([], resources, target) == {};
      for i := 0 to |services|
        invariant Valid() && old(nodes) <= nodes && old(edges) <= edges
        invariant OnlyLater(old(grants), grants)
        invariant wishes == old(wishes) + SelectorsOf(services[..i], resources, target)
        invariant ends == old(ends) + EndsOf(SelectorsOf(services[..i], resources, target))
      {
        var s := services[i];
        SelectOne(s, resources, target);
        assert services[..i + 1] == services[..i] + [s];
        SelectorsStep(services[..i], s, resources, target);
      }
      assert services[..|services|] == services;
    }

    /** Connects every resource of an unknown API group with the definition of its kind. */
    method ConnectDefinitions()
      requires Valid()
      modifies this
      ensures Valid() && old(nodes) <= nodes && old(edges) <= edges
      ensures OnlyLater(old(grants), grants)
      ensures wishes == old(wishes) + CrdWishes(old(nodes), old(nodes))
      ensures ends == old(ends) + EndsOf(CrdWishes(old(nodes), old(nodes)))
    {
      hide Valid, Identities, EndsOf, LastDefinition, IsCustom, CrdWish, CrdWishes, Defines;
      var snapshot := nodes;
      var definitions := Definitions(snapshot);
      CrdWishesOfNone(snapshot);
      for i := 0 to |snapshot|
        invariant Valid() && snapshot <= nodes && old(edges) <= edges
        invariant OnlyLater(old(grants), grants)
        invariant wishes == old(wishes) + CrdWishes(snapshot, snapshot[..i])
        invariant ends == old(ends) + EndsOf(CrdWishes(snapshot, snapshot[..i]))
      {
        var n := snapshot[i];
        if IsCustom(n) {
          var key := (n.apiGroup, n.kind);
          ConnectDefinition(n, snapshot, if key in definitions then definitions[key] else "");
        }
        assert snapshot[..i + 1] == snapshot[..i] + [n];
        CrdWishesStep(snapshot, snapshot[..i], n);
      }
      assert snapshot[..|snapshot|] == snapshot;
    }

    method ConnectDefinition(n: Node, resources: seq<Node>, definition: string)
      requires Valid() && resources <= nodes && n in resources
      requires definition == LastDefinition(resources, (n.apiGroup, n.kind))
      modifies this
      ensures Valid() && old(nodes) <= nodes && old(edges) <= edges
      ensures OnlyLater(old(grants), grants)
      ensures wishes == old(wishes) + {CrdWish(resources, n)}
      ensures ends == old(ends) + {CrdWish(resources, n).source, CrdWish(resources, n).target}
    {
      hide Valid, Identities, Resolved, Allowed, LastDefinition, SyntheticIdentity, DefinitionRef;
      ghost var was := nodes;
      IsAmong(resources, nodes, n);
      if definition == "" {
        var found := Resolve(DefinitionRef(n));
        Remains(was, nodes, n.identity);
        AddEdge(found, n.identity, CrdOwnsCustomResource, CrdWish(resources, n));
      } else {
        LastDefinitionIsPresent(resources, nodes, (n.apiGroup, n.kind));
        AddEdge(definition, n.identity, CrdOwnsCustomResource, CrdWish(resources, n));
      }
    }

    method AddPhases(plan: Plan)
      requires Valid() && phaseIds == plan.PhaseIds()
      modifies this
      ensures Valid() && old(nodes) <= nodes && edges == old(edges) && wishes == old(wishes)
      ensures grants == old(grants)
      ensures ends == old(ends) + plan.PhaseEnds() && plan.Stands(|plan.phases|, nodes)
    {
      hide Valid, Identities, SyntheticIdentity, Synthetic;
      for i := 0 to |plan.phases|
        invariant Valid() && old(nodes) <= nodes && edges == old(edges) && wishes == old(wishes)
            && grants == old(grants)
        invariant plan.Stands(i, nodes)
        invariant ends == old(ends) + set p | p in plan.phases[..i] :: Made(plan.PhaseRef(p.id))
      {
        var p := plan.phases[i];
        ghost var was := nodes;
        PhaseIsListed(plan, nodes, p);
        var made := AddSynthetic(plan.PhaseRef(p.id), Present, Made(plan.PhaseRef(p.id)));
        PhasesRemain(plan, i, was, nodes);
        assert plan.phases[..i + 1] == plan.phases[..i] + [p];
      }
      assert plan.phases[..|plan.phases|] == plan.phases;
    }

    // A dependency that is a phase has its node already, so asking for a missing one gives that node.
    method ConnectDependencies(plan: Plan, p: Phase)
      requires Valid() && SyntheticIdentity(plan.PhaseRef(p.id)) in Identities(nodes)
      requires phaseIds == plan.PhaseIds() && plan.Stands(|plan.phases|, nodes)
      modifies this
      ensures Valid() && old(nodes) <= nodes && old(edges) <= edges
      ensures OnlyLater(old(grants), grants)
      ensures wishes == old(wishes) + plan.DependsWishes(p)
      ensures ends == old(ends) + EndsOf(plan.DependsWishes(p))
    {
      hide Valid, Identities, SyntheticIdentity, EndsOf, Plan.PhaseRef, Allowed;
      var current := SyntheticIdentity(plan.PhaseRef(p.id));
      var todo := plan.Dependencies(p);
      ghost var done: set<Wish> := {};
      NoEnds();
      while todo != {}
        invariant Valid() && old(nodes) <= nodes && old(edges) <= edges && todo <= plan.Dependencies(p)
        invariant OnlyLater(old(grants), grants)
        invariant done == set d | d in plan.Dependencies(p) - todo :: plan.DependsWish(p, d)
        invariant wishes == old(wishes) + done && ends == old(ends) + EndsOf(done)
      {
        var d :| d in todo;
        ghost var was := nodes;
        PhaseIsOwn(plan, d);
        UnlistedIsMissing(plan, old(nodes), nodes, d);
        var dependency := AddSynthetic(plan.PhaseRef(d), Missing, Made(plan.PhaseRef(d)));
        Remains(old(nodes), nodes, current);
        AddEdge(dependency, current, PlanDependsOn, plan.DependsWish(p, d));
        EndsOfOneMore(done, plan.DependsWish(p, d));
        done, todo := done + {plan.DependsWish(p, d)}, todo - {d};
      }
      assert plan.Dependencies(p) - {} == plan.Dependencies(p);
    }

    method ApplyOne(plan: Plan, p: Phase, ref: string)
      requires Valid() && SyntheticIdentity(plan.PhaseRef(p.id)) in Identities(nodes) && ref !in plan.ignored
      modifies this
      ensures Valid() && old(nodes) <= nodes && old(edges) <= edges
      ensures OnlyLater(old(grants), grants)
      ensures wishes == old(wishes) + plan.RefWishes(inputs, p, ref)
      ensures ends == old(ends) + EndsOf(plan.RefWishes(inputs, p, ref))
    {
      hide Valid, Identities, SyntheticIdentity, EndsOf, Plan.PhaseRef, Plan.RefWishes, Allowed, EndOf;
      var current := SyntheticIdentity(plan.PhaseRef(p.id));
      var identities := Listed(pathTo, ref);
      PathsAgree(this, ref);
      AppliedIs(plan, inputs, p, ref);
      if identities == [] {
        var made := Ref("ManifestArtifact", Some(plan.target), ref);
        var missing := AddSynthetic(made, Missing, Made(made));
        Remains(old(nodes), nodes, current);
        PlanEdge(nodes, plan.PhaseRef(p.id), Made(made));
        AddEdge(current, missing, PlanApplies, Wish(Made(plan.PhaseRef(p.id)), Made(made), PlanApplies));
      } else {
        ApplyKnown(plan.PhaseRef(p.id), identities);
      }
    }

    method ApplyKnown(phase: Ref, identities: seq<string>)
      requires Valid() && SyntheticIdentity(phase) in Identities(nodes)
      requires forall id :: id in identities ==> id in Identities(nodes)
      modifies this
      ensures Valid() && nodes == old(nodes) && old(edges) <= edges
      ensures OnlyLater(old(grants), grants)
      ensures wishes == old(wishes) + ApplyWishes(phase, identities)
      ensures ends == old(ends) + EndsOf(ApplyWishes(phase, identities))
    {
      hide Valid, Identities, SyntheticIdentity, EndsOf, Allowed, EndOf, ApplyWishes;
      NoApplyWishes(phase);
      for i := 0 to |identities|
        invariant Valid() && nodes == old(nodes) && old(edges) <= edges
        invariant OnlyLater(old(grants), grants)
        invariant wishes == old(wishes) + ApplyWishes(phase, identities[..i])
        invariant ends == old(ends) + EndsOf(ApplyWishes(phase, identities[..i]))
      {
        PlanEdge(nodes, phase, Known(identities[i]));
        AddEdge(SyntheticIdentity(phase), identities[i], PlanApplies,
            Wish(Made(phase), Known(identities[i]), PlanApplies));
        assert identities[..i + 1] == identities[..i] + [identities[i]];
        ApplyWishesStep(phase, identities[..i], identities[i]);
      }
      assert identities[..|identities|] == identities;
    }

    method ApplyManifests(plan: Plan, p: Phase)
      requires Valid() && SyntheticIdentity(plan.PhaseRef(p.id)) in Identities(nodes)
      modifies this
      ensures Valid() && old(nodes) <= nodes && old(edges) <= edges
      ensures OnlyLater(old(grants), grants)
      ensures wishes == old(wishes) + plan.ManifestWishes(inputs, p, p.manifestRefs)
      ensures ends == old(ends) + EndsOf(plan.ManifestWishes(inputs, p, p.manifestRefs))
    {
      hide Valid, Identities, SyntheticIdentity, EndsOf, Plan.PhaseRef, Plan.RefWishes, Plan.ManifestWishes;
      NoManifestWishes(plan, inputs, p);
      for i := 0 to |p.manifestRefs|
        invariant Valid() && old(nodes) <= nodes && old(edges) <= edges
        invariant OnlyLater(old(grants), grants)
        invariant wishes == old(wishes) + plan.ManifestWishes(inputs, p, p.manifestRefs[..i])
        invariant ends == old(ends) + EndsOf(plan.ManifestWishes(inputs, p, p.manifestRefs[..i]))
      {
        var ref := p.manifestRefs[i];
        Remains(old(nodes), nodes, SyntheticIdentity(plan.PhaseRef(p.id)));
        if ref !in plan.ignored {
          ApplyOne(plan, p, ref);
        }
        assert p.manifestRefs[..i + 1] == p.manifestRefs[..i] + [ref];
        ManifestWishesStep(plan, inputs, p, p.manifestRefs[..i], ref);
      }
      assert p.manifestRefs[..|p.manifestRefs|] == p.manifestRefs;
    }

    /** Adds the phases of the plan, their order and what they apply. */
    method ConnectPlan(plan: Plan)
      requires Valid() && phaseIds == plan.PhaseIds()
      modifies this
      ensures Valid() && old(nodes) <= nodes && old(edges) <= edges
      ensures OnlyLater(old(grants), grants)
      ensures wishes == old(wishes) + plan.Wishes(inputs)
      ensures ends == old(ends) + plan.PhaseEnds() + EndsOf(plan.Wishes(inputs))
    {
      hide Valid, Identities, SyntheticIdentity, EndsOf, Plan.PhaseRef, Plan.PhaseWishes, Plan.ManifestWishes,
           Plan.DependsWishes, Plan.Wishes, Plan.WishesOf, Plan.Stands;
      AddPhases(plan);
      ghost var was := nodes;
      NoPhaseWishes(plan, inputs);
      for i := 0 to |plan.phases|
        invariant Valid() && was <= nodes && old(edges) <= edges
        invariant OnlyLater(old(grants), grants)
        invariant wishes == old(wishes) + plan.WishesOf(inputs, plan.phases[..i])
        invariant ends == old(ends) + plan.PhaseEnds() + EndsOf(plan.WishesOf(inputs, plan.phases[..i]))
      {
        var p := plan.phases[i];
        PhaseStands(plan, i, was, nodes);
        ghost var before := nodes;
        StillStands(plan, was, nodes);
        ConnectDependencies(plan, p);
        Remains(before, nodes, SyntheticIdentity(plan.PhaseRef(p.id)));
        ApplyManifests(plan, p);
        assert plan.phases[..i + 1] == plan.phases[..i] + [p];
        PhaseWishesStep(plan, inputs, plan.phases[..i], p);
      }
      assert plan.phases[..|plan.phases|] == plan.phases;
      AllPhaseWishes(plan, inputs);
    }
  }

  lemma PhaseIsOwn(plan: Plan, id: string)
    ensures plan.PhaseRef(id).kind in OwnKinds
  {}

  lemma PhaseIsListed(plan: Plan, nodes: seq<Node>, p: Phase)
    requires p in plan.phases
    ensures IsStatusOf(nodes, Made(plan.PhaseRef(p.id)), plan.PhaseIds(), Present)
  {}

  /** A phase without a node is none of the plan. */
  lemma UnlistedIsMissing(plan: Plan, before: seq<Node>, nodes: seq<Node>, id: string)
    requires before <= nodes && plan.Stands(|plan.phases|, before)
    ensures SyntheticIdentity(plan.PhaseRef(id)) !in Identities(nodes)
        ==> IsStatusOf(nodes, Made(plan.PhaseRef(id)), plan.PhaseIds(), Missing)
  {
    hide SyntheticIdentity, Identities;
    StillStands(plan, before, nodes);
  }

  lemma StillStands(plan: Plan, before: seq<Node>, nodes: seq<Node>)
    requires before <= nodes && plan.Stands(|plan.phases|, before)
    ensures plan.Stands(|plan.phases|, nodes)
  {
    hide SyntheticIdentity, Identities, Plan.PhaseRef;
    forall k | 0 <= k < |plan.phases|
      ensures SyntheticIdentity(plan.PhaseRef(plan.phases[k].id)) in Identities(nodes)
    {
      Remains(before, nodes, SyntheticIdentity(plan.PhaseRef(plan.phases[k].id)));
    }
  }

  method Definitions(nodes: seq<Node>) returns (definitions: map<(string, string), string>)
    ensures forall key :: (if key in definitions then definitions[key] else "") == LastDefinition(nodes, key)
  {
    hide LastDefinition;
    definitions := map[];
    NoDefinition();
    for i := 0 to |nodes|
      invariant forall key :: (if key in definitions then definitions[key] else "") == LastDefinition(nodes[..i], key)
    {
      var n := nodes[i];
      ghost var was := definitions;
      if !n.synthetic && n.kind == "CustomResourceDefinition" && n.defines.Some? {
        definitions := definitions[n.defines.value := n.identity];
      }
      assert nodes[..i + 1] == nodes[..i] + [n];
      forall key
        ensures (if key in definitions then definitions[key] else "") == LastDefinition(nodes[..i + 1], key)
      {
        LastDefinitionStep(nodes[..i], n, key);
        assert (if key in was then was[key] else "") == LastDefinition(nodes[..i], key);
      }
    }
    assert nodes[..|nodes|] == nodes;
  }

  lemma NoDefinition()
    ensures forall key :: LastDefinition([], key) == ""
  {
  }

  lemma LastDefinitionStep(nodes: seq<Node>, n: Node, key: (string, string))
    ensures LastDefinition(nodes + [n], key) == if Defines(n, key) then n.identity else LastDefinition(nodes, key)
  {
    assert (nodes + [n])[..|nodes|] == nodes;
  }

  lemma {:induction false} LastDefinitionIsPresent(resources: seq<Node>, nodes: seq<Node>, key: (string, string))
    requires resources <= nodes && LastDefinition(resources, key) != ""
    ensures LastDefinition(resources, key) in Identities(nodes)
  {
    var last := |resources| - 1;
    if Defines(resources[last], key) {
      assert nodes[last] == resources[last];
    } else {
      LastDefinitionIsPresent(resources[..last], nodes, key);
    }
  }

  lemma CrdWishesOfNone(nodes: seq<Node>)
    ensures CrdWishes(nodes, []) == {} && EndsOf({}) == {}
  {
  }

  lemma CrdWishesStep(nodes: seq<Node>, among: seq<Node>, n: Node)
    ensures CrdWishes(nodes, among + [n]) == CrdWishes(nodes, among) + if IsCustom(n) then {CrdWish(nodes, n)} else {}
    ensures EndsOf(CrdWishes(nodes, among + [n]))
         == EndsOf(CrdWishes(nodes, among))
            + if IsCustom(n) then {CrdWish(nodes, n).source, CrdWish(nodes, n).target} else {}
  {
    hide IsCustom, CrdWish, EndsOf;
    assert CrdWishes(nodes, among + [n]) == CrdWishes(nodes, among) + if IsCustom(n) then {CrdWish(nodes, n)} else {};
    if IsCustom(n) {
      EndsOfOneMore(CrdWishes(nodes, among), CrdWish(nodes, n));
    } else {
      assert CrdWishes(nodes, among + [n]) == CrdWishes(nodes, among);
    }
  }

  lemma EndsOfOneMore(wishes: set<Wish>, w: Wish)
    ensures EndsOf(wishes + {w}) == EndsOf(wishes) + {w.source, w.target}
  {
  }

  lemma PhasesRemain(plan: Plan, i: nat, before: seq<Node>, after: seq<Node>)
    requires i < |plan.phases| && before <= after && plan.Stands(i, before)
    requires SyntheticIdentity(plan.PhaseRef(plan.phases[i].id)) in Identities(after)
    ensures plan.Stands(i + 1, after)
  {
    hide SyntheticIdentity, Identities, Plan.PhaseRef;
    forall k | 0 <= k < i
      ensures SyntheticIdentity(plan.PhaseRef(plan.phases[k].id)) in Identities(after)
    {
      Remains(before, after, SyntheticIdentity(plan.PhaseRef(plan.phases[k].id)));
    }
  }

  lemma PhaseStands(plan: Plan, i: nat, before: seq<Node>, after: seq<Node>)
    requires i < |plan.phases| && before <= after && plan.Stands(|plan.phases|, before)
    ensures SyntheticIdentity(plan.PhaseRef(plan.phases[i].id)) in Identities(after)
  {
    hide SyntheticIdentity, Identities, Plan.PhaseRef;
    Remains(before, after, SyntheticIdentity(plan.PhaseRef(plan.phases[i].id)));
  }

  lemma PathsAgree(b: Builder, path: string)
    requires b.Valid()
    ensures Listed(b.pathTo, path) == IdentitiesAt(b.inputs, path)
    ensures forall id :: id in Listed(b.pathTo, path) ==> id in Identities(b.nodes)
  {
    hide Indexed, SoundEdges, Recorded, AllAnswered, Identities;
    IdentitiesAtArePresent(b.inputs, b.nodes, path);
  }

  lemma {:induction false} IdentitiesAtArePresent(resources: seq<Node>, nodes: seq<Node>, path: string)
    requires resources <= nodes
    ensures forall id :: id in IdentitiesAt(resources, path) ==> id in Identities(nodes)
  {
    if resources != [] {
      var last := |resources| - 1;
      assert nodes[last] == resources[last];
      IdentitiesAtArePresent(resources[..last], nodes, path);
    }
  }

  lemma AppliedIs(plan: Plan, resources: seq<Node>, p: Phase, ref: string)
    requires ref !in plan.ignored
    ensures var found := IdentitiesAt(resources, ref);
            var missing := Wish(Made(plan.PhaseRef(p.id)), Made(Ref("ManifestArtifact", Some(plan.target), ref)),
                PlanApplies);
            plan.RefWishes(resources, p, ref)
            == (if found == [] then {missing} else ApplyWishes(plan.PhaseRef(p.id), found))
            && EndsOf({missing}) == {missing.source, missing.target}
  {
    hide Plan.PhaseRef, ApplyWishes;
  }

  lemma PlanEdge(nodes: seq<Node>, phase: Ref, d: End)
    requires !d.Sought?
    ensures EdgeOf(nodes, Wish(Made(phase), d, PlanApplies))
        == Edge(SyntheticIdentity(phase), EndOf(nodes, d), PlanApplies)
    ensures d.Known? ==> EndOf(nodes, d) == d.identity
  {
    hide SyntheticIdentity;
  }

  lemma NoApplyWishes(phase: Ref)
    ensures ApplyWishes(phase, []) == {} && EndsOf({}) == {}
  {
  }

  lemma ApplyWishesStep(phase: Ref, identities: seq<string>, id: string)
    ensures var w := Wish(Made(phase), Known(id), PlanApplies);
            ApplyWishes(phase, identities + [id]) == ApplyWishes(phase, identities) + {w}
            && EndsOf(ApplyWishes(phase, identities + [id])) == EndsOf(ApplyWishes(phase, identities))
                + {w.source, w.target}
  {
    var w := Wish(Made(phase), Known(id), PlanApplies);
    assert ApplyWishes(phase, identities + [id]) == ApplyWishes(phase, identities) + {w};
    EndsOfOneMore(ApplyWishes(phase, identities), w);
  }

  lemma NoManifestWishes(plan: Plan, resources: seq<Node>, p: Phase)
    ensures plan.ManifestWishes(resources, p, []) == {} && EndsOf({}) == {}
  {
  }

  lemma ManifestWishesStep(plan: Plan, resources: seq<Node>, p: Phase, refs: seq<string>, ref: string)
    ensures var more := plan.RefWishes(resources, p, ref);
            plan.ManifestWishes(resources, p, refs + [ref]) == plan.ManifestWishes(resources, p, refs) + more
            && EndsOf(plan.ManifestWishes(resources, p, refs + [ref]))
                == EndsOf(plan.ManifestWishes(resources, p, refs)) + EndsOf(more)
            && (ref in plan.ignored ==> more == {} && EndsOf(more) == {})
  {
    var more := plan.RefWishes(resources, p, ref);
    NoEnds();
    assert ref in plan.ignored ==> more == {};
    ManifestWishesUnion(plan, resources, p, refs, ref);
    EndsOfUnion(plan.ManifestWishes(resources, p, refs), more);
  }

  lemma ManifestWishesUnion(plan: Plan, resources: seq<Node>, p: Phase, refs: seq<string>, ref: string)
    ensures plan.ManifestWishes(resources, p, refs + [ref])
         == plan.ManifestWishes(resources, p, refs) + plan.RefWishes(resources, p, ref)
  {
    hide Plan.RefWishes;
  }

  lemma NoPhaseWishes(plan: Plan, resources: seq<Node>)
    ensures plan.WishesOf(resources, []) == {} && EndsOf({}) == {}
  {
  }

  lemma AllPhaseWishes(plan: Plan, resources: seq<Node>)
    ensures plan.WishesOf(resources, plan.phases) == plan.Wishes(resources)
  {
  }

  lemma PhaseWishesStep(plan: Plan, resources: seq<Node>, among: seq<Phase>, p: Phase)
    ensures var all := plan.WishesOf(resources, among + [p]);
            var first, second := plan.DependsWishes(p), plan.ManifestWishes(resources, p, p.manifestRefs);
            all == plan.WishesOf(resources, among) + first + second
            && EndsOf(all) == EndsOf(plan.WishesOf(resources, among)) + EndsOf(first) + EndsOf(second)
  {
    hide EndsOf, Plan.DependsWishes, Plan.ManifestWishes;
    var first, second := plan.DependsWishes(p), plan.ManifestWishes(resources, p, p.manifestRefs);
    PhaseWishesUnion(plan, resources, among, p);
    EndsOfUnion(plan.WishesOf(resources, among), first);
    EndsOfUnion(plan.WishesOf(resources, among) + first, second);
  }

  lemma PhaseWishesUnion(plan: Plan, resources: seq<Node>, among: seq<Phase>, p: Phase)
    ensures plan.WishesOf(resources, among + [p])
         == plan.WishesOf(resources, among) + plan.DependsWishes(p) + plan.ManifestWishes(resources, p, p.manifestRefs)
  {
    hide Plan.DependsWishes, Plan.ManifestWishes;
    assert plan.WishesOf(resources, among + [p]) == plan.WishesOf(resources, among)
        + plan.PhaseWishes(resources, p) by {
      hide Plan.PhaseWishes;
    }
  }

  /** Synthetic nodes are neither definitions nor of an unknown API group. */
  lemma CrdWishesOfResources(resources: seq<Node>, nodes: seq<Node>, ends: set<End>)
    requires Grown(resources, nodes, ends)
    ensures CrdWishes(nodes, nodes) == CrdWishes(resources, resources)
  {
    hide LastDefinition, SyntheticIdentity;
    forall n | n in nodes[|resources|..]
      ensures n.synthetic && !IsCustom(n)
    {
      var j :| |resources| <= j < |nodes| && nodes[j] == n;
      assert MadeFor(nodes[..j], nodes[j], ends);
    }
    assert forall n :: n in nodes && n !in nodes[|resources|..] ==> n in resources;
    forall key
      ensures LastDefinition(nodes, key) == LastDefinition(resources, key)
    {
      LastDefinitionOfResources(resources, nodes, key);
    }
    assert forall n :: CrdWish(nodes, n) == CrdWish(resources, n);
    assert nodes == resources + nodes[|resources|..];
    assert forall n :: n in nodes <==> n in resources || n in nodes[|resources|..];
    SameWishes(nodes, resources);
  }

  lemma SameWishes(nodes: seq<Node>, resources: seq<Node>)
    requires forall n :: CrdWish(nodes, n) == CrdWish(resources, n)
    requires forall n :: IsCustom(n) ==> (n in nodes <==> n in resources)
    ensures CrdWishes(nodes, nodes) == CrdWishes(resources, resources)
  {
    hide CrdWish, IsCustom;
  }

  lemma {:induction false} LastDefinitionOfResources(resources: seq<Node>, nodes: seq<Node>, key: (string, string))
    requires resources <= nodes && forall n :: n in nodes[|resources|..] ==> n.synthetic
    ensures LastDefinition(nodes, key) == LastDefinition(resources, key)
  {
    if |nodes| > |resources| {
      var last := |nodes| - 1;
      assert nodes[last] == nodes[|resources|..][last - |resources|];
      assert nodes[..last][|resources|..] == nodes[|resources|..][..last - |resources|];
      LastDefinitionOfResources(resources, nodes[..last], key);
    } else {
      assert nodes == resources;
    }
  }

  /**
   * Builds the whole graph. Its edges are what the resources and the plan ask for, each read in the
   * graph as it stood. All that is asked for has a node of its kind and name. Read in the finished
   * graph the edges are exactly those asked for, if and only if no reference was overtaken.
   */
  method BuildDependencyGraph(resources: seq<Node>, plan: Plan) returns (b: Builder, ghost linked: Graph)
    requires UniqueIdentities(resources)
    ensures b.Valid() && b.inputs == resources
    ensures linked == LinkedAll(Graph(resources, []), resources)
    ensures resources <= linked.nodes <= b.nodes && linked.edges <= b.edges
    ensures b.wishes
         == LinkWishes(resources) + AllSelectorWishes(linked.nodes, plan.target) + CrdWishes(resources, resources)
             + plan.Wishes(resources)
    ensures b.ends == EndsOf(b.wishes) + plan.PhaseEnds()
    ensures HaveStatus(resources, b.nodes, b.ends, set p | p in plan.phases :: p.id)
    ensures OnlyLater(AllLinkedGrants(Graph(resources, []), resources), b.grants)
    ensures Faithful(resources) && CleanRefs(b.ends) ==>
              && (forall d :: d in b.ends && !d.Known? ==> HasNode(b.nodes, d.ref))
              && (forall g :: g in b.grants ==>
                    && (!g.wish.source.Known? ==> IsNodeOf(b.nodes, EdgeAt(b.nodes, g).source, g.wish.source.ref))
                    && (!g.wish.target.Known? ==> IsNodeOf(b.nodes, EdgeAt(b.nodes, g).target, g.wish.target.ref)))
    ensures Faithful(resources) && CleanRefs(b.ends) ==>
              (IsExact(b.nodes, b.edges, b.wishes)
               <==> forall g :: g in b.grants && IsOvertaken(b.nodes, g) ==> IsRepaired(b.nodes, b.edges, g))
    ensures Faithful(resources) && AllClean(b.ends) ==> IsExact(b.nodes, b.edges, b.wishes)
  {
    hide Builder.Valid, UniqueIdentities, LinkedAll, LinkWishes, AllSelectorWishes, CrdWishes, Plan.Wishes, EndsOf,
         Plan.PhaseEnds, Faithful, AllClean, CleanRefs, IsExact, AllLinkedGrants, HasNode, IsNodeOf, IsOvertaken,
         IsRepaired, ReferenceTypes, HaveStatus;
    b := new Builder(resources, plan.PhaseIds());
    NoEnds();
    b.LinkResources();
    linked := Graph(b.nodes, b.edges);
    ghost var first, second := LinkWishes(resources), AllSelectorWishes(linked.nodes, plan.target);
    ghost var third, fourth := CrdWishes(resources, resources), plan.Wishes(resources);
    assert b.wishes == first && b.ends == EndsOf(first);
    b.SelectAll(plan.target);
    EndsOfUnion(first, second);
    CrdWishesHere(b);
    b.ConnectDefinitions();
    EndsOfUnion(first + second, third);
    assert b.ends == EndsOf(first + second + third);
    b.ConnectPlan(plan);
    EndsOfUnion(first + second + third, fourth);
    assert b.ends == EndsOf(first + second + third) + plan.PhaseEnds() + EndsOf(fourth);
    AllShaped(resources, linked.nodes, plan);
    WhenAsked(b);
    WhenExact(b);
    StatusHere(b);
  }

  lemma StatusHere(b: Builder)
    requires b.Valid()
    ensures HaveStatus(b.inputs, b.nodes, b.ends, b.phaseIds)
  {}

  lemma AllShaped(resources: seq<Node>, linked: seq<Node>, plan: Plan)
    ensures var wishes := LinkWishes(resources) + AllSelectorWishes(linked, plan.target)
                          + CrdWishes(resources, resources) + plan.Wishes(resources);
            forall w :: w in wishes ==> IsShaped(w)
  {
    hide LinkWishes, AllSelectorWishes, CrdWishes, Plan.Wishes, IsShaped;
    LinksAreShaped(resources);
    SelectorsAreShaped(linked, plan.target);
    CrdsAreShaped(resources, resources);
    PlanIsShaped(resources, plan);
  }

  lemma LinksAreShaped(resources: seq<Node>)
    ensures forall w :: w in LinkWishes(resources) ==> IsShaped(w)
  {
    hide OwnKinds;
  }

  lemma SelectorsAreShaped(nodes: seq<Node>, target: string)
    ensures forall w :: w in AllSelectorWishes(nodes, target) ==> IsShaped(w)
  {
    hide Selects, OwnKinds;
  }

  lemma CrdsAreShaped(nodes: seq<Node>, among: seq<Node>)
    ensures forall w :: w in CrdWishes(nodes, among) ==> IsShaped(w)
  {
    hide LastDefinition, IsCustom, OwnKinds, DefinitionRef;
    DefinitionsAreNotOwn();
  }

  lemma PlanIsShaped(resources: seq<Node>, plan: Plan)
    ensures forall w :: w in plan.Wishes(resources) ==> IsShaped(w)
  {
    hide IdentitiesAt, OwnKinds, Plan.PhaseRef;
  }

  lemma DefinitionsAreNotOwn()
    ensures forall n :: DefinitionRef(n).kind !in OwnKinds
  {}

  lemma WhenAsked(b: Builder)
    requires b.Valid()
    ensures Faithful(b.inputs) && CleanRefs(b.ends) ==>
              && (forall d :: d in b.ends && !d.Known? ==> HasNode(b.nodes, d.ref))
              && (forall g :: g in b.grants ==>
                    && (!g.wish.source.Known? ==> IsNodeOf(b.nodes, EdgeAt(b.nodes, g).source, g.wish.source.ref))
                    && (!g.wish.target.Known? ==> IsNodeOf(b.nodes, EdgeAt(b.nodes, g).target, g.wish.target.ref)))
  {
    hide Indexed, Grown, Located, SoundEdges, Faithful, CleanRefs, AllAnswered, Recorded, HasNode, IsNodeOf, EdgeAt;
    if Faithful(b.inputs) && CleanRefs(b.ends) {
      EndsAreAsAsked(b.inputs, b.nodes, b.ends);
      forall g | g in b.grants
        ensures !g.wish.source.Known? ==> IsNodeOf(b.nodes, EdgeAt(b.nodes, g).source, g.wish.source.ref)
        ensures !g.wish.target.Known? ==> IsNodeOf(b.nodes, EdgeAt(b.nodes, g).target, g.wish.target.ref)
      {
        GrantsAreAsAsked(b.inputs, b.nodes, b.ends, b.wishes, b.grants, b.seenEdges, g);
      }
    }
  }

  /**
   * A list of resources for which the result is not exact: a HelmRelease resource, and another one
   * that names it as its owner and belongs to a Helm release of the same name. The owner reference
   * was resolved while the resource was the only candidate; in the finished graph it is ambiguous.
   */
  method HelmReleaseBreaksExactness(release: Node, owned: Node, plan: Plan) returns (b: Builder)
    requires release.kind == "HelmRelease" && release.links == []
        && release.identity != SyntheticIdentity(RefOf(release))
    requires owned.links == [Reference(RefOf(release), OwnerReference), Helm(release.name)]
    requires owned.namespace == release.namespace && owned.kind != release.kind && !owned.synthetic
    requires UniqueIdentities([release, owned]) && owned.identity != SyntheticIdentity(RefOf(release))
    ensures !IsExact(b.nodes, b.edges, b.wishes)
  {
    hide IsExact, UniqueIdentities, LinkWishes, AllSelectorWishes, CrdWishes, Plan.Wishes, Faithful, AllClean,
        CleanRefs, LinkedAll, AllLinkedGrants, HasNode, IsNodeOf, IsOvertaken, IsRepaired, ReferenceTypes,
         EndsOf, Builder.Valid, SyntheticIdentity;
    ghost var linked;
    b, linked := BuildDependencyGraph([release, owned], plan);
    LinkedRelease(release, owned);
    BothAreCandidates(release, owned, linked.nodes, b.nodes);
    OwnerIsNotWished(release, owned, plan, b.nodes, linked.nodes);
    NotExact(release, owned, b.nodes, b.edges, b.wishes);
  }

  lemma LinkedRelease(release: Node, owned: Node)
    requires release.kind == "HelmRelease" && release.links == []
        && release.identity != SyntheticIdentity(RefOf(release))
    requires owned.links == [Reference(RefOf(release), OwnerReference), Helm(release.name)]
    requires owned.namespace == release.namespace && owned.kind != release.kind && !owned.synthetic
    requires UniqueIdentities([release, owned]) && owned.identity != SyntheticIdentity(RefOf(release))
    ensures var linked := LinkedAll(Graph([release, owned], []), [release, owned]);
            && linked.nodes == [release, owned, Synthetic(RefOf(release), Present)]
            && Edge(release.identity, owned.identity, OwnerReference) in linked.edges
  {
    hide SyntheticIdentity, WithKey, LinkedNode, Linked;
    var g := Graph([release, owned], []);
    NoLinks(g, release);
    TwoNodes(g, release, owned);
    TwoLinks(g, owned, owned.links);
    OneCandidate(release, owned);
    assert [release, owned][0] == release && [release, owned][1] == owned;
    LinkOwner(release, owned);
  }

  lemma TwoNodes(g: Graph, a: Node, b: Node)
    requires LinkedNode(g, a, a.links) == g && !b.synthetic
    ensures LinkedAll(g, [a, b]) == LinkedNode(g, b, b.links)
  {
    hide LinkedNode;
    assert [a, b][..1] == [a] && [a][..0] == [];
    assert LinkedAll(g, [a]) == g by { assert LinkedAll(g, []) == g; }
  }

  lemma NoLinks(g: Graph, n: Node)
    ensures LinkedNode(g, n, []) == g
  {}

  lemma TwoLinks(g: Graph, n: Node, links: seq<Link>)
    requires |links| == 2
    ensures LinkedNode(g, n, links) == Linked(Linked(g, n, links[0]), n, links[1])
  {
    hide Linked;
    assert links[..1] == [links[0]] && links[..1][..0] == [];
    assert LinkedNode(g, n, links[..1]) == Linked(g, n, links[0]) by { NoLinks(g, n); }
  }

  lemma OneCandidate(release: Node, owned: Node)
    requires release.kind == "HelmRelease" && owned.kind != release.kind
    ensures Candidates([release, owned], RefOf(release)) == [release]
  {
    WithKeyStep([], release, RefOf(release));
    assert [] + [release] == [release];
    WithKeyStep([release], owned, RefOf(release));
    assert [release] + [owned] == [release, owned];
  }

  lemma LinkOwner(release: Node, owned: Node)
    requires release.kind == "HelmRelease" && release.identity != SyntheticIdentity(RefOf(release))
    requires owned.namespace == release.namespace && owned.identity != SyntheticIdentity(RefOf(release))
    requires release.identity != owned.identity && Candidates([release, owned], RefOf(release)) == [release]
    ensures var g := Linked(Linked(Graph([release, owned], []), owned,
        Reference(RefOf(release), OwnerReference)),
                            owned, Helm(release.name));
            && g.nodes == [release, owned, Synthetic(RefOf(release), Present)]
            && Edge(release.identity, owned.identity, OwnerReference) in g.edges
  {
    hide SyntheticIdentity, Candidates;
    assert [release, owned][0] == release && [release, owned][1] == owned;
    assert release.identity in Identities([release, owned]);
    assert Ref("HelmRelease", owned.namespace, release.name) == RefOf(release);
    assert [release, owned] + [Synthetic(RefOf(release), Present)]
        == [release, owned, Synthetic(RefOf(release), Present)];
  }

  lemma {:induction false} WithKeyGrows(a: seq<Node>, b: seq<Node>, key: Ref)
    requires a <= b
    ensures WithKey(a, key) <= WithKey(b, key)
  {
    if |a| < |b| {
      WithKeyGrows(a, b[..|b| - 1], key);
    } else {
      assert a == b;
    }
  }

  lemma BothAreCandidates(release: Node, owned: Node, linked: seq<Node>, nodes: seq<Node>)
    requires linked == [release, owned, Synthetic(RefOf(release), Present)] && linked <= nodes
    requires release.kind == "HelmRelease" && owned.kind != release.kind
    ensures Resolved(nodes, RefOf(release)) == SyntheticIdentity(RefOf(release))
  {
    hide SyntheticIdentity;
    var made := Synthetic(RefOf(release), Present);
    OneCandidate(release, owned);
    WithKeyStep([release, owned], made, RefOf(release));
    assert [release, owned] + [made] == linked;
    WithKeyGrows(linked, nodes, RefOf(release));
  }

  /** The only owner reference that is asked for is the one of the resource. */
  lemma OwnerIsNotWished(release: Node, owned: Node, plan: Plan, nodes: seq<Node>, linked: seq<Node>)
    requires release.links == [] && owned.links == [Reference(RefOf(release), OwnerReference),
        Helm(release.name)]
    ensures var resources := [release, owned];
            var wishes := LinkWishes(resources) + AllSelectorWishes(linked, plan.target)
                          + CrdWishes(resources, resources) + plan.Wishes(resources);
            forall w :: (w in wishes && w.edgeType == OwnerReference
                         ==> w == Wish(Sought(RefOf(release)), Known(owned.identity), OwnerReference))
  {
    hide LinkWishes, AllSelectorWishes, CrdWishes, Plan.Wishes;
    OwnersAmongLinks(release, owned);
    OthersAreNoOwners([release, owned], linked, plan);
  }

  lemma OwnersAmongLinks(release: Node, owned: Node)
    requires release.links == [] && owned.links == [Reference(RefOf(release), OwnerReference), Helm(release.name)]
    ensures forall w :: w in LinkWishes([release, owned]) && w.edgeType == OwnerReference
              ==> w == Wish(Sought(RefOf(release)), Known(owned.identity), OwnerReference)
  {
    assert forall n :: n in [release, owned] <==> n == release || n == owned;
    var owner := Reference(RefOf(release), OwnerReference);
    assert forall link :: link in owned.links <==> link == owner || link == Helm(release.name);
  }

  lemma OthersAreNoOwners(resources: seq<Node>, linked: seq<Node>, plan: Plan)
    ensures forall w :: w in AllSelectorWishes(linked, plan.target) ==> w.edgeType != OwnerReference
    ensures forall w :: w in CrdWishes(resources, resources) ==> w.edgeType != OwnerReference
    ensures forall w :: w in plan.Wishes(resources) ==> w.edgeType != OwnerReference
  {
    hide Selects, LastDefinition, IsCustom, IdentitiesAt, Plan.PhaseRef, DefinitionRef;
  }

  lemma NotExact(release: Node, owned: Node, nodes: seq<Node>, edges: seq<Edge>, wishes: set<Wish>)
    requires Edge(release.identity, owned.identity, OwnerReference) in edges
    requires forall w :: w in wishes && w.edgeType == OwnerReference
               ==> w == Wish(Sought(RefOf(release)), Known(owned.identity), OwnerReference)
    requires Resolved(nodes, RefOf(release)) != release.identity
    ensures !IsExact(nodes, edges, wishes)
  {
    hide Resolved;
    var e := Edge(release.identity, owned.identity, OwnerReference);
    assert e in edges;
  }

  lemma CrdWishesHere(b: Builder)
    requires b.Valid()
    ensures CrdWishes(b.nodes, b.nodes) == CrdWishes(b.inputs, b.inputs)
  {
    hide CrdWishes;
    CrdWishesOfResources(b.inputs, b.nodes, b.ends);
  }

  lemma WhenExact(b: Builder)
    requires b.Valid() && forall w :: w in b.wishes ==> IsShaped(w)
    ensures Faithful(b.inputs) && CleanRefs(b.ends) ==>
              (IsExact(b.nodes, b.edges, b.wishes)
               <==> forall g :: g in b.grants && IsOvertaken(b.nodes, g) ==> IsRepaired(b.nodes, b.edges, g))
    ensures Faithful(b.inputs) && AllClean(b.ends) ==> IsExact(b.nodes, b.edges, b.wishes)
  {
    hide Grown, Located, Faithful, AllClean, CleanRefs, AllAnswered, Recorded, IsShaped, IsExact, IsOvertaken,
        IsRepaired,
         UniqueIdentities, WithKey, Allowed;
    if Faithful(b.inputs) && CleanRefs(b.ends) {
      ExactIff(b.inputs, b.nodes, b.ends, b.wishes, b.grants, b.seenEdges, b.edges);
    }
    if Faithful(b.inputs) && AllClean(b.ends) {
      CleanIsExact(b.inputs, b.nodes, b.ends, b.wishes, b.grants, b.seenEdges, b.edges);
    }
  }

  lemma UnmatchedEdge(nodes: seq<Node>, s: Node)
    ensures EndsOf({UnmatchedWish(s)}) == {UnmatchedWish(s).source, UnmatchedWish(s).target}
    ensures EdgeOf(nodes, UnmatchedWish(s))
         == Edge(s.identity, SyntheticIdentity(Ref("SelectorTarget", s.namespace, s.selectorName)), SelectorMatches)
  {
    hide SyntheticIdentity;
  }

  lemma MatchEdge(nodes: seq<Node>, s: Node, w: Node)
    ensures EdgeOf(nodes, MatchWish(s, w)) == Edge(s.identity, w.identity, SelectorMatches)
  {
  }

  lemma MatchWishesOfNone(s: Node)
    ensures MatchWishes(s, []) == {} && EndsOf({}) == {}
  {
  }

  lemma MatchWishesStep(s: Node, matches: seq<Node>, w: Node)
    ensures MatchWishes(s, matches + [w]) == MatchWishes(s, matches) + {MatchWish(s, w)}
    ensures EndsOf(MatchWishes(s, matches + [w]))
         == EndsOf(MatchWishes(s, matches)) + {MatchWish(s, w).source, MatchWish(s, w).target}
  {
    hide MatchWish;
  }

  lemma SelectorWishesAre(nodes: seq<Node>, s: Node, target: string)
    requires s.kind == "Service"
    ensures s.selector == map[] ==> SelectorWishes(nodes, s, target) == {} && EndsOf({}) == {}
    ensures s.selector != map[] && Matches(nodes, s, target) == []
        ==> SelectorWishes(nodes, s, target) == {UnmatchedWish(s)}
    ensures s.selector != map[] && Matches(nodes, s, target) != []
      ==> SelectorWishes(nodes, s, target) == MatchWishes(s, Matches(nodes, s, target))
    ensures forall w :: w in Matches(nodes, s, target) ==> w in nodes
  {
    hide Selects, MatchWish, UnmatchedWish, Matches;
    MatchesAreSelected(nodes, s, target);
    var matches := Matches(nodes, s, target);
    assert matches != [] ==> matches[0] in matches;
  }

  lemma SelectorsStep(services: seq<Node>, s: Node, resources: seq<Node>, target: string)
    ensures SelectorsOf(services + [s], resources, target)
         == SelectorsOf(services, resources, target) + SelectorWishes(resources, s, target)
    ensures EndsOf(SelectorsOf(services + [s], resources, target))
         == EndsOf(SelectorsOf(services, resources, target)) + EndsOf(SelectorWishes(resources, s, target))
  {
    hide SelectorWishes, EndsOf;
    assert SelectorsOf(services + [s], resources, target)
        == SelectorsOf(services, resources, target) + SelectorWishes(resources, s, target);
    EndsOfUnion(SelectorsOf(services, resources, target), SelectorWishes(resources, s, target));
  }

  lemma NoEnds()
    ensures EndsOf({}) == {}
  {
  }

  lemma EndsOfUnion(a: set<Wish>, b: set<Wish>)
    ensures EndsOf(a + b) == EndsOf(a) + EndsOf(b)
  {
  }

  lemma IsAmong(resources: seq<Node>, nodes: seq<Node>, n: Node)
    requires resources <= nodes && n in resources
    ensures n.identity in Identities(nodes)
  {
    assert n in nodes;
  }

  lemma {:induction false} MatchesAreSelected(nodes: seq<Node>, s: Node, target: string)
    ensures forall w :: w in Matches(nodes, s, target) <==> w in nodes && Selects(s, w, target)
  {
    hide Selects;
    if nodes != [] {
      assert nodes == nodes[..|nodes| - 1] + [nodes[|nodes| - 1]];
      MatchesAreSelected(nodes[..|nodes| - 1], s, target);
    }
  }

  lemma OnlyServicesSelect(resources: seq<Node>, among: seq<Node>, target: string)
    ensures (forall s :: s in among ==> s.kind != "Service") ==> SelectorsOf(among, resources, target) == {}
  {
  }

  lemma EveryKeyIsListed(nodes: seq<Node>, table: map<Ref, seq<Node>>)
    requires forall key :: Listed(table, key) == WithKey(nodes, key)
    ensures forall n :: n in nodes ==> RefOf(n) in table
  {
    hide WithKey;
    forall n | n in nodes
      ensures RefOf(n) in table
    {
      WithKeyMembers(nodes, RefOf(n));
      assert Listed(table, RefOf(n)) != [];
    }
  }

  lemma TablesAgree(b: Builder)
    requires b.Valid()
    ensures forall key :: Listed(b.byKey, key) == WithKey(b.nodes, key)
  {
  }

  lemma LinksOfNone(g: Graph, n: Node)
    ensures WishesFor(n, []) == {} && EndsOf({}) == {} && LinkedNode(g, n, []) == g && LinkedGrants(g, n, []) == {}
  {}

  lemma LinksStep(g: Graph, n: Node, links: seq<Link>, link: Link)
    ensures WishesFor(n, links + [link]) == WishesFor(n, links) + {LinkWish(n, link)}
    ensures EndsOf(WishesFor(n, links + [link]))
         == EndsOf(WishesFor(n, links)) + {LinkWish(n, link).source, LinkWish(n, link).target}
    ensures LinkedNode(g, n, links + [link]) == Linked(LinkedNode(g, n, links), n, link)
    ensures LinkedGrants(g, n, links + [link])
         == LinkedGrants(g, n, links) + {Grant(LinkWish(n, link), |LinkedNode(g, n, links + [link]).nodes|)}
  {
    hide LinkWish, Linked, EndsOf;
    assert (links + [link])[..|links|] == links;
    assert WishesFor(n, links + [link]) == WishesFor(n, links) + {LinkWish(n, link)};
    EndsOfOneMore(WishesFor(n, links), LinkWish(n, link));
  }

  lemma Remains(before: seq<Node>, after: seq<Node>, identity: string)
    requires before <= after && identity in Identities(before)
    ensures identity in Identities(after)
  {
    var n :| n in before && n.identity == identity;
    assert n in after;
  }

  lemma IsPresent(before: seq<Node>, after: seq<Node>, i: nat)
    requires before <= after && i < |before|
    ensures before[i].identity in Identities(after)
  {
    assert before[i] in after;
  }

  lemma LinkWishesOfNone(g: Graph)
    ensures LinkWishes([]) == {} && EndsOf({}) == {} && LinkedAll(g, []) == g && AllLinkedGrants(g, []) == {}
  {
  }

  lemma LinkedAllStep(g: Graph, nodes: seq<Node>, n: Node)
    ensures var before := LinkedAll(g, nodes);
            LinkedAll(g, nodes + [n]) == if n.synthetic then before else LinkedNode(before, n, n.links)
    ensures AllLinkedGrants(g, nodes + [n])
         == AllLinkedGrants(g, nodes) + if n.synthetic then {} else LinkedGrants(LinkedAll(g, nodes), n, n.links)
  {
    hide LinkedNode, LinkedGrants;
    assert (nodes + [n])[..|nodes|] == nodes;
  }

  lemma LinkWishesStep(nodes: seq<Node>, n: Node)
    ensures LinkWishes(nodes + [n]) == LinkWishes(nodes) + NodeWishes(n)
    ensures n.synthetic ==> NodeWishes(n) == {}
    ensures EndsOf(LinkWishes(nodes + [n])) == EndsOf(LinkWishes(nodes)) + EndsOf(NodeWishes(n)) && EndsOf({}) == {}
  {
    hide LinkWish;
    assert forall w :: w in NodeWishes(n) ==> n in nodes + [n];
    assert LinkWishes(nodes + [n]) == LinkWishes(nodes) + NodeWishes(n) by { hide NodeWishes, EndsOf; }
  }

  lemma EmptyIndex()
    ensures Indexed([], map[], map[]) && Located([], map[])
  {
  }

  lemma NotYetSeen(resources: seq<Node>, i: nat)
    requires UniqueIdentities(resources) && i < |resources|
    ensures resources[i].identity !in Identities(resources[..i])
  {
  }

  lemma KeysAreIdentities(nodes: seq<Node>, byIdentity: map<string, Node>, byKey: map<Ref, seq<Node>>)
    requires Indexed(nodes, byIdentity, byKey)
    ensures byIdentity.Keys == Identities(nodes)
  {
  }

  lemma ListedIsWithKey(nodes: seq<Node>, byIdentity: map<string, Node>, byKey: map<Ref, seq<Node>>, key: Ref)
    requires Indexed(nodes, byIdentity, byKey)
    ensures Listed(byKey, key) == WithKey(nodes, key)
  {
  }

  lemma AddedNode(b: Builder, n: Node, ref: Ref, status: Status, asked: End)
    requires b.Valid() && n == Synthetic(ref, status) && n.identity !in Identities(b.nodes)
    requires (asked == Made(ref) && ref.kind in OwnKinds) || (asked == Sought(ref) && |Candidates(b.nodes, ref)| != 1)
    requires IsStatusOf(b.nodes, asked, b.phaseIds, status)
    ensures Indexed(b.nodes + [n], b.byIdentity[n.identity := n], b.byKey[ref := Listed(b.byKey, ref) + [n]])
    ensures SoundEdges(Identities(b.nodes + [n]), b.edges, b.seenEdges)
    ensures Grown(b.inputs, b.nodes + [n], b.ends + {asked})
    ensures HaveStatus(b.inputs, b.nodes + [n], b.ends + {asked}, b.phaseIds)
    ensures AllAnswered(b.nodes + [n], b.ends + {asked})
    ensures Recorded(b.inputs, b.nodes + [n], b.ends + {asked}, b.wishes, b.grants, b.seenEdges)
    ensures n.identity in Identities(b.nodes + [n])
    ensures EndOf(b.nodes + [n], asked) == n.identity == EndOf(b.nodes, asked)
  {
    hide Indexed, Grown, Recorded, SyntheticIdentity, Candidates, Identities, EndOf, OwnKinds, Answered, HaveStatus,
         IsStatusOf;
    HaveStatusNext(b.inputs, b.nodes, b.ends, b.phaseIds, n, asked);
    assert RefOf(n) == ref && n == Synthetic(RefOf(n), n.status);
    IndexedNext(b.nodes, b.byIdentity, b.byKey, n);
    IdentitiesStep(b.nodes, n);
    assert MadeFor(b.nodes, n, {asked});
    GrownNext(b.inputs, b.nodes, b.ends, n, asked);
    NewEnd(b.nodes, n, asked);
    EndBefore(b.nodes, asked);
    AnsweredNext(b.nodes, b.ends, n);
    SettledIsAnswered(b.nodes + [n], asked);
    RecordedNext(b.inputs, b.nodes, b.ends, b.wishes, b.grants, b.seenEdges, n, asked);
  }

  lemma EndBefore(nodes: seq<Node>, d: End)
    ensures d.Made? || (d.Sought? && |Candidates(nodes, d.ref)| != 1) ==> EndOf(nodes, d) == SyntheticIdentity(d.ref)
  {
    hide SyntheticIdentity, Candidates;
  }

  lemma AskedAgain(b: Builder, d: End)
    requires b.Valid() && EndOf(b.nodes, d) in Identities(b.nodes)
    ensures Grown(b.inputs, b.nodes, b.ends + {d}) && AllAnswered(b.nodes, b.ends + {d})
    ensures HaveStatus(b.inputs, b.nodes, b.ends + {d}, b.phaseIds)
    ensures Recorded(b.inputs, b.nodes, b.ends + {d}, b.wishes, b.grants, b.seenEdges)
  {
    hide Indexed, Located, SoundEdges, Grown, Recorded, Identities, EndOf, Answered, HaveStatus;
    HaveStatusMore(b.inputs, b.nodes, b.ends, b.phaseIds, {d});
    GrownMore(b.inputs, b.nodes, b.ends, {d});
    SettledIsAnswered(b.nodes, d);
    RecordedMore(b.inputs, b.nodes, b.ends, b.wishes, b.grants, b.seenEdges, d);
  }

  lemma ResolvedIsNodeOf(inputs: seq<Node>, nodes: seq<Node>, ends: set<End>, ref: Ref)
    requires Grown(inputs, nodes, ends) && Sought(ref) in ends && Resolved(nodes, ref) in Identities(nodes)
    ensures Faithful(inputs) && CleanRefs(ends) ==> IsNodeOf(nodes, Resolved(nodes, ref), ref)
  {
    hide Grown, Faithful, CleanRef, Resolved, Identities, IsNodeOf;
    if Faithful(inputs) && CleanRefs(ends) {
      assert IsCleanEnd(Sought(ref));
      InputsAreFirst(inputs, nodes, ends);
      FaithfulThroughout(inputs, nodes, ends, |nodes|);
      assert nodes[..|nodes|] == nodes;
      SettledIsNodeOf(nodes, Sought(ref));
    }
  }

  lemma AddedEdge(b: Builder, e: Edge, wish: Wish)
    requires b.Valid() && EdgeOf(b.nodes, wish) == e && e.source in Identities(b.nodes)
        && e.target in Identities(b.nodes)
    ensures var ends, wishes := b.ends + {wish.source, wish.target}, b.wishes + {wish};
            var isNew := Allowed(e) && e !in b.seenEdges;
            var seen := if isNew then b.seenEdges + {e} else b.seenEdges;
      && Grown(b.inputs, b.nodes, ends) && HaveStatus(b.inputs, b.nodes, ends, b.phaseIds) && AllAnswered(b.nodes, ends)
      && SoundEdges(Identities(b.nodes), if isNew then b.edges + [e] else b.edges, seen)
      && Recorded(b.inputs, b.nodes, ends, wishes, b.grants + {Grant(wish, |b.nodes|)}, seen)
      && (e in b.edges <==> e in b.seenEdges)
  {
    hide Indexed, Identities, Grown, Recorded, Answered, EndOf, Located, HaveStatus;
    HaveStatusMore(b.inputs, b.nodes, b.ends, b.phaseIds, {wish.source, wish.target});
    GrownMore(b.inputs, b.nodes, b.ends, {wish.source, wish.target});
    SettledIsAnswered(b.nodes, wish.source);
    SettledIsAnswered(b.nodes, wish.target);
    InputsAreFirst(b.inputs, b.nodes, b.ends);
    RecordedEdge(b.inputs, b.nodes, b.ends, b.wishes, b.grants, b.seenEdges, wish);
    assert e in b.seenEdges ==> b.seenEdges + {e} == b.seenEdges;
  }

  /** The grants that are added are not for references of manifests. */
  ghost predicate OnlyLater(before: set<Grant>, after: set<Grant>) {
    before <= after && forall g :: g in after && g.wish.edgeType in ReferenceTypes ==> g in before
  }
}
