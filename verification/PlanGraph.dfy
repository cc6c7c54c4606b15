/** The phase-dependency check of a machine execution plan (plans/dependency_graph.py). */
module PlanGraph {
  import opened Digraph

  datatype Phase = Phase(phaseId: string, dependsOn: seq<string>)

  datatype GraphError =
    | UnknownPhaseDependency(phaseId: string, missing: set<string>)
    | PhaseDependencyCycle(node: string)

  datatype Verdict = Valid | Invalid(error: GraphError)

  /** What the last phase listed under an id declares; an id may be listed twice. */
  function Declared(phases: seq<Phase>, id: string): set<string> {
    if phases == [] then {}
    else
      var last := phases[|phases| - 1];
      if last.phaseId == id then Elems(last.dependsOn) else Declared(phases[..|phases| - 1], id)
  }

  /** What all dependency_graph entries under an id add together. */
  function Added(entries: seq<Phase>, id: string): set<string> {
    set e, d | e in entries && e.phaseId == id && d in e.dependsOn :: d
  }

  function PhaseIds(phases: seq<Phase>): set<string> {
    set p | p in phases :: p.phaseId
  }

  /** The merged graph the two checks look at. */
  ghost predicate IsPhaseGraph(g: Graph, phases: seq<Phase>, entries: seq<Phase>) {
    && g.Keys == PhaseIds(phases) + PhaseIds(entries)
    && forall id :: id in g ==> g[id] == Declared(phases, id) + Added(entries, id)
  }

  ghost function Merged(phases: seq<Phase>, entries: seq<Phase>): (g: Graph)
    ensures IsPhaseGraph(g, phases, entries)
  {
    map id | id in PhaseIds(phases) + PhaseIds(entries) :: Declared(phases, id) + Added(entries, id)
  }

  /** The ids in the order of their first mention, which is the order of the keys of the graph. */
  function Mentioned(phases: seq<Phase>): seq<string> {
    if phases == [] then []
    else
      var init, id := Mentioned(phases[..|phases| - 1]), phases[|phases| - 1].phaseId;
      if id in init then init else init + [id]
  }

  lemma {:induction false} MentionedAreIds(phases: seq<Phase>)
    ensures Elems(Mentioned(phases)) == PhaseIds(phases)
  {
    if phases != [] {
      var init, last := phases[..|phases| - 1], phases[|phases| - 1];
      MentionedAreIds(init);
      assert phases == init + [last];
      OneMoreId(init, last);
      assert forall x :: x in Mentioned(init) <==> x in Elems(Mentioned(init));
      assert Elems(Mentioned(init) + [last.phaseId]) == Elems(Mentioned(init)) + {last.phaseId};
    }
  }

  /** A phase needs what its last declaration says. */
  lemma {:induction false} LastDeclarationCounts(phases: seq<Phase>, id: string, k: nat)
    requires k < |phases| && phases[k].phaseId == id && forall j :: k < j < |phases| ==> phases[j].phaseId != id
    ensures Declared(phases, id) == set d | d in phases[k].dependsOn
  {
    if k < |phases| - 1 {
      LastDeclarationCounts(phases[..|phases| - 1], id, k);
    }
  }

  /** x is mentioned before y is. */
  predicate MentionedBefore(phases: seq<Phase>, x: string, y: string) {
    exists k :: 0 <= k < |phases| && phases[k].phaseId == x && forall j :: 0 <= j <= k ==> phases[j].phaseId != y
  }

  /** Every id is listed once, in the order of first mention. */
  lemma {:induction false} MentionedInOrder(phases: seq<Phase>, i: nat, j: nat)
    requires i < j < |Mentioned(phases)|
    ensures Mentioned(phases)[i] != Mentioned(phases)[j]
    ensures MentionedBefore(phases, Mentioned(phases)[i], Mentioned(phases)[j])
  {
    var init, id := phases[..|phases| - 1], phases[|phases| - 1].phaseId;
    var ids, all := Mentioned(init), Mentioned(phases);
    if j < |ids| {
      MentionedInOrder(init, i, j);
      StillBefore(phases, all[i], all[j]);
    } else {
      MentionedAreIds(init);
      assert all[i] in ids && all[i] in Elems(ids) && all[j] !in Elems(ids);
      NewIsLater(phases, all[i]);
    }
  }

  lemma StillBefore(phases: seq<Phase>, x: string, y: string)
    requires phases != [] && MentionedBefore(phases[..|phases| - 1], x, y)
    ensures MentionedBefore(phases, x, y)
  {
    var init := phases[..|phases| - 1];
    var k :| 0 <= k < |init| && init[k].phaseId == x && forall j :: 0 <= j <= k ==> init[j].phaseId != y;
    assert phases[k] == init[k] && forall j :: 0 <= j <= k ==> phases[j] == init[j];
  }

  lemma NewIsLater(phases: seq<Phase>, x: string)
    requires phases != []
    requires x in PhaseIds(phases[..|phases| - 1])
    requires phases[|phases| - 1].phaseId !in PhaseIds(phases[..|phases| - 1])
    ensures MentionedBefore(phases, x, phases[|phases| - 1].phaseId)
  {
    var init, y := phases[..|phases| - 1], phases[|phases| - 1].phaseId;
    var p :| p in init && p.phaseId == x;
    var k :| 0 <= k < |init| && init[k] == p;
    forall j | 0 <= j <= k ensures phases[j].phaseId != y {
      assert init[j] in init && init[j] == phases[j];
    }
    assert phases[k].phaseId == x;
  }

  lemma MentionedNext(phases: seq<Phase>, phase: Phase)
    ensures Mentioned(phases + [phase])
         == if phase.phaseId in PhaseIds(phases) then Mentioned(phases) else Mentioned(phases) + [phase.phaseId]
  {
    hide PhaseIds;
    assert (phases + [phase])[..|phases|] == phases;
    MentionedAreIds(phases);
    assert phase.phaseId in Mentioned(phases) <==> phase.phaseId in Elems(Mentioned(phases));
  }

  /** The first phase, in the order of the keys, that needs something unknown. */
  ghost predicate IsFirstUnknown(g: Graph, order: seq<string>, id: string) {
    exists k :: 0 <= k < |order| && order[k] == id && id in g && !(g[id] <= g.Keys)
                && forall j :: 0 <= j < k ==> order[j] in g && g[order[j]] <= g.Keys
  }

  lemma {:induction false} DeclaredOnlyForPhases(phases: seq<Phase>, id: string)
    requires id !in PhaseIds(phases)
    ensures Declared(phases, id) == {}
  {
    if phases != [] {
      var rest := phases[..|phases| - 1];
      assert phases[|phases| - 1] in phases;
      assert forall p :: p in rest ==> p in phases;
      DeclaredOnlyForPhases(rest, id);
    }
  }

  lemma OneMoreEntry(entries: seq<Phase>, entry: Phase, id: string)
    ensures Added(entries + [entry], id)
         == Added(entries, id) + if entry.phaseId == id then Elems(entry.dependsOn) else {}
  {}

  lemma OneMoreId(phases: seq<Phase>, phase: Phase)
    ensures PhaseIds(phases + [phase]) == PhaseIds(phases) + {phase.phaseId}
  {}

  lemma NotYetAdded(entries: seq<Phase>, id: string)
    requires id !in PhaseIds(entries)
    ensures Added(entries, id) == {}
  {}

  /** The phases first, where a later phase replaces an earlier one under the same id. */
  method DeclaredGraph(phases: seq<Phase>) returns (g: Graph, order: seq<string>)
    ensures g.Keys == PhaseIds(phases) && order == Mentioned(phases)
    ensures forall id :: id in g ==> g[id] == Declared(phases, id)
  {
    hide PhaseIds, Elems, Mentioned;
    g, order := map[], [];
    NoMention();
    assert PhaseIds([]) == {} by { NoIds(); }
    for i := 0 to |phases|
      invariant g.Keys == PhaseIds(phases[..i]) && order == Mentioned(phases[..i])
      invariant forall id :: id in g ==> g[id] == Declared(phases[..i], id)
    {
      assert phases[..i + 1] == phases[..i] + [phases[i]];
      assert phases[..i + 1][..i] == phases[..i];
      OneMoreId(phases[..i], phases[i]);
      MentionedNext(phases[..i], phases[i]);
      if phases[i].phaseId !in g {
        order := order + [phases[i].phaseId];
      }
      g := g[phases[i].phaseId := Elems(phases[i].dependsOn)];
    }
    assert phases[..|phases|] == phases;
  }

  lemma NoMention()
    ensures Mentioned([]) == []
  {}

  lemma NoIds()
    ensures PhaseIds([]) == {}
  {}

  /** Then every entry of the plan's dependency graph adds to its phase. */
  method PhaseGraph(phases: seq<Phase>, entries: seq<Phase>) returns (g: Graph, order: seq<string>)
    ensures IsPhaseGraph(g, phases, entries) && order == Mentioned(phases + entries)
  {
    hide PhaseIds, Elems, Added, Declared, Mentioned;
    g, order := DeclaredGraph(phases);
    assert phases + entries[..0] == phases;
    NoIds();
    forall id ensures Added([], id) == {} { NotYetAdded([], id); }
    for i := 0 to |entries|
      invariant g.Keys == PhaseIds(phases) + PhaseIds(entries[..i]) && order == Mentioned(phases + entries[..i])
      invariant forall id :: id in g ==> g[id] == Declared(phases, id) + Added(entries[..i], id)
    {
      var entry := entries[i];
      assert entries[..i + 1] == entries[..i] + [entry];
      OneMoreId(entries[..i], entry);
      MentionedNext(phases + entries[..i], entry);
      assert phases + entries[..i + 1] == phases + entries[..i] + [entry];
      IdsOfBoth(phases, entries[..i]);
      forall id
        ensures Added(entries[..i + 1], id)
             == Added(entries[..i], id) + if entry.phaseId == id then Elems(entry.dependsOn) else {}
      {
        OneMoreEntry(entries[..i], entry, id);
      }
      var known := if entry.phaseId in g then g[entry.phaseId] else {};
      if entry.phaseId !in g {
        order := order + [entry.phaseId];
        DeclaredOnlyForPhases(phases, entry.phaseId);
        NotYetAdded(entries[..i], entry.phaseId);
      }
      g := g[entry.phaseId := known + Elems(entry.dependsOn)];
    }
    assert entries[..|entries|] == entries;
  }

  lemma IdsOfBoth(phases: seq<Phase>, entries: seq<Phase>)
    ensures PhaseIds(phases + entries) == PhaseIds(phases) + PhaseIds(entries)
  {}

  /** The phases in the order of the graph's keys; the first one that needs something unknown is reported. */
  method ValidateKnownDependencies(g: Graph, order: seq<string>) returns (v: Verdict)
    requires Elems(order) == g.Keys
    ensures v.Valid? <==> Closed(g)
    ensures v.Invalid? ==> v.error.UnknownPhaseDependency? && IsFirstUnknown(g, order, v.error.phaseId)
                           && v.error.missing == g[v.error.phaseId] - g.Keys != {}
  {
    assert forall n :: n in g <==> n in Elems(order);
    for k := 0 to |order|
      invariant forall j :: 0 <= j < k ==> order[j] in g && g[order[j]] <= g.Keys
    {
      var phaseId := order[k];
      assert phaseId in Elems(order);
      var missing := g[phaseId] - g.Keys;
      if missing != {} {
        assert exists m :: m in missing;
        return Invalid(UnknownPhaseDependency(phaseId, missing));
      }
      assert forall d :: d in g[phaseId] ==> d in g.Keys || d in missing;
    }
    v := Valid;
  }

  /** The state of the depth-first search: the nodes on the call stack and the finished nodes. */
  class CycleDetector {
    const graph: Graph
    var temporary: set<string>
    var permanent: set<string>
    // the order in which nodes became permanent
    ghost var order: seq<string>

    ghost predicate Consistent()
      reads this
    {
      && Closed(graph)
      && temporary !! permanent
      && temporary <= graph.Keys && permanent <= graph.Keys
      && Topological(graph, order)
      && Elems(order) == permanent
    }

    constructor (g: Graph)
      requires Closed(g)
      ensures Consistent() && graph == g && temporary == {} && permanent == {} && order == []
    {
      graph := g;
      temporary, permanent, order := {}, {}, [];
    }

    /**
     * The recursive visit. The ghost argument is the call stack above node; the successors of a
     * node are visited in any order, as the source iterates over a set.
     */
    method Visit(node: string, ghost stack: seq<string>) returns (v: Verdict)
      requires Consistent() && node in graph
      requires IsPath(graph, stack + [node]) && temporary == Elems(stack)
      modifies this
      ensures v.Valid? ==> Consistent() && temporary == old(temporary) && node in permanent
      ensures v.Valid? ==> old(order) <= order && old(permanent) <= permanent
      ensures v.Invalid? ==> v.error.PhaseDependencyCycle?
                             && exists p :: IsCycle(graph, p) && p[0] == v.error.node
      decreases graph.Keys - temporary - permanent
    {
      if node in permanent {
        return Valid;
      }
      if node in temporary {
        BackEdgeIsCycle(graph, stack, node);
        return Invalid(PhaseDependencyCycle(node));
      }
      temporary := temporary + {node};
      ghost var deeper := stack + [node];
      assert Elems(deeper) == temporary;
      var todo := graph[node];
      while todo != {}
        invariant Consistent() && temporary == old(temporary) + {node} == Elems(deeper)
        invariant todo <= graph[node] && graph[node] - todo <= permanent
        invariant old(order) <= order && old(permanent) <= permanent
        decreases todo
      {
        var dependency :| dependency in todo;
        PathSnoc(graph, deeper, dependency);
        assert node in old(graph.Keys - temporary - permanent);
        v := Visit(dependency, deeper);
        if v.Invalid? {
          return;
        }
        todo := todo - {dependency};
      }
      TopologicalSnoc(graph, order, node);
      temporary := temporary - {node};
      permanent := permanent + {node};
      order := order + [node];
      v := Valid;
    }
  }

  /** Visits every phase; on success also gives the order in which the phases became permanent. */
  method DetectCycles(g: Graph, phaseIds: seq<string>) returns (v: Verdict, ghost order: seq<string>)
    requires Closed(g) && Elems(phaseIds) == g.Keys
    ensures v.Valid? <==> Acyclic(g)
    ensures v.Valid? ==> Topological(g, order) && Elems(order) == g.Keys
    ensures v.Invalid? ==> v.error.PhaseDependencyCycle?
                           && exists p :: IsCycle(g, p) && p[0] == v.error.node
  {
    var detector := new CycleDetector(g);
    for k := 0 to |phaseIds|
      invariant detector.Consistent() && detector.graph == g && detector.temporary == {}
      invariant forall j :: 0 <= j < k ==> phaseIds[j] in detector.permanent
      invariant fresh(detector)
    {
      assert phaseIds[k] in Elems(phaseIds);
      v := detector.Visit(phaseIds[k], []);
      if v.Invalid? {
        order := [];
        return;
      }
    }
    assert forall n :: n in g ==> n in Elems(phaseIds) && n in detector.permanent;
    order := detector.order;
    TopologicalIsAcyclic(g, order);
    v := Valid;
  }

  /** A plan passes exactly when all merged dependencies are known phases and none is circular. */
  method ValidateDependencyGraph(phases: seq<Phase>, entries: seq<Phase>) returns (v: Verdict)
    ensures v.Valid? <==> Closed(Merged(phases, entries)) && Acyclic(Merged(phases, entries))
    ensures v.Invalid? && v.error.UnknownPhaseDependency? ==>
              var g := Merged(phases, entries);
              && IsFirstUnknown(g, Mentioned(phases + entries), v.error.phaseId)
              && v.error.missing == g[v.error.phaseId] - g.Keys != {}
    ensures v.Invalid? && v.error.PhaseDependencyCycle? ==>
              var g := Merged(phases, entries);
              Closed(g) && exists p :: IsCycle(g, p) && p[0] == v.error.node
  {
    hide PhaseIds, Declared, Added, Mentioned, Closed, Acyclic, IsCycle;
    var graph, phaseIds := PhaseGraph(phases, entries);
    assert graph == Merged(phases, entries);
    MentionedAreIds(phases + entries);
    IdsOfBoth(phases, entries);
    v := ValidateKnownDependencies(graph, phaseIds);
    if v.Valid? {
      ghost var order;
      v, order := DetectCycles(graph, phaseIds);
    }
  }
}
