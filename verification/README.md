# Verification model of the execution agent

A Dafny model of the deterministic engines of the MOP execution agent, with proofs of what they
promise. There is one module per engine.

| module | models |
|---|---|
| `Digraph`, `PlanGraph` | the phase graph of a machine plan and its cycle check |
| `CycleCount`, `DepthFirst`, `VisitingOrders` | the three-colour cycle count over the Kubernetes dependency graph, its findings, and how the count depends on the order of visiting |
| `NamespaceGraph`, `GraphWishes`, `GraphHistory`, `GraphBuilder` | the construction of that graph: synthetic nodes, reference resolution, selector, definition and plan edges, statuses, and what its growth keeps |
| `ImpactPaths` | the bounded breadth-first search for impact paths |
| `Decimal`, `PdfFile`, `PdfDocument` | the built-in PDF writer, against an independent reader of the file format |
| `Quantity`, `Text`, `StableSort`, `Canonical`, `CanonicalLeaves` | canonical forms of Kubernetes objects, and what stands where in them |
| `FieldChanges`, `ReleaseDelta`, `ReleaseScope` | the field diff, the immutable-field test, the release delta, and which resources it is about |
| `TwinState`, `TwinRuns`, `TwinFacts`, `TwinRepository` | the twin repository: lifecycle, event ledger, decisions, facts |
| `LeaseLock` | the namespace lease lock over a client with expiry |
| `PolicyTwin` | risk score, evidence, projection, finalisation and the final decision |
| `Policy`, `Mutation`, `ApprovedCalls`, `HelmStatus` | approvals, the policy guards, the mutation executor, and what its calls have to do with files and approvals |
| `Drift`, `DriftMeaning` | baselines and drift assessment |
| `InstructionGate` | external instructions over jobs and steps |
| `McpClient` | the bounded retry loop |
| `Json`, `Options` | parsed JSON values, and values that may be absent |

Operations that change state in place are methods, most of them of a class with the source's
fields, proved against a function or relation that says what the new state is. Properties of runs
are lemmas about those functions.

## Assumptions

- SHA-256 and random identifiers are ideal: a hash is compared as the hashed value, and a fresh
  lease token was never used before. Lease tokens hold no colon.
- Clocks do not run backwards. Every reading of a clock is a parameter, and two readings within
  one call may differ.
- Decimal arithmetic is exact, as it is for operands within Python's 28 digits.
- JSON keys are strings and numbers are the real numbers they denote. The text Python prints for a
  value that is not a string is a parameter.
- Resource identities given to the graph builder are unique. The tables of the instruction gate are
  consistent for job ids without colons.
- Each method of the repository and of the lock service is one atomic step.
- Iteration orders that Python leaves to sets are left open: the results hold for every order.

## Where the code does not do what one may expect

Each point is a lemma or a contract below, with the exact condition under which the expectation holds.

- `GreenWithoutDecision`: the transition table lets a twin become green, amber or red without a
  recorded decision. `ColourIsDecidedIff` says that this transition is the only way.
- `UnnamedPortsKeepTheirOrder`: ports without a name are sorted by number alone, so the order of
  two protocols on one port shows in the canonical form. `OrderForgottenIff` is the condition.
- `DottedKeyIsMistaken`: the immutable-field test joins keys with dots, so a key with a dot can
  look like a protected path. `DottedTestIsExactWithoutDots` is the condition.
- `WholeSpecIsMissed`: a spec that appears or goes away as a whole is one change, and no immutable
  field is seen in it. `ConflictMeansDifferenceIff` is the condition.
- `ApprovedForOneInstallsAnother`, `ApprovedChartIsNotInstalled`: approvals are compared with the
  release in the Helm command, and with the command's fingerprint, while the installation prefers the
  step's metadata. `InstallsAreApprovedIff` and `InstallsAsCommandedIff` are the conditions.
- `IdempotencyNeverBlocks`: the idempotency record is made beside the request it is compared with, so
  it always agrees. `OneInstructionRepeats` says when the same instruction runs its step again.
- `RollbackIsNeverAccepted`: a rollback passes the policy blocks in the rollback-requested state
  and is then refused as an unsupported type, although a branch for it exists.
- `ColonsConfuseTheScan`, `ColonsConfuseIdentities`: compound text keys collide when parts hold
  colons. `ScanIsExactIff` and `IdentityIsUniqueIff` are the conditions.
- `HelmReleaseBreaksExactness`: a Helm release node can turn the only candidate for a reference to a
  HelmRelease resource into one of two. `AnswerMovesIff` says exactly when a new node does that, and
  `ExactIff` exactly when a whole build is affected.
- `CountDependsOnOrder`: the dependency graph's summary is documented as deterministic, but the
  number of counted cycles depends on the order in which sets are iterated. Whether it is zero does
  not. `SameEdgesInEveryOrderIff` is the condition for the counted edges; it also fixes the number,
  and `CountMayAgreeWhereEdgesDiffer` shows that the number alone can be fixed without it.
- When the audit hook fails, the MCP client reports one attempt although no call was made
  (`Client.CallTool`); the same contract says that with a negative retry limit the reported number
  is that of the budget. In all other cases it is the number of calls made.

## Model

| member | source | states |
|---|---|---|
| PlanGraph.ValidateDependencyGraph | src/bosgenesis_mop_execution_agent/plans/dependency_graph.py:12-51 | a plan passes exactly when every merged dependency is a known phase and the phase graph has no directed cycle; an unknown-dependency error names the first offending phase and precisely the ids it lacks |
| PlanGraph.DetectCycles | src/bosgenesis_mop_execution_agent/plans/dependency_graph.py:35-51 | raises exactly for cyclic graphs and names a node on a cycle; on success the order in which phases become permanent is a topological order of all phases |
| PlanGraph.CycleDetector.Visit | src/bosgenesis_mop_execution_agent/plans/dependency_graph.py:39-48 | the recursive visit terminates (measure: phases in neither set), keeps the permanent phases closed and topologically ordered, restores the temporary set, and on failure exhibits a cycle through the named node |
| PlanGraph.PhaseGraph | src/bosgenesis_mop_execution_agent/plans/dependency_graph.py:19-23 | the graph holds every phase id, the last declaration of a phase, and the union of all dependency_graph entries about it; its keys stand in the order of their first mention |
| PlanGraph.LastDeclarationCounts | src/bosgenesis_mop_execution_agent/plans/dependency_graph.py:19-20 | of several phases with one id the last one says what the id depends on |
| PlanGraph.MentionedInOrder | src/bosgenesis_mop_execution_agent/plans/dependency_graph.py:19-22 | the keys stand once each, in the order of their first mention |
| PlanGraph.ValidateKnownDependencies | src/bosgenesis_mop_execution_agent/plans/dependency_graph.py:26-32 | passes exactly when every dependency is a key of the graph; otherwise reports the first phase, in key order, that needs something unknown, and exactly its missing ids |
| Digraph.TopologicalIsAcyclic | src/bosgenesis_mop_execution_agent/plans/dependency_graph.py:35-51 | a total topological order excludes every cycle: why a successful visit proves acyclicity |
| Digraph.BackEdgeIsCycle | src/bosgenesis_mop_execution_agent/plans/dependency_graph.py:40-41 | meeting a node of the visiting stack again closes a real cycle through it |
| CycleCount.CountCycles | src/bosgenesis_mop_execution_agent/namespace_twin/dependency_graph.py:543-565 | for the order in which the successor sets are iterated, whatever it is, the count is the number of edges that lead back into the stack of their source, and it is zero exactly for acyclic graphs |
| VisitingOrders.CountedInSomeOrderIff | src/bosgenesis_mop_execution_agent/namespace_twin/dependency_graph.py:552-565 | an edge is counted in some iteration order exactly when a simple path from the first node (in sorted order) that reaches its source meets its target |
| VisitingOrders.CountedInEveryOrderIff | src/bosgenesis_mop_execution_agent/namespace_twin/dependency_graph.py:552-565 | an edge is counted in every order exactly when all such paths meet its target, that is, when the target dominates the source |
| VisitingOrders.SameEdgesInEveryOrderIff | src/bosgenesis_mop_execution_agent/namespace_twin/dependency_graph.py:552-565 | the counted edges are the same in every order exactly when these paths agree about every edge |
| VisitingOrders.CountIsBounded | src/bosgenesis_mop_execution_agent/namespace_twin/dependency_graph.py:552-565 | in every order the count lies between the number of edges counted always and of those counted in some order, and it is fixed where the paths agree |
| VisitingOrders.CountDependsOnOrder | src/bosgenesis_mop_execution_agent/namespace_twin/dependency_graph.py:552-565 | a concrete graph of four nodes whose count is 2 in one order and 1 in another |
| VisitingOrders.CountMayAgreeWhereEdgesDiffer | src/bosgenesis_mop_execution_agent/namespace_twin/dependency_graph.py:552-565 | a concrete graph where every order counts one edge, but not the same: agreement of the paths is not needed for the number alone |
| VisitingOrders.ForestCounts | src/bosgenesis_mop_execution_agent/namespace_twin/dependency_graph.py:543-565 | the counter of the recursive search is the number of these edges |
| VisitingOrders.StackIsEntry | src/bosgenesis_mop_execution_agent/namespace_twin/dependency_graph.py:552-560 | in every order the stack at a node is a simple path from the first node that reaches it |
| VisitingOrders.EntryIsStack | src/bosgenesis_mop_execution_agent/namespace_twin/dependency_graph.py:552-560 | every such path is the stack at its node in some order |
| CycleCount.CycleCounter.Visit | src/bosgenesis_mop_execution_agent/namespace_twin/dependency_graph.py:552-560 | the three-colour visit does what the recursive search in the given order does, keeps the visiting nodes a path, and counts a back edge only when a cycle exists |
| CycleCount.Adjacency | src/bosgenesis_mop_execution_agent/namespace_twin/dependency_graph.py:543-549 | the keys are the node identities and the successors of a node exactly the targets of its edges to known nodes |
| CycleCount.GraphFindings | src/bosgenesis_mop_execution_agent/namespace_twin/dependency_graph.py:508-540 | one finding per missing or uncertain node, in node order, with the code of its status, and DEPENDENCY_CYCLE exactly for cyclic graphs: their number is missing + uncertain + (1 if cyclic) |
| CycleCount.UnresolvedCounts | src/bosgenesis_mop_execution_agent/namespace_twin/dependency_graph.py:508-540 | the reported nodes are the missing and uncertain ones with their multiplicity |
| CycleCount.UnresolvedKeepsOrder | src/bosgenesis_mop_execution_agent/namespace_twin/dependency_graph.py:508-527 | and they are reported in the order of the nodes |
| GraphBuilder.BuildDependencyGraph | src/bosgenesis_mop_execution_agent/namespace_twin/dependency_graph.py:41-505 | for unique input identities: inputs stay the first nodes, references are followed in order, and wishes and grants are those of links, selectors, custom resources and the plan. Every node after the inputs has its status from what it was made for: missing for unmatched selectors and missing manifest files, present for releases, present or missing for phases by whether the plan lists them, and for references uncertain exactly when two nodes had its key then, present for the default service account of a namespace, otherwise missing. For faithful inputs and colon-free references, own kinds included: everything asked for has a node of its kind and name, every recorded edge leads to and from nodes of the kind and name asked for, and the edges are exactly those asked for, read in the finished graph, if and only if no reference was overtaken (one of a resource to itself aside) |
| GraphHistory.SoughtStatus | src/bosgenesis_mop_execution_agent/namespace_twin/dependency_graph.py:118-156 | the status of the node a reference gets, from the nodes at that moment: uncertain exactly when two of them have its key, or have it without a namespace for a cluster-scoped kind of which none has the key itself |
| GraphHistory.HaveStatusNext | src/bosgenesis_mop_execution_agent/namespace_twin/dependency_graph.py:70-105 | adding a node with the status of its maker keeps every node's status explained by the graph before it |
| GraphHistory.MadeHasStatus | src/bosgenesis_mop_execution_agent/namespace_twin/dependency_graph.py:224-505 | in the finished graph a selector target or manifest file is missing, a release present, and a phase present exactly when the plan lists it, unless another reference or an input took the identity first |
| GraphWishes.LinksAskFor | src/bosgenesis_mop_execution_agent/namespace_twin/dependency_graph.py:188-303 | an edge is asked for by a resource exactly for one of its references, from the resource for backends and subjects and towards it for all others, or for its release label, from the release node of its namespace |
| GraphWishes.SelectorsAskFor | src/bosgenesis_mop_execution_agent/namespace_twin/dependency_graph.py:324-378 | by a service with a selector, exactly towards every workload of its own or else the target namespace with all its labels, and towards one SelectorTarget node only when there is none |
| GraphWishes.DefinitionsAskFor | src/bosgenesis_mop_execution_agent/namespace_twin/dependency_graph.py:381-439 | by a resource of an API group that is not built in, exactly from the definition of its group and kind, or from one looked up as lower-case kind, s, dot and group |
| GraphWishes.DefinitionIsLast | src/bosgenesis_mop_execution_agent/namespace_twin/dependency_graph.py:387-402 | of several definitions of one group and kind the last one counts |
| GraphWishes.PlanAsksFor | src/bosgenesis_mop_execution_agent/namespace_twin/dependency_graph.py:442-505 | by the plan, exactly from every phase a phase depends on by its own list or by the dependency graph's entry, and towards all resources read from each file that is not ignored, or towards a node for a file nothing was read from |
| GraphHistory.ExactIff | src/bosgenesis_mop_execution_agent/namespace_twin/dependency_graph.py:67-305 | the condition: overtaken is a reference followed while a resource was its only candidate, under whose kind, namespace and name the graph made a node later |
| GraphHistory.OvertakenIffMade | src/bosgenesis_mop_execution_agent/namespace_twin/dependency_graph.py:70-156 | in terms of what is asked for: a reference with one candidate is overtaken exactly when the graph makes a node for it that it did not have yet |
| GraphHistory.EndMovesIff | src/bosgenesis_mop_execution_agent/namespace_twin/dependency_graph.py:107-156 | over the whole rest of a build, a settled reference reads differently in the finished graph exactly when it was overtaken |
| GraphHistory.OvertakenIsLost | src/bosgenesis_mop_execution_agent/namespace_twin/dependency_graph.py:107-156 | nothing that is asked for reads as the candidate of an overtaken reference in the finished graph |
| GraphHistory.EndsAreAsAsked | src/bosgenesis_mop_execution_agent/namespace_twin/dependency_graph.py:67-182 | in every graph that has grown from faithful inputs, every reference asked for, of whatever kind, has a node of its kind and name |
| GraphHistory.GrantsAreAsAsked | src/bosgenesis_mop_execution_agent/namespace_twin/dependency_graph.py:107-182 | both ends of every recorded edge are nodes of the kind and name that was asked for |
| GraphHistory.FaithfulThroughout | src/bosgenesis_mop_execution_agent/namespace_twin/dependency_graph.py:70-105 | no node that is added ever says something else than its synthetic identity |
| GraphHistory.CleanIsExact | src/bosgenesis_mop_execution_agent/namespace_twin/dependency_graph.py:67-305 | without references of the graph's own kinds the built graph is exact |
| GraphBuilder.Builder.AddSynthetic | src/bosgenesis_mop_execution_agent/namespace_twin/dependency_graph.py:70-105 | adds one node under the synthetic identity unless that identity is taken; keeps the indexes, uniqueness, soundness and the record of what was asked for |
| GraphBuilder.Builder.Resolve | src/bosgenesis_mop_execution_agent/namespace_twin/dependency_graph.py:107-156 | gives the only candidate or else the synthetic node of the reference, the same before and after the call, and always, as the graph grows, a node of the requested kind and name |
| GraphBuilder.Builder.AddEdge | src/bosgenesis_mop_execution_agent/namespace_twin/dependency_graph.py:158-182 | appends the edge unless its type is unknown, it is a loop or it is there; all edges keep joining two nodes and stay pairwise distinct |
| NamespaceGraph.AnswerMovesIff | src/bosgenesis_mop_execution_agent/namespace_twin/dependency_graph.py:107-156 | a new synthetic node changes what a settled reference is resolved to exactly when there was one candidate and the node is found under the reference itself or beside that candidate |
| NamespaceGraph.AnswerIsStable | src/bosgenesis_mop_execution_agent/namespace_twin/dependency_graph.py:107-156 | so what a settled reference is resolved to is not changed by the synthetic nodes that are added for other references and for the graph's own kinds |
| NamespaceGraph.EndIsStable | src/bosgenesis_mop_execution_agent/namespace_twin/dependency_graph.py:107-156 | the ends of recorded edges keep naming the same nodes while the graph grows |
| NamespaceGraph.OwnNodeIsStable | src/bosgenesis_mop_execution_agent/namespace_twin/dependency_graph.py:115-156 | making the synthetic node of a reference does not change what that reference is resolved to |
| NamespaceGraph.EndIsAsAsked | src/bosgenesis_mop_execution_agent/namespace_twin/dependency_graph.py:107-156 | in any faithful graph, an end that names a node names one of the requested kind and name |
| NamespaceGraph.IdentityIsUniqueIff | src/bosgenesis_mop_execution_agent/namespace_twin/dependency_graph.py:80-83 | a synthetic identity stands for one kind, place and name only, exactly when none of the three holds a colon, or the place is a single colon and the others hold none |
| NamespaceGraph.SyntheticIdentityIsInjective | src/bosgenesis_mop_execution_agent/namespace_twin/dependency_graph.py:80-83 | among references whose kind and place hold no colon, names may, and the identities still tell them apart |
| NamespaceGraph.ColonsConfuseIdentities | src/bosgenesis_mop_execution_agent/namespace_twin/dependency_graph.py:80-83 | with a colon in the kind, two different references share a synthetic identity |
| GraphBuilder.HelmReleaseBreaksExactness | src/bosgenesis_mop_execution_agent/namespace_twin/dependency_graph.py:195-243 | for every list of a HelmRelease resource and a resource that names it as owner and belongs to a Helm release of that name, the built graph is not exact |
| NamespaceGraph.OwnKindsMayMoveAReference | src/bosgenesis_mop_execution_agent/namespace_twin/dependency_graph.py:224-243 | the lookup behind it: the node made for a Helm release changes what a reference to a HelmRelease resource is resolved to |
| GraphBuilder.Builder.LinkResources | src/bosgenesis_mop_execution_agent/namespace_twin/dependency_graph.py:188-298 | every reference of every non-synthetic resource is asked for, and nothing else; nodes, edges and the moment of each reference are those of following the references one after the other |
| GraphBuilder.Builder.SelectAll | src/bosgenesis_mop_execution_agent/namespace_twin/dependency_graph.py:324-378 | each service with a selector is joined to every matching workload of its namespace, or to one SelectorTarget node when none matches; for every order of the lookup keys; and every node that is added has the status of what it was made for |
| GraphBuilder.MatchesAreSelected | src/bosgenesis_mop_execution_agent/namespace_twin/dependency_graph.py:346-351 | the matches of a selector are exactly the workloads that carry all its labels |
| GraphBuilder.Builder.ConnectDefinitions | src/bosgenesis_mop_execution_agent/namespace_twin/dependency_graph.py:381-439 | each resource of an unknown API group is joined to the last definition of its group and kind, or to the definition resolved by name |
| GraphBuilder.CrdWishesOfResources | src/bosgenesis_mop_execution_agent/namespace_twin/dependency_graph.py:381-439 | synthetic nodes never ask for a definition and never serve as one |
| GraphBuilder.Builder.ConnectPlan | src/bosgenesis_mop_execution_agent/namespace_twin/dependency_graph.py:442-505 | every phase gets its node; dependencies, applied resources and missing manifest files are asked for exactly as the plan says, ignored files excepted; phases are present or missing by whether the plan lists them, and missing files are missing |
| ImpactPaths.Search.FindImpactPaths | src/bosgenesis_mop_execution_agent/namespace_twin/persistence.py:1258-1324 | the worklist search terminates and reports a prefix of the breadth-first enumeration of simple edge paths, of at most the limit, and all of them when it stays under the limit |
| ImpactPaths.Search.Expand | src/bosgenesis_mop_execution_agent/namespace_twin/persistence.py:1264-1324 | one pass over the edges reports the continuations of a path in order, queues those below the node limit, and stops at the path limit |
| ImpactPaths.Search.LevelIsExact | src/bosgenesis_mop_execution_agent/namespace_twin/persistence.py:1262-1324 | level k of the enumeration holds exactly the simple known-target paths of k edges from the selected node |
| ImpactPaths.Search.ReportedPathsAreSimple | src/bosgenesis_mop_execution_agent/namespace_twin/persistence.py:1258-1324 | every reported path starts at the selected node, follows edges, repeats no node, has at most four nodes, and the lengths never decrease |
| ImpactPaths.Search.NothingIsMissed | src/bosgenesis_mop_execution_agent/namespace_twin/persistence.py:1258-1324 | every such path is in the enumeration, so an unexhausted limit means none is missing |
| ImpactPaths.UpToOnce | src/bosgenesis_mop_execution_agent/namespace_twin/persistence.py:1258-1324 | over distinct edges no path is reported twice |
| ImpactPaths.SelectedGraphContext | src/bosgenesis_mop_execution_agent/namespace_twin/persistence.py:1240-1332 | nothing, not found or the first matching node; inbound and outbound edges cut at 25; at most 12 paths of at most four nodes, complete when fewer, each shown with its statuses, risk, confidence and evidence |
| ImpactPaths.FirstPresent | src/bosgenesis_mop_execution_agent/namespace_twin/persistence.py:1274-1311 | the highest ranked label present, or the default when none is |
| ImpactPaths.Dedupe | src/bosgenesis_mop_execution_agent/namespace_twin/persistence.py:1312-1318 | each evidence reference once, none lost |
| ImpactPaths.DedupeKeepsOrder | src/bosgenesis_mop_execution_agent/namespace_twin/persistence.py:1312-1318 | the references keep the order of their first occurrence |
| ImpactPaths.StatusShown | src/bosgenesis_mop_execution_agent/namespace_twin/persistence.py:1271-1298 | a path shows the worst status of its edges: missing if one is missing, else uncertain if one is, else valid |
| ImpactPaths.RiskShown | src/bosgenesis_mop_execution_agent/namespace_twin/persistence.py:1272-1311 | and the highest risk: critical, high, medium, unknown, low, in this order |
| ImpactPaths.ConfidenceShown | src/bosgenesis_mop_execution_agent/namespace_twin/persistence.py:1273-1284 | and the lowest confidence: uncertain, medium, high, deterministic, in this order, uncertain when there is none |
| ImpactPaths.PathShown | src/bosgenesis_mop_execution_agent/namespace_twin/persistence.py:1277-1318 | a shown path lists the identities of its nodes from the selected one on, the relationship of each edge in order, and exactly the evidence of its edges, each reference once |
| ImpactPaths.FilterKeepsOrder | src/bosgenesis_mop_execution_agent/namespace_twin/persistence.py:1256-1257 | inbound and outbound edges are listed in the order of the edges |
| ImpactPaths.FilterIsExact | src/bosgenesis_mop_execution_agent/namespace_twin/persistence.py:1256-1257 | and they are exactly the edges into and out of the selected node, as often as they occur |
| PdfFile.ReadObjectOf | src/bosgenesis_mop_execution_agent/reports/generator.py:1078-1097 | following startxref and the table entry of object n (ISO 32000-1, sections 7.5.4 and 7.5.5) arrives exactly at the bytes written for object n, whatever the objects contain, while offsets have at most ten digits |
| PdfFile.PdfPayload | src/bosgenesis_mop_execution_agent/reports/generator.py:1078-1097 | the loop that notes offsets while it appends writes the file in which every entry is the length of the body before its object |
| PdfFile.ReadEntryOf | src/bosgenesis_mop_execution_agent/reports/generator.py:1087-1090 | the twenty bytes at position 20n of the table are the entry of object n and hold its offset |
| PdfFile.ReadStartXrefOf | src/bosgenesis_mop_execution_agent/reports/generator.py:1091-1096 | scanning back from the end of the file finds the offset of the table |
| PdfFile.EntryWidth | src/bosgenesis_mop_execution_agent/reports/generator.py:1089-1090 | an entry has its twenty bytes exactly for offsets below ten to the tenth |
| PdfDocument.WriteBuiltinPdf | src/bosgenesis_mop_execution_agent/reports/generator.py:1015-1046 | catalog, pages, font, then a page and its content per 54 lines, with the numbers 4+2i and 5+2i |
| PdfDocument.ReadDocumentOf | src/bosgenesis_mop_execution_agent/reports/generator.py:1015-1097 | a reader that goes from the table over Kids, Contents and Length to the text operators recovers all lines of the report in order (Latin-1, carriage returns dropped) |
| PdfDocument.ReadPageOf | src/bosgenesis_mop_execution_agent/reports/generator.py:1028-1045 | the page object of a page leads to a content stream that shows exactly its lines |
| PdfDocument.ReadContentOf | src/bosgenesis_mop_execution_agent/reports/generator.py:1039-1045 | Length frames exactly the stream, even when the stream contains the end marker |
| PdfDocument.ReadKidsOf | src/bosgenesis_mop_execution_agent/reports/generator.py:1021-1025 | Kids names the page objects, in order |
| PdfDocument.PdfTextStream | src/bosgenesis_mop_execution_agent/reports/generator.py:1060-1066 | the joined commands are the prelude, one shown line each, and the end operator |
| PdfDocument.ReadStreamOf | src/bosgenesis_mop_execution_agent/reports/generator.py:1060-1066 | reading a text stream back gives its lines |
| PdfDocument.ReadLiteralOf | src/bosgenesis_mop_execution_agent/reports/generator.py:1069-1075 | an escaped line between parentheses is one literal string (section 7.3.4.2) that reads back as the line, and the reader stops right behind it |
| PdfDocument.EscapeConcat | src/bosgenesis_mop_execution_agent/reports/generator.py:1069-1075 | four replacements in a row treat every character on its own |
| PdfDocument.PagesOf | src/bosgenesis_mop_execution_agent/reports/generator.py:1018 | pages of 54 lines, only the last may be shorter, at least one page |
| PdfDocument.PagesHoldTheLines | src/bosgenesis_mop_execution_agent/reports/generator.py:1018 | the pages concatenate back to the lines |
| Decimal.PaddedRoundTrip | src/bosgenesis_mop_execution_agent/reports/generator.py:1090 | the ten-digit offset reads back as the offset |
| Decimal.DecRoundTrip | src/bosgenesis_mop_execution_agent/reports/generator.py:1083-1094 | a printed number reads back as itself |
| Quantity.NormalizeIsCanonical | src/bosgenesis_mop_execution_agent/namespace_twin/canonicalization.py:134-146 | two well-formed quantities have the same normal text exactly when they denote the same number, across signs, leading points, decimal and binary suffixes |
| Quantity.NormalizeKeepsNumber | src/bosgenesis_mop_execution_agent/namespace_twin/canonicalization.py:134-146 | the normal text is itself a quantity and denotes the same number |
| Quantity.NormalizeIsIdempotent | src/bosgenesis_mop_execution_agent/namespace_twin/canonicalization.py:134-146 | normalising again changes nothing, for quantities and all other texts |
| Quantity.ReducedIsUnique | src/bosgenesis_mop_execution_agent/namespace_twin/canonicalization.py:143-146 | a number has one reduced decimal, up to the sign of zero |
| Quantity.ReduceKeepsValue | src/bosgenesis_mop_execution_agent/namespace_twin/canonicalization.py:143-146 | dropping trailing zeros keeps the number |
| Quantity.ParsePlain | src/bosgenesis_mop_execution_agent/namespace_twin/canonicalization.py:134-146 | the fixed-point text of a decimal parses back to its value and sign |
| Quantity.SuffixCounts | src/bosgenesis_mop_execution_agent/namespace_twin/canonicalization.py:36-56 | digits with letters behind them are a quantity exactly for the seventeen known suffixes, the empty one included, and then denote that many of its units |
| Canonical.CanonicalIsIdempotent | src/bosgenesis_mop_execution_agent/namespace_twin/canonicalization.py:103-115 | the canonical form of a value is its own canonical form, at every depth |
| Canonical.CanonicalForgetsOrder | src/bosgenesis_mop_execution_agent/namespace_twin/canonicalization.py:103-123 | rearranging order-insensitive lists at any depth keeps the canonical form when items with equal sort keys are equal |
| Canonical.OrderForgottenIff | src/bosgenesis_mop_execution_agent/namespace_twin/canonicalization.py:103-123 | for any list whose order should not matter, all arrangements have one canonical form exactly when items whose canonical forms have the same sort key have the same canonical form |
| Canonical.UnnamedPortsKeepTheirOrder | src/bosgenesis_mop_execution_agent/namespace_twin/canonicalization.py:22-34 | a concrete list where they do not: two unnamed ports of a service with one number and two protocols |
| Canonical.CanonicalizeKubernetesObject | src/bosgenesis_mop_execution_agent/namespace_twin/canonicalization.py:72-91 | popping and rewriting the fields of a copy gives the cleaned, redacted and canonical object |
| Canonical.ObjectIsIdempotent | src/bosgenesis_mop_execution_agent/namespace_twin/canonicalization.py:72-91 | canonicalising a whole object twice is the same as once |
| Canonical.CleanOfCanonical | src/bosgenesis_mop_execution_agent/namespace_twin/canonicalization.py:72-91 | a canonical object holds no runtime field, empty metadata or secret value that cleaning would still remove |
| Canonical.SecretValuesAreGone | src/bosgenesis_mop_execution_agent/namespace_twin/canonicalization.py:72-91 | every value of a secret's data and stringData is the redaction mark in the canonical form |
| CanonicalLeaves.SameFormIffSameNumber | src/bosgenesis_mop_execution_agent/namespace_twin/canonicalization.py:72-146 | two objects that differ in two well-formed quantities at one place below limits, requests or capacity, or under storage, have one canonical form exactly when the quantities are the same number |
| CanonicalLeaves.SameFormIffSameText | src/bosgenesis_mop_execution_agent/namespace_twin/canonicalization.py:72-115 | two objects that differ in one text anywhere else that is kept have one canonical form only if the texts are the same |
| CanonicalLeaves.QuantityIsKept | src/bosgenesis_mop_execution_agent/namespace_twin/canonicalization.py:103-146 | a quantity of the object stands at its place in the canonical form as a quantity of the same number |
| CanonicalLeaves.ObjectLeaves | src/bosgenesis_mop_execution_agent/namespace_twin/canonicalization.py:72-115 | every text, number and truth value that is kept stands where it stood, quantities normalised, and nothing is added; the status, runtime fields, empty labels and a secret's values leave nothing but the redaction mark |
| CanonicalLeaves.OthersAreUnchanged | src/bosgenesis_mop_execution_agent/namespace_twin/canonicalization.py:103-115 | whatever is no quantity is there as it was |
| CanonicalLeaves.DifferenceShowsIff | src/bosgenesis_mop_execution_agent/namespace_twin/canonicalization.py:103-115 | at any depth, through sorted lists: values that differ in one text have one canonical form exactly when what stands for the two texts is the same |
| CanonicalLeaves.NamedItemsForgetOrder | src/bosgenesis_mop_execution_agent/namespace_twin/canonicalization.py:22-34 | containers, variables, pull secrets and volumes with different names have one canonical form in every order, if the sort keys of different fields differ |
| CanonicalLeaves.WholeItemsForgetOrder | src/bosgenesis_mop_execution_agent/namespace_twin/canonicalization.py:22-34 | rules and finalizers have one canonical form in every order, if the sort keys of different items differ |
| CanonicalLeaves.OtherListsKeepOrder | src/bosgenesis_mop_execution_agent/namespace_twin/canonicalization.py:107-112 | every list not in the table has one canonical form exactly with lists that agree item by item |
| CanonicalLeaves.SecretIff | src/bosgenesis_mop_execution_agent/namespace_twin/canonicalization.py:85-89 | an object is a secret exactly by its kind, in whatever case |
| CanonicalLeaves.SameIdentityIff | src/bosgenesis_mop_execution_agent/namespace_twin/canonicalization.py:58-69 | two resources share an identity exactly when version, kind, namespace and name agree, if the first three hold no colon |
| StableSort.SortIsSorted | src/bosgenesis_mop_execution_agent/namespace_twin/canonicalization.py:111-115 | the sort is in key order and keeps the items with multiplicity |
| StableSort.SortIsStable | src/bosgenesis_mop_execution_agent/namespace_twin/canonicalization.py:111-115 | items with equal keys keep their order, as Python's sort promises |
| StableSort.SortForgetsOrderIff | src/bosgenesis_mop_execution_agent/namespace_twin/canonicalization.py:111-123 | all arrangements of a list sort alike exactly when equal keys mean equal items |
| FieldChanges.CollectChanges | src/bosgenesis_mop_execution_agent/namespace_twin/delta.py:218-226 | the recursive listing yields the rows of the specification in sorted key order |
| FieldChanges.NoChangesIffEqual | src/bosgenesis_mop_execution_agent/namespace_twin/delta.py:218-226 | no row exactly when both sides are equal, up to null counting as absent at positions reached through dicts |
| FieldChanges.PatchGivesPlanned | src/bosgenesis_mop_execution_agent/namespace_twin/delta.py:218-226 | writing the planned values at the reported paths turns the live side into the planned one |
| FieldChanges.PatchRows | src/bosgenesis_mop_execution_agent/namespace_twin/delta.py:222-225 | after the rows of some keys those keys agree with the plan and every other key is untouched |
| FieldChanges.ProtectedPathsAreCaught | src/bosgenesis_mop_execution_agent/namespace_twin/delta.py:229-235 | a change at or below a protected path always matches the dotted-prefix test |
| FieldChanges.DottedTestIsExactWithoutDots | src/bosgenesis_mop_execution_agent/namespace_twin/delta.py:229-235 | the dotted test agrees with key prefixes, for all dot-free patterns of n keys, exactly when the first n keys hold no dot or even the dotted path is too short |
| FieldChanges.ConflictIsExact | src/bosgenesis_mop_execution_agent/namespace_twin/delta.py:229-235 | over any changes whose first two keys (as far as there are two) hold no dot, a conflict is reported exactly for changes of or below an immutable field of the kind |
| FieldChanges.ConflictOnObjects | src/bosgenesis_mop_execution_agent/namespace_twin/delta.py:218-235 | what the test finds on any two objects: a differing immutable field where both specs are dicts, or a differing dotted key that reads as one |
| FieldChanges.ConflictMeansDifferenceIff | src/bosgenesis_mop_execution_agent/namespace_twin/delta.py:218-235 | the exact condition under which the test says whether an immutable field differs, null counting as absent |
| FieldChanges.ConflictIsFieldDifference | src/bosgenesis_mop_execution_agent/namespace_twin/delta.py:218-235 | it does for dict specs whenever no key of the objects and their specs holds a dot |
| FieldChanges.ConflictByKind | src/bosgenesis_mop_execution_agent/namespace_twin/delta.py:24-38 | which fields those are: the selector of deployments and stateful sets, the service name of stateful sets, the addresses and families of services, and class, mode, volume and source of claims |
| FieldChanges.WholeSpecIsMissed | src/bosgenesis_mop_execution_agent/namespace_twin/delta.py:218-235 | a concrete pair where it does not: a Deployment whose spec appears as a whole, selector included |
| FieldChanges.DottedKeyIsMistaken | src/bosgenesis_mop_execution_agent/namespace_twin/delta.py:229-235 | a key that contains a dot makes the test fire on a field that is not protected |
| ReleaseDelta.Inputs.CalculateReleaseDelta | src/bosgenesis_mop_execution_agent/namespace_twin/delta.py:55-171 | the loops over resources and delete steps and the deduplication produce, per identity, the row the specification keeps |
| ReleaseDelta.Inputs.DeltaOf | src/bosgenesis_mop_execution_agent/namespace_twin/delta.py:55-171 | per identity: an explicit_delete with the live state exactly when a delete step names a live resource, else the row of the planned resource that stands for it, else nothing; a deletion survives deduplication |
| ReleaseDelta.Inputs.RowsAreThePlanned | src/bosgenesis_mop_execution_agent/namespace_twin/delta.py:55-171 | omission is never deletion: an identity has a row exactly when the plan declares it and it is not skipped |
| ReleaseScope.SkippedIff | src/bosgenesis_mop_execution_agent/namespace_twin/delta.py:308-339 | a planned resource is left out exactly when it names a release that starts with an ignored prefix, or one that, with the inventory known, is neither installed nor planned to be; names are trimmed and compared without case |
| ReleaseScope.WinnerIsLast | src/bosgenesis_mop_execution_agent/namespace_twin/delta.py:70-142 | the resource that stands for an identity is the last one that is not left out |
| ReleaseScope.OwnerIsLast | src/bosgenesis_mop_execution_agent/namespace_twin/delta.py:87 | and so is the one that stands for a manifest path |
| ReleaseScope.LiveIsLast | src/bosgenesis_mop_execution_agent/namespace_twin/delta.py:65-69 | the live state of an identity is the canonical form of the last live resource with it |
| ReleaseScope.NamesShown | src/bosgenesis_mop_execution_agent/namespace_twin/delta.py:85-135 | a row names its resource by the stored identity and kind, or else by what the manifest says, with the live and the planned canonical form |
| ReleaseDelta.Inputs.PlannedActions | src/bosgenesis_mop_execution_agent/namespace_twin/delta.py:89-120 | create exactly for an absent identity of a completely captured kind; no_op exactly for equal canonical forms; unknown exactly for incomplete evidence, a live object without version, kind or metadata included; immutable_conflict exactly for a protected change |
| ReleaseDelta.Inputs.RowChangesGivePlanned | src/bosgenesis_mop_execution_agent/namespace_twin/delta.py:109-135 | the changes of a row patch the live canonical form into the planned one |
| ReleaseDelta.Inputs.Deduplicate | src/bosgenesis_mop_execution_agent/namespace_twin/delta.py:346-360 | one row per identity: the first deletion if there is one, else the last row |
| ReleaseDelta.Inputs.KeptWithDeletions | src/bosgenesis_mop_execution_agent/namespace_twin/delta.py:142-171 | appending delete rows changes exactly the identities they name |
| TwinRuns.StepKeeps | src/bosgenesis_mop_execution_agent/namespace_twin/persistence.py:559-800 | every operation keeps the invariant: events numbered 1..n without gaps, row version at most n, completion time exactly in terminal states, decision exactly with its one decision row, distinct idempotency scopes |
| TwinRuns.RunKeeps | src/bosgenesis_mop_execution_agent/namespace_twin/persistence.py:559-1142 | the invariant holds after every run of operations |
| TwinRuns.StoreKeeps | src/bosgenesis_mop_execution_agent/namespace_twin/persistence.py:1112-1142 | storing a row one version on, together with its event, keeps the invariant |
| TwinRuns.LoggedNumbers | src/bosgenesis_mop_execution_agent/namespace_twin/persistence.py:1112-1142 | an appended event gets its twin's next number and leaves other twins' numbers alone |
| TwinRuns.StepEvolves | src/bosgenesis_mop_execution_agent/namespace_twin/persistence.py:559-1109 | an operation only appends to events and decisions, never lowers a row version, keeps the identity fields, and moves states only as allowed |
| TwinRuns.RunEvolves | src/bosgenesis_mop_execution_agent/namespace_twin/persistence.py:559-1109 | the same over every run |
| TwinRuns.TerminalIsLeftOnlyByDrift | src/bosgenesis_mop_execution_agent/namespace_twin/persistence.py:731-800 | a terminal state changes exactly for a material drift finding about that twin, and then to superseded |
| TwinRuns.DecisionIsImmutable | src/bosgenesis_mop_execution_agent/namespace_twin/persistence.py:1046-1109 | a recorded decision row stays the only one of its twin and the decision never changes again |
| TwinRuns.ColourIsDecidedIff | src/bosgenesis_mop_execution_agent/namespace_twin/models.py:41-60 | coloured twins stay decided under every operation except exactly the plain transition from decision calculation to a colour, which the transition table allows |
| TwinRuns.GreenWithoutDecision | src/bosgenesis_mop_execution_agent/namespace_twin/models.py:41-60 | a concrete run that ends green without any recorded decision |
| TwinRuns.StartNeedsRecordedGreen | src/bosgenesis_mop_execution_agent/namespace_twin/service.py:1978-2000 | in every reachable state start_execution is enabled exactly for an unexpired green twin with one recorded green decision, no blocking runtime effect and no drift assessment that disables executions |
| TwinRuns.DriftFactIsLastAssessment | src/bosgenesis_mop_execution_agent/namespace_twin/persistence.py:731-800 | over every run, the drift fact of a decided twin is the last assessment recorded for it |
| TwinRuns.DisabledUntilReassessed | src/bosgenesis_mop_execution_agent/namespace_twin/service.py:1979-2000 | after a disabling assessment, material or not, start_execution stays disabled until another assessment is recorded that does not disable |
| TwinRuns.SupersededNeverStarts | src/bosgenesis_mop_execution_agent/namespace_twin/service.py:2266-2288 | superseded is absorbing: no later run and no later time enables start_execution |
| TwinFacts.StepWrites | src/bosgenesis_mop_execution_agent/namespace_twin/persistence.py:634-940 | exactly the facts an operation writes read as written, key by key, and all others, of every twin, as before: merged facts win over stored ones, a decision replaces them all |
| TwinFacts.FactIsLastWrite | src/bosgenesis_mop_execution_agent/namespace_twin/persistence.py:634-1109 | over every run, a fact reads as the last operation that was carried out and wrote it left it, or as it was |
| TwinFacts.CarriedOutIff | src/bosgenesis_mop_execution_agent/namespace_twin/persistence.py:559-1109 | when each operation is carried out, from the row alone: transitions state by state, colours only from the decision calculation, merges only into undecided active twins; otherwise nothing changes |
| TwinFacts.RowAfter | src/bosgenesis_mop_execution_agent/namespace_twin/persistence.py:559-1109 | the rest of the row after each operation: merged facts and evidence leave lifecycle, decision and scope alone, transitions set the state and its completion, decisions their colour, hash and one decision row |
| TwinFacts.EventsAfter | src/bosgenesis_mop_execution_agent/namespace_twin/persistence.py:559-1142 | each operation adds one event of its twin under its own name, and drift that supersedes a second one |
| TwinFacts.ExecutionIsLinked | src/bosgenesis_mop_execution_agent/namespace_twin/persistence.py:690-705 | a link overlays the first link of its execution, where its own fields win and the others stay, or comes last; no other link changes |
| TwinFacts.ModeIsMarked | src/bosgenesis_mop_execution_agent/namespace_twin/persistence.py:731-940 | stored evidence marks the mode of its own module as real and leaves all others |
| TwinFacts.PriorDecisionIsKept | src/bosgenesis_mop_execution_agent/namespace_twin/persistence.py:752-763 | a material drift finding keeps the decision, its version, finality and hash among the facts |
| TwinFacts.StoppedUntilReassessed | src/bosgenesis_mop_execution_agent/namespace_twin/service.py:2429-2440 | runtime evidence that asks for red, amber or review keeps a decided twin from starting through every run until other runtime evidence is recorded |
| TwinFacts.RuntimeBlocksIff | src/bosgenesis_mop_execution_agent/namespace_twin/service.py:2429-2434 | the stored runtime evidence stands against an execution exactly for these three effects |
| TwinFacts.DisablesIff | src/bosgenesis_mop_execution_agent/namespace_twin/service.py:1978-1988 | a drift assessment disables executions exactly when it compared two captures and says so |
| TwinFacts.FreshnessShown | src/bosgenesis_mop_execution_agent/namespace_twin/service.py:2266-2288 | superseded, expired, drifted or stale by the assessment, thirty minutes from expiry, or fresh, in this order |
| TwinRepository.Repository.AppendEventInSession | src/bosgenesis_mop_execution_agent/namespace_twin/persistence.py:1112-1142 | the maximum-plus-one lookup appends exactly one event with that number |
| TwinRepository.Repository.CreateRun | src/bosgenesis_mop_execution_agent/namespace_twin/persistence.py:72-118 | the new state and outcome are those of the step: an existing idempotency scope is returned unchanged |
| TwinRepository.Repository.Transition | src/bosgenesis_mop_execution_agent/namespace_twin/persistence.py:559-600 | as the step: unknown twins, moves out of terminal states and unlisted transitions are refused without effect, and the present state is accepted unchanged |
| TwinRepository.Repository.Cancel | src/bosgenesis_mop_execution_agent/namespace_twin/persistence.py:602-615 | as the step: only active twins are cancelled |
| TwinRepository.Repository.MergeFacts | src/bosgenesis_mop_execution_agent/namespace_twin/persistence.py:634-671 | as the step: facts are overlaid key by key, the merged ones winning, the version grows by one with one event |
| TwinRepository.Repository.RecordDrift | src/bosgenesis_mop_execution_agent/namespace_twin/persistence.py:731-800 | as the step: the assessment becomes the drift fact; a material one sets the decision aside and supersedes the twin |
| TwinRepository.Repository.RecordExecutionLink | src/bosgenesis_mop_execution_agent/namespace_twin/persistence.py:673-729 | as the step: the first link of the same execution is overlaid or the link is appended, and the decision is untouched |
| TwinRepository.Repository.RecordRuntimeBehavior | src/bosgenesis_mop_execution_agent/namespace_twin/persistence.py:802-845 | as the step: the assessment and its effect are stored, in any lifecycle state |
| TwinRepository.Repository.RecordReleaseNoteValidation | src/bosgenesis_mop_execution_agent/namespace_twin/persistence.py:847-890 | as the step: only the validation facts, the version and the event change |
| TwinRepository.Repository.RecordMopReplay | src/bosgenesis_mop_execution_agent/namespace_twin/persistence.py:892-940 | as the step: the replay is stored with both safety assertions false and the strategy as given |
| TwinRepository.Repository.Supersede | src/bosgenesis_mop_execution_agent/namespace_twin/persistence.py:1008-1044 | as the step: only active twins are superseded; repeating the call for the same successor changes nothing |
| TwinRepository.Repository.PersistTerminalDecision | src/bosgenesis_mop_execution_agent/namespace_twin/persistence.py:1046-1109 | as the step: only in decision calculation, and only once, a colour is recorded with its decision row and event; everything else is refused without effect |
| TwinRepository.Repository.ExpireDue | src/bosgenesis_mop_execution_agent/namespace_twin/persistence.py:988-1006 | exactly the due twins end expired, in any order of processing, all others are untouched, and no transition is refused |
| LeaseLock.MutualExclusion | src/bosgenesis_mop_execution_agent/persistence/locks.py:103-131 | in every reachable state and at every time at most one issued lock of a namespace can still renew |
| LeaseLock.AcquireIffFree | src/bosgenesis_mop_execution_agent/persistence/locks.py:110-121 | acquiring succeeds exactly when no unexpired lease exists, and the lease then lasts exactly its seconds |
| LeaseLock.StaleHolderIsHarmless | src/bosgenesis_mop_execution_agent/persistence/locks.py:123-131 | renewing or releasing without the lease fails and changes nothing observable |
| LeaseLock.HolderReleases | src/bosgenesis_mop_execution_agent/persistence/locks.py:128-131 | releasing an own live lease succeeds, frees the namespace at once and touches nothing else |
| LeaseLock.HolderRenews | src/bosgenesis_mop_execution_agent/persistence/locks.py:123-126 | renewing an own lease that stays live succeeds and keeps it for exactly another full term |
| LeaseLock.LostStaysLost | src/bosgenesis_mop_execution_agent/persistence/locks.py:106-131 | a lease that has run out is never held again in any later run |
| LeaseLock.NewHolderEndsTheOld | src/bosgenesis_mop_execution_agent/persistence/locks.py:106-131 | once a namespace is acquired anew, no earlier lock of it can renew in any continuation |
| LeaseLock.RunIsWellIssued | src/bosgenesis_mop_execution_agent/persistence/locks.py:106-131 | stored lock values always belong to issued locks, the clock never goes back, and issued locks accumulate |
| LeaseLock.LockValueIsInjective | src/bosgenesis_mop_execution_agent/persistence/locks.py:158-159 | owner and token can be read back from the stored value |
| LeaseLock.KeysAreApart | src/bosgenesis_mop_execution_agent/persistence/locks.py:150-155 | lock and heartbeat keys never collide and namespaces have distinct keys |
| LeaseLock.Client.Set | src/bosgenesis_mop_execution_agent/persistence/locks.py:39-56 | nx and xx decide against the unexpired value; the expiry is set from ex |
| LeaseLock.Client.Get | src/bosgenesis_mop_execution_agent/persistence/locks.py:58-61 | answers the unexpired value and forgets an expired one |
| LeaseLock.Client.Expire | src/bosgenesis_mop_execution_agent/persistence/locks.py:68-74 | moves the expiry of a live value only |
| LeaseLock.NamespaceLockService.Acquire | src/bosgenesis_mop_execution_agent/persistence/locks.py:110-121 | one set-if-absent with expiry; the lock is returned exactly when it was stored |
| LeaseLock.NamespaceLockService.Renew | src/bosgenesis_mop_execution_agent/persistence/locks.py:123-126 | extends exactly the caller's own live lease |
| LeaseLock.NamespaceLockService.Release | src/bosgenesis_mop_execution_agent/persistence/locks.py:128-131 | deletes exactly the caller's own live lease |
| PolicyTwin.FinalizeEqualsRescore | src/bosgenesis_mop_execution_agent/namespace_twin/policy_twin.py:246-378 | finalising the stored preliminary twin gives what evaluating everything again with the dry-run result gives |
| PolicyTwin.FinalizePolicyTwin | src/bosgenesis_mop_execution_agent/namespace_twin/policy_twin.py:246-378 | the axes are updated in place to the final twin; a missing policy verdict is an error |
| PolicyTwin.FinalScore | src/bosgenesis_mop_execution_agent/namespace_twin/policy_twin.py:478-567 | the final score is the smaller of 100 and the sum of the weights that hold |
| PolicyTwin.ScoreRisk | src/bosgenesis_mop_execution_agent/namespace_twin/policy_twin.py:530-554 | the scoring loop lists every rule once and adds up the matched weights |
| PolicyTwin.PassedDryRunNeverHurts | src/bosgenesis_mop_execution_agent/namespace_twin/policy_twin.py:246-378 | a passed dry run neither raises the score nor worsens the colour |
| PolicyTwin.PreliminaryIsWeak | src/bosgenesis_mop_execution_agent/namespace_twin/policy_twin.py:396-475 | before a dry run the evidence is never complete |
| PolicyTwin.CompleteIffAllSatisfied | src/bosgenesis_mop_execution_agent/namespace_twin/policy_twin.py:396-475 | evidence is complete exactly when every check is satisfied and nothing is stale |
| PolicyTwin.ProjectIsTheJoin | src/bosgenesis_mop_execution_agent/namespace_twin/policy_twin.py:638-683 | the precedence chain is the worst colour of policy, dry run, score and evidence |
| PolicyTwin.FinalDecisionIsTheJoin | src/bosgenesis_mop_execution_agent/namespace_twin/service.py:793-803 | the final colour is the worst of the dry run, the projection and the runtime effect |
| PolicyTwin.GreenNeedsEverything | src/bosgenesis_mop_execution_agent/namespace_twin/service.py:787-803 | green exactly if the dry run passed, policy allows, evidence is complete, the score is at most 30 and no runtime effect intervenes; red exactly for the listed causes |
| PolicyTwin.DecisionFromFindings | src/bosgenesis_mop_execution_agent/namespace_twin/policy_twin.py:638-683 | the final decision from the findings alone: red exactly for a denial, a dry run that did not pass, a risk of 71 or forced red; green exactly without denial and required approval, with passed dry run, all evidence, a risk of 30 at most and no runtime effect; amber otherwise |
| PolicyTwin.EvaluationIs | src/bosgenesis_mop_execution_agent/namespace_twin/policy_twin.py:382-391 | an evaluation from its findings: the colour, the first rule of the precedence that decides it, and the risk as the sum of the thirteen weights, missing evidence counting 20 |
| PolicyTwin.PreliminaryColour | src/bosgenesis_mop_execution_agent/namespace_twin/policy_twin.py:638-683 | before the dry run the colour is red exactly for a denial or a risk of 71, and else amber |
| PolicyTwin.ClassesAre | src/bosgenesis_mop_execution_agent/namespace_twin/policy_twin.py:446-450 | stale before all, unavailable without the bundle, complete when nothing is missing, else partial |
| PolicyTwin.WithEvidenceAt | src/bosgenesis_mop_execution_agent/namespace_twin/policy_twin.py:314-331 | refreshing the evidence contribution touches exactly the first entry of its rule |
| Policy.MatchesIffAuthorises | src/bosgenesis_mop_execution_agent/policy/approval_gate.py:64-99 | an approval matches exactly when it covers job, step, fingerprint and every requested resource with a mutation scope and has not expired |
| Policy.ApprovalCodes | src/bosgenesis_mop_execution_agent/policy/approval_gate.py:23-61 | each code exactly in its case: none for an authorising approval, required without approvals, expired when one has expired, mismatch otherwise |
| Policy.EvaluatePolicy | src/bosgenesis_mop_execution_agent/policy/engine.py:66-126 | the guards in a row allow an action exactly when each of its conditions holds, and no block is recorded exactly then |
| Policy.NoScopeBlocksIff | src/bosgenesis_mop_execution_agent/policy/namespace_scope.py:19-58 | no scope block exactly when every reference and manifest stays in the target namespace and is not cluster-scoped |
| Mutation.MutationExecutor.Execute | src/bosgenesis_mop_execution_agent/runtime/mutation.py:109-223 | calls are made exactly for a matching instruction, a prepared step, an authorised request and a usable client, right after the step's own audit event; which calls, in which order, and with which result is determined by the step and the answers |
| Mutation.CallsIffAuthorised | src/bosgenesis_mop_execution_agent/runtime/mutation.py:117-223 | an execution calls a client if and only if it is authorised, and never writes a second audit event |
| ApprovedCalls.CallsAreApproved | src/bosgenesis_mop_execution_agent/runtime/mutation.py:109-223 | if anything is called, then by one of the instructions, which is for this step, after a dry run that succeeded, and under one approval that is for this job, phase and step, has not expired, names this command or none, and names either no resources or all: the kind, namespace and name of every document applied, every reference of the step that is not excluded, and the release of the command; nothing applied is cluster-scoped or in another namespace |
| ApprovedCalls.CallsIffApproved | src/bosgenesis_mop_execution_agent/runtime/mutation.py:109-223 | and the whole condition: a step that got as far as the policy calls its client exactly when the client can be used, the dry run succeeded, at most three attempts were made, no secret or production data was found, every kept document and reference is namespaced and of this namespace, and such an approval exists |
| ApprovedCalls.InstallIs | src/bosgenesis_mop_execution_agent/runtime/mutation.py:272-351 | a step that calls the Helm client first installs what its metadata names, or else its command, name and chart given and values loaded, and then at most reads the status of that release |
| ApprovedCalls.ApplyEnds | src/bosgenesis_mop_execution_agent/runtime/mutation.py:225-270 | applying stops at the first manifest that is not taken; success means none is left, an unanswered last call makes the outcome unknown, and the answered calls are recorded |
| ApprovedCalls.InstallEnds | src/bosgenesis_mop_execution_agent/runtime/mutation.py:272-351 | the status is read exactly after an ambiguous failure, and the step succeeds exactly when the install did or the status shows the release as deployed; which outcomes are unknown and what is recorded |
| ApprovedCalls.AuthorisesIffAllows | src/bosgenesis_mop_execution_agent/runtime/mutation.py:510-542 | an approval authorises the request of a run exactly when it is such an approval, read off the files, the step and the approval's fields |
| ApprovedCalls.RequestedAre | src/bosgenesis_mop_execution_agent/runtime/mutation.py:510-542 | the resources put before the approval are exactly the kept references, one per manifest, and the release |
| ApprovedCalls.AppliedInFileOrder | src/bosgenesis_mop_execution_agent/runtime/mutation.py:141-146 | the documents applied are those not excluded, in the order in which they lie in the files, from the first on, and all of them when the step succeeds |
| ApprovedCalls.FilesInOrder | src/bosgenesis_mop_execution_agent/runtime/mutation.py:353-380 | the documents of two lists of files are those of the first before those of the second, and the first file that cannot be read decides |
| ApprovedCalls.ReferencesStayHere | src/bosgenesis_mop_execution_agent/policy/namespace_scope.py:19-58 | nor is any reference of a step that calls a client cluster-scoped or in another namespace |
| ApprovedCalls.UsedIsLatest | src/bosgenesis_mop_execution_agent/runtime/mutation.py:476-496 | the instruction a run goes by is dated if any is, of the latest date, and of the greatest id among those of that date |
| ApprovedCalls.CommandIs | src/bosgenesis_mop_execution_agent/runtime/mutation.py:499-507 | the command that is audited and approved is the first one marked as mutating, and without any the first that speaks of apply, helm upgrade or helm install |
| Mutation.InstallsAreApprovedIff | src/bosgenesis_mop_execution_agent/runtime/mutation.py:609-614 | for all runs of a Helm step: every resource-bound approval it runs under names the installed release, exactly when metadata and command name one release or the plan lists the other (or no instruction gets the step past the other guards) |
| Mutation.NamesInstalledIff | src/bosgenesis_mop_execution_agent/runtime/mutation.py:510-542 | the request names the installed release exactly under that condition |
| Mutation.ApprovedForOneInstallsAnother | src/bosgenesis_mop_execution_agent/runtime/mutation.py:588-614 | a concrete step approved for release a of which every execution installs release b |
| Mutation.InstallsAsCommandedIff | src/bosgenesis_mop_execution_agent/runtime/mutation.py:609-614 | for all runs of a Helm step: an approval of the command is one of the release and chart that are installed, exactly when the metadata names no release or the release and chart of the command (or no instruction gets the step past the other guards) |
| Mutation.ApprovedChartIsNotInstalled | src/bosgenesis_mop_execution_agent/runtime/mutation.py:588-614 | a concrete step approved by command and release of which every execution installs that release by another chart |
| Mutation.IdempotencyNeverBlocks | src/bosgenesis_mop_execution_agent/runtime/mutation.py:158-172 | the recorded hash is that of the request itself, so the idempotency guard never blocks an execution |
| Mutation.OneInstructionRepeats | src/bosgenesis_mop_execution_agent/runtime/mutation.py:158-172 | after a run that made calls, the same instruction lets the same request make calls again exactly as long as an approval authorises it |
| Mutation.MutationExecutor.ExecuteK8sApply | src/bosgenesis_mop_execution_agent/runtime/mutation.py:225-270 | manifests are applied in order up to the first failure; success means all were applied, failure that the last call failed; a thrown call is not recorded and makes the outcome unknown |
| Mutation.MutationExecutor.ExecuteHelm | src/bosgenesis_mop_execution_agent/runtime/mutation.py:272-351 | at most one install; after an ambiguous transport failure one status read decides whether the step counts as done |
| Mutation.MutationExecutor.RunApproved | src/bosgenesis_mop_execution_agent/runtime/mutation.py:210-223 | the step type decides between the two outcomes below, and other types make no call |
| Mutation.AuditedExtends | src/bosgenesis_mop_execution_agent/runtime/mutation.py:165-223 | a trace stays audited when an audit event and calls are appended in that order |
| Mutation.MatchingContinueInstruction | src/bosgenesis_mop_execution_agent/runtime/mutation.py:476-496 | answers the latest matching instruction, and none exactly when none matches |
| Mutation.FirstCommand | src/bosgenesis_mop_execution_agent/runtime/mutation.py:499-507 | the first command with the property, and none exactly when there is none |
| Mutation.LoadFiles | src/bosgenesis_mop_execution_agent/runtime/mutation.py:353-410 | loading stops at the first missing or malformed file, otherwise gives all documents in order |
| HelmStatus.HelmReleaseIsDeployed | src/bosgenesis_mop_execution_agent/runtime/mutation.py:456-473 | the stack loop terminates and answers exactly whether some dict anywhere in a successful response has the release name and status deployed |
| HelmStatus.DeployedIff | src/bosgenesis_mop_execution_agent/runtime/mutation.py:467-471 | a dict is the deployed release by its name or else release name, and its status or else the status in its info, trimmed and, for the status, in any case |
| HelmStatus.DictMentions | src/bosgenesis_mop_execution_agent/runtime/mutation.py:456-473 | what a dict mentions is itself or in the lists and dicts among its values, the only ones pushed |
| HelmStatus.ContainerValues | src/bosgenesis_mop_execution_agent/runtime/mutation.py:456-473 | exactly the container values are pushed, and they are smaller than the dict, so the loop ends |
| Drift.AssessDrift | src/bosgenesis_mop_execution_agent/namespace_twin/drift_twin.py:85-170 | the changes are exactly the identities whose presence, canonical form or health differ; the status is their maximum, raised from none to minor when the baseline is older than its threshold, 900 seconds if none is set; unknown without evidence; execution disabled exactly for major, critical, unknown or stale; the counts add up |
| DriftMeaning.LevelFromSnapshots | src/bosgenesis_mop_execution_agent/namespace_twin/drift_twin.py:125-160 | the level from the snapshots alone: critical exactly when a differing resource is cluster-scoped, a secret, a role, in another namespace or changed in its safety controls; major exactly when none is but one is gone, a workload or of another Helm revision |
| DriftMeaning.ChangeSays | src/bosgenesis_mop_execution_agent/namespace_twin/drift_twin.py:241-292 | every field of a reported change from the two rows: its type, its classification, and whether it is a Helm revision or a manual patch |
| DriftMeaning.SafetyLeaves | src/bosgenesis_mop_execution_agent/namespace_twin/drift_twin.py:348-366 | the safety part of an object is exactly what stands below the key of a safety control, at any depth |
| DriftMeaning.SafetyChangeShows | src/bosgenesis_mop_execution_agent/namespace_twin/drift_twin.py:348-366 | so a value that a safety control gained or lost is a difference of safety |
| DriftMeaning.HealthSays | src/bosgenesis_mop_execution_agent/namespace_twin/drift_twin.py:336-346 | phase, readiness, replicas and restarts, each from the first place that says anything |
| DriftMeaning.RowSays | src/bosgenesis_mop_execution_agent/namespace_twin/drift_twin.py:295-333 | what a baseline keeps of a resource: the canonical form without the summary, its safety part, health, release and revision |
| Drift.Assess | src/bosgenesis_mop_execution_agent/namespace_twin/drift_twin.py:173-192 | the counting loop counts every classification, and the gates follow from status and staleness |
| Drift.CompareOne | src/bosgenesis_mop_execution_agent/namespace_twin/drift_twin.py:128-153 | one identity yields one change exactly when it differs |
| Drift.AmongIsExact | src/bosgenesis_mop_execution_agent/namespace_twin/drift_twin.py:125-153 | over any sorted identities the list has exactly their changes, in identity order, none twice |
| Drift.ChangesAreUnique | src/bosgenesis_mop_execution_agent/namespace_twin/drift_twin.py:125-153 | no other list of changes is exact |
| Drift.NothingChangedInItself | src/bosgenesis_mop_execution_agent/namespace_twin/drift_twin.py:85-170 | a snapshot compared with itself shows no drift |
| Drift.DriftIffDifferent | src/bosgenesis_mop_execution_agent/namespace_twin/drift_twin.py:85-170 | drift is reported exactly when the snapshots differ somewhere |
| Drift.CountsAddUp | src/bosgenesis_mop_execution_agent/namespace_twin/drift_twin.py:173-192 | minor, major and critical changes add up to all changes |
| Drift.ResourceMap | src/bosgenesis_mop_execution_agent/namespace_twin/drift_twin.py:295-333 | per identity the row of the last resource that has it |
| Drift.CaptureBaseline | src/bosgenesis_mop_execution_agent/namespace_twin/drift_twin.py:47-69 | a baseline holds the resource map and a threshold of at least one second |
| InstructionGate.Gate.ReceiveInstruction | src/bosgenesis_mop_execution_agent/runtime/instructions.py:56-89 | the stateful operation is the transition function: audit, blocks, application, audit |
| InstructionGate.TwoAuditEvents | src/bosgenesis_mop_execution_agent/runtime/instructions.py:56-89 | every instruction extends the audit log by exactly two events, the second being its verdict |
| InstructionGate.RefusedChangesNothing | src/bosgenesis_mop_execution_agent/runtime/instructions.py:56-89 | a refused instruction changes no job, step or stored instruction |
| InstructionGate.AcceptedIff | src/bosgenesis_mop_execution_agent/runtime/instructions.py:56-139 | the exact condition for acceptance: known job, safe kind, no unguarded replacement manifest, a job state that allows it |
| InstructionGate.RollbackIsNeverAccepted | src/bosgenesis_mop_execution_agent/runtime/instructions.py:23-38 | a rollback instruction is refused in every state, also in the one whose check it passes |
| InstructionGate.AtMostOneStepChanges | src/bosgenesis_mop_execution_agent/runtime/instructions.py:141-214 | an accepted instruction writes its own job and at most one step of it, the first one it looks for, and a resume only one that waits for a decision |
| InstructionGate.JobBecomes | src/bosgenesis_mop_execution_agent/runtime/instructions.py:141-214 | the job after each accepted instruction: cancelled and unblocked by abort, ready for a dry run by skip, executing by a resume exactly if it executes after approval with a satisfied dry run and else ready for one, unchanged otherwise; all other fields stay |
| InstructionGate.StepBecomes | src/bosgenesis_mop_execution_agent/runtime/instructions.py:152-203 | and its steps: the first one that is meant is skipped, restored to its succeeded dry run or pending again with its statuses cleared, and every other one is unchanged |
| InstructionGate.ReasonGiven | src/bosgenesis_mop_execution_agent/runtime/instructions.py:56-139 | the reason of a refusal is the first that applies, in the order of the checks |
| InstructionGate.RunEvolves | src/bosgenesis_mop_execution_agent/runtime/instructions.py:56-214 | over any sequence of instructions the tables stay consistent, the log grows by two per instruction, and a step returns to dry-run-succeeded only if the job executes after approval with a satisfied dry run |
| InstructionGate.ScanFinds | src/bosgenesis_mop_execution_agent/persistence/repositories.py:97-103 | the scan by the prefix job id and colon finds exactly the job's own steps, those of jobs whose id goes on after a colon, and those whose step id completes a shorter job id |
| InstructionGate.ScanIsExactIff | src/bosgenesis_mop_execution_agent/persistence/repositories.py:97-103 | it keeps two jobs apart, whatever their step ids, exactly when neither id goes on from the other after a colon |
| InstructionGate.PrefixScanIsExact | src/bosgenesis_mop_execution_agent/persistence/repositories.py:97-103 | so it is exact for job ids without a colon |
| InstructionGate.ColonsConfuseTheScan | src/bosgenesis_mop_execution_agent/persistence/repositories.py:97-103 | with a colon in a job id it also finds another job's steps |
| InstructionGate.SavedAt | src/bosgenesis_mop_execution_agent/persistence/repositories.py:90-95 | saving an updated step replaces its own entry and no other |
| McpClient.Client.CallTool | src/bosgenesis_mop_execution_agent/mcp_clients/base.py:72-153 | nothing is sent without the audit event; calls repeat only after timeouts and transport errors within the budget, which is one more than the retries for a safe call that does not mutate and else one; a mutating call is sent at most once, the result is that of the last call and reports the number of calls made |
| McpClient.MakesIsUnique | src/bosgenesis_mop_execution_agent/mcp_clients/base.py:101-148 | the number of calls is determined by the outcomes and the budget |
| McpClient.MoreRetriesKeepSettledResults | src/bosgenesis_mop_execution_agent/mcp_clients/base.py:101-148 | a higher retry limit changes the result of a call only where the lower one ended in transient failures alone |
| McpClient.ParseRawResult | src/bosgenesis_mop_execution_agent/mcp_clients/base.py:172-229 | success exactly for ok = true with a dict or no data; malformed responses are unknown errors; error codes are known ones or MCP_UNAVAILABLE |
| McpClient.ResponseSays | src/bosgenesis_mop_execution_agent/mcp_clients/base.py:172-229 | a success carries the data, a structured error its own code if that is known and its retry mark |
| McpClient.LastOutcomeDecides | src/bosgenesis_mop_execution_agent/mcp_clients/base.py:101-148 | how a call ends follows from its last outcome: a timeout and a transport error only with the budget spent, with their codes, anything else as it came |

## Left out

- HTTP routes, adapters, logging, metrics and tracing: plumbing over libraries.
- SQL and ORM details, listings, filters and sessions: the repository is modelled as in-memory tables.
- Reading files, YAML and archives: loaded documents and parse errors are parameters.
- Redaction of texts, and the checks for secret values and production data: their answers are inputs of the policy guards.
- The extraction of references, labels, selectors and definitions from manifests: the graph builder starts from what was read; ids, hashes, evidence texts, confidences and risks of nodes and edges are not modelled.
- HTML, Markdown and ReportLab rendering and the wrapping of text into lines: the PDF writer starts from the wrapped lines.
- Risks, reasons, summaries and sort order of delta rows, and the texts of findings, blocks and messages.
- The extraction of facts that risk rules and evidence checks rest on: they are inputs of the policy twin.
- Digits, white space and letter case beyond ASCII; Python's recursion limit.
- Rounding of decimals beyond 28 digits.
- Retries on exceptions other than timeouts and transport errors: they propagate, and so they do in `McpClient`.
- The race between get and delete of two processes on a real Redis server: the in-memory client is atomic.
- Recovery after a restart: it appends one event per active twin through the event operation that is modelled.
- PlanGraph.DetectCycles: which node of a cycle is named is left open, as the source iterates over sets of dependencies.
- Chart version, repository and values of a Helm installation: they are not part of the recorded calls.
- VisitingOrders.CountIsBounded: for the number of cycles alone, agreement of the entry paths is proved sufficient and shown not to be necessary; no exact condition short of comparing all orders is given.
- GraphBuilder.BuildDependencyGraph: kind and name of ends and the condition for exactness are stated for inputs whose identities do not imitate synthetic ones and for references without a colon in kind or namespace; the other guarantees hold without that.
