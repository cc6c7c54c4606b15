/**
 * What the operations on namespace twins (namespace_twin/persistence.py) leave in a stored row, key
 * by key: which facts are written, which side wins, and what stays as it was.
 */
module TwinFacts {
  import opened Options
  import opened Json
  import opened TwinState
  import TwinRuns

  // ----- When an operation is carried out -----

  predicate IsActive(l: Lifecycle) {
    l in {Requested, Generating, AwaitingDryRun, DryRunEvidenceAttached, DecisionCalculating}
  }

  function Rank(l: Lifecycle): nat {
    match l
    case Requested => 0
    case Generating => 1
    case AwaitingDryRun => 2
    case DryRunEvidenceAttached => 3
    case DecisionCalculating => 4
    case _ => 5
  }

  /**
   * Active twins go on state by state, where a twin that awaits its dry run may be calculated
   * without one; they may end at any time, but with a colour only from the calculation.
   */
  predicate MayMove(from: Lifecycle, to: Lifecycle) {
    && IsActive(from)
    && if IsActive(to) then Rank(to) == Rank(from) + 1 || (from == AwaitingDryRun && to == DecisionCalculating)
       else to in {Green, Amber, Red} ==> from == DecisionCalculating
  }

  lemma TransitionsAre(from: Lifecycle, to: Lifecycle)
    ensures from != to && from !in TerminalStates && to in AllowedTransitions(from) <==> from != to && MayMove(from, to)
  {}

  lemma ActiveOrTerminal(l: Lifecycle)
    ensures IsActive(l) <==> l !in TerminalStates
    ensures IsActive(l) <==> l in ActiveStates
  {}

  predicate IsCarriedOut(s: State, op: Op) {
    if op.CreateRun? then op.id !in s.rows && forall other :: other in s.rows ==> s.rows[other].scope != op.scope
    else
      && op.id in s.rows
      && var row := s.rows[op.id];
         match op
         case Transition(_, next, _) => row.lifecycle != next && MayMove(row.lifecycle, next)
         case Cancel(_, _) => IsActive(row.lifecycle)
         case MergeFacts(_, _, _) => IsActive(row.lifecycle) && !row.decisionIsFinal
         case Supersede(_, _, _) => IsActive(row.lifecycle)
         case PersistDecision(_, decision, _, _, _) =>
           decision in {"green", "amber", "red"} && row.lifecycle == DecisionCalculating && !row.decisionIsFinal
         case _ => true
  }

  /** When an operation is carried out; otherwise it changes nothing at all. */
  lemma CarriedOutIff(s: State, op: Op)
    ensures Step(s, op).1.Done? <==> IsCarriedOut(s, op)
    ensures !IsCarriedOut(s, op) ==> Step(s, op).0 == s
  {
    hide Logged, DriftedRow, EvidenceFacts, EvidenceEvent, DecidedRow, IsMaterial;
    match op {
      case CreateRun(_, _, _, _) =>
      case Transition(id, next, _) => if id in s.rows { TransitionsAre(s.rows[id].lifecycle, next); }
      case Cancel(id, _) => if id in s.rows { TransitionsAre(s.rows[id].lifecycle, Cancelled); }
      case AppendEvent(_, _) =>
      case MergeFacts(id, _, _) => if id in s.rows { ActiveOrTerminal(s.rows[id].lifecycle); }
      case RecordEvidence(_, _) =>
      case RecordDrift(_, _, _, _) =>
      case Supersede(id, _, _) => if id in s.rows { ActiveOrTerminal(s.rows[id].lifecycle); }
      case PersistDecision(_, _, _, _, _) =>
    }
  }

  // ----- What one operation writes -----

  datatype Write = Kept | Gone | Written(value: Json)

  /** A fact that is computed from the facts before. */
  predicate IsDerived(op: Op, key: string) {
    || (op.RecordDrift? && key in {"module_modes", "prior_decision"})
    || (op.RecordEvidence? && key == if op.evidence.ExecutionLink? then "execution_links" else "module_modes")
  }

  function Given(facts: map<string, Json>, key: string, otherwise: Write): Write {
    if key in facts then Written(facts[key]) else otherwise
  }

  /** The text of a fact, or a default for one that is absent or empty. */
  function Named(repr: Json -> string, facts: map<string, Json>, key: string, otherwise: string): Json {
    if key in facts && Truthy(facts[key]) then Str(TextOf(repr, facts[key])) else Str(otherwise)
  }

  function OrNull(facts: map<string, Json>, key: string): Json {
    if key in facts then facts[key] else Null
  }

  function EvidenceWrite(evidence: Evidence, key: string): Write {
    match evidence
    case ExecutionLink(link, linkedAt, repr) =>
      if key == "execution_id" then Written(Named(repr, link, "execution_id", ""))
      else if key in {"execution_status", "approval_id", "approval_status"} then Written(OrNull(link, key))
      else if key == "latest_execution_linked_at" then Written(Str(linkedAt))
      else Kept
    case RuntimeBehavior(assessment, repr) =>
      if key == "runtime_behavior_twin" then Written(Obj(assessment))
      else if key == "runtime_execution_effect" then
        Written(Named(repr, assessment, "execution_effect", "require_review"))
      else Kept
    case ReleaseNoteValidation(validation) =>
      if key == "release_note_validation" then Written(validation) else Kept
    case MopReplay(replay, strategy) =>
      if key == "mop_replay_twin" then
        Written(Obj(replay + map["production_secret_values_copied" := Bool(false),
                                 "production_data_copied" := Bool(false), "synthetic_secret_strategy" := strategy]))
      else Kept
  }

  /** What an operation that is carried out does to a fact of its twin, unless that is derived. */
  function WriteOf(op: Op, key: string): Write {
    match op
    case CreateRun(_, _, facts, _) => Given(facts, key, Gone)
    case MergeFacts(_, facts, _) => Given(facts, key, Kept)
    case PersistDecision(_, _, _, facts, _) => Given(facts, key, Gone)
    case RecordEvidence(_, evidence) => EvidenceWrite(evidence, key)
    case RecordDrift(_, assessment, _, _) =>
      if key == "drift_twin" then Written(Obj(assessment))
      else if key == "decision_invalidated_by_drift" && Truthy(OrNull(assessment, "material")) then Written(Bool(true))
      else Kept
    case _ => Kept
  }

  function FactOf(row: Row, key: string): Option<Json> {
    if key in row.facts then Some(row.facts[key]) else None
  }

  /** The stored fact of a twin, if there is one. */
  function FactAt(s: State, id: string, key: string): Option<Json> {
    if id in s.rows then FactOf(s.rows[id], key) else None
  }

  function After(before: Option<Json>, write: Write): Option<Json> {
    match write
    case Kept => before
    case Gone => None
    case Written(value) => Some(value)
  }

  lemma EvidenceIsWritten(facts: map<string, Json>, evidence: Evidence, key: string)
    requires key != if evidence.ExecutionLink? then "execution_links" else "module_modes"
    ensures var after := EvidenceFacts(facts, evidence);
            (if key in after then Some(after[key]) else None)
            == After(if key in facts then Some(facts[key]) else None, EvidenceWrite(evidence, key))
  {
    hide Linked, LinksIn, Truthy, ExecutionId, Named;
    match evidence {
      case ExecutionLink(link, _, repr) => NamedIs(repr, link, "execution_id", "");
      case RuntimeBehavior(assessment, repr) => NamedIs(repr, assessment, "execution_effect", "require_review");
      case ReleaseNoteValidation(_) =>
      case MopReplay(replay, strategy) =>
        assert replay["production_secret_values_copied" := Bool(false)]["production_data_copied" := Bool(false)]
                     ["synthetic_secret_strategy" := strategy]
            == replay + map["production_secret_values_copied" := Bool(false),
                            "production_data_copied" := Bool(false), "synthetic_secret_strategy" := strategy];
    }
  }

  lemma NamedIs(repr: Json -> string, facts: map<string, Json>, key: string, otherwise: string)
    ensures Named(repr, facts, key, otherwise) == Str(TextOr(repr, Get(Obj(facts), key), otherwise))
    ensures key == "execution_id" && otherwise == "" ==>
              Named(repr, facts, key, otherwise) == Str(ExecutionId(repr, Obj(facts)))
  {}

  lemma DriftIsWritten(s: State, op: Op, key: string)
    requires op.RecordDrift? && op.id in s.rows && !IsDerived(op, key)
    ensures FactAt(Step(s, op).0, op.id, key) == After(FactAt(s, op.id, key), WriteOf(op, key))
  {
    hide Logged, DriftOrigin, PriorDecision, Truthy;
    assert Get(Obj(op.assessment), "material") == OrNull(op.assessment, "material");
  }

  /** Exactly the facts an operation writes read as written, and all others as before, in every twin. */
  lemma StepWrites(s: State, op: Op, id: string, key: string)
    requires !(op.id == id && IsDerived(op, key))
    ensures FactAt(Step(s, op).0, id, key)
         == if op.id == id && IsCarriedOut(s, op) then After(FactAt(s, id, key), WriteOf(op, key))
            else FactAt(s, id, key)
  {
    hide Logged, EvidenceFacts, EvidenceWrite, DriftOrigin, PriorDecision, MayMove, IsActive;
    CarriedOutIff(s, op);
    if IsCarriedOut(s, op) && op.id == id {
      if op.RecordEvidence? {
        EvidenceIsWritten(s.rows[id].facts, op.evidence, key);
      } else if op.RecordDrift? {
        DriftIsWritten(s, op, key);
      }
    }
  }

  // ----- The facts that are computed -----

  /** The mode of a module, if the facts say any. */
  function ModeAt(s: State, id: string, name: string): Option<Json> {
    var modes := FactAt(s, id, "module_modes");
    if modes.Some? && modes.value.Obj? && name in modes.value.fields then Some(modes.value.fields[name]) else None
  }

  /** The module whose evidence the operation stores. */
  function ModuleOf(op: Op): Option<string> {
    match op
    case RecordDrift(_, _, _, _) => Some("drift")
    case RecordEvidence(_, RuntimeBehavior(_, _)) => Some("runtime-behavior")
    case RecordEvidence(_, ReleaseNoteValidation(_)) => Some("release-note-validation")
    case RecordEvidence(_, MopReplay(_, _)) => Some("mop-replay")
    case _ => None
  }

  /** Stored evidence marks its own module as real, and leaves the modes of all others. */
  lemma ModeIsMarked(s: State, op: Op, name: string)
    requires ModuleOf(op).Some? && op.id in s.rows
    ensures ModeAt(Step(s, op).0, op.id, name)
         == if name == ModuleOf(op).value then Some(Str("real_core")) else ModeAt(s, op.id, name)
  {
    hide Logged, DriftOrigin, PriorDecision, Truthy, TextOr, WithMode, EvidenceFacts, DriftFacts;
    var facts := s.rows[op.id].facts;
    if op.RecordDrift? {
      DriftMode(s.rows[op.id], op.assessment, name);
    } else {
      EvidenceMode(facts, op.evidence, name);
    }
  }

  function ModeIn(facts: map<string, Json>, name: string): Option<Json> {
    if "module_modes" in facts && facts["module_modes"].Obj? && name in facts["module_modes"].fields
    then Some(facts["module_modes"].fields[name]) else None
  }

  lemma ModeMarked(facts: map<string, Json>, source: string, name: string)
    ensures ModeIn(WithMode(facts, source), name)
         == if name == source then Some(Str("real_core")) else ModeIn(facts, name)
  {}

  lemma DriftMode(row: Row, assessment: map<string, Json>, name: string)
    ensures ModeIn(DriftFacts(row, assessment), name)
         == if name == "drift" then Some(Str("real_core")) else ModeIn(row.facts, name)
  {
    hide PriorDecision, Truthy, WithMode, ModeIn;
    var noted := row.facts["drift_twin" := Obj(assessment)];
    ModeMarked(noted, "drift", name);
    OtherKey(row.facts, "drift_twin", Obj(assessment), name);
    var marked := WithMode(noted, "drift");
    OtherKey(marked, "decision_invalidated_by_drift", Bool(true), name);
    OtherKey(marked["decision_invalidated_by_drift" := Bool(true)], "prior_decision", PriorDecision(row), name);
  }

  lemma OtherKey(facts: map<string, Json>, key: string, v: Json, name: string)
    requires key != "module_modes"
    ensures ModeIn(facts[key := v], name) == ModeIn(facts, name)
  {}

  lemma EvidenceMode(facts: map<string, Json>, evidence: Evidence, name: string)
    requires !evidence.ExecutionLink?
    ensures ModeIn(EvidenceFacts(facts, evidence), name)
         == if Some(name) == ModuleOf(RecordEvidence("", evidence)) then Some(Str("real_core")) else ModeIn(facts, name)
  {
    hide Truthy, TextOr, WithMode, ModeIn;
    match evidence {
      case RuntimeBehavior(assessment, repr) =>
        var effect := Str(TextOr(repr, Get(Obj(assessment), "execution_effect"), "require_review"));
        var first := facts["runtime_behavior_twin" := Obj(assessment)];
        OtherKey(facts, "runtime_behavior_twin", Obj(assessment), name);
        OtherKey(first, "runtime_execution_effect", effect, name);
        ModeMarked(first["runtime_execution_effect" := effect], "runtime-behavior", name);
      case ReleaseNoteValidation(validation) =>
        OtherKey(facts, "release_note_validation", validation, name);
        ModeMarked(facts["release_note_validation" := validation], "release-note-validation", name);
      case MopReplay(replay, strategy) =>
        var v := Obj(replay["production_secret_values_copied" := Bool(false)]["production_data_copied" := Bool(false)]
                           ["synthetic_secret_strategy" := strategy]);
        OtherKey(facts, "mop_replay_twin", v, name);
        ModeMarked(facts["mop_replay_twin" := v], "mop-replay", name);
    }
  }

  /** A material drift finding keeps the decision it sets aside among the facts. */
  lemma PriorDecisionIsKept(s: State, op: Op)
    requires op.RecordDrift? && op.id in s.rows
    ensures var row, prior := s.rows[op.id], FactAt(Step(s, op).0, op.id, "prior_decision");
            if Truthy(OrNull(op.assessment, "material")) then
              && prior.Some? && prior.value.Obj?
              && Get(prior.value, "decision") == Str(row.decision)
              && Get(prior.value, "decision_version") == Num(row.decisionVersion as real)
              && Get(prior.value, "decision_is_final") == Bool(row.decisionIsFinal)
              && Get(prior.value, "report_hash") == (if row.reportHash.Some? then Str(row.reportHash.value) else Null)
            else prior == FactAt(s, op.id, "prior_decision")
  {
    hide Logged, DriftOrigin, Truthy, DriftFacts, PriorDecision;
    PriorIsNoted(s.rows[op.id], op.assessment);
    PriorSays(s.rows[op.id]);
  }

  lemma PriorIsNoted(row: Row, assessment: map<string, Json>)
    ensures var facts := DriftFacts(row, assessment);
            (if "prior_decision" in facts then Some(facts["prior_decision"]) else None)
            == (if Truthy(OrNull(assessment, "material")) then Some(PriorDecision(row))
                else FactOf(row, "prior_decision"))
  {
    hide Truthy, PriorDecision;
    assert Get(Obj(assessment), "material") == OrNull(assessment, "material");
  }

  lemma PriorSays(row: Row)
    ensures var prior := PriorDecision(row);
            && prior.Obj? && Get(prior, "decision") == Str(row.decision)
            && Get(prior, "decision_version") == Num(row.decisionVersion as real)
            && Get(prior, "decision_is_final") == Bool(row.decisionIsFinal)
            && Get(prior, "report_hash") == if row.reportHash.Some? then Str(row.reportHash.value) else Null
  {}

  /** The execution a link belongs to. */
  function ExecutionOf(repr: Json -> string, link: Json): Json {
    Named(repr, if link.Obj? then link.fields else map[], "execution_id", "")
  }

  /** Where the link of the same execution stands first, or behind all links. */
  predicate IsFirstLink(links: seq<Json>, link: map<string, Json>, repr: Json -> string, at: nat) {
    && at <= |links|
    && (forall i :: 0 <= i < at ==> ExecutionOf(repr, links[i]) != ExecutionOf(repr, Obj(link)))
    && (at < |links| ==> ExecutionOf(repr, links[at]) == ExecutionOf(repr, Obj(link)))
  }

  /** The new link over the old one: what it says wins, and the rest stays. */
  ghost predicate IsOverlay(before: Json, link: map<string, Json>, after: Json) {
    && after.Obj?
    && forall key :: FieldOf(after, key)
         == if key in link then Some(link[key]) else FieldOf(before, key)
  }

  function FieldOf(v: Json, key: string): Option<Json> {
    if v.Obj? && key in v.fields then Some(v.fields[key]) else None
  }

  /** The link overlays the first one of its execution, or stands behind all links. */
  ghost predicate IsPlaced(links: seq<Json>, link: map<string, Json>, repr: Json -> string, after: seq<Json>, at: nat) {
    && IsFirstLink(links, link, repr, at)
    && (at == |links| ==> after == links + [Obj(link)])
    && (at < |links| ==>
          && |after| == |links| && IsOverlay(links[at], link, after[at])
          && forall i :: 0 <= i < |links| && i != at ==> after[i] == links[i])
  }

  lemma SameExecution(repr: Json -> string, a: Json, b: Json)
    ensures ExecutionOf(repr, a) == ExecutionOf(repr, b) <==> ExecutionId(repr, a) == ExecutionId(repr, b)
  {}

  lemma {:induction false} LinkIsPlaced(links: seq<Json>, link: map<string, Json>, repr: Json -> string)
    returns (at: nat)
    ensures IsPlaced(links, link, repr, Linked(links, link, repr), at)
  {
    hide ExecutionOf, ExecutionId, IsPlaced;
    if links == [] {
      at := 0;
      PlacedLast(link, repr);
    } else {
      SameExecution(repr, links[0], Obj(link));
      if ExecutionId(repr, links[0]) == ExecutionId(repr, Obj(link)) {
        at := 0;
        PlacedFirst(links, link, repr);
      } else {
        var below := LinkIsPlaced(links[1..], link, repr);
        at := below + 1;
        PlacedLater(links[0], links[1..], link, repr, Linked(links[1..], link, repr), below);
        assert [links[0]] + links[1..] == links;
      }
    }
  }

  lemma PlacedLast(link: map<string, Json>, repr: Json -> string)
    ensures IsPlaced([], link, repr, [Obj(link)], 0)
  {}

  lemma PlacedFirst(links: seq<Json>, link: map<string, Json>, repr: Json -> string)
    requires links != [] && ExecutionOf(repr, links[0]) == ExecutionOf(repr, Obj(link))
    ensures IsPlaced(links, link, repr, [Overlaid(links[0], link)] + links[1..], 0)
  {
    hide ExecutionOf;
  }

  lemma PlacedLater(first: Json, links: seq<Json>, link: map<string, Json>, repr: Json -> string, after: seq<Json>,
                    at: nat)
    requires IsPlaced(links, link, repr, after, at) && ExecutionOf(repr, first) != ExecutionOf(repr, Obj(link))
    ensures IsPlaced([first] + links, link, repr, [first] + after, at + 1)
  {
    hide ExecutionOf, IsOverlay;
    var all := [first] + links;
    assert forall i :: 0 < i < |all| ==> all[i] == links[i - 1];
    assert at == |links| ==> [first] + after == all + [Obj(link)];
  }

  /** Linking an execution updates its first link in place, or adds a link behind the others. */
  lemma ExecutionIsLinked(s: State, op: Op) returns (before: seq<Json>, after: seq<Json>, at: nat)
    requires op.RecordEvidence? && op.evidence.ExecutionLink? && op.id in s.rows
    ensures before == match FactAt(s, op.id, "execution_links") case Some(Arr(items)) => items case _ => []
    ensures FactAt(Step(s, op).0, op.id, "execution_links") == Some(Arr(after))
    ensures IsPlaced(before, op.evidence.link, op.evidence.repr, after, at)
  {
    hide Logged, Linked, ExecutionId, IsPlaced;
    before := LinksIn(s.rows[op.id].facts);
    after := Linked(before, op.evidence.link, op.evidence.repr);
    at := LinkIsPlaced(before, op.evidence.link, op.evidence.repr);
  }

  // ----- The rest of the row -----

  /** The first 24 characters. */
  function Short(text: string): string {
    if |text| <= 24 then text else text[..24]
  }

  /** The row an operation leaves, its facts aside. */
  lemma RowAfter(s: State, op: Op)
    requires IsCarriedOut(s, op)
    ensures op.id in Step(s, op).0.rows
    ensures op.CreateRun? ==>
              Step(s, op).0.rows[op.id]
              == Row(op.scope, Requested, "pending", 1, false, None, op.facts, 1, None, op.expiresAt, None)
    ensures !op.CreateRun? ==>
              var b, a := s.rows[op.id], Step(s, op).0.rows[op.id];
              a.(facts := b.facts, rowVersion := b.rowVersion) == (match op
                case Transition(_, next, now) =>
                  b.(lifecycle := next, completedAt := if IsActive(next) then b.completedAt else Some(now))
                case Cancel(_, now) => b.(lifecycle := Cancelled, completedAt := Some(now))
                case Supersede(_, origin, now) =>
                  b.(lifecycle := Superseded, completedAt := Some(now), supersededBy := Some(origin))
                case RecordDrift(_, assessment, repr, now) =>
                  if Truthy(OrNull(assessment, "material")) && b.lifecycle != Superseded then
                    var capture := OrNull(assessment, "current_capture");
                    var hash := Named(repr, if capture.Obj? then capture.fields else map[], "hash", "");
                    b.(lifecycle := Superseded, completedAt := Some(now),
                        supersededBy := Some("drift:" + Short(hash.s)))
                  else b
                case PersistDecision(_, decision, reportHash, _, now) =>
                  b.(lifecycle := if decision == "green" then Green else if decision == "amber" then Amber else Red,
                     completedAt := Some(now), decision := decision, decisionIsFinal := true,
                     reportHash := Some(reportHash))
                case _ => b)
    ensures !op.CreateRun? ==>
              Step(s, op).0.rows[op.id].rowVersion == s.rows[op.id].rowVersion + if op.AppendEvent? then 0 else 1
    ensures Step(s, op).0.decisions == s.decisions
         + if op.PersistDecision?
           then [DecisionRow(op.id, s.rows[op.id].decisionVersion, op.decision, op.reportHash, op.facts)] else []
  {
    hide Logged, DriftFacts, EvidenceFacts, MayMove;
    CarriedOutIff(s, op);
    if op.RecordDrift? {
      DriftRow(s, op);
    }
  }

  lemma DriftRow(s: State, op: Op)
    requires op.RecordDrift? && op.id in s.rows
    ensures op.id in Step(s, op).0.rows && Step(s, op).0.decisions == s.decisions
    ensures var b, a := s.rows[op.id], Step(s, op).0.rows[op.id];
            a.(facts := b.facts, rowVersion := b.rowVersion) ==
            (if Truthy(OrNull(op.assessment, "material")) && b.lifecycle != Superseded then
               var capture := OrNull(op.assessment, "current_capture");
               var hash := Named(op.repr, if capture.Obj? then capture.fields else map[], "hash", "");
               b.(lifecycle := Superseded, completedAt := Some(op.now), supersededBy := Some("drift:" + Short(hash.s)))
             else b)
            && a.rowVersion == b.rowVersion + 1
  {
    hide Logged, DriftFacts, Truthy;
    assert Get(Obj(op.assessment), "material") == OrNull(op.assessment, "material");
    var capture := Get(Obj(op.assessment), "current_capture");
    assert capture == OrNull(op.assessment, "current_capture");
    NullIsFalse();
    assert Get(capture, "hash") == OrNull(if capture.Obj? then capture.fields else map[], "hash");
  }

  lemma NullIsFalse()
    ensures !Truthy(Null)
  {}

  /** What the operation is called in the ledger. */
  function EventTypeOf(op: Op): string {
    match op
    case CreateRun(_, _, _, _) => "twin_requested"
    case Transition(_, _, _) => "lifecycle_transitioned"
    case Cancel(_, _) => "lifecycle_transitioned"
    case AppendEvent(_, eventType) => eventType
    case MergeFacts(_, _, eventType) => eventType
    case RecordEvidence(_, ExecutionLink(_, _, _)) => "execution_linked"
    case RecordEvidence(_, RuntimeBehavior(_, _)) => "runtime_behavior_refreshed"
    case RecordEvidence(_, ReleaseNoteValidation(_)) => "release_note_validation_completed"
    case RecordEvidence(_, MopReplay(_, _)) => "mop_replay_recorded"
    case RecordDrift(_, _, _, _) => "drift_refreshed"
    case Supersede(_, _, _) => "twin_superseded"
    case PersistDecision(_, _, _, _, _) => "terminal_decision_persisted"
  }

  /** Drift that supersedes the twin is told by an event of its own. */
  predicate IsTold(s: State, op: Op) {
    && op.RecordDrift? && op.id in s.rows && s.rows[op.id].lifecycle != Superseded
    && Truthy(OrNull(op.assessment, "material"))
  }

  /** An operation that is carried out adds one event of its twin to the ledger, or two. */
  lemma EventsAfter(s: State, op: Op)
    requires IsCarriedOut(s, op)
    ensures var n, events := |s.events|, Step(s, op).0.events;
            && s.events <= events && |events| == n + (if IsTold(s, op) then 2 else 1)
            && events[n].twin == op.id && events[n].eventType == EventTypeOf(op)
            && (IsTold(s, op) ==>
                  events[n + 1].twin == op.id && events[n + 1].eventType == "decision_superseded_by_drift")
  {
    hide MaxSequence, DriftedRow, EvidenceFacts, Truthy, MayMove, DecidedRow, Moved, WithFacts;
    CarriedOutIff(s, op);
    if op.RecordDrift? {
      assert Get(Obj(op.assessment), "material") == OrNull(op.assessment, "material");
    }
  }

  // ----- Over whole runs -----

  /** The k-th operation of the run was carried out and wrote or removed the fact. */
  ghost predicate WritesAt(s: State, ops: seq<Op>, id: string, key: string, k: int) {
    && 0 <= k < |ops| && ops[k].id == id && IsCarriedOut(Run(s, ops[..k]), ops[k])
    && !WriteOf(ops[k], key).Kept?
  }

  ghost predicate IsLastWrite(s: State, ops: seq<Op>, id: string, key: string, k: int) {
    WritesAt(s, ops, id, key, k) && forall j :: k < j < |ops| ==> !WritesAt(s, ops, id, key, j)
  }

  /** After any run, a fact reads as the last operation that wrote it left it, or as it was. */
  lemma {:induction false} FactIsLastWrite(s: State, ops: seq<Op>, id: string, key: string)
    requires key !in {"module_modes", "prior_decision", "execution_links"}
    ensures (forall k :: 0 <= k < |ops| ==> !WritesAt(s, ops, id, key, k))
        ==> FactAt(Run(s, ops), id, key) == FactAt(s, id, key)
    ensures forall k :: (IsLastWrite(s, ops, id, key, k)
                         ==> FactAt(Run(s, ops), id, key) == After(None, WriteOf(ops[k], key)))
  {
    hide Step, IsCarriedOut, WriteOf, FactAt, Run;
    RunOfNone(s);
    if ops != [] {
      var n := |ops| - 1;
      var init, last := ops[..n], ops[n];
      FactIsLastWrite(s, init, id, key);
      StepWrites(Run(s, init), last, id, key);
      RunLast(s, ops);
      forall k | 0 <= k < n ensures WritesAt(s, init, id, key, k) <==> WritesAt(s, ops, id, key, k) {
        assert init[..k] == ops[..k];
      }
      assert WritesAt(s, ops, id, key, n)
        <==> last.id == id && IsCarriedOut(Run(s, init), last) && !WriteOf(last, key).Kept?;
      hide WritesAt;
      forall k | IsLastWrite(s, ops, id, key, k)
        ensures FactAt(Run(s, ops), id, key) == After(None, WriteOf(ops[k], key))
      {
        assert 0 <= k <= n by { WriteIsWithin(s, ops, id, key, k); }
        if k < n {
          assert !WritesAt(s, ops, id, key, n);
          assert IsLastWrite(s, init, id, key, k);
        }
      }
      if forall k :: 0 <= k < |ops| ==> !WritesAt(s, ops, id, key, k) {
        assert !WritesAt(s, ops, id, key, n);
        assert forall k :: 0 <= k < n ==> !WritesAt(s, init, id, key, k);
      }
    }
  }

  lemma WriteIsWithin(s: State, ops: seq<Op>, id: string, key: string, k: int)
    requires WritesAt(s, ops, id, key, k)
    ensures 0 <= k < |ops|
  {}

  lemma RunOfNone(s: State)
    ensures Run(s, []) == s
  {}

  lemma RunLast(s: State, ops: seq<Op>)
    requires ops != []
    ensures Run(s, ops) == Step(Run(s, ops[..|ops| - 1]), ops[|ops| - 1]).0
  {}

  // ----- Runtime evidence against an execution -----

  /** The stored runtime evidence asks for a stop. */
  ghost predicate AsksToStop(assessment: Json) {
    exists effect :: effect in {"force_red", "force_amber", "require_review"}
                     && Get(assessment, "execution_effect") == Str(effect)
  }

  lemma RuntimeBlocksIff(row: Row)
    ensures TwinRuns.RuntimeBlocks(row) <==>
              "runtime_behavior_twin" in row.facts && AsksToStop(row.facts["runtime_behavior_twin"])
  {}

  lemma DisablesIff(assessment: Json)
    ensures TwinRuns.Disables(assessment) <==>
              && Truthy(Get(assessment, "execution_disabled"))
              && exists key :: key in {"captured_at", "hash"}
                               && !PyEqual(Get(Get(assessment, "baseline"), key),
                                           Get(Get(assessment, "current_capture"), key))
  {
    hide PyEqual, Truthy;
  }

  predicate IsRuntimeEvidence(op: Op, id: string) {
    op.RecordEvidence? && op.id == id && op.evidence.RuntimeBehavior?
  }

  /** A decided twin's runtime evidence is only written by recording runtime evidence. */
  lemma {:induction false} RuntimeIsKept(s: State, ops: seq<Op>, id: string)
    requires id in s.rows && s.rows[id].decisionIsFinal
    requires forall op :: op in ops ==> !IsRuntimeEvidence(op, id)
    ensures FactAt(Run(s, ops), id, "runtime_behavior_twin") == FactAt(s, id, "runtime_behavior_twin")
  {
    hide Run, FactAt;
    FactIsLastWrite(s, ops, id, "runtime_behavior_twin");
    forall k | 0 <= k < |ops| ensures !WritesAt(s, ops, id, "runtime_behavior_twin", k) {
      TwinRuns.RunEvolves(s, ops[..k]);
      var before := Run(s, ops[..k]);
      assert TwinRuns.RowEvolves(s.rows[id], before.rows[id]);
      assert ops[k] in ops;
      NotWritten(before, ops[k], id);
    }
  }

  lemma NotWritten(s: State, op: Op, id: string)
    requires id in s.rows && s.rows[id].decisionIsFinal && !IsRuntimeEvidence(op, id)
    ensures op.id == id && IsCarriedOut(s, op) ==> WriteOf(op, "runtime_behavior_twin").Kept?
  {}

  /**
   * Runtime evidence that asks for a stop keeps a decided twin from starting, whatever else
   * happens and at any time, until other runtime evidence is recorded.
   */
  lemma StoppedUntilReassessed(s: State, assessment: map<string, Json>, repr: Json -> string, later: seq<Op>,
                               id: string, now: int)
    requires id in s.rows && s.rows[id].decisionIsFinal && AsksToStop(Obj(assessment))
    ensures var noted := Step(s, RecordEvidence(id, RuntimeBehavior(assessment, repr))).0;
            && id in Run(noted, later).rows
            && (TwinRuns.StartEnabled(Run(noted, later).rows[id], now) ==>
                  exists op :: op in later && IsRuntimeEvidence(op, id))
  {
    hide Run, Step, WriteOf, AsksToStop;
    var op := RecordEvidence(id, RuntimeBehavior(assessment, repr));
    var noted := Step(s, op).0;
    StepWrites(s, op, id, "runtime_behavior_twin");
    RecordsRuntime(s, op, assessment, repr);
    TwinRuns.StepEvolves(s, op);
    assert TwinRuns.RowEvolves(s.rows[id], noted.rows[id]);
    TwinRuns.RunEvolves(noted, later);
    if forall o :: o in later ==> !IsRuntimeEvidence(o, id) {
      RuntimeIsKept(noted, later, id);
      var row := Run(noted, later).rows[id];
      RuntimeBlocksIff(row);
      assert "runtime_behavior_twin" in row.facts && row.facts["runtime_behavior_twin"] == Obj(assessment);
      BlockedNeverStarts(row, now);
    }
  }

  lemma RecordsRuntime(s: State, op: Op, assessment: map<string, Json>, repr: Json -> string)
    requires op == RecordEvidence(op.id, RuntimeBehavior(assessment, repr)) && op.id in s.rows
    ensures IsCarriedOut(s, op) && !IsDerived(op, "runtime_behavior_twin")
    ensures WriteOf(op, "runtime_behavior_twin") == Written(Obj(assessment))
  {}

  lemma BlockedNeverStarts(row: Row, now: int)
    ensures TwinRuns.RuntimeBlocks(row) ==> !TwinRuns.StartEnabled(row, now)
  {}

  /** The freshness that is shown: what ends it, in this order. */
  lemma FreshnessShown(row: Row, now: int)
    ensures TwinRuns.ProjectedFreshness(row, now)
         == if row.lifecycle == Superseded then TwinRuns.FreshSuperseded
            else if row.lifecycle == Expired || (row.expiresAt.Some? && row.expiresAt.value <= now)
              then TwinRuns.FreshExpired
            else if "drift_twin" in row.facts && TwinRuns.Disables(row.facts["drift_twin"])
              then if Truthy(Get(row.facts["drift_twin"], "material")) then TwinRuns.Drifted else TwinRuns.Stale
            else if row.expiresAt.Some? && row.expiresAt.value <= now + 30 * 60 then TwinRuns.ApproachingExpiry
            else TwinRuns.Fresh
  {
    hide TwinRuns.Disables, Truthy;
    assert !TwinRuns.Disables(Null) by { DisablesIff(Null); NullIsFalse(); }
  }
}
