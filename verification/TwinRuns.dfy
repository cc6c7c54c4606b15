/** What every run of repository operations keeps. */
module TwinRuns {
  import opened Options
  import opened Json
  import opened TwinState

  /** The sequence numbers of a twin's events, in the order of the ledger. */
  function Numbers(events: seq<Event>, id: string): seq<nat> {
    if events == [] then []
    else Numbers(events[..|events| - 1], id)
         + if events[|events| - 1].twin == id then [events[|events| - 1].sequence] else []
  }

  /** 1, 2, 3, ... without gaps. */
  predicate Numbered(numbers: seq<nat>) {
    forall i :: 0 <= i < |numbers| ==> numbers[i] == i + 1
  }

  function DecisionsOf(decisions: seq<DecisionRow>, id: string): seq<DecisionRow> {
    if decisions == [] then []
    else DecisionsOf(decisions[..|decisions| - 1], id)
         + if decisions[|decisions| - 1].twin == id then [decisions[|decisions| - 1]] else []
  }

  /**
   * A decision other than pending exists exactly when it is final, and then exactly one decision
   * row records it; the lifecycle shows its colour until the twin is superseded.
   */
  predicate DecisionMatches(row: Row, recorded: seq<DecisionRow>) {
    && (row.decisionIsFinal <==> row.decision != "pending")
    && (row.decisionIsFinal <==> recorded != [])
    && (row.decisionIsFinal ==>
          && |recorded| == 1
          && recorded[0].decision == row.decision
          && recorded[0].version == row.decisionVersion
          && row.reportHash == Some(recorded[0].reportHash)
          && ColourOf(row.decision).Some?
          && (row.lifecycle == ColourOf(row.decision).value || row.lifecycle == Superseded))
  }

  predicate RowIsConsistent(row: Row, numbers: seq<nat>, recorded: seq<DecisionRow>) {
    && Numbered(numbers)
    && 1 <= row.rowVersion <= |numbers|
    && (row.completedAt.Some? <==> row.lifecycle in TerminalStates)
    && DecisionMatches(row, recorded)
  }

  ghost predicate TwinIsConsistent(s: State, id: string) {
    if id in s.rows then RowIsConsistent(s.rows[id], Numbers(s.events, id), DecisionsOf(s.decisions, id))
    else Numbers(s.events, id) == [] && DecisionsOf(s.decisions, id) == []
  }

  ghost predicate ScopesAreUnique(s: State) {
    forall a, b :: a in s.rows && b in s.rows && s.rows[a].scope == s.rows[b].scope ==> a == b
  }

  /** The invariant of the repository. */
  ghost predicate Consistent(s: State) {
    (forall id :: TwinIsConsistent(s, id)) && ScopesAreUnique(s)
  }

  lemma {:induction false} MaxIsLast(events: seq<Event>, id: string)
    requires Numbered(Numbers(events, id))
    ensures MaxSequence(events, id) == |Numbers(events, id)|
  {
    if events != [] {
      var init, all := Numbers(events[..|events| - 1], id), Numbers(events, id);
      assert init == all[..|init|];
      assert Numbered(init);
      MaxIsLast(events[..|events| - 1], id);
      assert events[|events| - 1].twin == id ==> all[|init|] == events[|events| - 1].sequence;
    }
  }

  /** Logging an event gives its twin the next number and touches no other twin's numbers. */
  lemma LoggedNumbers(events: seq<Event>, id: string, eventType: string, other: string)
    requires Numbered(Numbers(events, id))
    ensures Numbers(Logged(events, id, eventType), other)
         == Numbers(events, other) + if other == id then [|Numbers(events, id)| + 1] else []
  {
    MaxIsLast(events, id);
    var logged := Logged(events, id, eventType);
    assert logged[..|logged| - 1] == events;
  }

  lemma NumberedNext(numbers: seq<nat>)
    requires Numbered(numbers)
    ensures Numbered(numbers + [|numbers| + 1])
  {}

  lemma DecisionsNext(decisions: seq<DecisionRow>, record: DecisionRow, id: string)
    ensures DecisionsOf(decisions + [record], id)
         == DecisionsOf(decisions, id) + if record.twin == id then [record] else []
  {
    assert (decisions + [record])[..|decisions|] == decisions;
  }

  /** Storing a row that moved on by one version, together with its event, keeps the invariant. */
  lemma StoreKeeps(s: State, id: string, row: Row, eventType: string, added: seq<DecisionRow>)
    requires Consistent(s)
    requires row.rowVersion == 1 + if id in s.rows then s.rows[id].rowVersion else 0
    requires row.completedAt.Some? <==> row.lifecycle in TerminalStates
    requires |added| <= 1 && (added != [] ==> added[0].twin == id)
    requires DecisionMatches(row, DecisionsOf(s.decisions, id) + added)
    requires forall other :: other in s.rows && other != id ==> s.rows[other].scope != row.scope
    ensures Consistent(Store(s, id, row, eventType).(decisions := s.decisions + added))
  {
    hide Numbers, DecisionsOf, Logged, DecisionMatches, RowIsConsistent, TwinIsConsistent, Store;
    forall other ensures TwinIsConsistent(Store(s, id, row, eventType).(decisions := s.decisions + added), other) {
      assert TwinIsConsistent(s, other) && TwinIsConsistent(s, id);
      if other == id {
        OwnTwinKeeps(s, id, row, eventType, added);
      } else {
        OtherTwinKeeps(s, id, row, eventType, added, other);
      }
    }
    RowsOfStore(s, id, row, eventType);
  }

  lemma RowsOfStore(s: State, id: string, row: Row, eventType: string)
    ensures Store(s, id, row, eventType).rows == s.rows[id := row]
  {}

  lemma OwnTwinKeeps(s: State, id: string, row: Row, eventType: string, added: seq<DecisionRow>)
    requires TwinIsConsistent(s, id)
    requires row.rowVersion == 1 + if id in s.rows then s.rows[id].rowVersion else 0
    requires row.completedAt.Some? <==> row.lifecycle in TerminalStates
    requires |added| <= 1 && (added != [] ==> added[0].twin == id)
    requires DecisionMatches(row, DecisionsOf(s.decisions, id) + added)
    ensures TwinIsConsistent(Store(s, id, row, eventType).(decisions := s.decisions + added), id)
  {
    hide Numbers, DecisionsOf, Logged, DecisionMatches;
    NumberedNext(Numbers(s.events, id));
    LoggedNumbers(s.events, id, eventType, id);
    AddedDecisions(s.decisions, added, id, id);
  }

  lemma OtherTwinKeeps(s: State, id: string, row: Row, eventType: string, added: seq<DecisionRow>, other: string)
    requires TwinIsConsistent(s, id) && TwinIsConsistent(s, other) && other != id
    requires |added| <= 1 && (added != [] ==> added[0].twin == id)
    ensures TwinIsConsistent(Store(s, id, row, eventType).(decisions := s.decisions + added), other)
  {
    hide Numbers, DecisionsOf, Logged, DecisionMatches, Numbered;
    AreNumbered(s, id);
    LoggedNumbers(s.events, id, eventType, other);
    AddedDecisions(s.decisions, added, id, other);
    assert Numbers(s.events, other) + [] == Numbers(s.events, other);
    assert DecisionsOf(s.decisions, other) + [] == DecisionsOf(s.decisions, other);
  }

  lemma AreNumbered(s: State, id: string)
    requires TwinIsConsistent(s, id)
    ensures Numbered(Numbers(s.events, id))
  {
    hide Numbers, DecisionsOf;
  }

  lemma AddedDecisions(decisions: seq<DecisionRow>, added: seq<DecisionRow>, id: string, other: string)
    requires |added| <= 1 && (added != [] ==> added[0].twin == id)
    ensures DecisionsOf(decisions + added, other) == DecisionsOf(decisions, other) + if other == id then added else []
  {
    hide DecisionsOf;
    if added != [] {
      assert added == [added[0]];
      DecisionsNext(decisions, added[0], other);
    } else {
      assert decisions + added == decisions;
    }
  }

  lemma LogKeeps(s: State, id: string, eventType: string)
    requires Consistent(s) && id in s.rows
    ensures Consistent(s.(events := Logged(s.events, id, eventType)))
  {
    hide Numbers, DecisionsOf, Logged, DecisionMatches;
    var after := s.(events := Logged(s.events, id, eventType));
    assert TwinIsConsistent(s, id);
    NumberedNext(Numbers(s.events, id));
    forall other ensures TwinIsConsistent(after, other) {
      assert TwinIsConsistent(s, other);
      LoggedNumbers(s.events, id, eventType, other);
    }
  }

  /** As StoreKeeps, for the operations that record no decision. */
  lemma UpdateKeeps(s: State, id: string, row: Row, eventType: string)
    requires Consistent(s) && id in s.rows
    requires row.rowVersion == s.rows[id].rowVersion + 1 && row.scope == s.rows[id].scope
    requires row.completedAt.Some? <==> row.lifecycle in TerminalStates
    requires row.decision == s.rows[id].decision && row.decisionVersion == s.rows[id].decisionVersion
    requires row.decisionIsFinal == s.rows[id].decisionIsFinal && row.reportHash == s.rows[id].reportHash
    requires row.decisionIsFinal ==> row.lifecycle == s.rows[id].lifecycle || row.lifecycle == Superseded
    ensures Consistent(Store(s, id, row, eventType))
  {
    hide Numbers, DecisionsOf, Logged;
    assert TwinIsConsistent(s, id);
    assert DecisionsOf(s.decisions, id) + [] == DecisionsOf(s.decisions, id);
    StoreKeeps(s, id, row, eventType, []);
    assert s.decisions + [] == s.decisions;
  }

  lemma TransitionKeeps(s: State, id: string, next: Lifecycle, now: int)
    requires Consistent(s)
    ensures Consistent(TransitionStep(s, id, next, now).0)
  {
    hide Numbers, DecisionsOf, Store;
    if TransitionStep(s, id, next, now).1.Done? {
      assert TwinIsConsistent(s, id);
      UpdateKeeps(s, id, Moved(s.rows[id], next, now), "lifecycle_transitioned");
    }
  }

  lemma CreateKeeps(s: State, op: Op)
    requires Consistent(s) && op.CreateRun?
    ensures Consistent(Step(s, op).0)
  {
    hide Numbers, DecisionsOf, Store;
    if Step(s, op).1.Done? {
      assert TwinIsConsistent(s, op.id);
      StoreKeeps(s, op.id, NewRow(op.scope, op.facts, op.expiresAt), "twin_requested", []);
      assert s.decisions + [] == s.decisions;
      KeepDecisions(s, op.id, NewRow(op.scope, op.facts, op.expiresAt), "twin_requested");
    }
  }

  lemma KeepDecisions(s: State, id: string, row: Row, eventType: string)
    ensures Store(s, id, row, eventType).(decisions := s.decisions) == Store(s, id, row, eventType)
  {}

  lemma DriftKeeps(s: State, id: string, assessment: map<string, Json>, repr: Json -> string, now: int)
    requires Consistent(s)
    ensures Consistent(DriftStep(s, id, assessment, repr, now).0)
  {
    hide Numbers, DecisionsOf, Store, Logged, DriftFacts, DriftOrigin, IsMaterial;
    if id in s.rows {
      assert TwinIsConsistent(s, id);
      var row := DriftedRow(s.rows[id], assessment, repr, now);
      UpdateKeeps(s, id, row, "drift_refreshed");
      InStore(s, id, row, "drift_refreshed");
      LogKeeps(Store(s, id, row, "drift_refreshed"), id, "decision_superseded_by_drift");
    }
  }

  lemma InStore(s: State, id: string, row: Row, eventType: string)
    ensures id in Store(s, id, row, eventType).rows
  {}

  lemma PersistKeeps(s: State, op: Op)
    requires Consistent(s) && op.PersistDecision?
    ensures Consistent(Step(s, op).0)
  {
    hide Numbers, DecisionsOf, Store;
    if Step(s, op).1.Done? {
      var row := s.rows[op.id];
      var record := DecisionRow(op.id, row.decisionVersion, op.decision, op.reportHash, op.facts);
      assert TwinIsConsistent(s, op.id);
      assert DecisionsOf(s.decisions, op.id) + [record] == [record];
      StoreKeeps(s, op.id, DecidedRow(row, op.decision, ColourOf(op.decision).value, op.reportHash, op.facts, op.now),
                 "terminal_decision_persisted", [record]);
    }
  }

  lemma EvidenceKeeps(s: State, op: Op)
    requires Consistent(s) && (op.MergeFacts? || op.RecordEvidence?)
    ensures Consistent(Step(s, op).0)
  {
    hide Numbers, DecisionsOf, Store, EvidenceFacts;
    if Step(s, op).1.Done? {
      assert TwinIsConsistent(s, op.id);
      if op.MergeFacts? {
        UpdateKeeps(s, op.id, WithFacts(s.rows[op.id], op.facts), op.eventType);
      } else {
        var row := s.rows[op.id];
        UpdateKeeps(s, op.id, Bump(row).(facts := EvidenceFacts(row.facts, op.evidence)), EvidenceEvent(op.evidence));
      }
    }
  }

  lemma SupersedeKeeps(s: State, op: Op)
    requires Consistent(s) && op.Supersede?
    ensures Consistent(Step(s, op).0)
  {
    hide Numbers, DecisionsOf, Store;
    if Step(s, op).1.Done? {
      assert TwinIsConsistent(s, op.id);
      UpdateKeeps(s, op.id, Moved(s.rows[op.id], Superseded, op.now).(supersededBy := Some(op.origin)),
          "twin_superseded");
    }
  }

  /** Every operation keeps the invariant. */
  lemma StepKeeps(s: State, op: Op)
    requires Consistent(s)
    ensures Consistent(Step(s, op).0)
  {
    hide Consistent, Store, TransitionStep, DriftStep, Logged;
    match op
    case CreateRun(_, _, _, _) => CreateKeeps(s, op);
    case Transition(id, next, now) => TransitionKeeps(s, id, next, now);
    case Cancel(id, now) => TransitionKeeps(s, id, Cancelled, now);
    case AppendEvent(id, eventType) => if id in s.rows { LogKeeps(s, id, eventType); }
    case MergeFacts(_, _, _) => EvidenceKeeps(s, op);
    case RecordEvidence(_, _) => EvidenceKeeps(s, op);
    case RecordDrift(id, assessment, repr, now) => DriftKeeps(s, id, assessment, repr, now);
    case Supersede(_, _, _) => SupersedeKeeps(s, op);
    case PersistDecision(_, _, _, _, _) => PersistKeeps(s, op);
  }

  /** The invariant holds after every run from the empty repository, and from any consistent state. */
  lemma {:induction false} RunKeeps(s: State, ops: seq<Op>)
    requires Consistent(s)
    ensures Consistent(Run(s, ops))
  {
    hide Step, Consistent;
    if ops != [] {
      RunKeeps(s, ops[..|ops| - 1]);
      StepKeeps(Run(s, ops[..|ops| - 1]), ops[|ops| - 1]);
    }
  }

  // ----- What never goes back -----

  /** What one row may become over time. */
  predicate RowEvolves(before: Row, after: Row) {
    && before.scope == after.scope
    && before.expiresAt == after.expiresAt
    && before.decisionVersion == after.decisionVersion
    && before.rowVersion <= after.rowVersion
    && (before.decisionIsFinal ==>
          after.decisionIsFinal && after.decision == before.decision && after.reportHash == before.reportHash)
    && (before.lifecycle in TerminalStates ==> after.lifecycle == before.lifecycle || after.lifecycle == Superseded)
  }

  /** Later states only add to earlier ones: rows stay, ledgers grow at the end, terminal facts hold. */
  ghost predicate Evolves(before: State, after: State) {
    && (forall id :: id in before.rows ==> id in after.rows && RowEvolves(before.rows[id], after.rows[id]))
    && before.events <= after.events
    && before.decisions <= after.decisions
  }

  lemma OtherRowsStay(s: State, op: Op, id: string)
    requires op.id != id
    ensures id in Step(s, op).0.rows <==> id in s.rows
    ensures id in s.rows ==> Step(s, op).0.rows[id] == s.rows[id]
  {
    hide Logged, DriftFacts, DriftOrigin, EvidenceFacts, IsMaterial;
  }

  lemma OwnRowEvolves(s: State, op: Op)
    requires op.id in s.rows
    ensures op.id in Step(s, op).0.rows && RowEvolves(s.rows[op.id], Step(s, op).0.rows[op.id])
  {
    hide Logged, EvidenceFacts, EvidenceEvent, ColourOf, DriftStep, TransitionStep;
    match op {
      case CreateRun(_, _, _, _) =>
      case Transition(id, next, now) => TransitionEvolves(s, id, next, now);
      case Cancel(id, now) => TransitionEvolves(s, id, Cancelled, now);
      case AppendEvent(_, _) =>
      case MergeFacts(_, _, _) =>
      case RecordEvidence(_, _) =>
      case RecordDrift(id, assessment, repr, now) => DriftEvolves(s, id, assessment, repr, now);
      case Supersede(_, _, _) =>
      case PersistDecision(_, _, _, _, _) =>
    }
  }

  lemma TransitionEvolves(s: State, id: string, next: Lifecycle, now: int)
    requires id in s.rows
    ensures var after := TransitionStep(s, id, next, now).0; id in after.rows && RowEvolves(s.rows[id], after.rows[id])
  {
    hide Logged;
  }

  lemma DriftEvolves(s: State, id: string, assessment: map<string, Json>, repr: Json -> string, now: int)
    requires id in s.rows
    ensures var after := DriftStep(s, id, assessment, repr, now).0;
            id in after.rows && RowEvolves(s.rows[id], after.rows[id])
  {
    hide Logged, DriftFacts, DriftOrigin, IsMaterial;
  }

  lemma LedgersGrow(s: State, op: Op)
    ensures s.events <= Step(s, op).0.events && s.decisions <= Step(s, op).0.decisions
  {
    hide MaxSequence, DriftedRow, DecidedRow, Moved, WithFacts, EvidenceFacts, IsMaterial;
  }

  /** An operation only adds to the state, and leaves a terminal state only for superseded. */
  lemma StepEvolves(s: State, op: Op)
    ensures Evolves(s, Step(s, op).0)
  {
    hide Step;
    LedgersGrow(s, op);
    forall id | id in s.rows ensures id in Step(s, op).0.rows && RowEvolves(s.rows[id], Step(s, op).0.rows[id]) {
      if id == op.id { OwnRowEvolves(s, op); } else { OtherRowsStay(s, op, id); }
    }
  }

  lemma EvolvesTransitive(a: State, b: State, c: State)
    requires Evolves(a, b) && Evolves(b, c)
    ensures Evolves(a, c)
  {}

  lemma {:induction false} RunEvolves(s: State, ops: seq<Op>)
    ensures Evolves(s, Run(s, ops))
  {
    if ops != [] {
      var init := ops[..|ops| - 1];
      RunEvolves(s, init);
      StepEvolves(Run(s, init), ops[|ops| - 1]);
      EvolvesTransitive(s, Run(s, init), Run(s, ops));
    }
  }

  /** A terminal state is left only by a material drift finding about that twin. */
  lemma TerminalIsLeftOnlyByDrift(s: State, op: Op, id: string)
    requires id in s.rows && s.rows[id].lifecycle in TerminalStates
    ensures id in Step(s, op).0.rows
    ensures Step(s, op).0.rows[id].lifecycle != s.rows[id].lifecycle <==>
              op.RecordDrift? && IsMaterial(op.assessment) && op.id == id && s.rows[id].lifecycle != Superseded
    ensures Step(s, op).0.rows[id].lifecycle != s.rows[id].lifecycle ==> Step(s, op).0.rows[id].lifecycle == Superseded
  {
    hide Logged, DriftFacts, DriftOrigin, EvidenceFacts, IsMaterial;
    if id != op.id { OtherRowsStay(s, op, id); }
  }

  /** A recorded decision row stays the only one of its twin, unchanged, through every run. */
  lemma DecisionIsImmutable(s: State, ops: seq<Op>, id: string)
    requires Consistent(s) && id in s.rows && s.rows[id].decisionIsFinal
    ensures DecisionsOf(Run(s, ops).decisions, id) == DecisionsOf(s.decisions, id)
    ensures id in Run(s, ops).rows && Run(s, ops).rows[id].decision == s.rows[id].decision
  {
    hide Run;
    RunKeeps(s, ops);
    RunEvolves(s, ops);
    var after := Run(s, ops);
    assert RowEvolves(s.rows[id], after.rows[id]);
    assert TwinIsConsistent(after, id);
    assert TwinIsConsistent(s, id);
    DecisionsOfPrefix(s.decisions, after.decisions, id);
  }

  lemma {:induction false} DecisionsOfPrefix(a: seq<DecisionRow>, b: seq<DecisionRow>, id: string)
    requires a <= b
    ensures DecisionsOf(a, id) <= DecisionsOf(b, id)
    decreases |b|
  {
    if |a| < |b| {
      DecisionsOfPrefix(a, b[..|b| - 1], id);
    } else {
      assert a == b;
    }
  }

  // ----- Starting an execution -----

  function RuntimeEffect(row: Row): Json {
    var effect := Get(Get(Obj(row.facts), "runtime_behavior_twin"), "execution_effect");
    if Truthy(effect) then effect else Str("no_uplift")
  }

  datatype Freshness = Fresh | ApproachingExpiry | FreshExpired | FreshSuperseded | Stale | Drifted

  const ThirtyMinutes := 1800

  function FreshnessOf(row: Row, now: int): Freshness {
    if row.lifecycle == Superseded then FreshSuperseded
    else if row.lifecycle == Expired || (row.expiresAt.Some? && row.expiresAt.value <= now) then FreshExpired
    else if row.expiresAt.Some? && row.expiresAt.value <= now + ThirtyMinutes then ApproachingExpiry
    else Fresh
  }

  function DriftFact(row: Row): Json {
    Get(Obj(row.facts), "drift_twin")
  }

  /** The assessment compares two captures, and its outcome is to disable executions. */
  predicate Disables(assessment: Json) {
    var baseline, current := Get(assessment, "baseline"), Get(assessment, "current_capture");
    && (!PyEqual(Get(baseline, "captured_at"), Get(current, "captured_at"))
        || !PyEqual(Get(baseline, "hash"), Get(current, "hash")))
    && Truthy(Get(assessment, "execution_disabled"))
  }

  /** The freshness as shown and as used for the actions: the drift assessment overrides it. */
  function ProjectedFreshness(row: Row, now: int): Freshness {
    var freshness := FreshnessOf(row, now);
    if Disables(DriftFact(row)) && !freshness.FreshExpired? && !freshness.FreshSuperseded? then
      if Truthy(Get(DriftFact(row), "material")) then Drifted else Stale
    else freshness
  }

  predicate RuntimeBlocks(row: Row) {
    RuntimeEffect(row) in {Str("force_red"), Str("force_amber"), Str("require_review")}
  }

  /** The start_execution rule of the action list. */
  predicate StartEnabled(row: Row, now: int) {
    var stale := ProjectedFreshness(row, now) in {FreshExpired, FreshSuperseded, Stale, Drifted};
    var historical := row.lifecycle == Superseded || row.lifecycle == Expired;
    row.decision == "green" && !stale && !historical && !RuntimeBlocks(row)
  }

  /**
   * In every reachable state an execution may start exactly when the twin is green by its one
   * recorded decision, has not been superseded, has not expired, and neither the runtime evidence
   * nor the last drift assessment stands against it.
   */
  lemma StartNeedsRecordedGreen(ops: seq<Op>, id: string, now: int)
    requires id in Run(Empty, ops).rows
    ensures var s := Run(Empty, ops); var row := s.rows[id];
            StartEnabled(row, now) <==>
              && row.lifecycle == Green
              && |DecisionsOf(s.decisions, id)| == 1 && DecisionsOf(s.decisions, id)[0].decision == "green"
              && (row.expiresAt.Some? ==> now < row.expiresAt.value)
              && !RuntimeBlocks(row)
              && !Disables(DriftFact(row))
  {
    hide Run, RuntimeBlocks, Disables, DriftFact;
    EmptyIsConsistent();
    RunKeeps(Empty, ops);
    var s := Run(Empty, ops);
    assert TwinIsConsistent(s, id);
  }

  lemma EmptyIsConsistent()
    ensures Consistent(Empty)
  {}

  /** The last drift assessment of a twin in a run, or the one it had before. */
  function LastAssessment(ops: seq<Op>, id: string, before: Json): Json {
    if ops == [] then before
    else
      var last := ops[|ops| - 1];
      if last.RecordDrift? && last.id == id then Obj(last.assessment)
      else LastAssessment(ops[..|ops| - 1], id, before)
  }

  lemma DriftFactStep(s: State, op: Op, id: string)
    requires Consistent(s) && id in s.rows && s.rows[id].decisionIsFinal
    ensures id in Step(s, op).0.rows && Step(s, op).0.rows[id].decisionIsFinal
    ensures DriftFact(Step(s, op).0.rows[id])
         == if op.RecordDrift? && op.id == id then Obj(op.assessment) else DriftFact(s.rows[id])
  {
    hide Step, Consistent, DriftFact;
    StepEvolves(s, op);
    assert RowEvolves(s.rows[id], Step(s, op).0.rows[id]);
    if op.id != id {
      OtherRowsStay(s, op, id);
    } else if op.RecordDrift? {
      DriftIsNoted(s, op);
    } else {
      DriftIsKept(s, op);
    }
  }

  lemma DriftIsNoted(s: State, op: Op)
    requires op.RecordDrift? && op.id in s.rows
    ensures op.id in Step(s, op).0.rows && DriftFact(Step(s, op).0.rows[op.id]) == Obj(op.assessment)
  {
    hide Logged, DriftOrigin, PriorDecision, IsMaterial;
  }

  lemma DriftIsKept(s: State, op: Op)
    requires Consistent(s) && op.id in s.rows && s.rows[op.id].decisionIsFinal && !op.RecordDrift?
    ensures op.id in Step(s, op).0.rows && DriftFact(Step(s, op).0.rows[op.id]) == DriftFact(s.rows[op.id])
  {
    hide Logged, DriftStep, EvidenceFacts, EvidenceEvent, DecisionsOf, Numbers, Numbered, DecisionMatches;
    assert TwinIsConsistent(s, op.id);
    if op.RecordEvidence? { EvidenceKeepsDrift(s.rows[op.id].facts, op.evidence); }
  }

  lemma EvidenceKeepsDrift(facts: map<string, Json>, evidence: Evidence)
    ensures Get(Obj(EvidenceFacts(facts, evidence)), "drift_twin") == Get(Obj(facts), "drift_twin")
  {
    hide Linked, ExecutionId, LinksIn, Truthy, TextOr;
    match evidence {
      case ExecutionLink(_, _, _) =>
      case RuntimeBehavior(_, _) =>
      case ReleaseNoteValidation(_) =>
      case MopReplay(_, _) =>
    }
  }

  /** Once decided, a twin's drift fact is always the last assessment recorded for it. */
  lemma {:induction false} DriftFactIsLastAssessment(s: State, ops: seq<Op>, id: string)
    requires Consistent(s) && id in s.rows && s.rows[id].decisionIsFinal
    ensures id in Run(s, ops).rows && Run(s, ops).rows[id].decisionIsFinal
    ensures DriftFact(Run(s, ops).rows[id]) == LastAssessment(ops, id, DriftFact(s.rows[id]))
  {
    hide Step, Consistent, DriftFact;
    if ops != [] {
      var init := ops[..|ops| - 1];
      DriftFactIsLastAssessment(s, init, id);
      RunKeeps(s, init);
      DriftFactStep(Run(s, init), ops[|ops| - 1], id);
    }
  }

  /**
   * A disabling assessment of a decided twin keeps executions from starting, material or not: if a
   * later state allows a start, another assessment was recorded in between, and the last of them
   * does not disable.
   */
  lemma DisabledUntilReassessed(s: State, assessment: map<string, Json>, repr: Json -> string, at: int,
                                later: seq<Op>, id: string, now: int)
    requires Consistent(s) && id in s.rows && s.rows[id].decisionIsFinal && Disables(Obj(assessment))
    ensures var noted := Step(s, RecordDrift(id, assessment, repr, at)).0;
            && id in Run(noted, later).rows
            && (StartEnabled(Run(noted, later).rows[id], now) ==>
                  && (exists op :: op in later && op.RecordDrift? && op.id == id)
                  && !Disables(LastAssessment(later, id, Obj(assessment))))
  {
    hide Run, Step, Consistent, RuntimeBlocks, Disables, DriftFact;
    var op := RecordDrift(id, assessment, repr, at);
    DriftFactStep(s, op, id);
    StepKeeps(s, op);
    DriftFactIsLastAssessment(Step(s, op).0, later, id);
    AssessmentFromRun(later, id, Obj(assessment));
  }

  lemma {:induction false} AssessmentFromRun(ops: seq<Op>, id: string, before: Json)
    ensures LastAssessment(ops, id, before) == before || exists op :: op in ops && op.RecordDrift? && op.id == id
  {
    if ops != [] {
      AssessmentFromRun(ops[..|ops| - 1], id, before);
      assert ops == ops[..|ops| - 1] + [ops[|ops| - 1]];
    }
  }

  /** Once superseded, always superseded: no later run and no later time lets an execution start. */
  lemma SupersededNeverStarts(s: State, ops: seq<Op>, id: string, now: int)
    requires Consistent(s) && id in s.rows && s.rows[id].lifecycle == Superseded
    ensures id in Run(s, ops).rows && Run(s, ops).rows[id].lifecycle == Superseded
    ensures !StartEnabled(Run(s, ops).rows[id], now)
  {
    hide Run, RuntimeBlocks, Disables, DriftFact;
    RunEvolves(s, ops);
    assert RowEvolves(s.rows[id], Run(s, ops).rows[id]);
  }

  // ----- A coloured lifecycle without a decision -----

  const Colours := {Green, Amber, Red}

  predicate ColourIsDecided(s: State, id: string) {
    id in s.rows && s.rows[id].lifecycle in Colours ==> s.rows[id].decisionIsFinal
  }

  /**
   * The transition table lets a calculating twin become green, amber or red without a decision.
   * An operation keeps coloured twins decided exactly when it is not such a transition.
   */
  lemma ColourIsDecidedIff(s: State, op: Op, id: string)
    requires Consistent(s) && ColourIsDecided(s, id)
    ensures ColourIsDecided(Step(s, op).0, id) <==>
              !(op.Transition? && op.id == id && op.next in Colours
                && id in s.rows && s.rows[id].lifecycle == DecisionCalculating)
  {
    if op.id != id {
      OtherRowsStay(s, op, id);
    } else {
      assert TwinIsConsistent(s, id);
      OwnRowColour(s, op);
    }
  }

  lemma OwnRowColour(s: State, op: Op)
    requires ColourIsDecided(s, op.id) && (op.id in s.rows
        ==> DecisionMatches(s.rows[op.id], DecisionsOf(s.decisions, op.id)))
    ensures ColourIsDecided(Step(s, op).0, op.id) <==>
              !(op.Transition? && op.next in Colours
                && op.id in s.rows && s.rows[op.id].lifecycle == DecisionCalculating)
  {
    hide Logged, DriftFacts, DriftOrigin, EvidenceFacts, IsMaterial, DecisionsOf;
  }

  lemma RunSnoc(s: State, ops: seq<Op>, op: Op)
    ensures Run(s, ops + [op]) == Step(Run(s, ops), op).0
  {
    assert (ops + [op])[..|ops|] == ops;
  }

  predicate IsAt(s: State, id: string, lifecycle: Lifecycle) {
    id in s.rows && s.rows[id].lifecycle == lifecycle && s.rows[id].decision == "pending"
  }

  lemma MoveOn(ops: seq<Op>, id: string, from: Lifecycle, next: Lifecycle)
    requires IsAt(Run(Empty, ops), id, from) && next in AllowedTransitions(from) && from in ActiveStates
    ensures IsAt(Run(Empty, ops + [Transition(id, next, 0)]), id, next)
  {
    hide Run, MaxSequence;
    RunSnoc(Empty, ops, Transition(id, next, 0));
  }

  /** The transitions that take a new twin to green without any decision being recorded. */
  function Shortcut(id: string, scope: Scope): seq<Op> {
    [CreateRun(id, scope, map[], None)] + [Transition(id, Generating, 0)] + [Transition(id, AwaitingDryRun, 0)]
    + [Transition(id, DecisionCalculating, 0)] + [Transition(id, Green, 0)]
  }

  lemma GreenWithoutDecision(id: string, scope: Scope)
    ensures IsAt(Run(Empty, Shortcut(id, scope)), id, Green)
  {
    hide Run, Step;
    var first := [CreateRun(id, scope, map[], None)];
    Created(id, scope);
    MoveOn(first, id, Requested, Generating);
    var second := first + [Transition(id, Generating, 0)];
    MoveOn(second, id, Generating, AwaitingDryRun);
    var third := second + [Transition(id, AwaitingDryRun, 0)];
    MoveOn(third, id, AwaitingDryRun, DecisionCalculating);
    MoveOn(third + [Transition(id, DecisionCalculating, 0)], id, DecisionCalculating, Green);
  }

  lemma Created(id: string, scope: Scope)
    ensures IsAt(Run(Empty, [CreateRun(id, scope, map[], None)]), id, Requested)
  {
    RunSnoc(Empty, [], CreateRun(id, scope, map[], None));
    assert [] + [CreateRun(id, scope, map[], None)] == [CreateRun(id, scope, map[], None)];
  }
}
