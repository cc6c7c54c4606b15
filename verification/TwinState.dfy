/**
 * The persisted state of namespace twins and what each repository operation does to it
 * (namespace_twin/persistence.py, namespace_twin/models.py). Times are integers.
 */
module TwinState {
  import opened Options
  import opened Json

  datatype Lifecycle =
    | Requested | Generating | AwaitingDryRun | DryRunEvidenceAttached | DecisionCalculating
    | Green | Amber | Red | Failed | Cancelled | Superseded | Expired

  const ActiveStates := {Requested, Generating, AwaitingDryRun, DryRunEvidenceAttached, DecisionCalculating}
  const TerminalStates := {Green, Amber, Red, Failed, Cancelled, Superseded, Expired}

  function AllowedTransitions(from: Lifecycle): set<Lifecycle> {
    match from
    case Requested => {Generating, Failed, Cancelled, Superseded, Expired}
    case Generating => {AwaitingDryRun, Failed, Cancelled, Superseded, Expired}
    case AwaitingDryRun => {DryRunEvidenceAttached, DecisionCalculating, Failed, Cancelled, Superseded, Expired}
    case DryRunEvidenceAttached => {DecisionCalculating, Failed, Cancelled, Superseded, Expired}
    case DecisionCalculating => TerminalStates
    case _ => {}
  }

  // Who asked for the twin, for which target, under which idempotency key.
  datatype Scope = Scope(actor: string, targetNamespace: string, idempotencyKey: string)

  datatype Row = Row(
    scope: Scope,
    lifecycle: Lifecycle,
    decision: string,
    decisionVersion: nat,
    decisionIsFinal: bool,
    reportHash: Option<string>,
    facts: map<string, Json>,
    rowVersion: nat,
    completedAt: Option<int>,
    expiresAt: Option<int>,
    supersededBy: Option<string>)

  datatype Event = Event(twin: string, sequence: nat, eventType: string)

  datatype DecisionRow = DecisionRow(twin: string, version: nat, decision: string, reportHash: string,
                                     facts: map<string, Json>)

  // The three tables that the operations write.
  datatype State = State(rows: map<string, Row>, events: seq<Event>, decisions: seq<DecisionRow>)

  datatype Outcome = Done | Unchanged | Refused(code: string)

  // Evidence that is attached to a twin in any state, already redacted; repr is the text of a value
  // that is not a string.
  datatype Evidence =
    | ExecutionLink(link: map<string, Json>, linkedAt: string, repr: Json -> string)
    | RuntimeBehavior(assessment: map<string, Json>, repr: Json -> string)
    | ReleaseNoteValidation(validation: Json)
    | MopReplay(replay: map<string, Json>, strategy: Json)

  datatype Op =
    | CreateRun(id: string, scope: Scope, facts: map<string, Json>, expiresAt: Option<int>)
    | Transition(id: string, next: Lifecycle, now: int)
    | Cancel(id: string, now: int)
    | AppendEvent(id: string, eventType: string)
    | MergeFacts(id: string, facts: map<string, Json>, eventType: string)
    | RecordEvidence(id: string, evidence: Evidence)
    | RecordDrift(id: string, assessment: map<string, Json>, repr: Json -> string, now: int)
    | Supersede(id: string, origin: string, now: int)
    | PersistDecision(id: string, decision: string, reportHash: string, facts: map<string, Json>, now: int)

  function ColourOf(decision: string): Option<Lifecycle> {
    if decision == "green" then Some(Green)
    else if decision == "amber" then Some(Amber)
    else if decision == "red" then Some(Red)
    else None
  }

  /** The highest sequence number of a twin's events, 0 if it has none. */
  function MaxSequence(events: seq<Event>, id: string): nat {
    if events == [] then 0
    else
      var rest, last := MaxSequence(events[..|events| - 1], id), events[|events| - 1];
      if last.twin == id && last.sequence > rest then last.sequence else rest
  }

  function Logged(events: seq<Event>, id: string, eventType: string): seq<Event> {
    events + [Event(id, MaxSequence(events, id) + 1, eventType)]
  }

  /** The row as it is first stored. */
  function NewRow(scope: Scope, facts: map<string, Json>, expiresAt: Option<int>): Row {
    Row(scope, Requested, "pending", 1, false, None, facts, 1, None, expiresAt, None)
  }

  function HashJson(hash: Option<string>): Json {
    if hash.Some? then Str(hash.value) else Null
  }

  /** The decision a material drift finding sets aside. */
  function PriorDecision(row: Row): Json {
    Obj(map["decision" := Str(row.decision), "decision_version" := Num(row.decisionVersion as real),
            "decision_is_final" := Bool(row.decisionIsFinal), "report_hash" := HashJson(row.reportHash)])
  }

  function Bump(row: Row): Row {
    row.(rowVersion := row.rowVersion + 1)
  }

  function Moved(row: Row, next: Lifecycle, now: int): Row {
    Bump(row).(lifecycle := next, completedAt := if next in TerminalStates then Some(now) else row.completedAt)
  }

  function WithFacts(row: Row, facts: map<string, Json>): Row {
    Bump(row).(facts := row.facts + facts)
  }

  /** The facts with one module marked as backed by real evidence. */
  function WithMode(facts: map<string, Json>, name: string): map<string, Json> {
    var modes := Get(Obj(facts), "module_modes");
    facts["module_modes" := Obj((if modes.Obj? then modes.fields else map[])[name := Str("real_core")])]
  }

  // ----- Evidence -----

  function ExecutionId(repr: Json -> string, link: Json): string {
    TextOr(repr, Get(link, "execution_id"), "")
  }

  function Overlaid(item: Json, link: map<string, Json>): Json {
    Obj((if item.Obj? then item.fields else map[]) + link)
  }

  /** The first link of the same execution is overlaid; without one the new link comes last. */
  function Linked(links: seq<Json>, link: map<string, Json>, repr: Json -> string): seq<Json> {
    if links == [] then [Obj(link)]
    else if ExecutionId(repr, links[0]) == ExecutionId(repr, Obj(link)) then [Overlaid(links[0], link)] + links[1..]
    else [links[0]] + Linked(links[1..], link, repr)
  }

  function LinksIn(facts: map<string, Json>): seq<Json> {
    var links := Get(Obj(facts), "execution_links");
    if links.Arr? then links.items else []
  }

  function EvidenceFacts(facts: map<string, Json>, evidence: Evidence): map<string, Json> {
    match evidence
    case ExecutionLink(link, linkedAt, repr) =>
      facts + map[
        "execution_links" := Arr(Linked(LinksIn(facts), link, repr)),
        "execution_id" := Str(ExecutionId(repr, Obj(link))),
        "execution_status" := Get(Obj(link), "execution_status"),
        "approval_id" := Get(Obj(link), "approval_id"),
        "approval_status" := Get(Obj(link), "approval_status"),
        "latest_execution_linked_at" := Str(linkedAt)]
    case RuntimeBehavior(assessment, repr) =>
      WithMode(facts["runtime_behavior_twin" := Obj(assessment)]
                    ["runtime_execution_effect" :=
                       Str(TextOr(repr, Get(Obj(assessment), "execution_effect"), "require_review"))],
               "runtime-behavior")
    case ReleaseNoteValidation(validation) =>
      WithMode(facts["release_note_validation" := validation], "release-note-validation")
    case MopReplay(replay, strategy) =>
      WithMode(facts["mop_replay_twin" := Obj(replay["production_secret_values_copied" := Bool(false)]
                                                    ["production_data_copied" := Bool(false)]
                                                    ["synthetic_secret_strategy" := strategy])],
               "mop-replay")
  }

  function EvidenceEvent(evidence: Evidence): string {
    match evidence
    case ExecutionLink(_, _, _) => "execution_linked"
    case RuntimeBehavior(_, _) => "runtime_behavior_refreshed"
    case ReleaseNoteValidation(_) => "release_note_validation_completed"
    case MopReplay(_, _) => "mop_replay_recorded"
  }

  // ----- Drift -----

  predicate IsMaterial(assessment: map<string, Json>) {
    Truthy(Get(Obj(assessment), "material"))
  }

  /** Who superseded the twin: the first 24 characters of the hash of the current capture. */
  function DriftOrigin(assessment: map<string, Json>, repr: Json -> string): string {
    var hash := TextOr(repr, Get(Get(Obj(assessment), "current_capture"), "hash"), "");
    "drift:" + if |hash| <= 24 then hash else hash[..24]
  }

  /** The drift facts, and for material drift the decision they set aside. */
  function DriftFacts(row: Row, assessment: map<string, Json>): map<string, Json> {
    var noted := WithMode(row.facts["drift_twin" := Obj(assessment)], "drift");
    if IsMaterial(assessment) then
      noted["decision_invalidated_by_drift" := Bool(true)]["prior_decision" := PriorDecision(row)]
    else noted
  }

  function DriftedRow(row: Row, assessment: map<string, Json>, repr: Json -> string, now: int): Row {
    var noted := Bump(row).(facts := DriftFacts(row, assessment));
    if IsMaterial(assessment) && row.lifecycle != Superseded then
      noted.(lifecycle := Superseded, supersededBy := Some(DriftOrigin(assessment, repr)), completedAt := Some(now))
    else noted
  }

  function DecidedRow(row: Row, decision: string, colour: Lifecycle, reportHash: string,
                      facts: map<string, Json>, now: int): Row {
    Bump(row).(facts := facts, decision := decision, decisionIsFinal := true, reportHash := Some(reportHash),
               lifecycle := colour, completedAt := Some(now))
  }

  function Store(s: State, id: string, row: Row, eventType: string): State {
    s.(rows := s.rows[id := row], events := Logged(s.events, id, eventType))
  }

  function TransitionStep(s: State, id: string, next: Lifecycle, now: int): (State, Outcome) {
    if id !in s.rows then (s, Refused("twin_not_found"))
    else
      var row := s.rows[id];
      if row.lifecycle == next then (s, Unchanged)
      else if row.lifecycle in TerminalStates || next !in AllowedTransitions(row.lifecycle) then
        (s, Refused("invalid_lifecycle_transition"))
      else (Store(s, id, Moved(row, next, now), "lifecycle_transitioned"), Done)
  }

  function DriftStep(s: State, id: string, assessment: map<string, Json>, repr: Json -> string, now: int)
    : (State, Outcome)
  {
    if id !in s.rows then (s, Refused("twin_not_found"))
    else
      var row := s.rows[id];
      var noted := Store(s, id, DriftedRow(row, assessment, repr, now), "drift_refreshed");
      if IsMaterial(assessment) && row.lifecycle != Superseded then
        (noted.(events := Logged(noted.events, id, "decision_superseded_by_drift")), Done)
      else (noted, Done)
  }

  /** The effect and the answer of one operation. */
  function Step(s: State, op: Op): (State, Outcome) {
    match op
    case CreateRun(id, scope, facts, expiresAt) =>
      if exists other :: other in s.rows && s.rows[other].scope == scope then (s, Unchanged)
      else if id in s.rows then (s, Refused("idempotency_conflict"))
      else (Store(s, id, NewRow(scope, facts, expiresAt), "twin_requested"), Done)
    case Transition(id, next, now) => TransitionStep(s, id, next, now)
    case Cancel(id, now) =>
      if id !in s.rows then (s, Refused("twin_not_found"))
      else if s.rows[id].lifecycle == Cancelled then (s, Unchanged)
      else if s.rows[id].lifecycle !in ActiveStates then (s, Refused("twin_not_cancellable"))
      else TransitionStep(s, id, Cancelled, now)
    case AppendEvent(id, eventType) =>
      if id !in s.rows then (s, Refused("twin_not_found"))
      else (s.(events := Logged(s.events, id, eventType)), Done)
    case MergeFacts(id, facts, eventType) =>
      if id !in s.rows then (s, Refused("twin_not_found"))
      else if s.rows[id].decisionIsFinal || s.rows[id].lifecycle in TerminalStates then
        (s, Refused("terminal_twin_immutable"))
      else (Store(s, id, WithFacts(s.rows[id], facts), eventType), Done)
    case RecordEvidence(id, evidence) =>
      if id !in s.rows then (s, Refused("twin_not_found"))
      else
        var row := s.rows[id];
        (Store(s, id, Bump(row).(facts := EvidenceFacts(row.facts, evidence)), EvidenceEvent(evidence)), Done)
    case RecordDrift(id, assessment, repr, now) => DriftStep(s, id, assessment, repr, now)
    case Supersede(id, origin, now) =>
      if id !in s.rows then (s, Refused("twin_not_found"))
      else
        var row := s.rows[id];
        if row.lifecycle == Superseded && row.supersededBy == Some(origin) then (s, Unchanged)
        else if row.lifecycle !in ActiveStates then (s, Refused("terminal_twin_not_supersedable"))
        else (Store(s, id, Moved(row, Superseded, now).(supersededBy := Some(origin)), "twin_superseded"), Done)
    case PersistDecision(id, decision, reportHash, facts, now) =>
      if ColourOf(decision).None? then (s, Refused("invalid_decision"))
      else if id !in s.rows then (s, Refused("twin_not_found"))
      else
        var row := s.rows[id];
        if row.decisionIsFinal then (s, Refused("terminal_decision_immutable"))
        else if row.lifecycle != DecisionCalculating then (s, Refused("invalid_lifecycle_transition"))
        else
          var stored := Store(s, id, DecidedRow(row, decision, ColourOf(decision).value, reportHash, facts, now),
                              "terminal_decision_persisted");
          var record := DecisionRow(id, row.decisionVersion, decision, reportHash, facts);
          (stored.(decisions := s.decisions + [record]), Done)
  }

  /** A whole run of operations. */
  function Run(s: State, ops: seq<Op>): State {
    if ops == [] then s else Step(Run(s, ops[..|ops| - 1]), ops[|ops| - 1]).0
  }

  const Empty := State(map[], [], [])
}
