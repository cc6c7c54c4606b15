/**
 * The twin repository as an object that its operations update in place
 * (namespace_twin/persistence.py). Each operation is one atomic step.
 */
module TwinRepository {
  import opened Options
  import opened Json
  import opened TwinState

  class Repository {
    var rows: map<string, Row>
    var events: seq<Event>
    var decisions: seq<DecisionRow>

    ghost function Snapshot(): State
      reads this
    {
      State(rows, events, decisions)
    }

    constructor ()
      ensures Snapshot() == Empty
    {
      rows, events, decisions := map[], [], [];
    }

    /** The next number is one above the highest stored for the twin. */
    method AppendEventInSession(id: string, eventType: string)
      modifies this`events
      ensures events == Logged(old(events), id, eventType)
    {
      var highest := 0;
      for i := 0 to |events|
        invariant highest == MaxSequence(events[..i], id)
      {
        assert events[..i + 1][..i] == events[..i];
        if events[i].twin == id && events[i].sequence > highest {
          highest := events[i].sequence;
        }
      }
      assert events[..|events|] == events;
      events := events + [Event(id, highest + 1, eventType)];
    }

    method CreateRun(id: string, scope: Scope, facts: map<string, Json>, expiresAt: Option<int>)
        returns (outcome: Outcome)
      modifies this
      ensures (Snapshot(), outcome) == Step(old(Snapshot()), Op.CreateRun(id, scope, facts, expiresAt))
    {
      hide MaxSequence;
      if exists other :: other in rows && rows[other].scope == scope {
        return Unchanged;
      }
      if id in rows {
        return Refused("idempotency_conflict");
      }
      rows := rows[id := Row(scope, Requested, "pending", 1, false, None, facts, 1, None, expiresAt, None)];
      AppendEventInSession(id, "twin_requested");
      outcome := Done;
    }

    method Transition(id: string, next: Lifecycle, now: int) returns (outcome: Outcome)
      modifies this
      ensures (Snapshot(), outcome) == Step(old(Snapshot()), Op.Transition(id, next, now))
    {
      hide MaxSequence;
      if id !in rows {
        return Refused("twin_not_found");
      }
      var row := rows[id];
      if row.lifecycle == next {
        return Unchanged;
      }
      if row.lifecycle in TerminalStates || next !in AllowedTransitions(row.lifecycle) {
        return Refused("invalid_lifecycle_transition");
      }
      row := row.(lifecycle := next, rowVersion := row.rowVersion + 1);
      if next in TerminalStates {
        row := row.(completedAt := Some(now));
      }
      rows := rows[id := row];
      AppendEventInSession(id, "lifecycle_transitioned");
      outcome := Done;
    }

    method Cancel(id: string, now: int) returns (outcome: Outcome)
      modifies this
      ensures (Snapshot(), outcome) == Step(old(Snapshot()), Op.Cancel(id, now))
    {
      if id !in rows {
        return Refused("twin_not_found");
      }
      if rows[id].lifecycle == Cancelled {
        return Unchanged;
      }
      if rows[id].lifecycle !in ActiveStates {
        return Refused("twin_not_cancellable");
      }
      outcome := Transition(id, Cancelled, now);
    }

    method AppendEvent(id: string, eventType: string) returns (outcome: Outcome)
      modifies this
      ensures (Snapshot(), outcome) == Step(old(Snapshot()), Op.AppendEvent(id, eventType))
    {
      if id !in rows {
        return Refused("twin_not_found");
      }
      AppendEventInSession(id, eventType);
      outcome := Done;
    }

    method MergeFacts(id: string, facts: map<string, Json>, eventType: string) returns (outcome: Outcome)
      modifies this
      ensures (Snapshot(), outcome) == Step(old(Snapshot()), Op.MergeFacts(id, facts, eventType))
    {
      hide MaxSequence;
      if id !in rows {
        return Refused("twin_not_found");
      }
      var row := rows[id];
      if row.decisionIsFinal || row.lifecycle in TerminalStates {
        return Refused("terminal_twin_immutable");
      }
      rows := rows[id := row.(facts := row.facts + facts, rowVersion := row.rowVersion + 1)];
      AppendEventInSession(id, eventType);
      outcome := Done;
    }

    /** Links an execution: the first link of the same execution is overlaid, or the link is added. */
    method RecordExecutionLink(id: string, link: map<string, Json>, linkedAt: string, repr: Json -> string)
      returns (outcome: Outcome)
      modifies this
      ensures (Snapshot(), outcome)
           == Step(old(Snapshot()), Op.RecordEvidence(id, ExecutionLink(link, linkedAt, repr)))
    {
      hide MaxSequence, Linked, LinksIn;
      if id !in rows {
        return Refused("twin_not_found");
      }
      var row := rows[id];
      var links := ReplaceOrAppend(LinksIn(row.facts), link, repr);
      var merged := row.facts + map[
        "execution_links" := Arr(links),
        "execution_id" := Str(ExecutionId(repr, Obj(link))),
        "execution_status" := Get(Obj(link), "execution_status"),
        "approval_id" := Get(Obj(link), "approval_id"),
        "approval_status" := Get(Obj(link), "approval_status"),
        "latest_execution_linked_at" := Str(linkedAt)];
      rows := rows[id := row.(facts := merged, rowVersion := row.rowVersion + 1)];
      AppendEventInSession(id, "execution_linked");
      outcome := Done;
    }

    static method ReplaceOrAppend(stored: seq<Json>, link: map<string, Json>, repr: Json -> string)
      returns (links: seq<Json>)
      ensures links == Linked(stored, link, repr)
    {
      hide ExecutionId, Overlaid;
      links := stored;
      for i := 0 to |stored|
        invariant links == stored
        invariant Linked(stored, link, repr) == stored[..i] + Linked(stored[i..], link, repr)
      {
        if ExecutionId(repr, stored[i]) == ExecutionId(repr, Obj(link)) {
          links := stored[i := Overlaid(stored[i], link)];
          assert stored[i..][1..] == stored[i + 1..];
          assert links == stored[..i] + ([Overlaid(stored[i], link)] + stored[i + 1..]);
          return;
        }
        assert stored[i..][1..] == stored[i + 1..];
        assert stored[..i + 1] == stored[..i] + [stored[i]];
      }
      assert stored[..|stored|] == stored;
      links := links + [Obj(link)];
    }

    method RecordRuntimeBehavior(id: string, assessment: map<string, Json>, repr: Json -> string)
      returns (outcome: Outcome)
      modifies this
      ensures (Snapshot(), outcome) == Step(old(Snapshot()), Op.RecordEvidence(id, RuntimeBehavior(assessment, repr)))
    {
      hide MaxSequence;
      if id !in rows {
        return Refused("twin_not_found");
      }
      var row := rows[id];
      var merged := row.facts["runtime_behavior_twin" := Obj(assessment)];
      var effect := TextOr(repr, Get(Obj(assessment), "execution_effect"), "require_review");
      merged := WithMode(merged["runtime_execution_effect" := Str(effect)], "runtime-behavior");
      rows := rows[id := row.(facts := merged, rowVersion := row.rowVersion + 1)];
      AppendEventInSession(id, "runtime_behavior_refreshed");
      outcome := Done;
    }

    method RecordReleaseNoteValidation(id: string, validation: Json) returns (outcome: Outcome)
      modifies this
      ensures (Snapshot(), outcome) == Step(old(Snapshot()), Op.RecordEvidence(id, ReleaseNoteValidation(validation)))
    {
      hide MaxSequence;
      if id !in rows {
        return Refused("twin_not_found");
      }
      var row := rows[id];
      var merged := WithMode(row.facts["release_note_validation" := validation], "release-note-validation");
      rows := rows[id := row.(facts := merged, rowVersion := row.rowVersion + 1)];
      AppendEventInSession(id, "release_note_validation_completed");
      outcome := Done;
    }

    /** The two safety assertions and the strategy are written over whatever redaction made of them. */
    method RecordMopReplay(id: string, replay: map<string, Json>, strategy: Json) returns (outcome: Outcome)
      modifies this
      ensures (Snapshot(), outcome) == Step(old(Snapshot()), Op.RecordEvidence(id, MopReplay(replay, strategy)))
    {
      hide MaxSequence;
      if id !in rows {
        return Refused("twin_not_found");
      }
      var row := rows[id];
      var noted := replay["production_secret_values_copied" := Bool(false)]["production_data_copied" := Bool(false)];
      noted := noted["synthetic_secret_strategy" := strategy];
      var merged := WithMode(row.facts["mop_replay_twin" := Obj(noted)], "mop-replay");
      rows := rows[id := row.(facts := merged, rowVersion := row.rowVersion + 1)];
      AppendEventInSession(id, "mop_replay_recorded");
      outcome := Done;
    }

    method RecordDrift(id: string, assessment: map<string, Json>, repr: Json -> string, now: int)
      returns (outcome: Outcome)
      modifies this
      ensures (Snapshot(), outcome) == Step(old(Snapshot()), Op.RecordDrift(id, assessment, repr, now))
    {
      hide MaxSequence, PriorDecision, DriftOrigin;
      if id !in rows {
        return Refused("twin_not_found");
      }
      var row := rows[id];
      var merged := WithMode(row.facts["drift_twin" := Obj(assessment)], "drift");
      var material := IsMaterial(assessment);
      if material {
        merged := merged["decision_invalidated_by_drift" := Bool(true)]["prior_decision" := PriorDecision(row)];
      }
      var previous := row.lifecycle;
      row := row.(facts := merged);
      if material && row.lifecycle != Superseded {
        row := row.(lifecycle := Superseded, supersededBy := Some(DriftOrigin(assessment, repr)),
            completedAt := Some(now));
      }
      row := row.(rowVersion := row.rowVersion + 1);
      rows := rows[id := row];
      AppendEventInSession(id, "drift_refreshed");
      if material && previous != Superseded {
        AppendEventInSession(id, "decision_superseded_by_drift");
      }
      outcome := Done;
    }

    method Supersede(id: string, origin: string, now: int) returns (outcome: Outcome)
      modifies this
      ensures (Snapshot(), outcome) == Step(old(Snapshot()), Op.Supersede(id, origin, now))
    {
      hide MaxSequence;
      if id !in rows {
        return Refused("twin_not_found");
      }
      var row := rows[id];
      if row.lifecycle == Superseded && row.supersededBy == Some(origin) {
        return Unchanged;
      }
      if row.lifecycle !in ActiveStates {
        return Refused("terminal_twin_not_supersedable");
      }
      row := row.(lifecycle := Superseded, supersededBy := Some(origin), completedAt := Some(now));
      rows := rows[id := row.(rowVersion := row.rowVersion + 1)];
      AppendEventInSession(id, "twin_superseded");
      outcome := Done;
    }

    method PersistTerminalDecision(id: string, decision: string, reportHash: string, facts: map<string, Json>, now: int)
      returns (outcome: Outcome)
      modifies this
      ensures (Snapshot(), outcome) == Step(old(Snapshot()), Op.PersistDecision(id, decision, reportHash, facts, now))
    {
      hide MaxSequence;
      if ColourOf(decision).None? {
        return Refused("invalid_decision");
      }
      if id !in rows {
        return Refused("twin_not_found");
      }
      var row := rows[id];
      if row.decisionIsFinal {
        return Refused("terminal_decision_immutable");
      }
      if row.lifecycle != DecisionCalculating {
        return Refused("invalid_lifecycle_transition");
      }
      decisions := decisions + [DecisionRow(id, row.decisionVersion, decision, reportHash, facts)];
      row := row.(facts := facts, decision := decision, decisionIsFinal := true, reportHash := Some(reportHash));
      row := row.(lifecycle := ColourOf(decision).value, completedAt := Some(now));
      rows := rows[id := row.(rowVersion := row.rowVersion + 1)];
      AppendEventInSession(id, "terminal_decision_persisted");
      outcome := Done;
    }

    /** An active twin whose expiry time has come. */
    predicate IsDue(row: Row, now: int) {
      row.lifecycle in ActiveStates && row.expiresAt.Some? && row.expiresAt.value <= now
    }

    lemma ExpiryOf(s: State, id: string, now: int)
      requires id in s.rows && IsDue(s.rows[id], now)
      ensures Step(s, Op.Transition(id, Expired, now)).0.rows == s.rows[id := Moved(s.rows[id], Expired, now)]
      ensures Step(s, Op.Transition(id, Expired, now)).1 == Done
    {}

    lemma RunOneMore(s: State, ops: seq<Op>, op: Op)
      ensures Run(s, ops + [op]) == Step(Run(s, ops), op).0
    {
      assert (ops + [op])[..|ops|] == ops;
    }

    /**
     * The ids are collected first and then expired one by one, in any order. No transition is
     * refused: exactly the due twins end expired, and the others are untouched.
     */
    method ExpireDue(now: int) returns (ids: set<string>, ghost ops: seq<Op>)
      modifies this
      ensures ids == set id | id in old(rows) && IsDue(old(rows)[id], now)
      ensures Snapshot() == Run(old(Snapshot()), ops)
      ensures rows.Keys == old(rows.Keys)
      ensures forall id :: id in rows ==>
                rows[id] == if id in ids then Moved(old(rows)[id], Expired, now) else old(rows)[id]
    {
      hide MaxSequence, Moved, Step, Run;
      ids := set id | id in rows && IsDue(rows[id], now);
      ops := [];
      assert Snapshot() == Run(Snapshot(), []) by { RunNone(Snapshot()); }
      var todo := ids;
      while todo != {}
        invariant todo <= ids
        invariant Snapshot() == Run(old(Snapshot()), ops)
        invariant rows.Keys == old(rows.Keys)
        invariant forall id :: id in rows ==>
            rows[id] == if id in ids - todo then Moved(old(rows)[id], Expired, now) else old(rows)[id]
        decreases todo
      {
        var id :| id in todo;
        ExpiryOf(Snapshot(), id, now);
        RunOneMore(old(Snapshot()), ops, Op.Transition(id, Expired, now));
        var _ := Transition(id, Expired, now);
        ops := ops + [Op.Transition(id, Expired, now)];
        todo := todo - {id};
      }
    }

    lemma RunNone(s: State)
      ensures Run(s, []) == s
    {}
  }
}
