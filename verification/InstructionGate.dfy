/**
 * The gate for instructions of the external controller, over the job and step repository
 * (runtime/instructions.py, persistence/repositories.py).
 */
module InstructionGate {
  import opened Options

  datatype InstructionType =
    | Continue | Retry | Wait | Skip | Abort | RefreshObservation
    | PatchManifest | ReplaceManifest | InvokeMcpTool
    | RunValidation | RequestHumanApproval | Rollback

  const SafeResume := {Continue, Retry, Wait, Skip, Abort, RefreshObservation}
  const UnsafeWithoutPolicy := {PatchManifest, ReplaceManifest, InvokeMcpTool}

  datatype JobState =
    | DecisionRequired | AwaitingHumanApproval | Executing | RollbackRequested | Cancelled | DryRunReady
    | OtherJobState(name: string)

  datatype StepState =
    | StepDecisionRequired | DryRunSucceeded | Pending | SkippedByInstruction | OtherStepState(name: string)

  datatype Job = Job(id: string, state: JobState, executeAfterApproval: bool, dryRunSatisfied: bool,
                     blocked: bool, decisionRequired: bool)

  datatype Step = Step(jobId: string, stepId: string, state: StepState, dryRunStatus: Option<StepState>,
                       mutationStatus: Option<StepState>, validationStatus: Option<StepState>)

  // An absent target step is the empty text; so is an absent replacement manifest.
  datatype Instruction = Instruction(id: string, jobId: string, kind: InstructionType, targetStep: string,
                                     replacementManifest: string, dryRunRequired: bool)

  datatype AuditAction = Received | Rejected(reason: string) | PolicyBlocked(reason: string) | Accepted

  datatype AuditEvent = AuditEvent(instructionId: string, jobId: string, action: AuditAction)

  datatype Status = IsAccepted | IsRejected | IsPolicyBlocked

  datatype Decision = DecisionOf(accepted: bool, status: Status, reason: Option<string>, blocks: seq<string>)

  // The tables: steps in their order of insertion under their compound key.
  datatype Entry = Entry(key: string, step: Step)

  datatype State = State(jobs: map<string, Job>, steps: seq<Entry>, instructions: map<string, Instruction>,
                         audit: seq<AuditEvent>)

  function CompoundKey(left: string, right: string): string {
    left + ":" + right
  }

  predicate BelongsTo(key: string, jobId: string) {
    jobId + ":" <= key
  }

  // ----- What the gate decides -----

  function PolicyBlocks(job: Job, i: Instruction): seq<string> {
    var allowed :=
      i.kind == Abort || i.kind == RefreshObservation
      || (i.kind == Continue && (job.state == AwaitingHumanApproval || job.state == Executing))
      || (i.kind == Rollback && job.state == RollbackRequested);
    (if job.state != DecisionRequired && !allowed then ["INSTRUCTION_STATE_MISMATCH"] else [])
    + (if i.kind == Rollback && job.state != RollbackRequested then ["ROLLBACK_STATE_REQUIRED"] else [])
    + (if i.kind in UnsafeWithoutPolicy then ["UNSAFE_INSTRUCTION_BLOCKED"] else [])
    + (if i.replacementManifest != "" && !i.dryRunRequired then ["INSTRUCTION_DRY_RUN_REQUIRED"] else [])
  }

  function Decide(s: State, i: Instruction): Decision {
    if i.jobId !in s.jobs then DecisionOf(false, IsRejected, Some("JOB_NOT_FOUND"), [])
    else
      var blocks := PolicyBlocks(s.jobs[i.jobId], i);
      if blocks != [] then DecisionOf(false, IsPolicyBlocked, Some(blocks[0]), blocks)
      else if i.kind !in SafeResume then DecisionOf(false, IsRejected, Some("UNSUPPORTED_INSTRUCTION_TYPE"), [])
      else DecisionOf(true, IsAccepted, None, [])
  }

  function VerdictAction(d: Decision): AuditAction {
    if d.accepted then Accepted
    else if d.status == IsPolicyBlocked then PolicyBlocked(if d.reason.Some? then d.reason.value else "")
    else Rejected(if d.reason.Some? then d.reason.value else "")
  }

  // ----- What an accepted instruction does -----

  /** Whether a step of the job is the one a resume or a skip looks for. */
  predicate IsTarget(e: Entry, i: Instruction) {
    BelongsTo(e.key, i.jobId) &&
    (if i.kind == Skip then i.targetStep != "" && e.step.stepId == i.targetStep
     else (i.targetStep == "" || e.step.stepId == i.targetStep) && e.step.state == StepDecisionRequired)
  }

  /** The first entry an instruction looks for, or the number of entries. */
  function FirstTarget(steps: seq<Entry>, i: Instruction): (k: nat)
    ensures k <= |steps|
    ensures forall j :: 0 <= j < k ==> !IsTarget(steps[j], i)
    ensures k < |steps| ==> IsTarget(steps[k], i)
  {
    if steps == [] then 0
    else
      var k := FirstTarget(steps[..|steps| - 1], i);
      if k < |steps| - 1 then k
      else if IsTarget(steps[|steps| - 1], i) then |steps| - 1
      else |steps|
  }

  predicate ResumesMutation(job: Job) {
    job.executeAfterApproval && job.dryRunSatisfied
  }

  function Resumed(step: Step, job: Job): Step {
    if ResumesMutation(job) then Step(step.jobId, step.stepId, DryRunSucceeded, Some(DryRunSucceeded), None, None)
    else Step(step.jobId, step.stepId, Pending, None, None, None)
  }

  /** Whether the instruction changes steps at all. */
  predicate TouchesSteps(job: Job, i: Instruction) {
    i.kind == Skip || ((i.kind == Continue || i.kind == Retry) && job.state !in {AwaitingHumanApproval, Executing})
  }

  function JobAfter(job: Job, i: Instruction): Job {
    if i.kind == Abort then job.(state := Cancelled, blocked := false)
    else if i.kind == Skip then job.(state := DryRunReady, decisionRequired := false, blocked := false)
    else if TouchesSteps(job, i) then
      job.(state := if ResumesMutation(job) then Executing else DryRunReady, decisionRequired := false,
          blocked := false)
    else job
  }

  function StepAfter(step: Step, job: Job, i: Instruction): Step {
    if i.kind == Skip then step.(state := SkippedByInstruction) else Resumed(step, job)
  }

  /** The steps table with a step written under its own key. */
  function Saved(steps: seq<Entry>, step: Step): seq<Entry> {
    var key := CompoundKey(step.jobId, step.stepId);
    if exists k :: 0 <= k < |steps| && steps[k].key == key then
      seq(|steps|, k requires 0 <= k < |steps| => if steps[k].key == key then Entry(key, step) else steps[k])
    else steps + [Entry(key, step)]
  }

  function StepsAfter(steps: seq<Entry>, job: Job, i: Instruction): seq<Entry> {
    var k := FirstTarget(steps, i);
    if TouchesSteps(job, i) && k < |steps| then Saved(steps, StepAfter(steps[k].step, job, i)) else steps
  }

  function Receive(s: State, i: Instruction): (State, Decision) {
    var d := Decide(s, i);
    var audited := s.audit + [AuditEvent(i.id, i.jobId, Received)] + [AuditEvent(i.id, i.jobId, VerdictAction(d))];
    if d.accepted && i.jobId in s.jobs then
      var job := s.jobs[i.jobId];
      (State(s.jobs[job.id := JobAfter(job, i)], StepsAfter(s.steps, job, i), s.instructions[i.id := i], audited), d)
    else (s.(audit := audited), d)
  }

  // ----- The gate as an object -----

  class Gate {
    var jobs: map<string, Job>
    var steps: seq<Entry>
    var instructions: map<string, Instruction>
    var audit: seq<AuditEvent>

    ghost function Snapshot(): State
      reads this
    {
      State(jobs, steps, instructions, audit)
    }

    constructor (s: State)
      ensures Snapshot() == s
    {
      jobs, steps, instructions, audit := s.jobs, s.steps, s.instructions, s.audit;
    }

    method WriteAudit(i: Instruction, action: AuditAction)
      modifies this`audit
      ensures audit == old(audit) + [AuditEvent(i.id, i.jobId, action)]
    {
      audit := audit + [AuditEvent(i.id, i.jobId, action)];
    }

    method SaveStep(step: Step)
      modifies this`steps
      ensures steps == Saved(old(steps), step)
    {
      var key := CompoundKey(step.jobId, step.stepId);
      if exists k :: 0 <= k < |steps| && steps[k].key == key {
        steps := seq(|steps|, k requires 0 <= k < |steps| reads this => if steps[k].key == key then Entry(key, step)
            else steps[k]);
      } else {
        steps := steps + [Entry(key, step)];
      }
    }

    /** The loop over the steps of a job: the first one looked for is updated, the rest is skipped. */
    method UpdateFirstTarget(job: Job, i: Instruction)
      requires TouchesSteps(job, i)
      modifies this`steps
      ensures steps == StepsAfter(old(steps), job, i)
    {
      hide Saved, Resumed;
      var k := 0;
      while k < |steps|
        invariant k <= |steps| && steps == old(steps)
        invariant forall j :: 0 <= j < k ==> !IsTarget(steps[j], i)
      {
        if IsTarget(steps[k], i) {
          assert k == FirstTarget(steps, i);
          SaveStep(StepAfter(steps[k].step, job, i));
          break;
        }
        k := k + 1;
      }
    }

    method ApplySafeInstruction(job: Job, i: Instruction)
      modifies this`jobs, this`steps
      ensures jobs == old(jobs)[job.id := JobAfter(job, i)] || (jobs == old(jobs) && JobAfter(job, i) == job)
      ensures steps == StepsAfter(old(steps), job, i)
    {
      hide StepsAfter, FirstTarget;
      NoTouch(steps, job, i);
      if i.kind == Abort {
        jobs := jobs[job.id := job.(state := Cancelled, blocked := false)];
      } else if i.kind == Continue || i.kind == Retry {
        if job.state == AwaitingHumanApproval || job.state == Executing {
          return;
        }
        UpdateFirstTarget(job, i);
        jobs := jobs[job.id := job.(state := if ResumesMutation(job) then Executing else DryRunReady,
                                    decisionRequired := false, blocked := false)];
      } else if i.kind == Skip {
        UpdateFirstTarget(job, i);
        jobs := jobs[job.id := job.(state := DryRunReady, decisionRequired := false, blocked := false)];
      }
    }

    lemma NoTouch(table: seq<Entry>, job: Job, i: Instruction)
      ensures !TouchesSteps(job, i) ==> StepsAfter(table, job, i) == table
    {}

    method ReceiveInstruction(i: Instruction) returns (d: Decision)
      requires i.jobId in jobs ==> jobs[i.jobId].id == i.jobId
      modifies this
      ensures (Snapshot(), d) == Receive(old(Snapshot()), i)
    {
      hide StepsAfter;
      WriteAudit(i, Received);
      if i.jobId !in jobs {
        WriteAudit(i, Rejected("JOB_NOT_FOUND"));
        return DecisionOf(false, IsRejected, Some("JOB_NOT_FOUND"), []);
      }
      var job := jobs[i.jobId];
      var blocked := PolicyBlocks(job, i);
      if blocked != [] {
        WriteAudit(i, PolicyBlocked(blocked[0]));
        return DecisionOf(false, IsPolicyBlocked, Some(blocked[0]), blocked);
      }
      if i.kind !in SafeResume {
        WriteAudit(i, Rejected("UNSUPPORTED_INSTRUCTION_TYPE"));
        return DecisionOf(false, IsRejected, Some("UNSUPPORTED_INSTRUCTION_TYPE"), []);
      }
      instructions := instructions[i.id := i];
      ApplySafeInstruction(job, i);
      assert jobs == old(jobs)[job.id := JobAfter(job, i)];
      WriteAudit(i, Accepted);
      d := DecisionOf(true, IsAccepted, None, []);
    }
  }

  // ----- One instruction -----

  /** Every instruction is recorded twice: on arrival, and with its verdict. */
  lemma TwoAuditEvents(s: State, i: Instruction)
    ensures s.audit <= Receive(s, i).0.audit && |Receive(s, i).0.audit| == |s.audit| + 2
    ensures Receive(s, i).0.audit[|s.audit|].action == Received
    ensures Receive(s, i).0.audit[|s.audit| + 1].action == Accepted <==> Receive(s, i).1.accepted
  {
    hide StepsAfter, JobAfter;
  }

  /** A refused instruction leaves jobs, steps and stored instructions as they were. */
  lemma RefusedChangesNothing(s: State, i: Instruction)
    requires !Receive(s, i).1.accepted
    ensures Receive(s, i).0 == s.(audit := Receive(s, i).0.audit)
  {}

  /** Exactly the safe kinds can be accepted, each only in the job states that allow it. */
  lemma AcceptedIff(s: State, i: Instruction)
    ensures Receive(s, i).1.accepted <==>
              && i.jobId in s.jobs && i.kind in SafeResume
              && (i.replacementManifest == "" || i.dryRunRequired)
              && (var state := s.jobs[i.jobId].state;
                  || state == DecisionRequired || i.kind in {Abort, RefreshObservation}
                  || (i.kind == Continue && state in {AwaitingHumanApproval, Executing}))
  {
    hide StepsAfter, JobAfter;
  }

  /** Why an instruction is turned down: the first reason that applies, in this order. */
  lemma ReasonGiven(s: State, i: Instruction)
    ensures Receive(s, i).1.accepted ==> Receive(s, i).1 == DecisionOf(true, IsAccepted, None, [])
    ensures !Receive(s, i).1.accepted ==>
              var state := if i.jobId in s.jobs then s.jobs[i.jobId].state else Cancelled;
              Receive(s, i).1.reason == Some(
                if i.jobId !in s.jobs then "JOB_NOT_FOUND"
                else if state != DecisionRequired && i.kind !in {Abort, RefreshObservation}
                        && !(i.kind == Continue && state in {AwaitingHumanApproval, Executing})
                        && !(i.kind == Rollback && state == RollbackRequested) then "INSTRUCTION_STATE_MISMATCH"
                else if i.kind == Rollback && state != RollbackRequested then "ROLLBACK_STATE_REQUIRED"
                else if i.kind in {PatchManifest, ReplaceManifest, InvokeMcpTool} then "UNSAFE_INSTRUCTION_BLOCKED"
                else if i.replacementManifest != "" && !i.dryRunRequired then "INSTRUCTION_DRY_RUN_REQUIRED"
                else "UNSUPPORTED_INSTRUCTION_TYPE")
  {
    hide StepsAfter, JobAfter;
  }

  /** Although a rollback-requested job lets it past the blocks, a rollback is never accepted. */
  lemma RollbackIsNeverAccepted(s: State, i: Instruction)
    requires i.kind == Rollback
    ensures !Receive(s, i).1.accepted
    ensures i.jobId in s.jobs && s.jobs[i.jobId].state == RollbackRequested && i.replacementManifest == "" ==>
              Receive(s, i).1.reason == Some("UNSUPPORTED_INSTRUCTION_TYPE")
  {
    hide StepsAfter, JobAfter;
  }

  // ----- The prefix scan -----

  predicate NoColon(s: string) {
    ':' !in s
  }

  /**
   * Which entries the scan for a job finds: the job's own steps, those of jobs whose id goes on
   * after a colon, and those whose step id completes a shorter job id to this one.
   */
  lemma ScanFinds(jobId: string, owner: string, stepId: string)
    ensures BelongsTo(CompoundKey(owner, stepId), jobId) <==>
              || owner == jobId
              || jobId + ":" <= owner
              || (owner + ":" <= jobId && jobId[|owner| + 1..] + ":" <= stepId)
  {
    var key := CompoundKey(owner, stepId);
    assert key == owner + (":" + stepId);
    if |owner| < |jobId| {
      ShorterOwner(jobId, owner, stepId);
    } else if |owner| == |jobId| {
      assert (jobId + ":")[..|jobId|] == jobId && key[..|owner|] == owner;
      assert owner == jobId ==> key == (jobId + ":") + stepId;
    } else {
      assert key[..|jobId| + 1] == owner[..|jobId| + 1];
    }
  }

  lemma ShorterOwner(jobId: string, owner: string, stepId: string)
    requires |owner| < |jobId|
    ensures BelongsTo(CompoundKey(owner, stepId), jobId) <==>
              owner + ":" <= jobId && jobId[|owner| + 1..] + ":" <= stepId
  {
    var key, n := CompoundKey(owner, stepId), |owner| + 1;
    assert key == (owner + ":") + stepId;
    assert key[..n] == owner + ":" && key[n..] == stepId;
    assert jobId + ":" == jobId[..n] + (jobId[n..] + ":");
    if jobId + ":" <= key {
      assert key[..|jobId| + 1] == jobId + ":";
      assert key[..n] == (jobId + ":")[..n] == jobId[..n];
      assert key[n..][..|jobId| + 1 - n] == (jobId + ":")[n..] == jobId[n..] + ":";
    }
    if owner + ":" <= jobId && jobId[n..] + ":" <= stepId {
      assert jobId[..n] == owner + ":";
      assert key == (jobId + ":") + stepId[|jobId| + 1 - n..];
    }
  }

  /**
   * The scan keeps two jobs apart, whatever their step ids, exactly when neither id goes on from
   * the other after a colon.
   */
  lemma ScanIsExactIff(jobId: string, owner: string)
    ensures (forall stepId :: BelongsTo(CompoundKey(owner, stepId), jobId) <==> owner == jobId)
       <==> !(jobId + ":" <= owner) && !(owner + ":" <= jobId)
  {
    forall stepId
      ensures BelongsTo(CompoundKey(owner, stepId), jobId) <==>
                || owner == jobId
                || jobId + ":" <= owner
                || (owner + ":" <= jobId && jobId[|owner| + 1..] + ":" <= stepId)
    {
      ScanFinds(jobId, owner, stepId);
    }
    if jobId + ":" <= owner || owner + ":" <= jobId {
      assert owner != jobId;
      var stepId := if owner + ":" <= jobId then jobId[|owner| + 1..] + ":" else "";
      assert BelongsTo(CompoundKey(owner, stepId), jobId);
    }
  }

  /** So it finds exactly the steps of a job when job ids hold no colon. */
  lemma PrefixScanIsExact(jobId: string, owner: string, stepId: string)
    requires NoColon(jobId) && NoColon(owner)
    ensures BelongsTo(CompoundKey(owner, stepId), jobId) <==> owner == jobId
  {
    ScanFinds(jobId, owner, stepId);
    ColonInside(jobId, owner);
    ColonInside(owner, jobId);
  }

  lemma ColonInside(a: string, b: string)
    ensures a + ":" <= b ==> !NoColon(b)
  {
    if a + ":" <= b {
      assert b[|a|] == ':';
    }
  }

  /** With a colon in a job id the scan also finds steps of another job. */
  lemma ColonsConfuseTheScan(jobId: string, rest: string, stepId: string)
    ensures BelongsTo(CompoundKey(jobId + ":" + rest, stepId), jobId)
    ensures jobId + ":" + rest != jobId
  {
    assert CompoundKey(jobId + ":" + rest, stepId) == (jobId + ":") + (rest + ":" + stepId);
    assert |jobId + ":" + rest| > |jobId|;
  }

  // ----- Consistent tables -----

  /** Keys are the compound keys of their steps and occur once; job ids are keys and hold no colon. */
  ghost predicate Consistent(s: State) {
    && (forall id :: id in s.jobs ==> s.jobs[id].id == id && NoColon(id))
    && (forall k :: 0 <= k < |s.steps| ==>
          s.steps[k].key == CompoundKey(s.steps[k].step.jobId, s.steps[k].step.stepId)
              && NoColon(s.steps[k].step.jobId))
    && (forall j, k :: 0 <= j < k < |s.steps| ==> s.steps[j].key != s.steps[k].key)
  }

  /** Writing an updated step back changes its own entry and no other. */
  lemma SavedAt(steps: seq<Entry>, k: nat, step: Step)
    requires k < |steps| && steps[k].key == CompoundKey(step.jobId, step.stepId)
    requires forall i, j :: 0 <= i < j < |steps| ==> steps[i].key != steps[j].key
    ensures Saved(steps, step) == steps[k := Entry(steps[k].key, step)]
  {
    forall j | 0 <= j < |steps| ensures Saved(steps, step)[j] == steps[k := Entry(steps[k].key, step)][j] {
      if j < k { assert steps[j].key != steps[k].key; }
      if k < j { assert steps[k].key != steps[j].key; }
    }
  }

  /**
   * An accepted instruction writes its job and at most one step of that job: the first one it
   * looks for. A resume only takes a step that waits for a decision.
   */
  lemma AtMostOneStepChanges(s: State, i: Instruction)
    requires Consistent(s) && Receive(s, i).1.accepted
    ensures var after := Receive(s, i).0; var k := FirstTarget(s.steps, i);
            && after.jobs.Keys == s.jobs.Keys
            && (forall id :: id in s.jobs && id != i.jobId ==> after.jobs[id] == s.jobs[id])
            && after.steps == (if TouchesSteps(s.jobs[i.jobId], i) && k < |s.steps|
                               then s.steps[k := Entry(s.steps[k].key, StepAfter(s.steps[k].step, s.jobs[i.jobId], i))]
                               else s.steps)
            && (k < |s.steps| ==> s.steps[k].step.jobId == i.jobId
                                  && (i.kind != Skip ==> s.steps[k].step.state == StepDecisionRequired))
  {
    hide Saved;
    var k := FirstTarget(s.steps, i);
    if k < |s.steps| {
      var e := s.steps[k];
      PrefixScanIsExact(i.jobId, e.step.jobId, e.step.stepId);
      SavedAt(s.steps, k, StepAfter(e.step, s.jobs[i.jobId], i));
    }
  }

  /** The job after an accepted instruction, kind by kind. */
  lemma JobBecomes(s: State, i: Instruction)
    requires Consistent(s) && Receive(s, i).1.accepted
    ensures i.jobId in s.jobs && i.jobId in Receive(s, i).0.jobs
    ensures var before, after := s.jobs[i.jobId], Receive(s, i).0.jobs[i.jobId];
            var resumes := i.kind in {Continue, Retry} && before.state !in {AwaitingHumanApproval, Executing};
            && (i.kind == Abort ==> after == before.(state := Cancelled, blocked := false))
            && (i.kind == Skip ==>
                  after == before.(state := DryRunReady, blocked := false, decisionRequired := false))
            && (resumes ==>
                  && !after.blocked && !after.decisionRequired
                  && (after.state == Executing <==> before.executeAfterApproval && before.dryRunSatisfied)
                  && (after.state == DryRunReady <==> !(before.executeAfterApproval && before.dryRunSatisfied))
                  && after == before.(state := after.state, blocked := false, decisionRequired := false))
            && (i.kind !in {Abort, Skip} && !resumes ==> after == before)
  {
    hide StepsAfter, Decide;
    AcceptedIff(s, i);
  }

  /** The step an instruction is about: one of its job, the named one or the first that waits. */
  predicate IsMeant(step: Step, i: Instruction) {
    && step.jobId == i.jobId
    && (i.kind == Skip ==> i.targetStep != "")
    && (i.targetStep != "" ==> step.stepId == i.targetStep)
    && (i.kind != Skip ==> step.state == StepDecisionRequired)
  }

  predicate IsFirstMeant(steps: seq<Entry>, i: Instruction, k: nat) {
    k < |steps| && IsMeant(steps[k].step, i) && forall j :: 0 <= j < k ==> !IsMeant(steps[j].step, i)
  }

  /** The steps after an accepted instruction: the first step that is meant, and only that one, moves on. */
  lemma StepBecomes(s: State, i: Instruction, k: nat)
    requires Consistent(s) && Receive(s, i).1.accepted && k < |s.steps|
    ensures i.jobId in s.jobs && |Receive(s, i).0.steps| == |s.steps|
    ensures var job, before, after := s.jobs[i.jobId], s.steps[k].step, Receive(s, i).0.steps[k].step;
            var resumes := i.kind in {Continue, Retry} && job.state !in {AwaitingHumanApproval, Executing};
            && Receive(s, i).0.steps[k].key == s.steps[k].key
            && (if !IsFirstMeant(s.steps, i, k) then after == before
                else if i.kind == Skip then after == before.(state := SkippedByInstruction)
                else if !resumes then after == before
                else if job.executeAfterApproval && job.dryRunSatisfied then
                  after == before.(state := DryRunSucceeded, dryRunStatus := Some(DryRunSucceeded),
                                   mutationStatus := None, validationStatus := None)
                else
                  after == before.(state := Pending, dryRunStatus := None, mutationStatus := None,
                                   validationStatus := None))
  {
    hide FirstTarget, Saved, Receive, Decide;
    AtMostOneStepChanges(s, i);
    assert i.jobId in s.jobs by { AcceptedIff(s, i); }
    var first := FirstTarget(s.steps, i);
    forall j | 0 <= j < |s.steps| ensures IsTarget(s.steps[j], i) <==> IsMeant(s.steps[j].step, i) {
      PrefixScanIsExact(i.jobId, s.steps[j].step.jobId, s.steps[j].step.stepId);
    }
    assert IsFirstMeant(s.steps, i, k) <==> k == first by {
      hide IsTarget, IsMeant;
    }
  }

  lemma ReceiveKeeps(s: State, i: Instruction)
    requires Consistent(s)
    ensures Consistent(Receive(s, i).0)
  {
    hide StepsAfter, FirstTarget;
    if Receive(s, i).1.accepted {
      AtMostOneStepChanges(s, i);
    }
  }

  // ----- Whole runs -----

  function Run(s: State, instructions: seq<Instruction>): State {
    if instructions == [] then s
    else Receive(Run(s, instructions[..|instructions| - 1]), instructions[|instructions| - 1]).0
  }

  /** What the gate never touches, over any sequence of instructions. */
  ghost predicate Evolves(before: State, after: State) {
    && before.audit <= after.audit
    && before.jobs.Keys == after.jobs.Keys
    && (forall id :: id in before.jobs ==> JobEvolves(before.jobs[id], after.jobs[id]))
    && |before.steps| == |after.steps|
    && (forall k :: 0 <= k < |before.steps| ==>
          before.steps[k].key == after.steps[k].key
          && StepEvolves(before.steps[k].step, after.steps[k].step, before.jobs))
  }

  predicate JobEvolves(before: Job, after: Job) {
    && after.id == before.id
    && after.executeAfterApproval == before.executeAfterApproval
    && after.dryRunSatisfied == before.dryRunSatisfied
  }

  /**
   * A step ends as it was, skipped, pending, or restored to a succeeded dry run; the last only
   * when its job runs after approval and its dry run is satisfied.
   */
  predicate StepEvolves(before: Step, after: Step, jobs: map<string, Job>) {
    && after.jobId == before.jobId && after.stepId == before.stepId
    && (after.state == before.state || after.state in {SkippedByInstruction, Pending, DryRunSucceeded})
    && (after.state == DryRunSucceeded && before.state != DryRunSucceeded ==>
          before.jobId in jobs && ResumesMutation(jobs[before.jobId]))
  }

  lemma ReceiveEvolves(s: State, i: Instruction)
    requires Consistent(s)
    ensures Evolves(s, Receive(s, i).0)
  {
    hide StepsAfter, FirstTarget;
    if Receive(s, i).1.accepted {
      AtMostOneStepChanges(s, i);
    }
  }

  lemma EvolvesTransitive(a: State, b: State, c: State)
    requires Evolves(a, b) && Evolves(b, c)
    ensures Evolves(a, c)
  {
    forall k | 0 <= k < |a.steps| ensures StepEvolves(a.steps[k].step, c.steps[k].step, a.jobs) {
      var x, y, z := a.steps[k].step, b.steps[k].step, c.steps[k].step;
      assert StepEvolves(x, y, a.jobs) && StepEvolves(y, z, b.jobs);
      if x.jobId in a.jobs { assert JobEvolves(a.jobs[x.jobId], b.jobs[x.jobId]); }
    }
  }

  /** Over any sequence of instructions the tables stay consistent and evolve as described. */
  lemma {:induction false} RunEvolves(s: State, instructions: seq<Instruction>)
    requires Consistent(s)
    ensures Consistent(Run(s, instructions))
    ensures Evolves(s, Run(s, instructions))
    ensures |Run(s, instructions).audit| == |s.audit| + 2 * |instructions|
  {
    hide Receive, Evolves, Consistent;
    if instructions == [] {
      StaysItself(s);
    } else {
      var init, last := instructions[..|instructions| - 1], instructions[|instructions| - 1];
      RunEvolves(s, init);
      var before := Run(s, init);
      ReceiveKeeps(before, last);
      ReceiveEvolves(before, last);
      TwoAuditEvents(before, last);
      EvolvesTransitive(s, before, Run(s, instructions));
    }
  }

  lemma StaysItself(s: State)
    ensures Evolves(s, s)
  {}
}
