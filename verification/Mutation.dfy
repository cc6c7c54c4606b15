/**
 * The gated execution of one mutating plan step (runtime/mutation.py). The clients are an arbitrary
 * environment: what it answers may depend on everything that happened before.
 */
module Mutation {
  import opened Options
  import opened Json
  import Policy
  import HelmStatus
  import Text

  datatype StepType = K8sApply | HelmInstall | HelmUpgrade | OtherType

  // mutating is whether the plan marks the command with the literal true.
  datatype Command = Command(text: string, mutating: bool)

  datatype Instruction = Instruction(id: string, isContinue: bool, targetStep: Option<string>,
                                     targetPhase: Option<string>, issuedAt: Option<string>)

  // What loading a manifest or values file gives.
  datatype Loaded = Documents(docs: seq<Json>) | NotFound | InvalidYaml

  datatype Release = Release(name: string, chart: string)

  datatype PlanStep = PlanStep(
    id: string, phaseId: string, stepType: StepType, commands: seq<Command>, manifestRefs: seq<string>,
    valuesRefs: seq<string>, refs: seq<Policy.ResourceRef>, dryRunSucceeded: bool, attemptNumber: int,
    metadataRelease: Option<Release>)

  datatype Job = Job(id: string, targetNamespace: string)

  datatype Event =
    | AuditWritten(stepId: string, command: string)
    | Applied(manifest: Json, namespace: string)
    | HelmInstalled(release: Release, namespace: string)
    | HelmStatusRead(name: string, namespace: string)

  predicate IsMutating(e: Event) {
    e.Applied? || e.HelmInstalled?
  }

  // A raised exception, or a result; ambiguous marks retryable, timeout and unavailable errors.
  datatype Answer = Raised | Answered(success: bool, ambiguous: bool, data: Json)

  // The files, the exclusions, hashing and text conversion, and the answers of the clients.
  datatype Environment = Environment(
    load: string -> Loaded,
    excluded: Json -> bool,
    excludedKind: Option<string> -> bool,
    parseHelm: string -> Option<Release>,
    fingerprint: (string, StepType) -> string,
    requestHash: (string, string, string) -> string,
    secretFindings: (seq<Json>, Instruction) -> seq<string>,
    dataFindings: (string, seq<Json>) -> seq<string>,
    repr: Json -> string,
    answer: seq<Event> -> Answer,
    hasK8sClient: bool,
    hasHelmClient: bool)

  datatype Result =
    | Finished(success: bool, action: string, message: string, blocks: seq<string>,
               mutations: seq<Event>, unknownOutcome: bool)
    | Propagated

  function Gate(message: string, blocks: seq<string>): Result {
    Finished(false, "mutation_gate", message, blocks, [], false)
  }

  // ----- The instruction and the command -----

  predicate Matches(i: Instruction, step: PlanStep) {
    && i.isContinue
    && (i.targetStep == None || i.targetStep == Some(step.id))
    && (i.targetPhase == None || i.targetPhase == Some(step.phaseId))
  }

  /** The sort key: dated after undated, then by date, then by id. */
  predicate NotLater(a: Instruction, b: Instruction) {
    if a.issuedAt.Some? != b.issuedAt.Some? then b.issuedAt.Some?
    else
      var da, db := (if a.issuedAt.Some? then a.issuedAt.value else ""),
          (if b.issuedAt.Some? then b.issuedAt.value else "");
      if da != db then Text.Leq(da, db) else Text.Leq(a.id, b.id)
  }

  /** The latest matching instruction, if any. */
  ghost predicate IsLatestMatching(found: Option<Instruction>, step: PlanStep, instructions: seq<Instruction>) {
    && (found.None? <==> forall i :: i in instructions ==> !Matches(i, step))
    && (found.Some? ==> found.value in instructions && Matches(found.value, step))
    && (found.Some? ==> forall i :: i in instructions && Matches(i, step) ==> NotLater(i, found.value))
  }

  method MatchingContinueInstruction(step: PlanStep, instructions: seq<Instruction>)
    returns (found: Option<Instruction>)
    ensures IsLatestMatching(found, step, instructions)
  {
    hide Text.Leq;
    found := None;
    for k := 0 to |instructions|
      invariant found.None? <==> forall i :: i in instructions[..k] ==> !Matches(i, step)
      invariant found.Some? ==> found.value in instructions[..k] && Matches(found.value, step)
      invariant found.Some? ==> forall i :: i in instructions[..k] && Matches(i, step) ==> NotLater(i, found.value)
    {
      var next := instructions[k];
      assert instructions[..k + 1] == instructions[..k] + [next];
      if Matches(next, step) {
        NotLaterReflexive(next);
        if found.None? {
          found := Some(next);
        } else {
          NotLaterTotal(found.value, next);
          if NotLater(found.value, next) {
            forall i | i in instructions[..k] && Matches(i, step) ensures NotLater(i, next) {
              NotLaterTransitive(i, found.value, next);
            }
            found := Some(next);
          }
        }
      }
    }
    assert instructions[..|instructions|] == instructions;
  }

  lemma NotLaterReflexive(a: Instruction)
    ensures NotLater(a, a)
  {
    Text.LeqTotal(a.id, a.id);
  }

  lemma NotLaterTotal(a: Instruction, b: Instruction)
    ensures NotLater(a, b) || NotLater(b, a)
  {
    hide Text.Leq;
    Text.LeqTotal(a.id, b.id);
    Text.LeqTotal(if a.issuedAt.Some? then a.issuedAt.value else "", if b.issuedAt.Some? then b.issuedAt.value else "");
  }

  lemma NotLaterTransitive(a: Instruction, b: Instruction, c: Instruction)
    requires NotLater(a, b) && NotLater(b, c)
    ensures NotLater(a, c)
  {
    hide Text.Leq;
    var da := if a.issuedAt.Some? then a.issuedAt.value else "";
    var db := if b.issuedAt.Some? then b.issuedAt.value else "";
    var dc := if c.issuedAt.Some? then c.issuedAt.value else "";
    if a.issuedAt.Some? == b.issuedAt.Some? && b.issuedAt.Some? == c.issuedAt.Some? {
      if da != db && db != dc {
        Text.LeqTransitive(da, db, dc);
        if da == dc { Text.LeqAntisymmetric(da, db); }
      } else if da == db && db == dc {
        Text.LeqTransitive(a.id, b.id, c.id);
      }
    }
  }

  predicate Contains(s: string, part: string) {
    part <= s || (s != "" && Contains(s[1..], part))
  }

  predicate LooksMutating(text: string) {
    Contains(text, "apply") || Contains(text, "helm upgrade") || Contains(text, "helm install")
  }

  /** The first command marked as mutating, else the first that looks like one. */
  function MutationCommand(commands: seq<Command>): Option<string> {
    var marked := FirstCommand(commands, (c: Command) => c.mutating);
    if marked.Some? then marked else FirstCommand(commands, (c: Command) => LooksMutating(c.text))
  }

  function FirstCommand(commands: seq<Command>, pick: Command -> bool): (r: Option<string>)
    ensures r.None? <==> forall c :: c in commands ==> !pick(c)
    ensures r.Some? ==>
              exists k :: 0 <= k < |commands| && pick(commands[k]) && commands[k].text == r.value
                          && forall j :: 0 <= j < k ==> !pick(commands[j])
  {
    if commands == [] then None
    else if pick(commands[0]) then Some(commands[0].text)
    else
      var rest := FirstCommand(commands[1..], pick);
      assert forall j :: 0 < j < |commands| ==> commands[j] == commands[1..][j - 1];
      rest
  }

  // ----- Manifests and requested resources -----

  /** The documents of a list of files, or the first problem met. */
  function LoadAll(load: string -> Loaded, refs: seq<string>): Loaded {
    if refs == [] then Documents([])
    else
      var before := LoadAll(load, refs[..|refs| - 1]);
      if !before.Documents? then before
      else
        var last := load(refs[|refs| - 1]);
        if last.Documents? then Documents(before.docs + last.docs) else last
  }

  method LoadFiles(load: string -> Loaded, refs: seq<string>) returns (loaded: Loaded)
    ensures loaded == LoadAll(load, refs)
  {
    var docs := [];
    for i := 0 to |refs|
      invariant LoadAll(load, refs[..i]) == Documents(docs)
    {
      assert refs[..i + 1][..i] == refs[..i];
      var next := load(refs[i]);
      if !next.Documents? {
        StaysBroken(load, refs, i + 1);
        return next;
      }
      docs := docs + next.docs;
    }
    assert refs[..|refs|] == refs;
    loaded := Documents(docs);
  }

  lemma {:induction false} StaysBroken(load: string -> Loaded, refs: seq<string>, i: nat)
    requires i <= |refs| && !LoadAll(load, refs[..i]).Documents?
    ensures LoadAll(load, refs) == LoadAll(load, refs[..i])
    decreases |refs| - i
  {
    if i < |refs| {
      assert refs[..i + 1][..i] == refs[..i];
      StaysBroken(load, refs, i + 1);
    } else {
      assert refs[..i] == refs;
    }
  }

  function Kept(excluded: Json -> bool, manifests: seq<Json>): (r: seq<Json>)
    ensures forall m :: m in r <==> m in manifests && !excluded(m)
  {
    if manifests == [] then []
    else
      var last := manifests[|manifests| - 1];
      assert manifests == manifests[..|manifests| - 1] + [last];
      Kept(excluded, manifests[..|manifests| - 1]) + if excluded(last) then [] else [last]
  }

  function TextAt(repr: Json -> string, v: Json, key: string): string {
    if v.Obj? && key in v.fields then TextOf(repr, v.fields[key]) else ""
  }

  function RefOf(repr: Json -> string, m: Json, targetNamespace: string): Policy.ResourceRef {
    var metadata := Get(m, "metadata");
    var namespace := Get(metadata, "namespace");
    Policy.ResourceRef(
      Some(TextAt(repr, m, "kind")),
      Some(if Truthy(namespace) then TextOf(repr, namespace) else targetNamespace),
      Some(TextAt(repr, metadata, "name")))
  }

  function KeptRefs(env: Environment, refs: seq<Policy.ResourceRef>): (r: seq<Policy.ResourceRef>) {
    if refs == [] then []
    else
      var last := refs[|refs| - 1];
      KeptRefs(env, refs[..|refs| - 1]) + if env.excludedKind(last.kind) then [] else [last]
  }

  function HelmRef(release: Option<Release>, targetNamespace: string): Policy.ResourceRef {
    Policy.ResourceRef(Some("HelmRelease"), Some(targetNamespace),
                       if release.Some? then Some(release.value.name) else None)
  }

  /** Everything the step asks to touch: its own references, its manifests, its Helm release. */
  function RequestedRefs(env: Environment, step: PlanStep, manifests: seq<Json>, targetNamespace: string,
      command: string)
    : seq<Policy.ResourceRef>
  {
    KeptRefs(env, step.refs)
    + seq(|manifests|, i requires 0 <= i < |manifests| => RefOf(env.repr, manifests[i], targetNamespace))
    + if step.stepType == HelmInstall || step.stepType == HelmUpgrade
      then [HelmRef(env.parseHelm(command), targetNamespace)] else []
  }

  /** The action put before the policy engine. */
  function ActionFor(env: Environment, job: Job, step: PlanStep, command: string, instruction: Instruction,
                     manifests: seq<Json>, approvals: seq<Policy.Approval>, now: int): Policy.Action
  {
    var hash := env.requestHash(job.id, step.id, instruction.id);
    Policy.Action(
      job.id, job.targetNamespace, true, step.phaseId, step.id,
      RequestedRefs(env, step, manifests, job.targetNamespace, command), manifests, approvals,
      env.fingerprint(command, step.stepType), step.dryRunSucceeded, hash, Some(hash),
      None, step.attemptNumber, true, now,
      env.secretFindings(manifests, instruction), env.dataFindings(command, manifests))
  }

  // ----- Execution -----

  /** The manifests the step would apply: none for other steps, absent when they cannot be loaded. */
  function Planned(env: Environment, step: PlanStep): Option<seq<Json>> {
    if step.stepType != K8sApply then Some([])
    else if step.manifestRefs == [] || !LoadAll(env.load, step.manifestRefs).Documents? then None
    else Some(Kept(env.excluded, LoadAll(env.load, step.manifestRefs).docs))
  }

  /** The release the step would install. */
  function Installed(env: Environment, step: PlanStep, command: string): Option<Release> {
    if step.metadataRelease.Some? then step.metadataRelease else env.parseHelm(command)
  }

  function Calls(manifests: seq<Json>, n: nat, namespace: string): (r: seq<Event>)
    requires n <= |manifests|
    ensures |r| == n && forall k :: 0 <= k < n ==> r[k] == Applied(manifests[k], namespace)
  {
    seq(n, k requires 0 <= k < n => Applied(manifests[k], namespace))
  }

  /** Every mutating call has an audit event before it, with nothing but that step's calls between. */
  ghost predicate Audited(trace: seq<Event>) {
    forall k :: 0 <= k < |trace| && IsMutating(trace[k]) ==> exists j :: 0 <= j < k && AuditsAt(trace, j, k)
  }

  ghost predicate AuditsAt(trace: seq<Event>, j: nat, k: nat)
    requires j < k < |trace|
  {
    trace[j].AuditWritten? && forall i :: j < i < k ==> !trace[i].AuditWritten?
  }

  lemma AuditedExtends(before: seq<Event>, audit: Event, calls: seq<Event>)
    requires Audited(before) && audit.AuditWritten? && forall c :: c in calls ==> !c.AuditWritten?
    ensures Audited(before + [audit] + calls)
  {
    var trace := before + [audit] + calls;
    forall k | 0 <= k < |trace| && IsMutating(trace[k])
      ensures exists j :: 0 <= j < k && AuditsAt(trace, j, k)
    {
      if k < |before| {
        AuditedBefore(before, trace, k);
      } else {
        assert trace[|before|] == audit;
        assert forall i :: |before| < i < k ==> trace[i] == calls[i - |before| - 1];
        assert AuditsAt(trace, |before|, k);
      }
    }
  }

  lemma AuditedBefore(before: seq<Event>, trace: seq<Event>, k: nat)
    requires Audited(before) && before <= trace && k < |before| && IsMutating(trace[k])
    ensures exists j :: 0 <= j < k && AuditsAt(trace, j, k)
  {
    assert IsMutating(before[k]);
    var j: nat :| j < k && AuditsAt(before, j, k);
    assert AuditsAt(trace, j, k);
  }

  // ----- What an execution is -----

  predicate Succeeded(a: Answer) {
    a.Answered? && a.success
  }

  /**
   * The manifests are applied in order until one fails: the calls are a prefix of the manifests,
   * all but the last of them succeeded, and the record lists the calls that were answered.
   */
  ghost predicate ApplyOutcome(env: Environment, manifests: seq<Json>, namespace: string,
                               before: seq<Event>, calls: seq<Event>, r: Result)
  {
    && |calls| <= |manifests| && calls == Calls(manifests, |calls|, namespace)
    && r.Finished? && r.blocks == []
    && (!env.hasK8sClient ==> calls == [] && !r.success && !r.unknownOutcome && r.mutations == [])
    && (env.hasK8sClient ==>
          && (forall k :: 1 <= k < |calls| ==> Succeeded(env.answer(before + calls[..k])))
          && (r.success <==> |calls| == |manifests| && (calls != [] ==> Succeeded(env.answer(before + calls))))
          && (!r.success ==> calls != [] && !Succeeded(env.answer(before + calls)))
          && (r.unknownOutcome <==> calls != [] && env.answer(before + calls).Raised?)
          && r.mutations == calls[..if r.unknownOutcome then |calls| - 1 else |calls|])
  }

  predicate CanInstall(env: Environment, step: PlanStep, command: string) {
    && env.hasHelmClient
    && Installed(env, step, command).Some?
    && Installed(env, step, command).value.name != "" && Installed(env, step, command).value.chart != ""
    && LoadAll(env.load, step.valuesRefs).Documents?
  }

  /**
   * At most one install call. After an ambiguous failure the status is read once, and the step
   * counts as done exactly when the response mentions the release as deployed.
   */
  ghost predicate HelmOutcome(env: Environment, step: PlanStep, command: string, namespace: string,
                              before: seq<Event>, calls: seq<Event>, r: Result)
  {
    if !CanInstall(env, step, command) then calls == [] && r.Finished? && !r.success && r.mutations == []
    else
      var release := Installed(env, step, command).value;
      var install, read := HelmInstalled(release, namespace), HelmStatusRead(release.name, namespace);
      var first, second := env.answer(before + [install]), env.answer(before + [install, read]);
      if first.Raised? then
        calls == [install] && r.Finished? && !r.success && r.unknownOutcome && r.mutations == []
      else if first.success then
        calls == [install] && r.Finished? && r.success && !r.unknownOutcome && r.mutations == [install]
      else if !first.ambiguous then
        calls == [install] && r.Finished? && !r.success && !r.unknownOutcome && r.mutations == [install]
      else if second.Raised? then calls == [install, read] && r == Propagated
      else
        && calls == [install, read] && r.Finished? && r.mutations == [install] && r.unknownOutcome == !r.success
        && (r.success
            <==> second.success && second.data.Obj? && HelmStatus.Mentions(env.repr, second.data, release.name))
  }

  /** The calls and the result of an approved step, by its type. */
  ghost predicate Outcome(env: Environment, step: PlanStep, command: string, manifests: seq<Json>, namespace: string,
                          before: seq<Event>, calls: seq<Event>, r: Result)
  {
    match step.stepType
    case K8sApply => ApplyOutcome(env, manifests, namespace, before, calls, r)
    case HelmInstall => HelmOutcome(env, step, command, namespace, before, calls, r)
    case HelmUpgrade => HelmOutcome(env, step, command, namespace, before, calls, r)
    case OtherType => calls == [] && r.Finished? && !r.success && r.mutations == []
  }

  // One execution: its inputs, the instruction it went by, and what it did.
  datatype Run = Run(job: Job, step: PlanStep, approvals: seq<Policy.Approval>, instructions: seq<Instruction>,
                     now: int, used: Option<Instruction>, before: seq<Event>, calls: seq<Event>, result: Result,
                     after: seq<Event>)

  /** The step has a command, and something to do with it. */
  predicate IsPrepared(env: Environment, step: PlanStep) {
    && MutationCommand(step.commands).Some? && Planned(env, step).Some?
    && (step.stepType == K8sApply ==> Planned(env, step).value != [])
  }

  ghost predicate MayRun(env: Environment, run: Run)
    requires run.used.Some? && IsPrepared(env, run.step)
  {
    Policy.MayProceed(ActionFor(env, run.job, run.step, MutationCommand(run.step.commands).value, run.used.value,
                                Planned(env, run.step).value, run.approvals, run.now))
  }

  /** What an execution does: nothing, or its audit event and then the calls of an approved step. */
  ghost predicate IsExecution(env: Environment, run: Run) {
    && IsLatestMatching(run.used, run.step, run.instructions)
    && if run.used.None? || !IsPrepared(env, run.step) then
         && run.after == run.before && run.calls == [] && run.result.Finished? && run.result.mutations == []
         && (run.result.success
             <==> run.used.Some? && MutationCommand(run.step.commands).Some? && Planned(env, run.step) == Some([]))
       else
         var command := MutationCommand(run.step.commands).value;
         var audited := run.before + [AuditWritten(run.step.id, command)];
         && run.after == audited + run.calls
         && if MayRun(env, run) then
              Outcome(env, run.step, command, Planned(env, run.step).value, run.job.targetNamespace,
                      audited, run.calls, run.result)
            else
              run.calls == [] && run.result.Finished? && !run.result.success && run.result.blocks != []
              && run.result.mutations == []
  }

  /** The client of the step can be called. */
  predicate CanCall(env: Environment, step: PlanStep, command: string) {
    match step.stepType
    case K8sApply => env.hasK8sClient
    case HelmInstall => CanInstall(env, step, command)
    case HelmUpgrade => CanInstall(env, step, command)
    case OtherType => false
  }

  /** When calls are made: for a matching instruction, a prepared step and an authorised request, and only then. */
  ghost predicate IsAuthorised(env: Environment, run: Run) {
    && run.used.Some? && IsPrepared(env, run.step) && MayRun(env, run)
    && CanCall(env, run.step, MutationCommand(run.step.commands).value)
  }

  lemma CallsIffAuthorised(env: Environment, run: Run)
    requires IsExecution(env, run)
    ensures run.calls != [] <==> IsAuthorised(env, run)
    ensures forall c :: c in run.calls ==> !c.AuditWritten?
  {
    hide MayRun, CanCall, Outcome, LoadAll, MutationCommand, IsLatestMatching;
    if run.used.Some? && IsPrepared(env, run.step) && MayRun(env, run) {
      var command := MutationCommand(run.step.commands).value;
      OutcomeCalls(env, run.step, command, Planned(env, run.step).value, run.job.targetNamespace,
                   run.before + [AuditWritten(run.step.id, command)], run.calls, run.result);
    }
  }

  lemma OutcomeCalls(env: Environment, step: PlanStep, command: string, manifests: seq<Json>, namespace: string,
                     before: seq<Event>, calls: seq<Event>, r: Result)
    requires Outcome(env, step, command, manifests, namespace, before, calls, r)
    requires step.stepType == K8sApply ==> manifests != []
    ensures calls != [] <==> CanCall(env, step, command)
    ensures forall c :: c in calls ==> !c.AuditWritten?
  {
    hide CanInstall, HelmStatus.Mentions, Installed, LoadAll;
  }

  class MutationExecutor {
    const env: Environment
    var trace: seq<Event>

    constructor (e: Environment)
      ensures env == e && trace == []
    {
      env, trace := e, [];
    }

    /** What the environment answers to an event, given the history it ends. */
    method Call(e: Event) returns (answer: Answer)
      modifies this`trace
      ensures trace == old(trace) + [e] && answer == env.answer(trace)
    {
      trace := trace + [e];
      answer := env.answer(trace);
    }

    method ExecuteK8sApply(job: Job, manifests: seq<Json>) returns (r: Result, ghost calls: seq<Event>)
      modifies this`trace
      ensures trace == old(trace) + calls
      ensures ApplyOutcome(env, manifests, job.targetNamespace, old(trace), calls, r)
    {
      calls := [];
      if !env.hasK8sClient {
        return Finished(false, "k8s.apply", "kubernetes_mutation_client_missing", [], [], false), calls;
      }
      var mutations := [];
      for i := 0 to |manifests|
        invariant |calls| == i && trace == old(trace) + calls && mutations == calls
        invariant calls == Calls(manifests, i, job.targetNamespace)
        invariant forall k :: 1 <= k <= i ==> Succeeded(env.answer(old(trace) + calls[..k]))
      {
        var call := Applied(manifests[i], job.targetNamespace);
        ghost var made := calls;
        var answer := Call(call);
        calls := calls + [call];
        assert trace == old(trace) + calls;
        assert calls[..i + 1] == calls;
        assert forall k :: 1 <= k <= i ==> calls[..k] == made[..k];
        if answer.Raised? {
          assert calls[..i] == mutations;
          return Finished(false, "k8s.apply", "unknown_mutation_outcome", [], mutations, true), calls;
        }
        mutations := mutations + [call];
        if !answer.success {
          return Finished(false, "k8s.apply", "k8s_apply_failed", [], mutations, false), calls;
        }
      }
      assert calls[..|manifests|] == calls;
      r := Finished(true, "k8s.apply", "", [], mutations, false);
    }

    method ExecuteHelm(job: Job, step: PlanStep, command: string) returns (r: Result, ghost calls: seq<Event>)
      modifies this`trace
      ensures trace == old(trace) + calls
      ensures HelmOutcome(env, step, command, job.targetNamespace, old(trace), calls, r)
    {
      hide HelmStatus.Mentions, LoadAll;
      calls := [];
      if !env.hasHelmClient {
        return Finished(false, "helm.install_upgrade", "helm_mutation_client_missing", [], [], false), calls;
      }
      var release := Installed(env, step, command);
      if release.None? || release.value.name == "" || release.value.chart == "" {
        return Finished(false, "helm.install_upgrade", "helm_step_missing_release_or_chart", [], [], false), calls;
      }
      var values := LoadFiles(env.load, step.valuesRefs);
      if !values.Documents? {
        return Finished(false, "helm.load_values", "values_not_loaded", [], [], false), calls;
      }
      var install := HelmInstalled(release.value, job.targetNamespace);
      var answer := Call(install);
      calls := [install];
      if answer.Raised? {
        return Finished(false, "helm.install_upgrade", "unknown_mutation_outcome", [], [], true), calls;
      }
      if answer.success {
        return Finished(true, "helm.install_upgrade", "", [], [install], false), calls;
      }
      if !answer.ambiguous {
        return Finished(false, "helm.install_upgrade", "helm_install_upgrade_failed", [], [install], false), calls;
      }
      var read := HelmStatusRead(release.value.name, job.targetNamespace);
      var status := Call(read);
      calls := [install, read];
      assert trace == old(trace) + calls;
      if status.Raised? {
        return Propagated, calls;
      }
      var deployed := HelmStatus.HelmReleaseIsDeployed(env.repr, status.success, status.data, release.value.name);
      if deployed {
        return Finished(true, "helm.install_upgrade", "helm_install_upgrade_reconciled_as_deployed", [], [install],
            false), calls;
      }
      r := Finished(false, "helm.install_upgrade", "helm_install_upgrade_failed", [], [install], true);
    }

    method RunApproved(job: Job, step: PlanStep, command: string, manifests: seq<Json>)
      returns (r: Result, ghost calls: seq<Event>)
      modifies this`trace
      ensures trace == old(trace) + calls
      ensures Outcome(env, step, command, manifests, job.targetNamespace, old(trace), calls, r)
    {
      hide HelmOutcome, ApplyOutcome;
      calls := [];
      if step.stepType == K8sApply {
        r, calls := ExecuteK8sApply(job, manifests);
      } else if step.stepType == HelmInstall || step.stepType == HelmUpgrade {
        r, calls := ExecuteHelm(job, step, command);
      } else {
        r := Gate("unsupported_mutation_step_type", []);
      }
    }

    /**
     * The whole operation. Calls are made exactly for an authorised request, and then right after
     * the audit event of this step; otherwise nothing but that event may be written.
     */
    method Execute(job: Job, step: PlanStep, approvals: seq<Policy.Approval>, instructions: seq<Instruction>, now: int)
      returns (r: Result, ghost run: Run)
      modifies this`trace
      ensures IsExecution(env, run)
      ensures run == Run(job, step, approvals, instructions, now, run.used, old(trace), run.calls, r, trace)
      ensures run.calls != [] <==> IsAuthorised(env, run)
      ensures Audited(old(trace)) ==> Audited(trace)
    {
      hide Audited, Policy.MayProceed, MutationCommand, ActionFor, Outcome, LoadAll, CanInstall, IsLatestMatching;
      var found := MatchingContinueInstruction(step, instructions);
      run := Run(job, step, approvals, instructions, now, found, trace, [], Propagated, trace);
      if found.None? {
        r := Gate("mutation_instruction_required", ["INSTRUCTION_REQUIRED"]);
        run := run.(result := r);
        return;
      }
      var command := MutationCommand(step.commands);
      if command.None? {
        r := Gate("mutation_command_missing", []);
        run := run.(result := r);
        return;
      }
      var manifests := [];
      if step.stepType == K8sApply {
        if step.manifestRefs == [] {
          r := Finished(false, "k8s.apply", "k8s_apply_step_missing_manifest_refs", [], [], false);
          run := run.(result := r);
          return;
        }
        var loaded := LoadFiles(env.load, step.manifestRefs);
        if !loaded.Documents? {
          r := Finished(false, "k8s.apply", "manifest_not_loaded", [], [], false);
          run := run.(result := r);
          return;
        }
        manifests := Kept(env.excluded, loaded.docs);
        if manifests == [] {
          r := Finished(true, "k8s.apply", "all_manifests_excluded_by_configuration", [], [], false);
          run := run.(result := r);
          return;
        }
      }
      var _ := Call(AuditWritten(step.id, command.value));
      var action := ActionFor(env, job, step, command.value, found.value, manifests, approvals, now);
      var allowed, blocks := Policy.EvaluatePolicy(action);
      ghost var calls := [];
      if !allowed {
        r := Gate("mutation_policy_blocked", blocks);
      } else {
        r, calls := RunApproved(job, step, command.value, manifests);
      }
      run := run.(calls := calls, result := r, after := trace);
      CallsIffAuthorised(env, run);
      if Audited(old(trace)) { AuditedExtends(old(trace), AuditWritten(step.id, command.value), calls); }
    }
  }

  // ----- Whether an approval covers what is installed -----

  predicate IsHelm(step: PlanStep) {
    step.stepType == HelmInstall || step.stepType == HelmUpgrade
  }

  predicate Covers(refs: seq<Policy.ResourceRef>, ref: Policy.ResourceRef, target: string) {
    exists g :: g in refs && Policy.ResourceKey(g, target) == Policy.ResourceKey(ref, target)
  }

  function RequestOf(env: Environment, run: Run): Policy.Action
    requires run.used.Some? && IsPrepared(env, run.step)
  {
    ActionFor(env, run.job, run.step, MutationCommand(run.step.commands).value, run.used.value,
              Planned(env, run.step).value, run.approvals, run.now)
  }

  /** A run that calls the client under an approval of certain resources, the installed release not among them. */
  ghost predicate InstallsUnapproved(env: Environment, run: Run, a: Policy.Approval) {
    && IsExecution(env, run) && run.calls != []
    && run.used.Some? && IsPrepared(env, run.step)
    && a in run.approvals && Policy.Authorises(a, RequestOf(env, run)) && a.resourceRefs != []
    && !Covers(a.resourceRefs, InstalledRef(env, run.job, run.step), run.job.targetNamespace)
  }

  ghost predicate InstallsAreApproved(env: Environment, job: Job, step: PlanStep) {
    forall run: Run, a :: run.job == job && run.step == step ==> !InstallsUnapproved(env, run, a)
  }

  function InstalledRef(env: Environment, job: Job, step: PlanStep): Policy.ResourceRef
    requires MutationCommand(step.commands).Some?
  {
    HelmRef(Installed(env, step, MutationCommand(step.commands).value), job.targetNamespace)
  }

  /** The request names the release that would be installed. */
  predicate NamesInstalled(env: Environment, job: Job, step: PlanStep, command: string) {
    Covers(RequestedRefs(env, step, [], job.targetNamespace, command),
           HelmRef(Installed(env, step, command), job.targetNamespace), job.targetNamespace)
  }

  /** The metadata has no release, or the same as the command, or the plan lists the one of the metadata. */
  predicate NamesOneRelease(env: Environment, job: Job, step: PlanStep, command: string) {
    || step.metadataRelease.None?
    || (env.parseHelm(command).Some? && env.parseHelm(command).value.name == step.metadataRelease.value.name)
    || Covers(KeptRefs(env, step.refs), HelmRef(step.metadataRelease, job.targetNamespace), job.targetNamespace)
  }

  lemma NamesInstalledIff(env: Environment, job: Job, step: PlanStep, command: string)
    requires IsHelm(step) && Installed(env, step, command).Some?
    ensures NamesInstalled(env, job, step, command) <==> NamesOneRelease(env, job, step, command)
  {
    var named := HelmRef(env.parseHelm(command), job.targetNamespace);
    var refs := RequestedRefs(env, step, [], job.targetNamespace, command);
    assert refs == KeptRefs(env, step.refs) + [named];
    var wanted := HelmRef(Installed(env, step, command), job.targetNamespace);
    CoversOneMore(KeptRefs(env, step.refs), named, wanted, job.targetNamespace);
    assert Policy.ResourceKey(named, job.targetNamespace) == Policy.ResourceKey(wanted, job.targetNamespace)
      <==> named.name == wanted.name;
  }

  lemma CoversOneMore(refs: seq<Policy.ResourceRef>, last: Policy.ResourceRef, ref: Policy.ResourceRef, target: string)
    ensures Covers(refs + [last], ref, target)
       <==> Covers(refs, ref, target) || Policy.ResourceKey(last, target) == Policy.ResourceKey(ref, target)
  {
    hide Policy.ResourceKey;
    assert forall g :: g in refs + [last] <==> g in refs || g == last;
  }

  /** An instruction with which the step passes every guard but the approval, and can be called. */
  predicate Passes(env: Environment, job: Job, step: PlanStep, i: Instruction) {
    && Matches(i, step) && IsPrepared(env, step)
    && var command := MutationCommand(step.commands).value;
       var refs := RequestedRefs(env, step, [], job.targetNamespace, command);
       && CanInstall(env, step, command)
       && Policy.StaysInNamespace(refs, [], job.targetNamespace)
       && env.secretFindings([], i) == [] && env.dataFindings(command, []) == []
       && step.attemptNumber <= Policy.MaxRetryAttempts && step.dryRunSucceeded
  }

  /**
   * Approvals cover what is installed exactly when command and metadata name one release, or the
   * plan lists the other: an approval is compared with the release parsed from the command, while
   * the installation prefers the metadata. The only other case is a step that no instruction gets
   * past the remaining guards.
   */
  lemma InstallsAreApprovedIff(env: Environment, job: Job, step: PlanStep)
    requires IsHelm(step)
    ensures InstallsAreApproved(env, job, step) <==>
              || (forall i :: !Passes(env, job, step, i))
              || NamesOneRelease(env, job, step, MutationCommand(step.commands).value)
  {
    hide IsExecution, NamesInstalled, NamesOneRelease, Passes, MutationCommand, IsPrepared, RequestOf,
        Policy.Authorises, Installed,
         Covers, RequestedRefs;
    if i :| Passes(env, job, step, i) {
      PassesIsPrepared(env, job, step, i);
      NamesInstalledIff(env, job, step, MutationCommand(step.commands).value);
      if NamesInstalled(env, job, step, MutationCommand(step.commands).value) {
        forall run: Run, a | run.job == job && run.step == step
          ensures !InstallsUnapproved(env, run, a)
        {
          if run.used.Some? && Policy.Authorises(a, RequestOf(env, run)) && a.resourceRefs != [] {
            NamedIsCovered(env, run, a);
          }
        }
      } else {
        var run := ApprovedRun(env, job, step, i);
        ApprovedRunIsUncovered(env, job, step, run);
      }
    } else {
      forall run: Run, a | run.job == job && run.step == step
        ensures !InstallsUnapproved(env, run, a)
      {
        if InstallsUnapproved(env, run, a) { CallsPass(env, run, a); }
      }
    }
  }

  lemma ApprovedRunIsUncovered(env: Environment, job: Job, step: PlanStep, run: Run)
    requires IsExecution(env, run) && run.job == job && run.step == step && run.calls != []
    requires run.used.Some? && IsPrepared(env, step) && |run.approvals| == 1
    requires Policy.Authorises(run.approvals[0], RequestOf(env, run)) && run.approvals[0].resourceRefs != []
    requires run.approvals[0].resourceRefs
          == RequestedRefs(env, step, [], job.targetNamespace, MutationCommand(step.commands).value)
    requires !NamesInstalled(env, job, step, MutationCommand(step.commands).value)
    ensures InstallsUnapproved(env, run, run.approvals[0])
  {
    hide IsExecution, MutationCommand, RequestOf, Policy.Authorises, Installed, Covers, RequestedRefs;
  }

  lemma PassesIsPrepared(env: Environment, job: Job, step: PlanStep, i: Instruction)
    requires Passes(env, job, step, i)
    ensures IsPrepared(env, step) && MutationCommand(step.commands).Some?
    ensures Installed(env, step, MutationCommand(step.commands).value).Some?
  {}

  lemma NamedIsCovered(env: Environment, run: Run, a: Policy.Approval)
    requires IsHelm(run.step) && run.used.Some? && IsPrepared(env, run.step)
    requires NamesInstalled(env, run.job, run.step, MutationCommand(run.step.commands).value)
    requires Policy.Authorises(a, RequestOf(env, run)) && a.resourceRefs != []
    ensures Covers(a.resourceRefs, InstalledRef(env, run.job, run.step), run.job.targetNamespace)
  {
    hide IsExecution, MutationCommand, Policy.ResourceKey, HelmRef, KeptRefs, Installed;
    var command, target := MutationCommand(run.step.commands).value, run.job.targetNamespace;
    HelmAction(env, run.job, run.step, command, run.used.value, run.approvals, run.now);
    var ref := HelmRef(Installed(env, run.step, command), target);
    var r :| r in RequestedRefs(env, run.step, [], target, command)
             && Policy.ResourceKey(r, target) == Policy.ResourceKey(ref, target);
    assert r in RequestOf(env, run).refs;
    var g :| g in a.resourceRefs && Policy.ResourceKey(g, target) == Policy.ResourceKey(r, target);
  }

  /** A Helm step puts its own references and the release of its command before the policy. */
  lemma HelmAction(env: Environment, job: Job, step: PlanStep, command: string, i: Instruction,
                   approvals: seq<Policy.Approval>, now: int)
    requires IsHelm(step)
    ensures Planned(env, step) == Some([])
    ensures var action := ActionFor(env, job, step, command, i, [], approvals, now);
            && action.refs == RequestedRefs(env, step, [], job.targetNamespace, command)
            && action.targetNamespace == job.targetNamespace && action.manifests == [] && action.approvals == approvals
  {
    hide RequestedRefs;
  }

  lemma CallsPass(env: Environment, run: Run, a: Policy.Approval)
    requires IsHelm(run.step) && InstallsUnapproved(env, run, a)
    ensures Passes(env, run.job, run.step, run.used.value)
  {
    hide IsExecution, Passes;
    RunPasses(env, run);
  }

  lemma UsedMatches(env: Environment, run: Run)
    requires IsExecution(env, run) && run.used.Some?
    ensures Matches(run.used.value, run.step)
  {}

  /** An approval for exactly what is requested lets a passing step through. */
  lemma ApprovedRun(env: Environment, job: Job, step: PlanStep, i: Instruction) returns (run: Run)
    requires IsHelm(step) && Passes(env, job, step, i) && MutationCommand(step.commands).Some?
    ensures IsExecution(env, run) && run.job == job && run.step == step && run.calls != []
    ensures run.used.Some? && IsPrepared(env, step) && |run.approvals| == 1
    ensures Policy.Authorises(run.approvals[0], RequestOf(env, run)) && run.approvals[0].resourceRefs != []
    ensures run.approvals[0].resourceRefs
         == RequestedRefs(env, step, [], job.targetNamespace, MutationCommand(step.commands).value)
    ensures run.approvals[0].fingerprint == env.fingerprint(MutationCommand(step.commands).value, step.stepType)
  {
    hide RequestedRefs, MutationCommand, Policy.StaysInNamespace, CanInstall, HelmOutcome, LoadAll;
    var command := MutationCommand(step.commands).value;
    var a := Policy.Approval(job.id, Policy.Mutation, None, RequestedRefs(env, step, [], job.targetNamespace, command),
                             [], [], env.fingerprint(command, step.stepType));
    HelmAction(env, job, step, command, i, [a], 0);
    RequestsSomething(env, step, command, job.targetNamespace);
    var action := ActionFor(env, job, step, command, i, [], [a], 0);
    assert Policy.Authorises(a, action);
    assert Policy.MayProceed(action) by { assert a in action.approvals; }
    var audited := [AuditWritten(step.id, command)];
    var calls, r := HelmRun(env, step, command, job.targetNamespace, audited);
    OnlyMatching(i, step);
    run := Run(job, step, [a], [i], 0, Some(i), [], calls, r, audited + calls);
    assert [] + audited == audited;
    assert Outcome(env, step, command, [], job.targetNamespace, audited, calls, r);
    CallsIffAuthorised(env, run);
  }

  lemma RequestsSomething(env: Environment, step: PlanStep, command: string, target: string)
    requires IsHelm(step)
    ensures RequestedRefs(env, step, [], target, command) != []
  {}

  lemma OnlyMatching(i: Instruction, step: PlanStep)
    requires Matches(i, step)
    ensures IsLatestMatching(Some(i), step, [i])
  {
    NotLaterReflexive(i);
  }

  /** Whatever the client answers, there is a Helm outcome. */
  lemma HelmRun(env: Environment, step: PlanStep, command: string, namespace: string, before: seq<Event>)
    returns (calls: seq<Event>, r: Result)
    ensures HelmOutcome(env, step, command, namespace, before, calls, r)
  {
    hide LoadAll, HelmStatus.Mentions;
    calls, r := [], Gate("", []);
    if CanInstall(env, step, command) {
      var release := Installed(env, step, command).value;
      var install, read := HelmInstalled(release, namespace), HelmStatusRead(release.name, namespace);
      var first, second := env.answer(before + [install]), env.answer(before + [install, read]);
      calls := [install];
      if first.Raised? {
        r := Finished(false, "", "", [], [], true);
      } else if first.success || !first.ambiguous {
        r := Finished(first.success, "", "", [], [install], false);
      } else {
        calls := [install, read];
        var deployed := second.Answered? && second.success && second.data.Obj?
                        && HelmStatus.Mentions(env.repr, second.data, release.name);
        r := if second.Raised? then Propagated else Finished(deployed, "", "", [], [install], !deployed);
      }
    }
  }


  // ----- Whether the approved command is what is installed -----

  /** A run under an approval of its command that installs something else than the command says. */
  ghost predicate InstallsOther(env: Environment, run: Run, a: Policy.Approval) {
    && IsExecution(env, run) && run.calls != []
    && run.used.Some? && IsPrepared(env, run.step)
    && a in run.approvals && Policy.Authorises(a, RequestOf(env, run)) && a.fingerprint != ""
    && !(run.calls[0].HelmInstalled?
         && env.parseHelm(MutationCommand(run.step.commands).value) == Some(run.calls[0].release))
  }

  ghost predicate InstallsAsCommanded(env: Environment, job: Job, step: PlanStep) {
    forall run: Run, a :: run.job == job && run.step == step ==> !InstallsOther(env, run, a)
  }

  /**
   * The approval of a command is an approval of what is installed, release and chart, exactly when
   * the metadata names no release or the very release and chart of the command. Comparing names is
   * not enough, as the references compared with the approval hold no chart.
   */
  lemma InstallsAsCommandedIff(env: Environment, job: Job, step: PlanStep)
    requires IsHelm(step)
    requires MutationCommand(step.commands).Some?
             ==> env.fingerprint(MutationCommand(step.commands).value, step.stepType) != ""
    ensures InstallsAsCommanded(env, job, step) <==>
              || (forall i :: !Passes(env, job, step, i))
              || step.metadataRelease.None?
              || env.parseHelm(MutationCommand(step.commands).value) == step.metadataRelease
  {
    hide IsExecution, Passes, MutationCommand, IsPrepared, RequestOf, Policy.Authorises, RequestedRefs;
    if i :| Passes(env, job, step, i) {
      PassesIsPrepared(env, job, step, i);
      forall run: Run | IsExecution(env, run) && run.calls != [] && run.job == job && run.step == step
        ensures run.calls[0] == HelmInstalled(Installed(env, step, MutationCommand(step.commands).value).value,
                                              job.targetNamespace)
      {
        FirstCallInstalls(env, run);
      }
      var run := ApprovedRun(env, job, step, i);
      assert run.approvals[0] in run.approvals;
      assert step.metadataRelease.Some? && env.parseHelm(MutationCommand(step.commands).value) != step.metadataRelease
        ==> InstallsOther(env, run, run.approvals[0]);
    } else {
      forall run: Run, a | run.job == job && run.step == step ensures !InstallsOther(env, run, a) {
        if InstallsOther(env, run, a) { RunPasses(env, run); }
      }
    }
  }

  lemma FirstCallInstalls(env: Environment, run: Run)
    requires IsExecution(env, run) && run.calls != [] && IsHelm(run.step)
    requires MutationCommand(run.step.commands).Some?
    requires Installed(env, run.step, MutationCommand(run.step.commands).value).Some?
    ensures run.calls[0]
         == HelmInstalled(Installed(env, run.step, MutationCommand(run.step.commands).value).value,
             run.job.targetNamespace)
  {
    hide LoadAll, MayRun, MutationCommand, IsPrepared, CanInstall, IsLatestMatching, HelmStatus.Mentions;
  }

  lemma RunPasses(env: Environment, run: Run)
    requires IsHelm(run.step) && IsExecution(env, run) && run.calls != []
    ensures run.used.Some? && Passes(env, run.job, run.step, run.used.value)
  {
    hide IsExecution, RequestedRefs, MutationCommand, Policy.StaysInNamespace, CanInstall;
    CallsIffAuthorised(env, run);
    UsedMatches(env, run);
    HelmAction(env, run.job, run.step, MutationCommand(run.step.commands).value, run.used.value, run.approvals,
               run.now);
  }

  // ----- The idempotency guard -----

  /** The recorded hash is computed beside the requested one, so the guard never blocks an execution. */
  lemma IdempotencyNeverBlocks(env: Environment, job: Job, step: PlanStep, command: string, i: Instruction,
                               manifests: seq<Json>, approvals: seq<Policy.Approval>, now: int)
    ensures Policy.IdempotencyBlocks(ActionFor(env, job, step, command, i, manifests, approvals, now)) == []
  {
    hide RequestedRefs;
  }

  /**
   * One continue instruction authorises its step again and again: after a run that made calls,
   * the same request makes calls again as long as one of its approvals has not expired.
   */
  lemma OneInstructionRepeats(env: Environment, first: Run, second: Run)
    requires IsExecution(env, first) && first.calls != [] && IsExecution(env, second)
    requires second.job == first.job && second.step == first.step && second.used == first.used
    requires second.approvals == first.approvals
    ensures second.calls != [] <==>
              exists a :: a in first.approvals && Policy.Authorises(a, RequestOf(env, first).(now := second.now))
  {
    hide IsExecution, RequestedRefs, MutationCommand, Policy.StaysInNamespace, CanCall, Planned, Policy.Authorises;
    CallsIffAuthorised(env, first);
    CallsIffAuthorised(env, second);
    UsedAgain(env, first, second);
  }

  lemma UsedAgain(env: Environment, first: Run, second: Run)
    requires first.used.Some? && IsPrepared(env, first.step)
    requires second.job == first.job && second.step == first.step && second.used == first.used
    requires second.approvals == first.approvals
    ensures RequestOf(env, second) == RequestOf(env, first).(now := second.now)
  {
    hide RequestedRefs, MutationCommand, Planned;
  }

  // ----- A step that shows both -----

  function Upgrade(): string { "helm upgrade --install a chart" }

  /** An environment in which the command names release a, every call succeeds, and commands are their own hash. */
  function Sample(): Environment {
    Environment(
      _ => Documents([]), _ => false, _ => false,
      (command: string) => if command == Upgrade() then Some(Commanded()) else None,
      (command, _) => command, (_, _, _) => "", (_, _) => [], (_, _) => [], _ => "",
      _ => Answered(true, false, Null), true, true)
  }

  function Commanded(): Release {
    Release("a", "chart")
  }

  /** An upgrade whose metadata names a release of its own. */
  function SampleStep(release: Release): PlanStep {
    PlanStep("step", "phase", HelmUpgrade, [Command(Upgrade(), true)], [], [], [], true, 1, Some(release))
  }

  /** The approval of the command, for release a and nothing else. */
  function SampleApproval(): Policy.Approval {
    Policy.Approval("job", Policy.Mutation, None, [HelmRef(Some(Commanded()), "team")], [], [], Upgrade())
  }

  function Go(): Instruction {
    Instruction("go", true, None, None, None)
  }

  ghost predicate IsSampleRun(run: Run, release: Release) {
    && IsExecution(Sample(), run)
    && run.job == Job("job", "team") && run.step == SampleStep(release)
    && run.approvals == [SampleApproval()] && run.instructions == [Go()]
  }

  /** Every execution installs the release of the metadata, however often it is repeated. */
  lemma SampleInstalls(run: Run, release: Release)
    requires IsSampleRun(run, release) && release.name != "" && release.chart != ""
    ensures run.calls == [HelmInstalled(release, "team")]
  {
    hide Upgrade, Sample, SampleStep, SampleApproval, Go, IsExecution;
    SampleIsPrepared(release);
    SampleMayRun(run, release);
    SampleOutcome(run, release);
  }

  /** The approval is for release a only, and every execution installs release b. */
  lemma ApprovedForOneInstallsAnother(run: Run)
    requires IsSampleRun(run, Release("b", "chart"))
    ensures run.calls == [HelmInstalled(Release("b", "chart"), "team")]
    ensures !Covers(SampleApproval().resourceRefs, HelmRef(Some(Release("b", "chart")), "team"), "team")
  {
    hide IsExecution, Sample, SampleStep, Upgrade;
    SampleInstalls(run, Release("b", "chart"));
    assert "a"[0] == 'a' && "b"[0] == 'b';
  }

  /** The approval is for release a by the chart of the command, and every execution installs it by another chart. */
  lemma ApprovedChartIsNotInstalled(run: Run)
    requires IsSampleRun(run, Release("a", "other"))
    ensures run.calls == [HelmInstalled(Release("a", "other"), "team")]
    ensures Covers(SampleApproval().resourceRefs, HelmRef(Some(Release("a", "other")), "team"), "team")
    ensures Sample().parseHelm(SampleApproval().fingerprint) == Some(Release("a", "chart"))
  {
    hide IsExecution, SampleStep, Upgrade;
    SampleInstalls(run, Release("a", "other"));
    assert HelmRef(Some(Release("a", "other")), "team") in SampleApproval().resourceRefs;
  }

  lemma SampleIsPrepared(release: Release)
    requires release.name != "" && release.chart != ""
    ensures MutationCommand(SampleStep(release).commands) == Some(Upgrade())
    ensures Planned(Sample(), SampleStep(release)) == Some([]) && IsPrepared(Sample(), SampleStep(release))
    ensures CanInstall(Sample(), SampleStep(release), Upgrade())
    ensures Installed(Sample(), SampleStep(release), Upgrade()) == Some(release)
  {
    hide Upgrade;
  }

  lemma SampleMayRun(run: Run, release: Release)
    requires IsSampleRun(run, release) && IsPrepared(Sample(), SampleStep(release))
    requires MutationCommand(SampleStep(release).commands) == Some(Upgrade())
    requires Planned(Sample(), SampleStep(release)) == Some([])
    ensures run.used.Some? && MayRun(Sample(), run)
  {
    hide Upgrade, MutationCommand, Planned, IsPrepared, RequestedRefs;
    assert Go() in run.instructions && Matches(Go(), SampleStep(release));
    assert run.used == Some(Go());
    SampleRefs(release);
    var action := RequestOf(Sample(), run);
    assert SampleApproval() in action.approvals && Policy.Authorises(SampleApproval(), action);
  }

  lemma SampleRefs(release: Release)
    ensures RequestedRefs(Sample(), SampleStep(release), [], "team", Upgrade()) == [HelmRef(Some(Commanded()), "team")]
    ensures Policy.StaysInNamespace([HelmRef(Some(Commanded()), "team")], [], "team")
  {
    hide Upgrade;
    assert |"HelmRelease"| == 11;
  }

  lemma SampleOutcome(run: Run, release: Release)
    requires IsSampleRun(run, release) && run.used.Some? && IsPrepared(Sample(), SampleStep(release))
    requires MayRun(Sample(), run) && MutationCommand(SampleStep(release).commands) == Some(Upgrade())
    requires CanInstall(Sample(), SampleStep(release), Upgrade())
    requires Installed(Sample(), SampleStep(release), Upgrade()) == Some(release)
    ensures run.calls == [HelmInstalled(release, "team")]
  {
    hide Upgrade, MutationCommand, Planned, IsPrepared, CanInstall, Installed, MayRun;
  }
}
