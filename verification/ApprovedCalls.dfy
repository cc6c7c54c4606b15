/**
 * What the calls of a mutating step (runtime/mutation.py) have to do with the files of the plan and
 * with the approval they were made under, read off a finished execution.
 */
module ApprovedCalls {
  import opened Options
  import opened Json
  import opened Mutation
  import Policy
  import HelmStatus
  import Text

  // ----- The documents of the files -----

  /** What two lists of files give together: all documents of both, or the first problem. */
  function Joined(a: Loaded, b: Loaded): Loaded {
    match (a, b)
    case (Documents(x), Documents(y)) => Documents(x + y)
    case (Documents(_), problem) => problem
    case (problem, _) => problem
  }

  lemma JoinedIsAssociative(a: Loaded, b: Loaded, c: Loaded)
    ensures Joined(Joined(a, b), c) == Joined(a, Joined(b, c)) && Joined(a, Documents([])) == a
  {
    if a.Documents? {
      assert a.docs + [] == a.docs;
    }
    if a.Documents? && b.Documents? && c.Documents? {
      assert a.docs + b.docs + c.docs == a.docs + (b.docs + c.docs);
    }
  }

  /**
   * The documents are taken file by file, in order, and the first file that cannot be read decides:
   * reading two lists one after the other is reading the list of both.
   */
  lemma {:induction false} FilesInOrder(load: string -> Loaded, first: seq<string>, second: seq<string>)
    ensures LoadAll(load, []) == Documents([])
    ensures forall ref :: LoadAll(load, [ref]) == load(ref)
    ensures LoadAll(load, first + second) == Joined(LoadAll(load, first), LoadAll(load, second))
  {
    OneFile(load);
    hide LoadAll, Joined;
    if second == [] {
      JoinedIsAssociative(LoadAll(load, first), Documents([]), Documents([]));
      assert first + second == first;
    } else {
      var init, last := second[..|second| - 1], second[|second| - 1];
      FilesInOrder(load, first, init);
      LastFile(load, first + init, last);
      LastFile(load, init, last);
      JoinedIsAssociative(LoadAll(load, first), LoadAll(load, init), load(last));
      assert init + [last] == second && first + init + [last] == first + second;
    }
  }

  lemma OneFile(load: string -> Loaded)
    ensures LoadAll(load, []) == Documents([]) && forall ref :: LoadAll(load, [ref]) == load(ref)
  {
    forall ref ensures LoadAll(load, [ref]) == load(ref) {
      assert [ref][..0] == [];
    }
  }

  lemma LastFile(load: string -> Loaded, refs: seq<string>, ref: string)
    ensures LoadAll(load, refs + [ref]) == Joined(LoadAll(load, refs), load(ref))
  {
    assert (refs + [ref])[..|refs|] == refs;
  }

  /** The positions of the documents that are not excluded, in order and all of them. */
  ghost predicate KeptAt(excluded: Json -> bool, docs: seq<Json>, at: seq<nat>) {
    && (forall k :: 0 <= k < |at| ==> at[k] < |docs| && !excluded(docs[at[k]]))
    && (forall k, l :: 0 <= k < l < |at| ==> at[k] < at[l])
    && (forall i :: 0 <= i < |docs| ==> excluded(docs[i]) || i in at)
  }

  /** These are the documents at the given positions. */
  ghost predicate TakenAt(docs: seq<Json>, taken: seq<Json>, at: seq<nat>) {
    |taken| == |at| && forall k :: 0 <= k < |at| ==> at[k] < |docs| && taken[k] == docs[at[k]]
  }

  lemma {:induction false} KeptInOrder(excluded: Json -> bool, docs: seq<Json>) returns (at: seq<nat>)
    ensures KeptAt(excluded, docs, at) && TakenAt(docs, Kept(excluded, docs), at)
  {
    hide KeptAt, TakenAt, Kept;
    if docs == [] {
      at := [];
      KeptOfNone(excluded);
    } else {
      var init, last := docs[..|docs| - 1], docs[|docs| - 1];
      at := KeptInOrder(excluded, init);
      KeptAtNext(excluded, init, at, last);
      TakenNext(init, Kept(excluded, init), at, last);
      KeptStep(excluded, docs);
      assert init + [last] == docs;
      at := if excluded(last) then at else at + [|init|];
    }
  }

  lemma KeptOfNone(excluded: Json -> bool)
    ensures KeptAt(excluded, [], []) && TakenAt([], Kept(excluded, []), [])
  {}

  lemma KeptStep(excluded: Json -> bool, docs: seq<Json>)
    requires docs != []
    ensures Kept(excluded, docs)
         == Kept(excluded, docs[..|docs| - 1]) + if excluded(docs[|docs| - 1]) then [] else [docs[|docs| - 1]]
  {}

  lemma TakenNext(docs: seq<Json>, taken: seq<Json>, at: seq<nat>, last: Json)
    requires TakenAt(docs, taken, at)
    ensures TakenAt(docs + [last], taken, at) && TakenAt(docs + [last], taken + [], at)
    ensures TakenAt(docs + [last], taken + [last], at + [|docs|])
  {
    assert taken + [] == taken;
  }

  lemma KeptAtNext(excluded: Json -> bool, docs: seq<Json>, at: seq<nat>, last: Json)
    requires KeptAt(excluded, docs, at)
    ensures KeptAt(excluded, docs + [last], if excluded(last) then at else at + [|docs|])
  {
    var all, next := docs + [last], if excluded(last) then at else at + [|docs|];
    forall k | 0 <= k < |next| ensures next[k] < |all| && !excluded(all[next[k]]) {
      if k < |at| {
        assert next[k] == at[k] && at[k] < |docs|;
      }
    }
    forall i | 0 <= i < |all| ensures excluded(all[i]) || i in next {
      if i < |docs| {
        assert all[i] == docs[i];
      }
    }
  }

  /**
   * A step that applies manifests applies the documents that are not excluded, in the order in
   * which they lie in the files, from the first one on.
   */
  lemma AppliedInFileOrder(env: Environment, run: Run) returns (docs: seq<Json>, at: seq<nat>)
    requires IsExecution(env, run) && run.calls != [] && run.step.stepType == K8sApply
    ensures LoadAll(env.load, run.step.manifestRefs) == Documents(docs) && KeptAt(env.excluded, docs, at)
    ensures TakenAt(docs, Kept(env.excluded, docs), at)
    ensures |run.calls| <= |at| && (run.result.Finished? && run.result.success ==> |run.calls| == |at|)
    ensures forall k :: 0 <= k < |run.calls| ==> run.calls[k] == Applied(docs[at[k]], run.job.targetNamespace)
  {
    hide Kept, LoadAll, MutationCommand, MayRun, IsLatestMatching, KeptAt;
    docs := LoadAll(env.load, run.step.manifestRefs).docs;
    at := KeptInOrder(env.excluded, docs);
  }

  // ----- The approval -----

  /** The approval is for mutations of this job, in this phase and step, now, and for any command or this one. */
  ghost predicate IsFor(env: Environment, run: Run, a: Policy.Approval, command: string) {
    && a.jobId == run.job.id
    && a.scope in {Policy.Mutation, Policy.NamespaceCreation, Policy.Rollback, Policy.DestructiveRollback}
    && (a.expiresAt.Some? ==> run.now < a.expiresAt.value)
    && (a.phaseIds == [] || run.step.phaseId in a.phaseIds)
    && (a.stepIds == [] || run.step.id in a.stepIds)
    && (a.fingerprint == "" || a.fingerprint == env.fingerprint(command, run.step.stepType))
  }

  /** The approval names no resources, or one of this kind, namespace and name; the namespace may be left out. */
  ghost predicate Lists(a: Policy.Approval, kind: Option<string>, namespace: string, name: Option<string>,
                        target: string)
  {
    a.resourceRefs == []
    || exists g :: g in a.resourceRefs && g.kind == kind && g.name == name
                   && namespace == if g.namespace.Some? && g.namespace.value != "" then g.namespace.value else target
  }

  /** The text under a key of an object: as it is, or as it prints; nothing if there is none. */
  predicate Reads(repr: Json -> string, v: Json, key: string, text: string) {
    if v.Obj? && key in v.fields then text == (if v.fields[key].Str? then v.fields[key].s else repr(v.fields[key]))
    else text == ""
  }

  /** The namespace the metadata gives, or the target if it gives none. */
  predicate IsPlacedIn(repr: Json -> string, metadata: Json, namespace: string, target: string) {
    if metadata.Obj? && "namespace" in metadata.fields && Truthy(metadata.fields["namespace"])
    then Reads(repr, metadata, "namespace", namespace) else namespace == target
  }

  /** The approval covers the document, by the kind, the namespace and the name the document gives. */
  ghost predicate CoversDocument(repr: Json -> string, a: Policy.Approval, m: Json, target: string) {
    var metadata := if m.Obj? && "metadata" in m.fields then m.fields["metadata"] else Null;
    exists kind, namespace, name ::
      && Reads(repr, m, "kind", kind) && Reads(repr, metadata, "name", name)
      && IsPlacedIn(repr, metadata, namespace, target)
      && Lists(a, Some(kind), if namespace == "" then target else namespace, Some(name), target)
  }

  ghost predicate CoversReference(a: Policy.Approval, r: Policy.ResourceRef, target: string) {
    Lists(a, r.kind, if r.namespace.Some? && r.namespace.value != "" then r.namespace.value else target, r.name, target)
  }

  /** The approval under which the calls of a run may be made. */
  ghost predicate Allows(env: Environment, run: Run, docs: seq<Json>, command: string, a: Policy.Approval) {
    && IsFor(env, run, a, command)
    && (forall m :: m in docs && !env.excluded(m) ==> CoversDocument(env.repr, a, m, run.job.targetNamespace))
    && (forall r :: r in run.step.refs && !env.excludedKind(r.kind)
          ==> CoversReference(a, r, run.job.targetNamespace))
    && (run.step.stepType in {HelmInstall, HelmUpgrade} ==>
          var release := env.parseHelm(command);
          Lists(a, Some("HelmRelease"), run.job.targetNamespace,
                if release.Some? then Some(release.value.name) else None, run.job.targetNamespace))
  }

  /** An approval matches the request of a run exactly when it allows the run by what the files and the step say. */
  lemma AuthorisesIffAllows(env: Environment, run: Run, docs: seq<Json>, a: Policy.Approval)
    requires run.used.Some? && IsPrepared(env, run.step)
    requires run.step.stepType != K8sApply ==> docs == []
    requires run.step.stepType == K8sApply ==> LoadAll(env.load, run.step.manifestRefs) == Documents(docs)
    ensures Policy.Authorises(a, RequestOf(env, run))
       <==> Allows(env, run, docs, MutationCommand(run.step.commands).value, a)
  {
    hide LoadAll, MutationCommand, Kept, KeptRefs, CoversDocument, CoversReference, RequestedRefs, Lists, RefOf,
         HelmRef, KeyListed;
    var command, target := MutationCommand(run.step.commands).value, run.job.targetNamespace;
    var manifests := Planned(env, run.step).value;
    var refs := RequestedRefs(env, run.step, manifests, target, command);
    RequestedAre(env, run.step, manifests, target, command);
    forall m ensures CoversDocument(env.repr, a, m, target)
                <==> CoversReference(a, RefOf(env.repr, m, target), target) {
      DocumentIff(env.repr, a, m, target);
    }
    HelmIff(env, a, command, target);
    assert forall m :: m in manifests <==> m in docs && !env.excluded(m);
    AllListed(a, refs, target);
    assert Policy.Authorises(a, RequestOf(env, run))
      <==> IsFor(env, run, a, command) && forall r :: r in refs ==> CoversReference(a, r, target);
  }

  lemma AllListed(a: Policy.Approval, refs: seq<Policy.ResourceRef>, target: string)
    ensures (a.resourceRefs != [] ==> forall r :: r in refs ==>
              exists g :: g in a.resourceRefs && Policy.ResourceKey(g, target) == Policy.ResourceKey(r, target))
       <==> forall r :: r in refs ==> CoversReference(a, r, target)
  {
    hide CoversReference, Policy.ResourceKey;
    forall r ensures KeyListed(a, r, target) <==> CoversReference(a, r, target) {
      ListedIff(a, r, target);
    }
    assert (a.resourceRefs != [] ==> forall r :: r in refs ==>
              exists g :: g in a.resourceRefs && Policy.ResourceKey(g, target) == Policy.ResourceKey(r, target))
      <==> forall r :: r in refs ==> KeyListed(a, r, target);
  }

  ghost predicate KeyListed(a: Policy.Approval, r: Policy.ResourceRef, target: string) {
    a.resourceRefs != []
    ==> exists g :: g in a.resourceRefs && Policy.ResourceKey(g, target) == Policy.ResourceKey(r, target)
  }

  lemma ListedIff(a: Policy.Approval, r: Policy.ResourceRef, target: string)
    ensures KeyListed(a, r, target) <==> CoversReference(a, r, target)
  {}

  lemma DocumentIff(repr: Json -> string, a: Policy.Approval, m: Json, target: string)
    ensures CoversDocument(repr, a, m, target) <==> CoversReference(a, RefOf(repr, m, target), target)
  {
    hide Lists;
    var metadata := Get(m, "metadata");
    assert forall v, key, text :: Reads(repr, v, key, text) <==> text == TextAt(repr, v, key);
    var r := RefOf(repr, m, target);
    var kind, namespace, name := r.kind.value, r.namespace.value, r.name.value;
    assert Reads(repr, m, "kind", kind) && Reads(repr, metadata, "name", name);
    assert forall text :: IsPlacedIn(repr, metadata, text, target) <==> text == namespace;
    assert CoversReference(a, r, target)
      <==> Lists(a, Some(kind), if namespace == "" then target else namespace, Some(name), target);
    if CoversReference(a, r, target) {
      assert CoversDocument(repr, a, m, target);
    }
  }

  lemma HelmIff(env: Environment, a: Policy.Approval, command: string, target: string)
    ensures var release := env.parseHelm(command);
            CoversReference(a, HelmRef(release, target), target)
            <==> Lists(a, Some("HelmRelease"), target, if release.Some? then Some(release.value.name) else None, target)
  {
    hide Lists;
  }

  lemma {:induction false} KeptRefsAre(env: Environment, refs: seq<Policy.ResourceRef>)
    ensures forall r :: r in KeptRefs(env, refs) <==> r in refs && !env.excludedKind(r.kind)
  {
    if refs != [] {
      var k := |refs| - 1;
      KeptRefsAre(env, refs[..k]);
      assert refs == refs[..k] + [refs[k]];
    }
  }

  /** What is requested: the references of the step that are kept, every manifest, and the Helm release. */
  lemma RequestedAre(env: Environment, step: PlanStep, manifests: seq<Json>, target: string, command: string)
    ensures forall r :: r in RequestedRefs(env, step, manifests, target, command) <==>
              || (r in step.refs && !env.excludedKind(r.kind))
              || (exists m :: m in manifests && r == RefOf(env.repr, m, target))
              || (step.stepType in {HelmInstall, HelmUpgrade} && r == HelmRef(env.parseHelm(command), target))
  {
    hide RefOf, HelmRef, KeptRefs;
    KeptRefsAre(env, step.refs);
    var middle := seq(|manifests|, i requires 0 <= i < |manifests| => RefOf(env.repr, manifests[i], target));
    forall r ensures r in middle <==> exists m :: m in manifests && r == RefOf(env.repr, m, target) {
      if m :| m in manifests && r == RefOf(env.repr, m, target) {
        var i :| 0 <= i < |manifests| && manifests[i] == m;
        assert middle[i] == r;
      }
    }
  }

  // ----- What the calls show -----

  /** No cluster-scoped kind, and no other namespace. */
  predicate StaysHere(m: Json, target: string) {
    var metadata := if m.Obj? && "metadata" in m.fields then m.fields["metadata"] else Null;
    && (m.Obj? && "kind" in m.fields ==>
          m.fields["kind"] !in {Str("Namespace"), Str("ClusterRole"), Str("ClusterRoleBinding"),
                                Str("CustomResourceDefinition"), Str("StorageClass"), Str("PersistentVolume")})
    && (metadata.Obj? && "namespace" in metadata.fields ==> metadata.fields["namespace"] in {Null, Str(target)})
  }

  /** The instruction is the reason for the run: to go on with this step, or phase, or job. */
  predicate IsForStep(i: Instruction, step: PlanStep) {
    i.isContinue && i.targetStep in {None, Some(step.id)} && i.targetPhase in {None, Some(step.phaseId)}
  }

  /**
   * What calls take: one of the instructions, a dry run that succeeded, nothing outside the
   * namespace, and one approval that is for this job and step at this time and covers every
   * document that is applied, every reference of the step, and the release of the command.
   */
  lemma CallsAreApproved(env: Environment, run: Run) returns (a: Policy.Approval, docs: seq<Json>, command: string)
    requires IsExecution(env, run) && run.calls != []
    ensures a in run.approvals && Allows(env, run, docs, command, a)
    ensures run.after == run.before + [AuditWritten(run.step.id, command)] + run.calls
    ensures run.step.dryRunSucceeded && run.step.attemptNumber <= 3
    ensures run.used.Some? && run.used.value in run.instructions && IsForStep(run.used.value, run.step)
    ensures forall m, ns :: Applied(m, ns) in run.calls ==>
              && ns == run.job.targetNamespace && m in docs && !env.excluded(m)
              && CoversDocument(env.repr, a, m, ns) && StaysHere(m, ns)
  {
    hide LoadAll, MutationCommand, Kept, Allows, IsExecution, Policy.Authorises, CoversDocument, StaysHere,
         Policy.StaysInNamespace;
    CallsIffAuthorised(env, run);
    a :| a in run.approvals && Policy.Authorises(a, RequestOf(env, run));
    docs := if run.step.stepType == K8sApply then LoadAll(env.load, run.step.manifestRefs).docs else [];
    command := MutationCommand(run.step.commands).value;
    AuthorisesIffAllows(env, run, docs, a);
    HistoryOf(env, run);
    forall m, ns | Applied(m, ns) in run.calls
      ensures ns == run.job.targetNamespace && m in docs && !env.excluded(m)
      ensures CoversDocument(env.repr, a, m, ns) && StaysHere(m, ns)
    {
      AppliedIsKept(env, run, m, ns);
      AllowsDocument(env, run, docs, command, a, m);
    }
  }

  lemma AllowsDocument(env: Environment, run: Run, docs: seq<Json>, command: string, a: Policy.Approval, m: Json)
    requires Allows(env, run, docs, command, a) && m in docs && !env.excluded(m)
    ensures CoversDocument(env.repr, a, m, run.job.targetNamespace)
  {
    hide CoversDocument, CoversReference, IsFor, Lists;
  }

  lemma HistoryOf(env: Environment, run: Run)
    requires IsExecution(env, run) && run.used.Some? && IsPrepared(env, run.step)
    ensures run.after
         == run.before + [AuditWritten(run.step.id, MutationCommand(run.step.commands).value)] + run.calls
    ensures run.used.value in run.instructions && IsForStep(run.used.value, run.step)
  {
    hide MutationCommand, IsPrepared, MayRun, Outcome;
  }

  lemma AppliedIsKept(env: Environment, run: Run, m: Json, ns: string)
    requires IsExecution(env, run) && IsAuthorised(env, run) && Applied(m, ns) in run.calls
    ensures run.step.stepType == K8sApply && ns == run.job.targetNamespace
    ensures m in LoadAll(env.load, run.step.manifestRefs).docs && !env.excluded(m) && StaysHere(m, ns)
  {
    hide MutationCommand, LoadAll, MayRun, StaysHere, IsLatestMatching, HelmStatus.Mentions, CanInstall;
    var k :| 0 <= k < |run.calls| && run.calls[k] == Applied(m, ns);
    assert run.calls[0].Applied? ==> run.step.stepType == K8sApply;
    MayRunStays(env, run);
  }

  lemma MayRunStays(env: Environment, run: Run)
    requires run.used.Some? && IsPrepared(env, run.step) && MayRun(env, run)
    ensures forall m :: m in Planned(env, run.step).value ==> StaysHere(m, run.job.targetNamespace)
  {
    hide MutationCommand, LoadAll, Kept, RequestedRefs, Policy.Authorises, Planned;
    assert forall m :: Policy.ManifestStays(m, run.job.targetNamespace) ==> StaysHere(m, run.job.targetNamespace);
  }

  /** Nothing that is requested lies outside the namespace either. */
  lemma ReferencesStayHere(env: Environment, run: Run)
    requires IsExecution(env, run) && run.calls != []
    ensures forall r :: r in run.step.refs && !env.excludedKind(r.kind) ==>
              && (r.namespace.Some? ==> r.namespace.value == run.job.targetNamespace)
              && (r.kind.Some? ==>
                    r.kind.value !in {"Namespace", "ClusterRole", "ClusterRoleBinding", "CustomResourceDefinition",
                                      "StorageClass", "PersistentVolume"})
  {
    hide LoadAll, MutationCommand, Kept, IsExecution, Policy.Authorises, KeptRefs, RefOf, HelmRef, RequestedRefs;
    CallsIffAuthorised(env, run);
    RequestedAre(env, run.step, Planned(env, run.step).value, run.job.targetNamespace,
                 MutationCommand(run.step.commands).value);
  }

  // ----- Which instruction, which command -----

  function DateOf(i: Instruction): string {
    if i.issuedAt.Some? then i.issuedAt.value else ""
  }

  /**
   * The instruction a run goes by is the latest of those for its step: a dated one if there is any,
   * of the latest date, and with the greatest id among those of that date.
   */
  lemma UsedIsLatest(env: Environment, run: Run, i: Instruction)
    requires IsExecution(env, run) && i in run.instructions && IsForStep(i, run.step)
    ensures run.used.Some? && run.used.value in run.instructions && IsForStep(run.used.value, run.step)
    ensures var used := run.used.value;
            && (i.issuedAt.Some? ==> used.issuedAt.Some? && Text.Leq(DateOf(i), DateOf(used)))
            && (i.issuedAt == used.issuedAt ==> Text.Leq(i.id, used.id))
  {
    hide Text.Leq, IsPrepared, MayRun, Outcome, MutationCommand;
    assert Matches(i, run.step);
    Text.LeqTotal(i.id, i.id);
    var d := DateOf(i);
    Text.LeqTotal(d, d);
  }

  ghost predicate Says(text: string, part: string) {
    exists before, after :: text == before + part + after
  }

  lemma {:induction false} ContainsIff(text: string, part: string)
    ensures Contains(text, part) <==> Says(text, part)
  {
    if part <= text {
      assert text == "" + part + text[|part|..];
    } else if text != "" {
      ContainsIff(text[1..], part);
      if before, after :| text == before + part + after {
        assert before == "" ==> text == part + after;
        assert text[1..] == before[1..] + part + after;
      }
      if before, after :| text[1..] == before + part + after {
        assert text == ([text[0]] + before) + part + after;
      }
    }
  }

  /** The command might change something, by what it says. */
  ghost predicate Suspicious(c: Command) {
    Says(c.text, "apply") || Says(c.text, "helm upgrade") || Says(c.text, "helm install")
  }

  /**
   * The command that is audited and approved: the first one the plan marks as mutating, and only
   * without any the first one that looks like it.
   */
  lemma CommandIs(commands: seq<Command>)
    ensures MutationCommand(commands).None? <==> forall c :: c in commands ==> !c.mutating && !Suspicious(c)
    ensures MutationCommand(commands).Some? ==>
              exists k :: && 0 <= k < |commands| && commands[k].text == MutationCommand(commands).value
                          && (if exists c :: c in commands && c.mutating
                              then commands[k].mutating && forall j :: 0 <= j < k ==> !commands[j].mutating
                              else Suspicious(commands[k]) && forall j :: 0 <= j < k ==> !Suspicious(commands[j]))
  {
    hide FirstCommand, Contains, Says;
    forall c: Command ensures LooksMutating(c.text) <==> Suspicious(c) {
      ContainsIff(c.text, "apply");
      ContainsIff(c.text, "helm upgrade");
      ContainsIff(c.text, "helm install");
    }
    hide LooksMutating, Suspicious;
  }

  // ----- When calls are made -----

  /** The kind is none of the cluster-scoped ones. */
  predicate IsNamespaced(kind: string) {
    kind !in {"Namespace", "ClusterRole", "ClusterRoleBinding", "CustomResourceDefinition", "StorageClass",
              "PersistentVolume"}
  }

  /** The document as it stands, and as it reads in the request, is namespaced and of this namespace. */
  ghost predicate DocumentStays(repr: Json -> string, m: Json, target: string) {
    && StaysHere(m, target)
    && (exists kind :: Reads(repr, m, "kind", kind) && IsNamespaced(kind))
    && IsPlacedIn(repr, if m.Obj? && "metadata" in m.fields then m.fields["metadata"] else Null, target, target)
  }

  predicate ReferenceStays(r: Policy.ResourceRef, target: string) {
    (r.kind.Some? ==> IsNamespaced(r.kind.value)) && r.namespace in {None, Some(target)}
  }

  /** The guards besides the approval: dry run, attempts, findings, and nothing outside the namespace. */
  ghost predicate IsClear(env: Environment, run: Run, docs: seq<Json>, command: string)
    requires run.used.Some?
  {
    && run.step.dryRunSucceeded && run.step.attemptNumber <= 3
    && env.secretFindings(Kept(env.excluded, docs), run.used.value) == []
    && env.dataFindings(command, Kept(env.excluded, docs)) == []
    && (forall m :: m in docs && !env.excluded(m) ==> DocumentStays(env.repr, m, run.job.targetNamespace))
    && (forall r :: r in run.step.refs && !env.excludedKind(r.kind) ==> ReferenceStays(r, run.job.targetNamespace))
  }

  lemma DocumentStaysIff(repr: Json -> string, m: Json, target: string)
    ensures DocumentStays(repr, m, target) <==>
              Policy.ManifestStays(m, target) && Policy.RefStays(RefOf(repr, m, target), target)
  {
    var metadata := Get(m, "metadata");
    var r := RefOf(repr, m, target);
    assert forall v, key, text :: Reads(repr, v, key, text) <==> text == TextAt(repr, v, key);
    assert Reads(repr, m, "kind", r.kind.value);
    assert IsPlacedIn(repr, metadata, target, target) <==> r.namespace.value == target;
    assert StaysHere(m, target) <==> Policy.ManifestStays(m, target);
  }

  /**
   * The whole condition, from files, step and approvals: a step that got as far as the policy calls
   * its client exactly when the client can be used, the guards are clear and an approval allows it.
   */
  lemma CallsIffApproved(env: Environment, run: Run, docs: seq<Json>, command: string)
    requires IsExecution(env, run) && run.used.Some? && IsPrepared(env, run.step)
    requires MutationCommand(run.step.commands) == Some(command)
    requires run.step.stepType != K8sApply ==> docs == []
    requires run.step.stepType == K8sApply ==> LoadAll(env.load, run.step.manifestRefs) == Documents(docs)
    ensures run.calls != [] <==>
              && CanCall(env, run.step, command) && IsClear(env, run, docs, command)
              && exists a :: a in run.approvals && Allows(env, run, docs, command, a)
  {
    hide LoadAll, MutationCommand, Kept, Allows, IsExecution, Policy.Authorises, CanCall, DocumentStays,
         Policy.StaysInNamespace;
    CallsIffAuthorised(env, run);
    forall a ensures Policy.Authorises(a, RequestOf(env, run)) <==> Allows(env, run, docs, command, a) {
      AuthorisesIffAllows(env, run, docs, a);
    }
    StaysIff(env, run, docs, command);
  }

  lemma StaysIff(env: Environment, run: Run, docs: seq<Json>, command: string)
    requires run.used.Some? && IsPrepared(env, run.step)
    requires MutationCommand(run.step.commands) == Some(command)
    requires run.step.stepType != K8sApply ==> docs == []
    requires run.step.stepType == K8sApply ==> LoadAll(env.load, run.step.manifestRefs) == Documents(docs)
    ensures var request, target := RequestOf(env, run), run.job.targetNamespace;
            && request.manifests == Kept(env.excluded, docs)
            && (Policy.StaysInNamespace(request.refs, request.manifests, target) <==>
                  && (forall m :: m in docs && !env.excluded(m) ==> DocumentStays(env.repr, m, target))
                  && (forall r :: r in run.step.refs && !env.excludedKind(r.kind) ==> ReferenceStays(r, target)))
  {
    hide LoadAll, MutationCommand, KeptRefs, RequestedRefs, RefOf, DocumentStays, Policy.ManifestStays;
    var target := run.job.targetNamespace;
    var manifests := Planned(env, run.step).value;
    RequestedAre(env, run.step, manifests, target, command);
    forall m ensures DocumentStays(env.repr, m, target)
                <==> Policy.ManifestStays(m, target) && Policy.RefStays(RefOf(env.repr, m, target), target) {
      DocumentStaysIff(env.repr, m, target);
    }
    forall r: Policy.ResourceRef ensures ReferenceStays(r, target) <==> Policy.RefStays(r, target) {
      ReferenceStaysIff(r, target);
    }
    assert Policy.RefStays(HelmRef(env.parseHelm(command), target), target);
    hide Policy.RefStays, ReferenceStays, HelmRef;
    assert forall m :: m in manifests <==> m in docs && !env.excluded(m);
  }

  lemma ReferenceStaysIff(r: Policy.ResourceRef, target: string)
    ensures ReferenceStays(r, target) <==> Policy.RefStays(r, target)
  {}

  /** A Helm step installs once, before anything else, and only what is named completely. */
  lemma InstallIs(env: Environment, run: Run)
    requires IsExecution(env, run) && run.calls != [] && run.step.stepType != K8sApply
    ensures run.step.stepType in {HelmInstall, HelmUpgrade} && |run.calls| <= 2
    ensures run.calls[0].HelmInstalled? && run.calls[0].namespace == run.job.targetNamespace
    ensures var release := run.calls[0].release;
            && release.name != "" && release.chart != ""
            && (run.step.metadataRelease.Some? ==> run.step.metadataRelease == Some(release))
            && (run.step.metadataRelease.None? ==>
                  exists command :: MutationCommand(run.step.commands) == Some(command)
                                    && env.parseHelm(command) == Some(release))
            && (|run.calls| == 2 ==> run.calls[1] == HelmStatusRead(release.name, run.job.targetNamespace))
    ensures LoadAll(env.load, run.step.valuesRefs).Documents?
  {
    hide MutationCommand, LoadAll, MayRun, IsLatestMatching, HelmStatus.Mentions, Kept;
    CallsIffAuthorised(env, run);
  }

  // ----- How it ends -----

  /** What the client answered to the k-th call of a run. */
  function AnswerTo(env: Environment, run: Run, audit: Event, k: nat): Answer
    requires k < |run.calls|
  {
    env.answer(run.before + [audit] + run.calls[..k + 1])
  }

  /**
   * Applying stops at the first manifest that is not taken. The step succeeds exactly when none is
   * left, its outcome is unknown exactly when the last call was never answered, and all answered
   * calls are recorded.
   */
  lemma ApplyEnds(env: Environment, run: Run, command: string, docs: seq<Json>)
    requires IsExecution(env, run) && run.calls != [] && run.step.stepType == K8sApply
    requires MutationCommand(run.step.commands) == Some(command)
    requires LoadAll(env.load, run.step.manifestRefs) == Documents(docs)
    ensures var audit, last := AuditWritten(run.step.id, command), |run.calls| - 1;
            && run.result.Finished?
            && (forall k :: 0 <= k < last ==>
                  AnswerTo(env, run, audit, k).Answered? && AnswerTo(env, run, audit, k).success)
            && (run.result.unknownOutcome <==> AnswerTo(env, run, audit, last).Raised?)
            && (run.result.success <==>
                  && AnswerTo(env, run, audit, last).Answered? && AnswerTo(env, run, audit, last).success
                  && |run.calls| == |Kept(env.excluded, docs)|)
            && run.result.mutations == if run.result.unknownOutcome then run.calls[..last] else run.calls
  {
    hide MutationCommand, LoadAll, MayRun, IsLatestMatching, Kept;
    CallsIffAuthorised(env, run);
    var audited := run.before + [AuditWritten(run.step.id, command)];
    assert run.calls[..|run.calls|] == run.calls;
    forall k | 0 <= k < |run.calls| - 1
      ensures Succeeded(AnswerTo(env, run, AuditWritten(run.step.id, command), k))
    {
      assert audited + run.calls[..k + 1] == run.before + [AuditWritten(run.step.id, command)] + run.calls[..k + 1];
    }
  }

  /**
   * A Helm step asks for the status of the release exactly after an answered install that failed
   * ambiguously. It succeeds exactly when the install did, or the status shows the release as
   * deployed; the outcome is unknown when the install was not answered or failed ambiguously and
   * is not seen to be deployed.
   */
  lemma InstallEnds(env: Environment, run: Run, command: string)
    requires IsExecution(env, run) && run.calls != [] && run.step.stepType != K8sApply
    requires MutationCommand(run.step.commands) == Some(command)
    ensures var first := AnswerTo(env, run, AuditWritten(run.step.id, command), 0);
            && (|run.calls| == 2 <==> first.Answered? && !first.success && first.ambiguous)
            && (|run.calls| == 1 ==>
                  && run.result.Finished? && (run.result.success <==> first.Answered? && first.success)
                  && (run.result.unknownOutcome <==> first.Raised?)
                  && run.result.mutations == if first.Raised? then [] else run.calls)
            && (|run.calls| == 2 ==>
                  var second := AnswerTo(env, run, AuditWritten(run.step.id, command), 1);
                  && (run.result.Propagated? <==> second.Raised?)
                  && (run.result.Finished? ==>
                        && (run.result.success <==>
                              && second.success && second.data.Obj?
                              && run.calls[0].HelmInstalled?
                              && HelmStatus.Mentions(env.repr, second.data, run.calls[0].release.name))
                        && run.result.unknownOutcome == !run.result.success
                        && run.result.mutations == run.calls[..1]))
  {
    hide MutationCommand, LoadAll, MayRun, IsLatestMatching, HelmStatus.Mentions, Kept, CanInstall;
    CallsIffAuthorised(env, run);
    InstallIs(env, run);
    var audited := run.before + [AuditWritten(run.step.id, command)];
    assert run.calls[..1] == [run.calls[0]];
    if |run.calls| == 2 {
      assert run.calls[..2] == [run.calls[0], run.calls[1]];
    }
  }
}
