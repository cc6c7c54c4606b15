/**
 * The approval gate and the policy engine for bounded actions (policy/approval_gate.py,
 * policy/engine.py, policy/namespace_scope.py and the small gates beside them).
 */
module Policy {
  import opened Options
  import opened Json

  datatype ApprovalScope =
    | NonMutatingValidation | DryRun | NamespaceCreation | Mutation | Rollback | DestructiveRollback | PolicyException

  const MutationScopes := {Mutation, NamespaceCreation, Rollback, DestructiveRollback}

  datatype ResourceRef = ResourceRef(kind: Option<string>, namespace: Option<string>, name: Option<string>)

  // An absent command fingerprint is the empty text.
  datatype Approval = Approval(jobId: string, scope: ApprovalScope, expiresAt: Option<int>,
                               resourceRefs: seq<ResourceRef>, phaseIds: seq<string>, stepIds: seq<string>,
                               fingerprint: string)

  // One action to be judged. The findings of the secret guard and of the production-data guard are
  // taken as given.
  datatype Action = Action(
    jobId: string, targetNamespace: string, mutating: bool, phaseId: string, stepId: string,
    refs: seq<ResourceRef>, manifests: seq<Json>, approvals: seq<Approval>, fingerprint: string,
    dryRunSatisfied: bool, requestHash: string, recordedHash: Option<string>,
    timeoutSeconds: Option<int>, retryAttempts: int, auditWritten: bool, now: int,
    secretFindings: seq<string>, dataFindings: seq<string>)

  const MaxTimeoutSeconds := 1800
  const MaxRetryAttempts := 3

  // ----- Approvals -----

  datatype Key = Key(kind: Option<string>, namespace: string, name: Option<string>)

  function ResourceKey(r: ResourceRef, targetNamespace: string): Key {
    Key(r.kind, if r.namespace.Some? && r.namespace.value != "" then r.namespace.value else targetNamespace, r.name)
  }

  function Keys(refs: seq<ResourceRef>, targetNamespace: string): set<Key> {
    set r | r in refs :: ResourceKey(r, targetNamespace)
  }

  predicate ResourcesCovered(approved: seq<ResourceRef>, requested: seq<ResourceRef>, targetNamespace: string) {
    requested == [] || Keys(requested, targetNamespace) <= Keys(approved, targetNamespace)
  }

  predicate IsExpired(a: Approval, now: int) {
    a.expiresAt.Some? && a.expiresAt.value <= now
  }

  predicate ApprovalMatches(a: Approval, action: Action) {
    if a.jobId != action.jobId || a.scope !in MutationScopes then false
    else if IsExpired(a, action.now) then false
    else if a.phaseIds != [] && action.phaseId !in a.phaseIds then false
    else if a.stepIds != [] && action.stepId !in a.stepIds then false
    else if a.fingerprint != "" && a.fingerprint != action.fingerprint then false
    else if a.resourceRefs != [] then ResourcesCovered(a.resourceRefs, action.refs, action.targetNamespace)
    else true
  }

  function ApprovalBlocks(action: Action): seq<string> {
    if !action.mutating then []
    else if exists a :: a in action.approvals && ApprovalMatches(a, action) then []
    else if exists a :: a in action.approvals && IsExpired(a, action.now) then ["APPROVAL_EXPIRED"]
    else if action.approvals != [] then ["APPROVAL_SCOPE_MISMATCH"]
    else ["APPROVAL_REQUIRED"]
  }

  /**
   * What an approval must be to let an action through: for this job, for mutations, not expired,
   * and wherever it names phases, steps, a command or resources, covering the ones of the action.
   */
  ghost predicate Authorises(a: Approval, action: Action) {
    && a.jobId == action.jobId
    && a.scope in {Mutation, NamespaceCreation, Rollback, DestructiveRollback}
    && (a.expiresAt.Some? ==> action.now < a.expiresAt.value)
    && (a.phaseIds == [] || action.phaseId in a.phaseIds)
    && (a.stepIds == [] || action.stepId in a.stepIds)
    && (a.fingerprint == "" || a.fingerprint == action.fingerprint)
    && (a.resourceRefs != [] ==> forall r :: r in action.refs ==>
          exists g :: g in a.resourceRefs && ResourceKey(g, action.targetNamespace)
              == ResourceKey(r, action.targetNamespace))
  }

  lemma MatchesIffAuthorises(a: Approval, action: Action)
    ensures ApprovalMatches(a, action) <==> Authorises(a, action)
  {
    var target := action.targetNamespace;
    var approved, requested := Keys(a.resourceRefs, target), Keys(action.refs, target);
    if requested <= approved {
      forall r | r in action.refs
        ensures exists g :: g in a.resourceRefs && ResourceKey(g, target) == ResourceKey(r, target)
      {
        assert ResourceKey(r, target) in approved;
      }
    }
    if forall r :: r in action.refs
         ==> exists g :: g in a.resourceRefs && ResourceKey(g, target) == ResourceKey(r, target) {
      assert requested <= approved;
    }
  }

  // ----- Namespace scope -----

  const ClusterScopedKinds :=
    {"Namespace", "ClusterRole", "ClusterRoleBinding", "CustomResourceDefinition", "StorageClass", "PersistentVolume"}

  function ResourceScopeBlocks(r: ResourceRef, target: string): seq<string> {
    (if r.kind.Some? && r.kind.value in ClusterScopedKinds then ["CLUSTER_SCOPED_RESOURCE_BLOCKED"] else [])
    + (if r.namespace.Some? && r.namespace.value != target then ["RESOURCE_NAMESPACE_OUT_OF_SCOPE"] else [])
  }

  function ManifestScopeBlocks(m: Json, target: string): seq<string> {
    var namespace := Get(Get(m, "metadata"), "namespace");
    (if Get(m, "kind").Str? && Get(m, "kind").s in ClusterScopedKinds then ["CLUSTER_SCOPED_RESOURCE_BLOCKED"] else [])
    + (if namespace != Null && namespace != Str(target) then ["RESOURCE_NAMESPACE_OUT_OF_SCOPE"] else [])
  }

  function NamespaceScopeBlocks(refs: seq<ResourceRef>, manifests: seq<Json>, target: string): seq<string> {
    if manifests != [] then
      NamespaceScopeBlocks(refs, manifests[..|manifests| - 1], target)
      + ManifestScopeBlocks(manifests[|manifests| - 1], target)
    else if refs != [] then
      NamespaceScopeBlocks(refs[..|refs| - 1], manifests, target) + ResourceScopeBlocks(refs[|refs| - 1], target)
    else []
  }

  predicate RefStays(r: ResourceRef, target: string) {
    && (r.kind.Some? ==>
          r.kind.value !in {"Namespace", "ClusterRole", "ClusterRoleBinding", "CustomResourceDefinition",
                            "StorageClass", "PersistentVolume"})
    && (r.namespace.Some? ==> r.namespace.value == target)
  }

  predicate ManifestStays(m: Json, target: string) {
    && (Get(m, "kind").Str? ==>
          Get(m, "kind").s !in {"Namespace", "ClusterRole", "ClusterRoleBinding", "CustomResourceDefinition",
                                "StorageClass", "PersistentVolume"})
    && (Get(Get(m, "metadata"), "namespace") == Null || Get(Get(m, "metadata"), "namespace") == Str(target))
  }

  /** Nothing in the action is cluster-scoped or in another namespace. */
  predicate StaysInNamespace(refs: seq<ResourceRef>, manifests: seq<Json>, target: string) {
    (forall r :: r in refs ==> RefStays(r, target)) && (forall m :: m in manifests ==> ManifestStays(m, target))
  }

  lemma ManifestScopeIff(m: Json, target: string)
    ensures ManifestScopeBlocks(m, target) == [] <==> ManifestStays(m, target)
  {}

  lemma ResourceScopeIff(r: ResourceRef, target: string)
    ensures ResourceScopeBlocks(r, target) == [] <==> RefStays(r, target)
  {}

  lemma {:induction false} NoScopeBlocksIff(refs: seq<ResourceRef>, manifests: seq<Json>, target: string)
    ensures NamespaceScopeBlocks(refs, manifests, target) == [] <==> StaysInNamespace(refs, manifests, target)
  {
    hide ResourceScopeBlocks, ManifestScopeBlocks, RefStays, ManifestStays;
    if manifests != [] {
      NoScopeBlocksIff(refs, manifests[..|manifests| - 1], target);
      assert manifests == manifests[..|manifests| - 1] + [manifests[|manifests| - 1]];
      ManifestScopeIff(manifests[|manifests| - 1], target);
    } else if refs != [] {
      NoScopeBlocksIff(refs[..|refs| - 1], manifests, target);
      assert refs == refs[..|refs| - 1] + [refs[|refs| - 1]];
      ResourceScopeIff(refs[|refs| - 1], target);
    }
  }

  // ----- The engine -----

  function DryRunBlocks(action: Action): seq<string> {
    if !action.mutating || action.dryRunSatisfied then [] else ["DRY_RUN_REQUIRED"]
  }

  function IdempotencyBlocks(action: Action): seq<string> {
    if !action.mutating then []
    else if action.recordedHash.None? then ["IDEMPOTENCY_REQUIRED"]
    else if action.recordedHash.value != action.requestHash then ["IDEMPOTENCY_REQUEST_MISMATCH"]
    else []
  }

  function LimitBlocks(action: Action): seq<string> {
    (if action.timeoutSeconds.Some? && action.timeoutSeconds.value > MaxTimeoutSeconds
     then ["TIMEOUT_LIMIT_EXCEEDED"] else [])
    + (if action.retryAttempts > MaxRetryAttempts then ["RETRY_LIMIT_EXCEEDED"] else [])
  }

  function AuditBlocks(action: Action): seq<string> {
    if !action.mutating || action.auditWritten then [] else ["AUDIT_REQUIRED_BEFORE_MUTATION"]
  }

  /** All conditions an action must meet. */
  ghost predicate MayProceed(action: Action) {
    && StaysInNamespace(action.refs, action.manifests, action.targetNamespace)
    && action.secretFindings == [] && action.dataFindings == []
    && action.retryAttempts <= 3
    && (action.timeoutSeconds.Some? ==> action.timeoutSeconds.value <= 1800)
    && (action.mutating ==>
          && action.dryRunSatisfied && action.auditWritten
          && action.recordedHash == Some(action.requestHash)
          && exists a :: a in action.approvals && Authorises(a, action))
  }

  /** The guards one after the other, each adding its findings; nothing found means allowed. */
  method EvaluatePolicy(action: Action) returns (allowed: bool, blocks: seq<string>)
    ensures allowed <==> MayProceed(action)
    ensures allowed <==> blocks == []
    ensures ApprovalBlocks(action) != [] ==> ApprovalBlocks(action)[0] in blocks
  {
    hide ApprovalMatches, StaysInNamespace, NamespaceScopeBlocks, Authorises;
    NoScopeBlocksIff(action.refs, action.manifests, action.targetNamespace);
    forall a | a in action.approvals ensures ApprovalMatches(a, action) <==> Authorises(a, action) {
      MatchesIffAuthorises(a, action);
    }
    blocks := NamespaceScopeBlocks(action.refs, action.manifests, action.targetNamespace);
    blocks := blocks + action.secretFindings;
    blocks := blocks + action.dataFindings;
    blocks := blocks + DryRunBlocks(action);
    blocks := blocks + ApprovalBlocks(action);
    blocks := blocks + IdempotencyBlocks(action);
    blocks := blocks + LimitBlocks(action);
    blocks := blocks + AuditBlocks(action);
    allowed := blocks == [];
  }

  /** Why an action lacks an approval: the codes tell absence, expiry and mismatch apart. */
  lemma ApprovalCodes(action: Action)
    requires action.mutating
    ensures var authorised := exists a :: a in action.approvals && Authorises(a, action);
            var expired := exists a :: a in action.approvals && a.expiresAt.Some? && a.expiresAt.value <= action.now;
            && (ApprovalBlocks(action) == [] <==> authorised)
            && (ApprovalBlocks(action) == ["APPROVAL_REQUIRED"] <==> action.approvals == [])
            && (ApprovalBlocks(action) == ["APPROVAL_EXPIRED"] <==> !authorised && expired)
            && (ApprovalBlocks(action) == ["APPROVAL_SCOPE_MISMATCH"] <==>
                  action.approvals != [] && !authorised && !expired)
  {
    hide ApprovalMatches, Authorises;
    forall a | a in action.approvals ensures ApprovalMatches(a, action) <==> Authorises(a, action) {
      MatchesIffAuthorises(a, action);
    }
    assert action.approvals != [] ==> action.approvals[0] in action.approvals;
    assert |"APPROVAL_REQUIRED"| == 17 && |"APPROVAL_EXPIRED"| == 16 && |"APPROVAL_SCOPE_MISMATCH"| == 23;
  }
}
