/**
 * What a reported drift (namespace_twin/drift_twin.py) says about the two snapshots: why a change
 * is critical, major or minor, and which parts of a resource count as safety controls.
 */
module DriftMeaning {
  import opened Options
  import opened Json
  import opened Drift
  import opened CanonicalLeaves
  import Canonical

  // ----- One change -----

  /** The resource as it is now, or as it was if it is gone. */
  function Sample(before: map<string, Row>, after: map<string, Row>, id: string): Row
    requires id in before || id in after
  {
    if id in after then after[id] else before[id]
  }

  /**
   * A change of this resource is critical: it is cluster-scoped, a secret or a role, lies in
   * another namespace, or its safety controls changed.
   */
  predicate IsCritical(before: map<string, Row>, after: map<string, Row>, id: string, target: string)
    requires id in before || id in after
  {
    var row := Sample(before, after, id);
    || row.kind in {"ClusterRole", "ClusterRoleBinding", "CustomResourceDefinition", "Namespace", "Node",
                    "PersistentVolume", "StorageClass", "MutatingWebhookConfiguration",
                    "ValidatingWebhookConfiguration", "Secret", "Role", "RoleBinding"}
    || row.namespace !in {"", target}
    || (id in before && id in after && before[id].safety != after[id].safety)
  }

  /** It is a major one otherwise: the resource is gone, a workload, or of another Helm revision. */
  predicate IsMajor(before: map<string, Row>, after: map<string, Row>, id: string)
    requires id in before || id in after
  {
    || id !in after
    || Sample(before, after, id).kind in {"Deployment", "StatefulSet", "DaemonSet", "Job", "CronJob", "Pod"}
    || (id in before && before[id].helmRevision != after[id].helmRevision)
  }

  /** Everything a reported change says, from the two rows of its resource. */
  lemma ChangeSays(before: map<string, Row>, after: map<string, Row>, c: Change, target: string)
    requires IsChange(before, after, c, target)
    ensures c.identity in before || c.identity in after
    ensures var id := c.identity;
            && (c.changeType == Created <==> id !in before)
            && (c.changeType == Deleted <==> id !in after)
            && (c.changeType == Updated <==>
                  id in before && id in after && before[id].canonical != after[id].canonical)
            && (c.classification == Critical <==> IsCritical(before, after, id, target))
            && (c.classification == Major <==> !IsCritical(before, after, id, target) && IsMajor(before, after, id))
            && (c.classification == Minor <==> !IsCritical(before, after, id, target) && !IsMajor(before, after, id))
            && (c.helmRevision <==>
                  id in before && id in after && before[id].helmRevision != after[id].helmRevision)
            && (c.manualPatch <==>
                  && id in after && !Truthy(after[id].helmRelease)
                  && (id in before ==> before[id].canonical != after[id].canonical))
  {
    hide Truthy;
  }

  lemma ChangedIsSomewhere(before: map<string, Row>, after: map<string, Row>, id: string)
    requires Differs(before, after, id)
    ensures id in before || id in after
  {}

  /** The level of a drift from the snapshots alone: that of the worst difference. */
  lemma LevelFromSnapshots(before: map<string, Row>, after: map<string, Row>, changes: seq<Change>, target: string,
                           highest: Level)
    requires ChangesAreExact(before, after, changes, target) && IsHighest(highest, changes)
    ensures forall id :: Differs(before, after, id) ==> id in before || id in after
    ensures highest == Critical <==>
              exists id :: Differs(before, after, id) && IsCritical(before, after, id, target)
    ensures highest == Major <==>
              && (forall id :: Differs(before, after, id) ==> !IsCritical(before, after, id, target))
              && exists id :: Differs(before, after, id) && IsMajor(before, after, id)
    ensures highest == NoDrift <==> forall id :: !Differs(before, after, id)
  {
    hide Differs, IsChange, IsCritical, IsMajor, InIdentityOrder;
    forall id | Differs(before, after, id)
      ensures id in before || id in after
      ensures exists c :: c in changes && c.identity == id && SaysLevel(before, after, c, target)
    {
      ChangedIsSomewhere(before, after, id);
      var c :| c in changes && c.identity == id;
      ChangeLevel(before, after, c, target);
    }
    forall c | c in changes
      ensures Differs(before, after, c.identity) && (c.identity in before || c.identity in after)
      ensures SaysLevel(before, after, c, target)
    {
      ChangeLevel(before, after, c, target);
    }
    DriftIffDifferent(before, after, changes, target, highest);
  }

  ghost predicate SaysLevel(before: map<string, Row>, after: map<string, Row>, c: Change, target: string) {
    && (c.identity in before || c.identity in after)
    && c.classification ==
         if IsCritical(before, after, c.identity, target) then Critical
         else if IsMajor(before, after, c.identity) then Major else Minor
  }

  lemma ChangeLevel(before: map<string, Row>, after: map<string, Row>, c: Change, target: string)
    requires IsChange(before, after, c, target)
    ensures SaysLevel(before, after, c, target) && Differs(before, after, c.identity)
  {
    hide IsCritical, IsMajor;
    ChangeSays(before, after, c, target);
  }

  // ----- Safety controls -----

  /** Some key on the way names a safety control. */
  ghost predicate IsSafetyPath(path: seq<string>) {
    exists i :: 0 <= i < |path| && path[i] in
      {"hostNetwork", "hostPID", "hostIPC", "hostPath", "privileged", "runAsUser", "runAsNonRoot",
       "serviceAccountName", "allowPrivilegeEscalation", "capabilities"}
  }

  lemma SafetyPathStep(path: seq<string>)
    requires path != []
    ensures IsSafetyPath(path) <==> path[0] in SafetyKeys || IsSafetyPath(path[1..])
  {
    if i :| 0 <= i < |path[1..]| && path[1..][i] in SafetyKeys {
      assert path[i + 1] in SafetyKeys;
    }
    if i :| 0 <= i < |path| && path[i] in SafetyKeys && i > 0 {
      assert path[1..][i - 1] in SafetyKeys;
    }
  }

  lemma {:induction false} SafetyItemsAre(items: seq<Json>)
    ensures forall x :: x in SafetyItems(items) <==>
              !IsEmpty(x) && exists i :: 0 <= i < |items| && x == ExtractSafety(items[i])
  {
    hide ExtractSafety, IsEmpty;
    if items != [] {
      var init, last := items[..|items| - 1], items[|items| - 1];
      SafetyItemsAre(init);
      assert forall i :: 0 <= i < |init| ==> init[i] == items[i];
      assert items[|items| - 1] == last;
    }
  }

  /** What is taken over of the part under a key, or of an item: nothing if it is empty. */
  ghost predicate Takes(v: Json, path: seq<string>, leaf: Json) {
    !IsEmpty(ExtractSafety(v)) && Holds(ExtractSafety(v), path, leaf)
  }

  /** For a part of which the claim below holds, nothing is lost by leaving it out when it is empty. */
  lemma TakesIff(v: Json, path: seq<string>, leaf: Json)
    requires || (IsLeaf(v) && path == [])
             || (Holds(ExtractSafety(v), path, leaf) <==> Holds(v, path, leaf) && IsSafetyPath(path))
    ensures Takes(v, path, leaf) <==> Holds(v, path, leaf) && IsSafetyPath(path)
  {}

  lemma FieldTaken(fields: map<string, Json>, path: seq<string>, leaf: Json)
    ensures Holds(ExtractSafety(Obj(fields)), path, leaf) <==>
              && path != [] && path[0] in fields
              && if path[0] in SafetyKeys then Holds(fields[path[0]], path[1..], leaf)
                 else Takes(fields[path[0]], path[1..], leaf)
    ensures Holds(Obj(fields), path, leaf) <==>
              path != [] && path[0] in fields && Holds(fields[path[0]], path[1..], leaf)
  {
    hide IsEmpty;
    FieldHeld(ExtractSafety(Obj(fields)), path, leaf);
    hide Holds;
    FieldHeld(Obj(fields), path, leaf);
  }

  lemma ItemsTaken(items: seq<Json>, path: seq<string>, leaf: Json)
    ensures Holds(ExtractSafety(Arr(items)), path, leaf)
        <==> exists i :: 0 <= i < |items| && Takes(items[i], path, leaf)
  {
    var taken := SafetyItems(items);
    assert ExtractSafety(Arr(items)) == Arr(taken);
    assert Holds(Arr(taken), path, leaf) <==> exists i :: 0 <= i < |taken| && Holds(taken[i], path, leaf);
    hide Holds, IsEmpty, ExtractSafety, SafetyItems;
    SafetyItemsAre(items);
    if i :| 0 <= i < |taken| && Holds(taken[i], path, leaf) {
      assert taken[i] in taken;
      var j :| 0 <= j < |items| && taken[i] == ExtractSafety(items[j]);
      assert Takes(items[j], path, leaf);
    }
    if j :| 0 <= j < |items| && Takes(items[j], path, leaf) {
      assert ExtractSafety(items[j]) in taken;
      var i :| 0 <= i < |taken| && taken[i] == ExtractSafety(items[j]);
    }
  }

  /** The safety part of a value is all that stands below the key of a safety control, and nothing else. */
  lemma {:induction false} SafetyLeaves(v: Json, path: seq<string>, leaf: Json)
    requires v.Obj? || v.Arr? || path != []
    ensures Holds(ExtractSafety(v), path, leaf) <==> Holds(v, path, leaf) && IsSafetyPath(path)
    decreases v
  {
    hide *;
    if v.Obj? {
      FieldTaken(v.fields, path, leaf);
      if path != [] && path[0] in v.fields {
        var inner, rest := v.fields[path[0]], path[1..];
        SafetyPathStep(path);
        if inner.Obj? || inner.Arr? || rest != [] {
          SafetyLeaves(inner, rest, leaf);
        } else {
          LeafIsLeaf(inner);
        }
        TakesIff(inner, rest, leaf);
      }
    } else if v.Arr? {
      ItemsTaken(v.items, path, leaf);
      forall i | 0 <= i < |v.items|
        ensures Takes(v.items[i], path, leaf) <==> Holds(v.items[i], path, leaf) && IsSafetyPath(path)
      {
        if v.items[i].Obj? || v.items[i].Arr? || path != [] {
          SafetyLeaves(v.items[i], path, leaf);
        } else {
          LeafIsLeaf(v.items[i]);
        }
        TakesIff(v.items[i], path, leaf);
      }
      ItemHeld(v.items, path, leaf);
    } else {
      OnlyItself(v, path, leaf);
    }
  }

  lemma LeafIsLeaf(v: Json)
    requires !v.Obj? && !v.Arr?
    ensures IsLeaf(v)
  {}

  lemma ItemHeld(items: seq<Json>, path: seq<string>, leaf: Json)
    ensures Holds(Arr(items), path, leaf) <==> exists i :: 0 <= i < |items| && Holds(items[i], path, leaf)
  {}

  lemma OnlyItself(v: Json, path: seq<string>, leaf: Json)
    requires !v.Obj? && !v.Arr? && path != []
    ensures !Holds(v, path, leaf) && !Holds(ExtractSafety(v), path, leaf)
  {}

  /** So a leaf that a safety control gained or lost shows in the safety part. */
  lemma SafetyChangeShows(before: Json, after: Json, path: seq<string>, leaf: Json)
    requires before.Obj? && after.Obj? && IsSafetyPath(path)
    requires Holds(before, path, leaf) != Holds(after, path, leaf)
    ensures ExtractSafety(before) != ExtractSafety(after)
  {
    hide *;
    SafetyLeaves(before, path, leaf);
    SafetyLeaves(after, path, leaf);
  }

  // ----- What is kept of a resource -----

  /** The first of the values that says anything, or the last of them. */
  ghost predicate IsFirstOf(value: Json, values: seq<Json>)
    requires values != []
  {
    exists k :: && 0 <= k < |values| && value == values[k]
                && (forall j :: 0 <= j < k ==> !Truthy(values[j]))
                && (k == |values| - 1 || Truthy(values[k]))
  }

  /** What the comparison of health looks at, and where each part of it is read. */
  lemma HealthSays(status: Json, summary: Json)
    ensures var health := HealthSignature(status, summary);
            && health.Obj? && health.fields.Keys == {"phase", "ready", "replicas", "restarts"}
            && IsFirstOf(health.fields["phase"],
                         [Get(status, "phase"), Get(summary, "phase"), Get(summary, "status")])
            && IsFirstOf(health.fields["ready"],
                         [Get(summary, "ready"), Get(summary, "ready_replicas"), Get(status, "readyReplicas")])
            && IsFirstOf(health.fields["replicas"], [Get(summary, "replicas"), Get(status, "replicas")])
            && IsFirstOf(health.fields["restarts"], [Get(summary, "restarts"), Get(summary, "restart_count")])
  {
    hide Truthy, Get, IsFirstOf;
    FirstOfThree(Get(status, "phase"), Get(summary, "phase"), Get(summary, "status"));
    FirstOfThree(Get(summary, "ready"), Get(summary, "ready_replicas"), Get(status, "readyReplicas"));
    FirstOfTwo(Get(summary, "replicas"), Get(status, "replicas"));
    FirstOfTwo(Get(summary, "restarts"), Get(summary, "restart_count"));
  }

  lemma FirstOfTwo(a: Json, b: Json)
    ensures IsFirstOf(Or(a, b), [a, b])
  {
    hide Truthy;
    assert [a, b][0] == a && [a, b][1] == b;
  }

  lemma FirstOfThree(a: Json, b: Json, c: Json)
    ensures IsFirstOf(Or(Or(a, b), c), [a, b, c])
  {
    hide Truthy;
    assert [a, b, c][0] == a && [a, b, c][1] == b && [a, b, c][2] == c;
  }

  /**
   * What the baseline keeps of a resource: its canonical form without the summary, the safety part
   * of that, its health, and the Helm release and revision it names.
   */
  lemma RowSays(d: Canonical.Dumper, repr: Json -> string, resource: Json, target: string)
    requires resource.Obj?
    ensures var row := RowOf(d, repr, resource, target);
            var metadata, summary := Get(resource, "metadata"), Get(resource, "summary");
            var annotations, labels := Get(metadata, "annotations"), Get(metadata, "labels");
            && row.kind == (if Truthy(Get(resource, "kind")) then TextOf(repr, Get(resource, "kind")) else "Unknown")
            && row.namespace == (if Truthy(Get(metadata, "namespace")) then TextOf(repr, Get(metadata, "namespace"))
                                 else target)
            && row.health == HealthSignature(Get(resource, "status"), summary)
            && row.safety == ExtractSafety(row.canonical)
            && (exists declared: map<string, Json> :: row.canonical == Canonical.CanonicalObject(d, Obj(declared))
                  && declared.Keys == resource.fields.Keys - {"summary"}
                  && forall k :: k in declared ==> declared[k] == resource.fields[k])
            && IsFirstOf(row.helmRelease, [Get(annotations, "meta.helm.sh/release-name"),
                                           Get(labels, "app.kubernetes.io/instance"), Get(summary, "release")])
            && exists revision ::
                 && IsFirstOf(revision, [Get(annotations, "meta.helm.sh/release-revision"), Get(summary, "revision"),
                                         Get(summary, "helm_revision")])
                 && row.helmRevision == if revision == Null then None else Some(TextOf(repr, revision))
  {
    hide IsFirstOf, HealthSignature, ExtractSafety, Canonical.CanonicalObject;
    var metadata, summary := Get(resource, "metadata"), Get(resource, "summary");
    var annotations, labels := Get(metadata, "annotations"), Get(metadata, "labels");
    FirstOfThree(Get(annotations, "meta.helm.sh/release-name"), Get(labels, "app.kubernetes.io/instance"),
                 Get(summary, "release"));
    FirstOfThree(Get(annotations, "meta.helm.sh/release-revision"), Get(summary, "revision"),
                 Get(summary, "helm_revision"));
    var declared := resource.fields - {"summary"};
    assert RowOf(d, repr, resource, target).canonical == Canonical.CanonicalObject(d, Obj(declared));
  }
}
