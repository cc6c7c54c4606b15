/**
 * The comparison of a namespace with its stored baseline (namespace_twin/drift_twin.py). A hash is
 * represented by the value that was hashed.
 */
module Drift {
  import opened Options
  import opened Json
  import opened Text
  import Canonical

  // One resource as the baseline keeps it.
  datatype Row = Row(kind: string, namespace: string, canonical: Json, health: Json, safety: Json,
                     helmRelease: Json, helmRevision: Option<string>)

  datatype Baseline = Baseline(capturedAt: int, available: bool, resources: map<string, Row>, threshold: int)

  datatype Level = NoDrift | Minor | Major | Critical | Unknown

  function Rank(l: Level): nat {
    match l
    case NoDrift => 0
    case Minor => 1
    case Major => 2
    case Critical => 3
    case Unknown => 4
  }

  datatype ChangeType = Created | Deleted | Updated | StatusOnly

  datatype Change = Change(identity: string, changeType: ChangeType, classification: Level,
                           helmRevision: bool, manualPatch: bool)

  datatype Counts = Counts(total: nat, minor: nat, major: nat, critical: nat, unknown: nat)

  datatype Assessment = Assessment(status: Level, stale: bool, age: nat, changes: seq<Change>, counts: Counts,
                                   material: bool, executionDisabled: bool, decisionInvalidated: bool)

  const DefaultThreshold := 900

  const ClusterScopedKinds :=
    {"ClusterRole", "ClusterRoleBinding", "CustomResourceDefinition", "Namespace", "Node", "PersistentVolume",
     "StorageClass", "MutatingWebhookConfiguration", "ValidatingWebhookConfiguration"}

  const WorkloadKinds := {"Deployment", "StatefulSet", "DaemonSet", "Job", "CronJob", "Pod"}
  const RoleKinds := {"Role", "RoleBinding", "ClusterRole", "ClusterRoleBinding"}
  const SafetyKeys :=
    {"hostNetwork", "hostPID", "hostIPC", "hostPath", "privileged", "runAsUser", "runAsNonRoot",
     "serviceAccountName", "allowPrivilegeEscalation", "capabilities"}

  // ----- Capturing -----

  function HealthSignature(status: Json, summary: Json): Json {
    Obj(map[
      "phase" := Or(Or(Get(status, "phase"), Get(summary, "phase")), Get(summary, "status")),
      "ready" := Or(Or(Get(summary, "ready"), Get(summary, "ready_replicas")), Get(status, "readyReplicas")),
      "replicas" := Or(Get(summary, "replicas"), Get(status, "replicas")),
      "restarts" := Or(Get(summary, "restarts"), Get(summary, "restart_count"))])
  }

  predicate IsEmpty(v: Json) {
    v == Null || v == Arr([]) || v == Obj(map[])
  }

  /** The parts of a value that concern safety controls. */
  function ExtractSafety(v: Json): Json
    decreases v, 1
  {
    match v
    case Obj(fields) =>
      Obj(map k | k in fields && (k in SafetyKeys || !IsEmpty(ExtractSafety(fields[k]))) ::
            if k in SafetyKeys then fields[k] else ExtractSafety(fields[k]))
    case Arr(items) => Arr(SafetyItems(items))
    case _ => Null
  }

  function SafetyItems(items: seq<Json>): seq<Json>
    decreases items, 0
  {
    if items == [] then []
    else
      var last := ExtractSafety(items[|items| - 1]);
      SafetyItems(items[..|items| - 1]) + if IsEmpty(last) then [] else [last]
  }

  function RowOf(d: Canonical.Dumper, repr: Json -> string, resource: Json, targetNamespace: string): Row
    requires resource.Obj?
  {
    var canonical := Canonical.CanonicalObject(d, Obj(resource.fields - {"summary"}));
    var metadata, summary := Get(resource, "metadata"), Get(resource, "summary");
    var annotations, labels := Get(metadata, "annotations"), Get(metadata, "labels");
    var revision := Or(Or(Get(annotations, "meta.helm.sh/release-revision"), Get(summary, "revision")),
                       Get(summary, "helm_revision"));
    Row(TextOr(repr, Get(resource, "kind"), "Unknown"),
        TextOr(repr, Get(metadata, "namespace"), targetNamespace),
        canonical, HealthSignature(Get(resource, "status"), summary), ExtractSafety(canonical),
        Or(Or(Get(annotations, "meta.helm.sh/release-name"), Get(labels, "app.kubernetes.io/instance")),
           Get(summary, "release")),
        if revision == Null then None else Some(TextOf(repr, revision)))
  }

  /** The row kept under an identity: that of the last resource with it. */
  function LastRow(d: Canonical.Dumper, repr: Json -> string, resources: seq<Json>, target: string,
      id: string): Option<Row>
    requires forall r :: r in resources ==> r.Obj?
  {
    if resources == [] then None
    else if Canonical.ResourceIdentity(repr, resources[|resources| - 1], target) == id then
      Some(RowOf(d, repr, resources[|resources| - 1], target))
    else LastRow(d, repr, resources[..|resources| - 1], target, id)
  }

  method ResourceMap(d: Canonical.Dumper, repr: Json -> string, resources: seq<Json>, target: string)
    returns (rows: map<string, Row>)
    requires forall r :: r in resources ==> r.Obj?
    ensures forall id :: LastRow(d, repr, resources, target, id)
                      == if id in rows then Some(rows[id]) else None
  {
    hide RowOf, Canonical.ResourceIdentity;
    rows := map[];
    for i := 0 to |resources|
      invariant forall id :: LastRow(d, repr, resources[..i], target, id) == if id in rows then Some(rows[id]) else None
    {
      assert resources[..i + 1][..i] == resources[..i];
      rows := rows[Canonical.ResourceIdentity(repr, resources[i], target) := RowOf(d, repr, resources[i], target)];
    }
    assert resources[..|resources|] == resources;
  }

  /** A baseline: the resources by identity, with a freshness threshold of at least one second. */
  method CaptureBaseline(d: Canonical.Dumper, repr: Json -> string, resources: seq<Json>, available: bool,
                         capturedAt: int, target: string, threshold: int) returns (b: Baseline)
    requires forall r :: r in resources ==> r.Obj?
    ensures b.capturedAt == capturedAt && b.available == available
        && b.threshold == if threshold < 1 then 1 else threshold
    ensures forall id :: LastRow(d, repr, resources, target, id) == At(b.resources, id)
  {
    hide RowOf, Canonical.ResourceIdentity;
    var rows := ResourceMap(d, repr, resources, target);
    b := Baseline(capturedAt, available, rows, if threshold < 1 then 1 else threshold);
  }

  // ----- One change -----

  function ChangeOf(id: string, before: Option<Row>, after: Option<Row>, changeType: ChangeType, target: string): Change
    requires before.Some? || after.Some?
  {
    var sample := if after.Some? then after.value else before.value;
    var both := before.Some? && after.Some?;
    var outside := sample.namespace != "" && sample.namespace != target;
    var boundary := sample.kind in ClusterScopedKinds || outside || sample.kind == "Secret";
    var revision := both && before.value.helmRevision != after.value.helmRevision;
    var safety := (both && before.value.safety != after.value.safety) || sample.kind in RoleKinds;
    var manual := (changeType == Created || changeType == Updated) && !Truthy(sample.helmRelease);
    var classification :=
      if boundary || safety then Critical
      else if changeType == Deleted || revision || sample.kind in WorkloadKinds then Major
      else Minor;
    Change(id, changeType, classification, revision, manual)
  }

  function At(rows: map<string, Row>, id: string): Option<Row> {
    if id in rows then Some(rows[id]) else None
  }

  /** Presence, canonical form or health differ. */
  predicate Differs(before: map<string, Row>, after: map<string, Row>, id: string) {
    || (id in before) != (id in after)
    || (id in before && id in after
        && (before[id].canonical != after[id].canonical || before[id].health != after[id].health))
  }

  function TypeOf(before: map<string, Row>, after: map<string, Row>, id: string): ChangeType
    requires id in before || id in after
  {
    if id !in before then Created
    else if id !in after then Deleted
    else if before[id].canonical != after[id].canonical then Updated
    else StatusOnly
  }

  // ----- The assessment -----

  function ChangeAt(before: map<string, Row>, after: map<string, Row>, id: string, target: string): Change
    requires Differs(before, after, id)
  {
    ChangeOf(id, At(before, id), At(after, id), TypeOf(before, after, id), target)
  }

  predicate IsChange(before: map<string, Row>, after: map<string, Row>, c: Change, target: string) {
    Differs(before, after, c.identity) && c == ChangeAt(before, after, c.identity, target)
  }

  predicate InIdentityOrder(changes: seq<Change>) {
    forall i, j :: 0 <= i < j < |changes| ==>
      Leq(changes[i].identity, changes[j].identity) && changes[i].identity != changes[j].identity
  }

  /** The changes are the differences, each reported once, in the order of the identities. */
  ghost predicate ChangesAreExact(before: map<string, Row>, after: map<string, Row>, changes: seq<Change>,
      target: string) {
    && (forall c :: c in changes ==> IsChange(before, after, c, target))
    && (forall id :: Differs(before, after, id) ==> exists c :: c in changes && c.identity == id)
    && InIdentityOrder(changes)
  }

  /** The differences among the given identities, in their order. */
  function ChangesAmong(before: map<string, Row>, after: map<string, Row>, ids: seq<string>,
      target: string): seq<Change> {
    if ids == [] then []
    else
      var id := ids[|ids| - 1];
      ChangesAmong(before, after, ids[..|ids| - 1], target)
      + if Differs(before, after, id) then [ChangeAt(before, after, id, target)] else []
  }

  lemma {:induction false} AmongIsExact(before: map<string, Row>, after: map<string, Row>, ids: seq<string>,
      target: string)
    requires Sorted(ids)
    ensures var changes := ChangesAmong(before, after, ids, target);
            && (forall c :: c in changes ==> IsChange(before, after, c, target) && c.identity in ids)
            && (forall id :: id in ids && Differs(before, after, id) ==> exists c :: c in changes && c.identity == id)
            && InIdentityOrder(changes)
  {
    hide Leq, ChangeOf, Differs, TypeOf;
    DiffersOnlyWherePresent(before, after);
    if ids != [] {
      var init, id := ids[..|ids| - 1], ids[|ids| - 1];
      AmongIsExact(before, after, init, target);
      assert ids == init + [id];
      if Differs(before, after, id) {
        ChangeKeepsIdentity(id, At(before, id), At(after, id), TypeOf(before, after, id), target);
        var earlier, changes := ChangesAmong(before, after, init, target), ChangesAmong(before, after, ids, target);
        assert changes[|earlier|].identity == id && changes[|earlier|] in changes;
        forall c | c in earlier ensures Leq(c.identity, id) && c.identity != id && c in changes {
          var j :| 0 <= j < |init| && init[j] == c.identity;
          assert ids[j] == c.identity;
        }
      }
    }
  }

  /** The comparison of one identity. */
  method CompareOne(before: map<string, Row>, after: map<string, Row>, id: string, target: string)
      returns (found: seq<Change>)
    requires id in before || id in after
    ensures found == if Differs(before, after, id) then [ChangeAt(before, after, id, target)] else []
  {
    hide ChangeOf;
    var oldRow, newRow := At(before, id), At(after, id);
    if oldRow.None? {
      found := [ChangeOf(id, None, newRow, Created, target)];
    } else if newRow.None? {
      found := [ChangeOf(id, oldRow, None, Deleted, target)];
    } else if oldRow.value.canonical != newRow.value.canonical {
      found := [ChangeOf(id, oldRow, newRow, Updated, target)];
    } else if oldRow.value.health != newRow.value.health {
      found := [ChangeOf(id, oldRow, newRow, StatusOnly, target)];
    } else {
      found := [];
    }
  }

  method CollectChanges(before: map<string, Row>, after: map<string, Row>, target: string)
      returns (changes: seq<Change>)
    ensures ChangesAreExact(before, after, changes, target)
  {
    hide Leq, ChangeOf, TypeOf, Differs, IsChange, InIdentityOrder, SortedKeys;
    changes := [];
    var ids := SortKeys(before.Keys + after.Keys);
    for i := 0 to |ids|
      invariant changes == ChangesAmong(before, after, ids[..i], target)
    {
      assert ids[..i + 1][..i] == ids[..i];
      assert ids[i] in before.Keys + after.Keys;
      var found := CompareOne(before, after, ids[i], target);
      changes := changes + found;
    }
    assert ids[..|ids|] == ids;
    AmongIsExact(before, after, ids, target);
    DiffersOnlyWherePresent(before, after);
  }

  lemma DiffersOnlyWherePresent(before: map<string, Row>, after: map<string, Row>)
    ensures forall id :: Differs(before, after, id) ==> id in before.Keys + after.Keys
  {}

  lemma ChangeKeepsIdentity(id: string, before: Option<Row>, after: Option<Row>, changeType: ChangeType, target: string)
    requires before.Some? || after.Some?
    ensures ChangeOf(id, before, after, changeType, target).identity == id
    ensures ChangeOf(id, before, after, changeType, target).classification in {Minor, Major, Critical}
  {}

  function CountOf(changes: seq<Change>, l: Level): nat {
    if changes == [] then 0
    else CountOf(changes[..|changes| - 1], l) + if changes[|changes| - 1].classification == l then 1 else 0
  }

  lemma {:induction false} CountsAddUp(changes: seq<Change>)
    requires forall c :: c in changes ==> c.classification in {Minor, Major, Critical}
    ensures CountOf(changes, Minor) + CountOf(changes, Major) + CountOf(changes, Critical) == |changes|
    ensures CountOf(changes, Unknown) == 0
  {
    if changes != [] {
      assert forall c :: c in changes[..|changes| - 1] ==> c in changes;
      CountsAddUp(changes[..|changes| - 1]);
    }
  }

  /** The counting loop and the gates of every assessment. */
  method Assess(changes: seq<Change>, status: Level, stale: bool, age: nat, invalidated: bool) returns (a: Assessment)
    ensures a.status == status && a.stale == stale && a.age == age && a.changes == changes
    ensures a.decisionInvalidated == invalidated
    ensures a.counts == Counts(|changes|, CountOf(changes, Minor), CountOf(changes, Major),
                               CountOf(changes, Critical), CountOf(changes, Unknown))
    ensures a.material <==> status == Major || status == Critical
    ensures a.executionDisabled <==> status in {Major, Critical, Unknown} || stale
  {
    var minor, major, critical, unknown := 0, 0, 0, 0;
    for i := 0 to |changes|
      invariant minor == CountOf(changes[..i], Minor) && major == CountOf(changes[..i], Major)
      invariant critical == CountOf(changes[..i], Critical) && unknown == CountOf(changes[..i], Unknown)
    {
      assert changes[..i + 1][..i] == changes[..i];
      match changes[i].classification
      case Minor => minor := minor + 1;
      case Major => major := major + 1;
      case Critical => critical := critical + 1;
      case Unknown => unknown := unknown + 1;
      case NoDrift =>
    }
    assert changes[..|changes|] == changes;
    var material := status == Major || status == Critical;
    a := Assessment(status, stale, age, changes, Counts(|changes|, minor, major, critical, unknown),
                    material, material || status == Unknown || stale, invalidated);
  }

  /** status is the highest classification of the changes; none at all counts as no drift. */
  ghost predicate IsHighest(status: Level, changes: seq<Change>) {
    && (forall c :: c in changes ==> Rank(c.classification) <= Rank(status))
    && (status == NoDrift || exists c :: c in changes && c.classification == status)
  }

  method HighestLevel(changes: seq<Change>) returns (status: Level)
    ensures IsHighest(status, changes)
  {
    status := NoDrift;
    for i := 0 to |changes|
      invariant IsHighest(status, changes[..i])
    {
      assert changes[..i + 1] == changes[..i] + [changes[i]];
      if Rank(changes[i].classification) > Rank(status) {
        status := changes[i].classification;
      }
    }
    assert changes[..|changes|] == changes;
  }

  function Age(baseline: Baseline, capturedAt: int): nat {
    if capturedAt <= baseline.capturedAt then 0 else capturedAt - baseline.capturedAt
  }

  function Threshold(baseline: Baseline): int {
    if baseline.threshold == 0 then DefaultThreshold else baseline.threshold
  }

  /**
   * The whole comparison of a baseline with a current capture. Without evidence on both sides the
   * answer is unknown; otherwise the changes are exactly the differences and the status is their
   * highest level, where a stale baseline is at least a minor finding.
   */
  method AssessDrift(baseline: Baseline, current: Baseline, target: string) returns (a: Assessment)
    ensures a.age == if current.capturedAt > baseline.capturedAt then current.capturedAt - baseline.capturedAt else 0
    ensures a.stale <==> a.age > if baseline.threshold == 0 then 900 else baseline.threshold
    ensures !baseline.available || !current.available ==>
              a.status == Unknown && a.changes == [] && !a.decisionInvalidated
    ensures baseline.available && current.available ==>
              && ChangesAreExact(baseline.resources, current.resources, a.changes, target)
              && (exists highest :: IsHighest(highest, a.changes)
                    && a.status == if highest == NoDrift && a.stale then Minor else highest)
              && (a.decisionInvalidated <==> a.material)
    ensures a.material <==> a.status == Major || a.status == Critical
    ensures a.executionDisabled <==> a.status in {Major, Critical, Unknown} || a.stale
    ensures a.counts.total == |a.changes| == a.counts.minor + a.counts.major + a.counts.critical
    ensures a.counts.unknown == 0
  {
    hide Leq, ChangeOf, IsHighest;
    var age := Age(baseline, current.capturedAt);
    var stale := age > Threshold(baseline);
    if !baseline.available || !current.available {
      a := Assess([], Unknown, stale, age, false);
      return;
    }
    var changes := CollectChanges(baseline.resources, current.resources, target);
    var highest := HighestLevel(changes);
    var status := highest;
    if stale && status == NoDrift {
      status := Minor;
    }
    a := Assess(changes, status, stale, age, status == Major || status == Critical);
    forall c | c in changes ensures c.classification in {Minor, Major, Critical} {
      ChangeKeepsIdentity(c.identity, At(baseline.resources, c.identity), At(current.resources, c.identity),
                          TypeOf(baseline.resources, current.resources, c.identity), target);
    }
    CountsAddUp(changes);
  }

  // ----- What the assessment means -----

  /** The changes are determined by the two snapshots: no other list is exact. */
  lemma ChangesAreUnique(before: map<string, Row>, after: map<string, Row>, a: seq<Change>, b: seq<Change>,
      target: string)
    requires ChangesAreExact(before, after, a, target) && ChangesAreExact(before, after, b, target)
    ensures a == b
  {
    hide Leq, ChangeOf, Differs, TypeOf;
    var ia, ib := seq(|a|, i requires 0 <= i < |a| => a[i].identity),
        seq(|b|, i requires 0 <= i < |b| => b[i].identity);
    forall id ensures id in ia <==> id in ib {
      if id in ia {
        var i :| 0 <= i < |ia| && ia[i] == id;
        assert a[i] in a;
        var c :| c in b && c.identity == id;
        var j :| 0 <= j < |b| && b[j] == c;
        assert ib[j] == id;
      }
      if id in ib {
        var i :| 0 <= i < |ib| && ib[i] == id;
        assert b[i] in b;
        var c :| c in a && c.identity == id;
        var j :| 0 <= j < |a| && a[j] == c;
        assert ia[j] == id;
      }
    }
    SortedIsUnique(ia, ib);
    assert |a| == |b|;
    forall i | 0 <= i < |a| ensures a[i] == b[i] {
      assert a[i] in a && b[i] in b && ia[i] == ib[i];
    }
  }

  /** A snapshot compared with itself shows no change. */
  lemma NothingChangedInItself(rows: map<string, Row>, changes: seq<Change>, target: string)
    requires ChangesAreExact(rows, rows, changes, target)
    ensures changes == []
  {
    assert ChangesAreExact(rows, rows, [], target);
    ChangesAreUnique(rows, rows, changes, [], target);
  }

  /** Drift is reported exactly when the two snapshots differ somewhere. */
  lemma DriftIffDifferent(before: map<string, Row>, after: map<string, Row>, changes: seq<Change>, target: string,
      highest: Level)
    requires ChangesAreExact(before, after, changes, target) && IsHighest(highest, changes)
    ensures highest == NoDrift <==> forall id :: !Differs(before, after, id)
  {
    hide Leq, ChangeOf;
    forall c | c in changes ensures Rank(c.classification) > Rank(NoDrift) {
      ChangeKeepsIdentity(c.identity, At(before, c.identity), At(after, c.identity),
                          TypeOf(before, after, c.identity), target);
    }
    if highest != NoDrift {
      var c :| c in changes && c.classification == highest;
      assert Differs(before, after, c.identity);
    }
  }
}
