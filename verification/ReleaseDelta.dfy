/**
 * The release delta between a live snapshot and a plan (namespace_twin/delta.py). Risks, reasons
 * and summaries of the rows are not part of the model.
 */
module ReleaseDelta {
  import opened Options
  import opened Json
  import Canonical
  import FieldChanges
  import Quantity
  import Text

  // A planned resource as stored with the twin.
  datatype Planned = Planned(stableIdentity: string, kind: string, path: string, stored: Json) {
    /** The stored manifest; anything but a dict counts as an empty one. */
    function Manifest(): (m: Json)
      ensures m.Obj?
    {
      if stored.Obj? then stored else Obj(map[])
    }
  }

  datatype Snapshot = Snapshot(
    resources: seq<Json>, available: bool, completeKinds: set<string>,
    helmInventoryAvailable: bool, installedReleases: set<string>, ignoredPrefixes: seq<string>)

  datatype Action = Create | Update | NoOp | UnknownAction | ImmutableConflict | ExplicitDelete

  datatype Row = Row(identity: string, kind: string, action: Action, current: Option<Json>,
                     planned: Option<Json>, changes: seq<FieldChanges.Change>)

  // The plan, the snapshot and the text conversions of one calculation.
  datatype Inputs = Inputs(
    d: Canonical.Dumper, repr: Json -> string, planned: seq<Planned>, snapshot: Snapshot,
    plannedInstalls: set<string>, targetNamespace: string, deleteRefs: seq<string>) {

    // ----- Which planned resources count -----

    /** The release a manifest says it belongs to, in lower case; empty if none. */
    function HelmRelease(manifest: Json): string {
      var metadata := Get(manifest, "metadata");
      var named := Or(Or(Get(Get(metadata, "annotations"), "meta.helm.sh/release-name"),
                         Get(Get(metadata, "labels"), "app.kubernetes.io/instance")),
                      Get(Get(metadata, "labels"), "release"));
      Text.Lower(Quantity.Strip(TextOr(repr, named, "")))
    }

    predicate IsIgnored(manifest: Json) {
      HelmRelease(manifest) != "" &&
      exists p :: p in snapshot.ignoredPrefixes && Text.Lower(p) <= HelmRelease(manifest)
    }

    predicate IsUninstalled(manifest: Json) {
      && snapshot.helmInventoryAvailable && HelmRelease(manifest) != ""
      && (forall r :: r in snapshot.installedReleases ==> Text.Lower(r) != HelmRelease(manifest))
      && (forall r :: r in plannedInstalls ==> Text.Lower(r) != HelmRelease(manifest))
    }

    predicate Skipped(p: Planned) {
      IsIgnored(p.Manifest()) || IsUninstalled(p.Manifest())
    }

    function Identity(p: Planned): string {
      if p.stableIdentity != "" then p.stableIdentity
      else Canonical.ResourceIdentity(repr, p.Manifest(), targetNamespace)
    }

    // ----- The live side -----

    /** The canonical form of the last live resource with an identity; only dicts count. */
    function LiveAmong(resources: seq<Json>, id: string): Option<Json> {
      if resources == [] then None
      else
        var last := resources[|resources| - 1];
        if last.Obj? && Canonical.ResourceIdentity(repr, last, targetNamespace) == id
        then Some(Canonical.CanonicalObject(d, last))
        else LiveAmong(resources[..|resources| - 1], id)
    }

    function Live(id: string): Option<Json> {
      LiveAmong(snapshot.resources, id)
    }

    // ----- One row -----

    predicate IsFullManifest(v: Json) {
      Truthy(Get(v, "apiVersion")) && Truthy(Get(v, "kind")) && Truthy(Get(v, "metadata"))
    }

    function KindOf(p: Planned): string {
      if p.kind != "" then p.kind
      else TextOr(repr, Get(Canonical.CanonicalObject(d, p.Manifest()), "kind"), "Unknown")
    }

    /** What is said about a planned resource when no delete step names it. */
    ghost function PlannedRow(p: Planned): Row {
      var canonical := Canonical.CanonicalObject(d, p.Manifest());
      var current := Live(Identity(p));
      if current.None? then
        Row(Identity(p), KindOf(p),
            if snapshot.available && KindOf(p) in snapshot.completeKinds then Create else UnknownAction,
            current, Some(canonical), [])
      else if !IsFullManifest(current.value) then
        Row(Identity(p), KindOf(p), UnknownAction, current, Some(canonical), [])
      else
        var changes := FieldChanges.Changes(current.value, canonical, []);
        Row(Identity(p), KindOf(p),
            if changes == [] then NoOp
            else if FieldChanges.ImmutableConflict(KindOf(p), changes) then ImmutableConflict
            else Update,
            current, Some(canonical), changes)
    }

    function DeleteRow(p: Planned): Row {
      Row(p.stableIdentity, if p.kind != "" then p.kind else "Unknown", ExplicitDelete,
          Live(p.stableIdentity), None, [])
    }

    // ----- What the rows are about -----

    /** The planned resource that stands for an identity: the last one that is not skipped. */
    function WinnerAmong(ps: seq<Planned>, id: string): (r: Option<Planned>)
      ensures r.Some? ==> r.value in ps && !Skipped(r.value) && Identity(r.value) == id
      ensures r.None? ==> forall p :: p in ps && !Skipped(p) ==> Identity(p) != id
    {
      if ps == [] then None
      else
        var last := ps[|ps| - 1];
        if !Skipped(last) && Identity(last) == id then Some(last) else WinnerAmong(ps[..|ps| - 1], id)
    }

    /** The planned resource a manifest path stands for: the last one there that is not skipped. */
    function OwnerAmong(ps: seq<Planned>, path: string): (r: Option<Planned>)
      ensures r.Some? ==> r.value in ps && !Skipped(r.value) && r.value.path == path
    {
      if ps == [] then None
      else
        var last := ps[|ps| - 1];
        if !Skipped(last) && last.path == path then Some(last) else OwnerAmong(ps[..|ps| - 1], path)
    }

    /** A delete step names the manifest of a live resource with this identity. */
    predicate DeleteNames(id: string) {
      exists ref :: ref in deleteRefs && OwnerAmong(planned, ref).Some?
                    && OwnerAmong(planned, ref).value.stableIdentity == id && Live(id).Some?
    }

    // ----- Deduplication -----

    /** The row kept under an identity: the first deletion if there is one, else the last row. */
    function Kept(rows: seq<Row>, id: string): Option<Row> {
      if rows == [] then None
      else
        var before, last := Kept(rows[..|rows| - 1], id), rows[|rows| - 1];
        if last.identity != id || (before.Some? && before.value.action == ExplicitDelete) then before else Some(last)
    }

    method Deduplicate(rows: seq<Row>) returns (selected: map<string, Row>)
      ensures forall id :: Kept(rows, id) == if id in selected then Some(selected[id]) else None
    {
      selected := map[];
      for i := 0 to |rows|
        invariant forall id :: Kept(rows[..i], id) == if id in selected then Some(selected[id]) else None
      {
        assert rows[..i + 1][..i] == rows[..i];
        var row := rows[i];
        if !(row.identity in selected && selected[row.identity].action == ExplicitDelete) {
          selected := selected[row.identity := row];
        }
      }
      assert rows[..|rows|] == rows;
    }

    // ----- The calculation -----

    method LiveMap() returns (live: map<string, Json>)
      ensures forall id :: Live(id) == if id in live then Some(live[id]) else None
    {
      hide Canonical.CanonicalObject, Canonical.ResourceIdentity;
      live := map[];
      var all := snapshot.resources;
      for i := 0 to |all|
        invariant forall id :: LiveAmong(all[..i], id) == if id in live then Some(live[id]) else None
      {
        assert all[..i + 1][..i] == all[..i];
        if all[i].Obj? {
          var canonical := Canonical.CanonicalizeKubernetesObject(d, all[i]);
          live := live[Canonical.ResourceIdentity(repr, all[i], targetNamespace) := canonical];
        }
      }
      assert all[..|all|] == all;
    }

    method RowFor(p: Planned, live: map<string, Json>) returns (row: Row)
      requires forall id :: Live(id) == if id in live then Some(live[id]) else None
      ensures row == PlannedRow(p)
    {
      hide Canonical.CanonicalObject, Canonical.ResourceIdentity, FieldChanges.Changes,
          FieldChanges.ImmutableConflict, Live;
      var identity, kind := Identity(p), KindOf(p);
      var canonical := Canonical.CanonicalizeKubernetesObject(d, p.Manifest());
      if identity !in live {
        var action := if snapshot.available && kind in snapshot.completeKinds then Create else UnknownAction;
        row := Row(identity, kind, action, None, Some(canonical), []);
      } else if !IsFullManifest(live[identity]) {
        row := Row(identity, kind, UnknownAction, Some(live[identity]), Some(canonical), []);
      } else {
        var changes := FieldChanges.CollectChanges(live[identity], canonical, []);
        var action := Update;
        if changes == [] {
          action := NoOp;
        } else if FieldChanges.ImmutableConflict(kind, changes) {
          action := ImmutableConflict;
        }
        row := Row(identity, kind, action, Some(live[identity]), Some(canonical), changes);
      }
    }

    /** The rows of the planned resources, then those of the delete steps, in order. */
    ghost function PlannedRows(ps: seq<Planned>): seq<Row> {
      if ps == [] then []
      else PlannedRows(ps[..|ps| - 1]) + if Skipped(ps[|ps| - 1]) then [] else [PlannedRow(ps[|ps| - 1])]
    }

    function DeleteRows(refs: seq<string>): seq<Row> {
      if refs == [] then []
      else
        var owner := OwnerAmong(planned, refs[|refs| - 1]);
        DeleteRows(refs[..|refs| - 1])
        + if owner.Some? && Live(owner.value.stableIdentity).Some? then [DeleteRow(owner.value)] else []
    }

    /** The rows of the planned resources, and which resource each manifest path stands for. */
    method PlanRows(live: map<string, Json>) returns (rows: seq<Row>, plannedPaths: map<string, Planned>)
      requires forall id :: Live(id) == if id in live then Some(live[id]) else None
      ensures rows == PlannedRows(planned)
      ensures forall path :: OwnerAmong(planned, path) == if path in plannedPaths then Some(plannedPaths[path])
          else None
    {
      hide Skipped, PlannedRow, Live, Identity, Planned.Manifest;
      rows, plannedPaths := [], map[];
      for i := 0 to |planned|
        invariant rows == PlannedRows(planned[..i])
        invariant forall path :: OwnerAmong(planned[..i], path)
                              == if path in plannedPaths then Some(plannedPaths[path]) else None
      {
        assert planned[..i + 1][..i] == planned[..i];
        if !Skipped(planned[i]) {
          plannedPaths := plannedPaths[planned[i].path := planned[i]];
          var row := RowFor(planned[i], live);
          rows := rows + [row];
        }
      }
      assert planned[..|planned|] == planned;
    }

    method CalculateReleaseDelta() returns (delta: map<string, Row>)
      ensures forall id :: Kept(PlannedRows(planned) + DeleteRows(deleteRefs), id)
                        == if id in delta then Some(delta[id]) else None
    {
      hide Skipped, PlannedRow, Live, DeleteRow, Kept, OwnerAmong, PlannedRows, Identity;
      var live := LiveMap();
      var rows, plannedPaths := PlanRows(live);
      ghost var first := rows;
      for i := 0 to |deleteRefs|
        invariant rows == first + DeleteRows(deleteRefs[..i])
      {
        assert deleteRefs[..i + 1][..i] == deleteRefs[..i];
        assert OwnerAmong(planned, deleteRefs[i]).Some? <==> deleteRefs[i] in plannedPaths;
        if deleteRefs[i] in plannedPaths {
          var item := plannedPaths[deleteRefs[i]];
          if item.stableIdentity in live {
            rows := rows + [DeleteRow(item)];
          }
        }
      }
      assert deleteRefs[..|deleteRefs|] == deleteRefs;
      delta := Deduplicate(rows);
    }

    // ----- What the delta means -----

    lemma {:induction false} KeptOfPlanned(ps: seq<Planned>, id: string)
      ensures Kept(PlannedRows(ps), id)
           == if WinnerAmong(ps, id).Some? then Some(PlannedRow(WinnerAmong(ps, id).value)) else None
    {
      hide Skipped, PlannedRow, Identity, Kept, WinnerAmong;
      KeptOfNone(id);
      WinnerStep(ps, id);
      if ps != [] {
        var init, last := ps[..|ps| - 1], ps[|ps| - 1];
        KeptOfPlanned(init, id);
        PlannedIsNoDeletion(last);
        if WinnerAmong(init, id).Some? { PlannedIsNoDeletion(WinnerAmong(init, id).value); }
        KeptOneMore(PlannedRows(init), PlannedRow(last), id);
        assert PlannedRows(init) + [] == PlannedRows(init);
      }
    }

    lemma KeptOfNone(id: string)
      ensures Kept([], id) == None && WinnerAmong([], id) == None
    {
    }

    lemma WinnerStep(ps: seq<Planned>, id: string)
      ensures ps != [] ==>
                WinnerAmong(ps, id) == if !Skipped(ps[|ps| - 1]) && Identity(ps[|ps| - 1]) == id then Some(ps[|ps| - 1])
                                       else WinnerAmong(ps[..|ps| - 1], id)
    {
      hide Skipped, Identity;
    }

    lemma PlannedIsNoDeletion(p: Planned)
      ensures PlannedRow(p).action != ExplicitDelete && PlannedRow(p).identity == Identity(p)
    {
      hide Canonical.CanonicalObject, FieldChanges.Changes, FieldChanges.ImmutableConflict, Live;
    }

    /** Whether the first n delete references name a live resource with this identity. */
    predicate NamedAmong(refs: seq<string>, id: string) {
      exists ref :: ref in refs && OwnerAmong(planned, ref).Some?
                    && OwnerAmong(planned, ref).value.stableIdentity == id && Live(id).Some?
    }

    lemma NamedOneMore(refs: seq<string>, ref: string, id: string)
      ensures NamedAmong(refs + [ref], id) <==>
                || NamedAmong(refs, id)
                || (OwnerAmong(planned, ref).Some? && OwnerAmong(planned, ref).value.stableIdentity == id
                    && Live(id).Some?)
    {
      hide Live, OwnerAmong;
      assert ref in refs + [ref];
    }

    predicate IsDeletionOf(kept: Option<Row>, id: string) {
      kept.Some? && kept.value.action == ExplicitDelete && kept.value.identity == id && kept.value.current == Live(id)
    }

    lemma KeptOneMore(rows: seq<Row>, row: Row, id: string)
      ensures Kept(rows + [row], id)
           == if row.identity != id || (Kept(rows, id).Some? && Kept(rows, id).value.action == ExplicitDelete)
              then Kept(rows, id) else Some(row)
    {
      assert (rows + [row])[..|rows|] == rows;
    }

    lemma {:induction false} KeptWithDeletions(rows: seq<Row>, refs: seq<string>, id: string)
      requires Kept(rows, id).Some? ==> Kept(rows, id).value.action != ExplicitDelete
      ensures var kept := Kept(rows + DeleteRows(refs), id);
              if NamedAmong(refs, id) then IsDeletionOf(kept, id) else kept == Kept(rows, id)
    {
      hide Live, OwnerAmong, Kept, NamedAmong;
      if refs == [] {
        assert rows + DeleteRows(refs) == rows;
        NothingNamed(id);
      } else {
        var init, last := refs[..|refs| - 1], refs[|refs| - 1];
        KeptWithDeletions(rows, init, id);
        assert refs == init + [last];
        NamedOneMore(init, last, id);
        var owner := OwnerAmong(planned, last);
        if owner.Some? && Live(owner.value.stableIdentity).Some? {
          KeptOneMore(rows + DeleteRows(init), DeleteRow(owner.value), id);
          assert rows + DeleteRows(refs) == rows + DeleteRows(init) + [DeleteRow(owner.value)];
        } else {
          assert rows + DeleteRows(refs) == rows + DeleteRows(init);
        }
      }
    }

    lemma NothingNamed(id: string)
      ensures !NamedAmong([], id)
    {}

    /**
     * What the delta says about any identity: a deletion exactly when a delete step names a live
     * resource, otherwise the row of the planned resource that stands for it, otherwise nothing.
     */
    lemma DeltaOf(id: string)
      ensures var kept := Kept(PlannedRows(planned) + DeleteRows(deleteRefs), id);
              var winner := WinnerAmong(planned, id);
              if DeleteNames(id)
              then kept.Some? && kept.value.action == ExplicitDelete && kept.value.current == Live(id)
              else if winner.Some?
              then kept == Some(PlannedRow(winner.value))
                   && kept.value.action != ExplicitDelete
              else kept == None
    {
      hide PlannedRow, Live, Skipped;
      KeptOfPlanned(planned, id);
      if WinnerAmong(planned, id).Some? { PlannedIsNoDeletion(WinnerAmong(planned, id).value); }
      KeptWithDeletions(PlannedRows(planned), deleteRefs, id);
    }

    lemma {:induction false} LiveHasIdentity(resources: seq<Json>, id: string)
      ensures LiveAmong(resources, id).Some? ==> id != ""
    {
      if resources != [] {
        var last := resources[|resources| - 1];
        LiveHasIdentity(resources[..|resources| - 1], id);
        if last.Obj? && Canonical.ResourceIdentity(repr, last, targetNamespace) == id {
          assert |Canonical.ResourceIdentity(repr, last, targetNamespace)| >= 3;
        }
      }
    }

    /** Omission is never deletion: an identity has a row exactly when the plan has it, not skipped. */
    lemma RowsAreThePlanned(id: string)
      ensures Kept(PlannedRows(planned) + DeleteRows(deleteRefs), id).Some? <==>
                exists p :: p in planned && !Skipped(p) && Identity(p) == id
    {
      hide PlannedRow, Skipped, PlannedRows, DeleteRows, Kept;
      DeltaOf(id);
      LiveHasIdentity(snapshot.resources, id);
      if DeleteNames(id) {
        var ref :| ref in deleteRefs && OwnerAmong(planned, ref).Some?
                   && OwnerAmong(planned, ref).value.stableIdentity == id && Live(id).Some?;
        var owner := OwnerAmong(planned, ref).value;
        assert owner in planned && !Skipped(owner) && Identity(owner) == id;
      }
    }

    /** A version, a kind and metadata, none of them empty. */
    ghost predicate SaysWhatItIs(v: Json) {
      v.Obj? && forall key :: key in {"apiVersion", "kind", "metadata"} ==> key in v.fields && Truthy(v.fields[key])
    }

    /** The actions of planned rows: when each of them is given. */
    lemma PlannedActions(p: Planned)
      ensures var row := PlannedRow(p); var current := Live(Identity(p));
              && (row.action == Create <==> current.None? && snapshot.available && KindOf(p) in snapshot.completeKinds)
              && (row.action == NoOp <==>
                    && current.Some? && SaysWhatItIs(current.value)
                    && FieldChanges.Norm(current.value)
                        == FieldChanges.Norm(Canonical.CanonicalObject(d, p.Manifest())))
              && (row.action == UnknownAction <==>
                    if current.None? then !(snapshot.available && KindOf(p) in snapshot.completeKinds)
                    else !SaysWhatItIs(current.value))
              && (row.action == ImmutableConflict <==>
                    current.Some? && row.changes != [] && FieldChanges.ImmutableConflict(KindOf(p), row.changes))
    {
      hide Canonical.CanonicalObject, FieldChanges.Changes, FieldChanges.Norm, FieldChanges.ImmutableConflict, Live,
          KindOf;
      var current := Live(Identity(p));
      if current.Some? {
        FieldChanges.NoChangesIffEqual(current.value, Canonical.CanonicalObject(d, p.Manifest()), []);
      }
    }

    /** The changes of a row are enough to bring the live resource to the planned state. */
    lemma RowChangesGivePlanned(p: Planned)
      ensures var row := PlannedRow(p);
              row.action in {Update, ImmutableConflict, NoOp} ==>
                && row.current == Live(Identity(p)) != None
                    && row.planned == Some(Canonical.CanonicalObject(d, p.Manifest()))
                && FieldChanges.Below(row.changes, [])
                && FieldChanges.Norm(FieldChanges.Patch(row.current.value, 0, row.changes))
                    == FieldChanges.Norm(row.planned.value)
    {
      hide Canonical.CanonicalObject, FieldChanges.Changes, FieldChanges.Norm, FieldChanges.ImmutableConflict, Live,
          KindOf,
           FieldChanges.Patch, FieldChanges.Below;
      var current := Live(Identity(p));
      if current.Some? {
        FieldChanges.PatchGivesPlanned(current.value, Canonical.CanonicalObject(d, p.Manifest()), []);
      }
    }
  }
}
