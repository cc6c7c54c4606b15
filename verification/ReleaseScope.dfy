/**
 * Which planned and live resources a release delta (namespace_twin/delta.py) is about: when a
 * planned resource is left out for its Helm release, and which one of several stands for an
 * identity or a path.
 */
module ReleaseScope {
  import opened Options
  import opened Json
  import opened ReleaseDelta
  import Canonical
  import Quantity
  import Text

  // ----- The release a manifest belongs to -----

  /** What is left of a text without the white space around it. */
  ghost predicate IsTrimmed(text: string, r: string) {
    exists i, j :: 0 <= i <= j <= |text| && IsTrimmedAt(text, r, i, j)
  }

  ghost predicate IsTrimmedAt(text: string, r: string, i: nat, j: nat)
    requires i <= j <= |text|
  {
    && r == text[i..j]
    && (forall k :: 0 <= k < i || j <= k < |text| ==> Quantity.IsSpace(text[k]))
    && (r != "" ==> !Quantity.IsSpace(r[0]) && !Quantity.IsSpace(r[|r| - 1]))
  }

  lemma {:induction false} StripTrims(text: string) returns (i: nat, j: nat)
    ensures i <= j <= |text| && IsTrimmedAt(text, Quantity.Strip(text), i, j)
  {
    if text == "" {
      i, j := 0, 0;
    } else if Quantity.IsSpace(text[0]) {
      var a, b := StripTrims(text[1..]);
      i, j := a + 1, b + 1;
      assert text[1..][a..b] == text[i..j];
      assert forall k :: 0 < k < |text| ==> text[k] == text[1..][k - 1];
    } else if Quantity.IsSpace(text[|text| - 1]) {
      i, j := StripTrims(text[..|text| - 1]);
      assert text[..|text| - 1][i..j] == text[i..j];
    } else {
      i, j := 0, |text|;
      assert text[0..|text|] == text;
    }
  }

  /** The first of the three places that says anything. */
  ghost predicate NamesRelease(manifest: Json, value: Json) {
    var metadata := Get(manifest, "metadata");
    var annotated := Get(Get(metadata, "annotations"), "meta.helm.sh/release-name");
    var instance := Get(Get(metadata, "labels"), "app.kubernetes.io/instance");
    var release := Get(Get(metadata, "labels"), "release");
    && (Truthy(annotated) ==> value == annotated)
    && (!Truthy(annotated) && Truthy(instance) ==> value == instance)
    && (!Truthy(annotated) && !Truthy(instance) ==> value == release)
  }

  /** The name of the release, as it is written; empty if the manifest names none. */
  ghost predicate BelongsTo(repr: Json -> string, manifest: Json, name: string) {
    exists value :: NamesRelease(manifest, value)
                    && if Truthy(value) then IsTrimmed(TextOf(repr, value), name) else name == ""
  }

  /** The same text, whether letters are capital or small. */
  predicate SameName(a: string, b: string) {
    |a| == |b| && forall i :: 0 <= i < |a| ==> Small(a[i]) == Small(b[i])
  }

  function Small(c: char): char {
    if 'A' <= c <= 'Z' then 'a' + (c - 'A') else c
  }

  predicate StartsWith(name: string, prefix: string) {
    |prefix| <= |name| && SameName(name[..|prefix|], prefix)
  }

  lemma LowerIsSmall(s: string)
    ensures |Text.Lower(s)| == |s| && forall i :: 0 <= i < |s| ==> Text.Lower(s)[i] == Small(s[i])
  {
    Text.LowerAt(s);
  }

  lemma SameNameIff(a: string, b: string)
    ensures Text.Lower(a) == Text.Lower(b) <==> SameName(a, b)
    ensures Text.Lower(b) <= Text.Lower(a) <==> StartsWith(a, b)
  {
    hide Text.Lower;
    LowerIsSmall(a);
    LowerIsSmall(b);
    var x, y := Text.Lower(a), Text.Lower(b);
    if |b| <= |a| {
      assert y <= x <==> forall i :: 0 <= i < |b| ==> x[i] == y[i];
      assert forall i :: 0 <= i < |b| ==> a[..|b|][i] == a[i];
    }
  }

  /**
   * A planned resource is left out exactly when it names a release, and the release is one to be
   * ignored or, where the installed releases are known, neither installed nor to be installed.
   */
  lemma SkippedIff(inputs: Inputs, p: Planned) returns (name: string)
    ensures BelongsTo(inputs.repr, p.Manifest(), name)
    ensures inputs.Skipped(p) <==>
              && name != ""
              && (|| (exists prefix :: prefix in inputs.snapshot.ignoredPrefixes && StartsWith(name, prefix))
                  || (&& inputs.snapshot.helmInventoryAvailable
                      && (forall r :: r in inputs.snapshot.installedReleases ==> !SameName(name, r))
                      && (forall r :: r in inputs.plannedInstalls ==> !SameName(name, r))))
  {
    hide Text.Lower, SameName, StartsWith;
    var manifest := p.Manifest();
    var value := ReleaseValue(manifest);
    name := if Truthy(value) then Quantity.Strip(TextOf(inputs.repr, value)) else "";
    NameIsRead(inputs.repr, manifest, value, name);
    assert inputs.HelmRelease(manifest) == Text.Lower(name) by { ReleaseIsName(inputs, manifest, value); }
    LowerIsSmall(name);
    forall r ensures (Text.Lower(r) == Text.Lower(name) <==> SameName(name, r))
                     && (Text.Lower(r) <= Text.Lower(name) <==> StartsWith(name, r)) {
      SameNameIff(name, r);
    }
    hide Inputs.HelmRelease;
    assert inputs.IsIgnored(manifest) <==> name != "" && exists prefix :: prefix in inputs.snapshot.ignoredPrefixes
                                                                          && StartsWith(name, prefix);
  }

  function ReleaseValue(manifest: Json): Json {
    var metadata := Get(manifest, "metadata");
    Or(Or(Get(Get(metadata, "annotations"), "meta.helm.sh/release-name"),
          Get(Get(metadata, "labels"), "app.kubernetes.io/instance")),
       Get(Get(metadata, "labels"), "release"))
  }

  lemma ReleaseIsName(inputs: Inputs, manifest: Json, value: Json)
    requires value == ReleaseValue(manifest)
    ensures inputs.HelmRelease(manifest)
         == Text.Lower(if Truthy(value) then Quantity.Strip(TextOf(inputs.repr, value)) else "")
  {
    hide Text.Lower;
    assert Quantity.Strip("") == "";
  }

  lemma NameIsRead(repr: Json -> string, manifest: Json, value: Json, name: string)
    requires value == ReleaseValue(manifest)
    requires name == if Truthy(value) then Quantity.Strip(TextOf(repr, value)) else ""
    ensures BelongsTo(repr, manifest, name)
  {
    hide Quantity.Strip;
    assert NamesRelease(manifest, value);
    if Truthy(value) {
      var i, j := StripTrims(TextOf(repr, value));
      assert IsTrimmed(TextOf(repr, value), name);
    }
  }

  // ----- Which one counts -----

  /** The k-th planned resource stands for the identity: it counts, and none after it that counts has it. */
  ghost predicate IsLastFor(inputs: Inputs, ps: seq<Planned>, id: string, k: nat) {
    && k < |ps| && !inputs.Skipped(ps[k]) && inputs.Identity(ps[k]) == id
    && forall j :: k < j < |ps| ==> inputs.Skipped(ps[j]) || inputs.Identity(ps[j]) != id
  }

  lemma {:induction false} WinnerIsLast(inputs: Inputs, ps: seq<Planned>, id: string)
    ensures inputs.WinnerAmong(ps, id).Some?
        ==> exists k: nat :: IsLastFor(inputs, ps, id, k) && ps[k] == inputs.WinnerAmong(ps, id).value
    ensures inputs.WinnerAmong(ps, id).None? ==> forall p :: p in ps ==> inputs.Skipped(p) || inputs.Identity(p) != id
  {
    hide Inputs.Skipped, Inputs.Identity;
    if ps != [] {
      var init, last := ps[..|ps| - 1], ps[|ps| - 1];
      if !inputs.Skipped(last) && inputs.Identity(last) == id {
        assert IsLastFor(inputs, ps, id, |ps| - 1);
      } else {
        WinnerIsLast(inputs, init, id);
        if k: nat :| IsLastFor(inputs, init, id, k) && Some(init[k]) == inputs.WinnerAmong(init, id) {
          assert IsLastFor(inputs, ps, id, k);
        }
      }
    }
  }

  /** The k-th planned resource stands for the path. */
  ghost predicate IsLastAt(inputs: Inputs, ps: seq<Planned>, path: string, k: nat) {
    && k < |ps| && !inputs.Skipped(ps[k]) && ps[k].path == path
    && forall j :: k < j < |ps| ==> inputs.Skipped(ps[j]) || ps[j].path != path
  }

  lemma {:induction false} OwnerIsLast(inputs: Inputs, ps: seq<Planned>, path: string)
    ensures inputs.OwnerAmong(ps, path).Some?
        ==> exists k: nat :: IsLastAt(inputs, ps, path, k) && ps[k] == inputs.OwnerAmong(ps, path).value
    ensures inputs.OwnerAmong(ps, path).None? ==> forall p :: p in ps ==> inputs.Skipped(p) || p.path != path
  {
    hide Inputs.Skipped;
    if ps != [] {
      var init, last := ps[..|ps| - 1], ps[|ps| - 1];
      if !inputs.Skipped(last) && last.path == path {
        assert IsLastAt(inputs, ps, path, |ps| - 1);
      } else {
        OwnerIsLast(inputs, init, path);
        if k: nat :| IsLastAt(inputs, init, path, k) && Some(init[k]) == inputs.OwnerAmong(init, path) {
          assert IsLastAt(inputs, ps, path, k);
        }
      }
    }
  }

  /** The k-th live resource stands for the identity. */
  ghost predicate IsLastLive(inputs: Inputs, resources: seq<Json>, id: string, k: nat) {
    && k < |resources| && HasIdentity(inputs, resources[k], id)
    && forall j :: k < j < |resources| ==> !HasIdentity(inputs, resources[j], id)
  }

  predicate HasIdentity(inputs: Inputs, v: Json, id: string) {
    v.Obj? && Canonical.ResourceIdentity(inputs.repr, v, inputs.targetNamespace) == id
  }

  lemma {:induction false} LiveIsLast(inputs: Inputs, resources: seq<Json>, id: string)
    ensures inputs.LiveAmong(resources, id).Some? ==>
              exists k: nat ::
                && IsLastLive(inputs, resources, id, k)
                && inputs.LiveAmong(resources, id).value == Canonical.CanonicalObject(inputs.d, resources[k])
    ensures inputs.LiveAmong(resources, id).None? ==> forall v :: v in resources ==> !HasIdentity(inputs, v, id)
  {
    hide Canonical.CanonicalObject, Canonical.ResourceIdentity;
    if resources != [] {
      var init, last := resources[..|resources| - 1], resources[|resources| - 1];
      if HasIdentity(inputs, last, id) {
        assert IsLastLive(inputs, resources, id, |resources| - 1);
      } else {
        LiveIsLast(inputs, init, id);
        assert forall v :: v in resources ==> v in init || v == last;
        if inputs.LiveAmong(init, id).Some? {
          var k: nat :| IsLastLive(inputs, init, id, k)
            && inputs.LiveAmong(init, id).value == Canonical.CanonicalObject(inputs.d, init[k]);
          assert resources[k] == init[k] && IsLastLive(inputs, resources, id, k);
        }
      }
    }
  }

  /** What a row calls its resource: what was stored with it, or else what its manifest says. */
  lemma NamesShown(inputs: Inputs, p: Planned)
    ensures var row := inputs.PlannedRow(p);
            && row.identity == (if p.stableIdentity != "" then p.stableIdentity
                                else Canonical.ResourceIdentity(inputs.repr, p.Manifest(), inputs.targetNamespace))
            && (p.kind != "" ==> row.kind == p.kind)
            && (p.kind == "" && Get(p.Manifest(), "kind") == Null ==> row.kind == "Unknown")
            && row.planned == Some(Canonical.CanonicalObject(inputs.d, p.Manifest()))
            && row.current == inputs.Live(row.identity)
  {
    hide Canonical.ResourceIdentity, Inputs.Live, Canonical.CanonicalValue;
    if p.kind == "" && Get(p.Manifest(), "kind") == Null {
      NoKind(inputs, p);
    }
  }

  lemma NoKind(inputs: Inputs, p: Planned)
    requires Get(p.Manifest(), "kind") == Null
    ensures !Truthy(Get(Canonical.CanonicalObject(inputs.d, p.Manifest()), "kind"))
  {
    hide Canonical.CanonicalValue;
    var clean := Canonical.Clean(p.Manifest());
    Canonical.FieldsOfCanonical(inputs.d, clean);
    if "kind" in clean.fields {
      Canonical.FieldOfCanonical(inputs.d, clean, "kind");
      assert clean.fields["kind"] == Null;
      NullStays(inputs.d);
    }
  }

  lemma NullStays(d: Canonical.Dumper)
    ensures Canonical.CanonicalValue(d, Null, ["kind"]) == Null
  {}
}
