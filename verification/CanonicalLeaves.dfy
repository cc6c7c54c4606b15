/**
 * What stands where in the canonical form of a Kubernetes object
 * (namespace_twin/canonicalization.py): every text, number and truth value keeps its place, and
 * only texts at quantity positions change, to the canonical text of their number.
 */
module CanonicalLeaves {
  import opened Options
  import opened Json
  import opened StableSort
  import opened Canonical
  import Quantity
  import Text

  predicate IsLeaf(v: Json) {
    !v.Arr? && !v.Obj?
  }

  /** The leaf stands under the keys of the path; lists on the way are entered anywhere. */
  ghost predicate Holds(v: Json, path: seq<string>, leaf: Json)
    decreases v
  {
    match v
    case Obj(fields) => path != [] && path[0] in fields && Holds(fields[path[0]], path[1..], leaf)
    case Arr(items) => exists i :: 0 <= i < |items| && Holds(items[i], path, leaf)
    case _ => path == [] && v == leaf
  }

  /** Below limits, requests or capacity, or directly under storage. */
  ghost predicate IsQuantityAt(path: seq<string>) {
    || (exists i :: 0 <= i < |path| && path[i] in {"limits", "requests", "capacity"})
    || (path != [] && path[|path| - 1] == "storage")
  }

  /** What stands in the canonical form for a leaf at the path. */
  ghost predicate StandsFor(path: seq<string>, leaf: Json, canonical: Json) {
    canonical == if leaf.Str? && IsQuantityAt(path) then Str(Quantity.NormalizeQuantity(leaf.s)) else leaf
  }

  lemma QuantityPaths(path: seq<string>)
    ensures IsQuantityPath(path) <==> IsQuantityAt(path)
  {
    if i :| 0 <= i < |path| && path[i] in {"limits", "requests", "capacity"} {
      assert path[i] in path;
    }
  }

  lemma ItemsOfCanonical(d: Dumper, items: seq<Json>, path: seq<string>) returns (r: seq<Json>)
    ensures CanonicalValue(d, Arr(items), path) == Arr(r)
    ensures multiset(r) == multiset(CanonicalItems(d, items, path))
    ensures forall x :: x in r <==> x in CanonicalItems(d, items, path)
  {
    hide SortBy, InOrder, ListKeys, CanonicalItems;
    var canonical := CanonicalItems(d, items, path);
    r := CanonicalValue(d, Arr(items), path).items;
    if ListKeys(path).Some? {
      SortIsSorted(canonical, KeyFor(d, ListKeys(path).value));
    }
    assert forall x :: (x in r <==> x in multiset(r)) && (x in canonical <==> x in multiset(canonical));
  }

  /** The leaf stands in the canonical form for one that was there. */
  ghost predicate HasSource(v: Json, base: seq<string>, path: seq<string>, leaf: Json) {
    exists x :: IsLeaf(x) && Holds(v, path, x) && StandsFor(base + path, x, leaf)
  }

  /** Every leaf keeps its place, and none is added. */
  lemma {:induction false} HeldLeaves(d: Dumper, v: Json, base: seq<string>, path: seq<string>, leaf: Json)
    requires IsLeaf(leaf)
    ensures Holds(CanonicalValue(d, v, base), path, leaf) <==> HasSource(v, base, path, leaf)
    decreases v
  {
    hide *;
    match v
    case Obj(fields) =>
      if path != [] && path[0] in fields {
        HeldLeaves(d, fields[path[0]], base + [path[0]], path[1..], leaf);
      }
      FieldHolds(d, fields, base, path, leaf);
    case Arr(items) =>
      forall i | 0 <= i < |items|
        ensures Holds(CanonicalValue(d, items[i], base), path, leaf) <==> HasSource(items[i], base, path, leaf)
      {
        HeldLeaves(d, items[i], base, path, leaf);
      }
      ItemHolds(d, items, base, path, leaf);
    case _ =>
      LeafHolds(d, v, base, path, leaf);
  }

  lemma FieldHolds(d: Dumper, fields: map<string, Json>, base: seq<string>, path: seq<string>, leaf: Json)
    ensures path != [] && path[0] in fields ==>
              && (Holds(CanonicalValue(d, Obj(fields), base), path, leaf)
                  <==> Holds(CanonicalValue(d, fields[path[0]], base + [path[0]]), path[1..], leaf))
              && (HasSource(Obj(fields), base, path, leaf)
                  <==> HasSource(fields[path[0]], base + [path[0]], path[1..], leaf))
    ensures !(path != [] && path[0] in fields) ==>
              !Holds(CanonicalValue(d, Obj(fields), base), path, leaf) && !HasSource(Obj(fields), base, path, leaf)
  {
    hide StandsFor;
    if path != [] && path[0] in fields {
      var k := path[0];
      assert base + [k] + path[1..] == base + path;
      assert forall x :: Holds(Obj(fields), path, x) <==> Holds(fields[k], path[1..], x);
    }
  }

  lemma ItemHolds(d: Dumper, items: seq<Json>, base: seq<string>, path: seq<string>, leaf: Json)
    requires forall i :: 0 <= i < |items| ==>
               (Holds(CanonicalValue(d, items[i], base), path, leaf) <==> HasSource(items[i], base, path, leaf))
    ensures Holds(CanonicalValue(d, Arr(items), base), path, leaf) <==> HasSource(Arr(items), base, path, leaf)
  {
    var r := ItemsOfCanonical(d, items, base);
    var canonical := CanonicalItems(d, items, base);
    assert forall i :: 0 <= i < |items| ==> canonical[i] == CanonicalValue(d, items[i], base);
    hide CanonicalValue, CanonicalItems, StandsFor;
    HoldsAmong(r, canonical, path, leaf);
    SourceAmong(items, base, path, leaf);
    if i :| 0 <= i < |canonical| && Holds(canonical[i], path, leaf) {
      assert HasSource(items[i], base, path, leaf);
    }
    if i :| 0 <= i < |items| && HasSource(items[i], base, path, leaf) {
      assert Holds(canonical[i], path, leaf);
    }
  }

  lemma SourceAmong(items: seq<Json>, base: seq<string>, path: seq<string>, leaf: Json)
    ensures HasSource(Arr(items), base, path, leaf)
       <==> exists i :: 0 <= i < |items| && HasSource(items[i], base, path, leaf)
  {
    hide StandsFor;
    if x :| IsLeaf(x) && Holds(Arr(items), path, x) && StandsFor(base + path, x, leaf) {
      var i :| 0 <= i < |items| && Holds(items[i], path, x);
      assert HasSource(items[i], base, path, leaf);
    }
    if i :| 0 <= i < |items| && HasSource(items[i], base, path, leaf) {
      var x :| IsLeaf(x) && Holds(items[i], path, x) && StandsFor(base + path, x, leaf);
      assert Holds(Arr(items), path, x);
    }
  }

  lemma LeafHolds(d: Dumper, v: Json, base: seq<string>, path: seq<string>, leaf: Json)
    requires !v.Arr? && !v.Obj?
    ensures Holds(CanonicalValue(d, v, base), path, leaf) <==> HasSource(v, base, path, leaf)
  {
    hide Quantity.NormalizeQuantity, IsQuantityPath, IsQuantityAt;
    QuantityPaths(base);
    assert base + [] == base;
    assert path == [] ==> Holds(v, path, v);
  }

  lemma HoldsAmong(a: seq<Json>, b: seq<Json>, path: seq<string>, leaf: Json)
    requires forall x :: x in a <==> x in b
    ensures Holds(Arr(a), path, leaf) <==> exists i :: 0 <= i < |b| && Holds(b[i], path, leaf)
  {
    if i :| 0 <= i < |a| && Holds(a[i], path, leaf) {
      assert a[i] in b;
      var j :| 0 <= j < |b| && b[j] == a[i];
    }
    if i :| 0 <= i < |b| && Holds(b[i], path, leaf) {
      assert b[i] in a;
      var j :| 0 <= j < |a| && a[j] == b[i];
    }
  }

  // ----- Two values that differ in one text -----

  /** The values are the same but for one place under the path, where one has s and the other has t. */
  ghost predicate DifferAt(a: Json, b: Json, path: seq<string>, s: string, t: string)
    decreases a
  {
    match a
    case Obj(fields) =>
      && path != [] && path[0] in fields && b.Obj? && b.fields.Keys == fields.Keys
      && DifferAt(fields[path[0]], b.fields[path[0]], path[1..], s, t)
      && forall k :: k in fields && k != path[0] ==> fields[k] == b.fields[k]
    case Arr(items) =>
      && b.Arr? && |b.items| == |items|
      && exists i :: 0 <= i < |items| && DifferAt(items[i], b.items[i], path, s, t)
                     && forall j :: 0 <= j < |items| && j != i ==> items[j] == b.items[j]
    case _ => path == [] && a == Str(s) && b == Str(t)
  }

  /** What stands for the two texts at the path is the same. */
  ghost predicate Agree(path: seq<string>, s: string, t: string) {
    if IsQuantityAt(path) then Quantity.NormalizeQuantity(s) == Quantity.NormalizeQuantity(t) else s == t
  }

  /** The canonical forms of such values agree exactly when what stands for the two texts agrees. */
  lemma {:induction false} DifferenceShowsIff(d: Dumper, a: Json, b: Json, base: seq<string>, path: seq<string>,
                                              s: string, t: string)
    requires DifferAt(a, b, path, s, t)
    ensures CanonicalValue(d, a, base) == CanonicalValue(d, b, base) <==> Agree(base + path, s, t)
    decreases a
  {
    hide *;
    var i := Place(a, b, path, s, t);
    if a.Obj? {
      var k := path[0];
      DifferenceShowsIff(d, a.fields[k], b.fields[k], base + [k], path[1..], s, t);
      assert base + [k] + path[1..] == base + path;
      FieldsShow(d, a.fields, b.fields, base, k);
    } else if a.Arr? {
      DifferenceShowsIff(d, a.items[i], b.items[i], base, path, s, t);
      ItemsShow(d, a.items, b.items, base, i);
    } else {
      assert base + path == base;
      LeavesShow(d, base, s, t);
    }
  }

  /** Where two such values differ. */
  lemma Place(a: Json, b: Json, path: seq<string>, s: string, t: string) returns (i: nat)
    requires DifferAt(a, b, path, s, t)
    ensures a.Obj? ==>
      && path != [] && b.Obj? && b.fields.Keys == a.fields.Keys && path[0] in a.fields
      && DifferAt(a.fields[path[0]], b.fields[path[0]], path[1..], s, t)
      && forall k :: k in a.fields && k != path[0] ==> a.fields[k] == b.fields[k]
    ensures a.Arr? ==>
      && b.Arr? && |a.items| == |b.items| && i < |a.items| && DifferAt(a.items[i], b.items[i], path, s, t)
      && forall j :: 0 <= j < |a.items| && j != i ==> a.items[j] == b.items[j]
    ensures !a.Arr? && !a.Obj? ==> path == [] && a == Str(s) && b == Str(t)
  {
    i := 0;
    if a.Arr? {
      i :| 0 <= i < |a.items| && DifferAt(a.items[i], b.items[i], path, s, t)
           && forall j :: 0 <= j < |a.items| && j != i ==> a.items[j] == b.items[j];
    }
  }

  lemma LeavesShow(d: Dumper, base: seq<string>, s: string, t: string)
    ensures CanonicalValue(d, Str(s), base) == CanonicalValue(d, Str(t), base) <==> Agree(base, s, t)
  {
    hide Quantity.NormalizeQuantity, IsQuantityPath, IsQuantityAt;
    QuantityPaths(base);
  }

  lemma FieldsShow(d: Dumper, a: map<string, Json>, b: map<string, Json>, base: seq<string>, k: string)
    requires a.Keys == b.Keys && k in a && forall l :: l in a && l != k ==> a[l] == b[l]
    ensures CanonicalValue(d, Obj(a), base) == CanonicalValue(d, Obj(b), base)
       <==> CanonicalValue(d, a[k], base + [k]) == CanonicalValue(d, b[k], base + [k])
  {
    var x, y := CanonicalValue(d, Obj(a), base).fields, CanonicalValue(d, Obj(b), base).fields;
    assert x.Keys == a.Keys && y.Keys == b.Keys;
    assert x[k] == CanonicalValue(d, a[k], base + [k]) && y[k] == CanonicalValue(d, b[k], base + [k]);
    assert x[k] == y[k] ==> x == y;
  }

  lemma ItemsShow(d: Dumper, a: seq<Json>, b: seq<Json>, base: seq<string>, i: nat)
    requires |a| == |b| && i < |a| && forall j :: 0 <= j < |a| && j != i ==> a[j] == b[j]
    ensures CanonicalValue(d, Arr(a), base) == CanonicalValue(d, Arr(b), base)
       <==> CanonicalValue(d, a[i], base) == CanonicalValue(d, b[i], base)
  {
    var x := ItemsOfCanonical(d, a, base);
    var y := ItemsOfCanonical(d, b, base);
    hide SortBy, InOrder, ListKeys;
    var c, e := CanonicalItems(d, a, base), CanonicalItems(d, b, base);
    OneOther(c, e, i);
    assert c == e ==> CanonicalValue(d, Arr(a), base) == CanonicalValue(d, Arr(b), base);
  }

  lemma OneOther(a: seq<Json>, b: seq<Json>, i: nat)
    requires |a| == |b| && i < |a| && forall j :: 0 <= j < |a| && j != i ==> a[j] == b[j]
    ensures a[i] == b[i] ==> a == b
    ensures a[i] != b[i] ==> multiset(a) != multiset(b)
  {
    var front, back := a[..i], a[i + 1..];
    assert a == front + [a[i]] + back && b == front + [b[i]] + back;
    var rest := multiset(front) + multiset(back);
    assert multiset(a) == rest + multiset{a[i]} && multiset(b) == rest + multiset{b[i]};
    if a[i] != b[i] {
      assert multiset(a)[a[i]] == rest[a[i]] + 1 && multiset(b)[a[i]] == rest[a[i]];
    }
  }

  // ----- On whole objects -----

  /** What the canonical object keeps: not the status, runtime fields, empty labels, or a secret's values. */
  ghost predicate Survives(doc: Json, path: seq<string>) {
    && doc.Obj? && path != [] && path[0] != "status"
    && !(path[0] in {"data", "stringData"} && IsSecret(doc) && Get(doc, path[0]).Obj?)
    && (path[0] == "metadata" && |path| > 1 && Get(doc, "metadata").Obj? ==>
          && path[1] !in {"creationTimestamp", "deletionGracePeriodSeconds", "deletionTimestamp", "generation",
                          "managedFields", "resourceVersion", "selfLink", "uid"}
          && (path[1] in {"annotations", "labels"} ==> Truthy(Get(Get(doc, "metadata"), path[1]))))
  }

  lemma FieldHeld(v: Json, path: seq<string>, leaf: Json)
    requires v.Obj?
    ensures Holds(v, path, leaf) <==> path != [] && path[0] in v.fields && Holds(v.fields[path[0]], path[1..], leaf)
  {}

  lemma CleanMetadataHolds(metadata: Json, path: seq<string>, leaf: Json)
    requires metadata.Obj?
    ensures Holds(CleanMetadata(metadata), path, leaf)
       <==> && Holds(metadata, path, leaf) && path[0] !in RuntimeFields
            && (path[0] in {"annotations", "labels"} ==> Truthy(metadata.fields[path[0]]))
  {
    hide Holds, Truthy;
    FieldHeld(metadata, path, leaf);
    FieldHeld(CleanMetadata(metadata), path, leaf);
  }

  lemma RedactedHolds(v: Json, path: seq<string>, leaf: Json)
    requires v.Obj? && Holds(RedactValues(v), path, leaf)
    ensures leaf == Redacted
  {}

  lemma CleanHolds(doc: Json, path: seq<string>, leaf: Json)
    requires doc.Obj?
    ensures Survives(doc, path) ==> (Holds(Clean(doc), path, leaf) <==> Holds(doc, path, leaf))
    ensures Holds(Clean(doc), path, leaf) && !Survives(doc, path)
        ==> path != [] && path[0] in {"data", "stringData"} && IsSecret(doc) && leaf == Redacted
  {
    hide Holds, Truthy, CleanMetadata, IsSecret;
    FieldHeld(doc, path, leaf);
    FieldHeld(Clean(doc), path, leaf);
    if path != [] && path[0] in doc.fields && path[0] != "status" {
      var v, rest := doc.fields[path[0]], path[1..];
      if path[0] == "metadata" && v.Obj? {
        CleanMetadataHolds(v, rest, leaf);
        FieldHeld(v, rest, leaf);
      }
      if path[0] in {"data", "stringData"} && v.Obj? && Holds(RedactValues(v), rest, leaf) {
        RedactedHolds(v, rest, leaf);
      }
    }
  }

  /**
   * What stands where in a canonical object: where something survives, the leaves of the object,
   * with quantities in canonical form; elsewhere nothing but the mark for a secret's values.
   */
  lemma ObjectLeaves(d: Dumper, doc: Json, path: seq<string>, leaf: Json)
    requires doc.Obj? && IsLeaf(leaf)
    ensures Survives(doc, path) ==>
              (Holds(CanonicalObject(d, doc), path, leaf)
               <==> exists x :: IsLeaf(x) && Holds(doc, path, x) && StandsFor(path, x, leaf))
    ensures Holds(CanonicalObject(d, doc), path, leaf) && !Survives(doc, path)
        ==> path != [] && path[0] in {"data", "stringData"} && IsSecret(doc) && leaf == Redacted
  {
    hide Holds, Survives, Clean, CanonicalValue, IsSecret, IsQuantityAt, Quantity.NormalizeQuantity, StandsFor;
    HeldLeaves(d, Clean(doc), [], path, leaf);
    assert [] + path == path;
    forall x ensures Survives(doc, path) ==> (Holds(Clean(doc), path, x) <==> Holds(doc, path, x))
             ensures Holds(Clean(doc), path, x) && !Survives(doc, path)
                 ==> path != [] && path[0] in {"data", "stringData"} && IsSecret(doc) && x == Redacted {
      CleanHolds(doc, path, x);
    }
    MarkStays(path);
  }

  lemma MarkStays(path: seq<string>)
    ensures forall leaf :: StandsFor(path, Redacted, leaf) ==> leaf == Redacted
  {
    hide IsQuantityAt;
    assert Quantity.Strip("<redacted>") == "<redacted>";
    assert Quantity.Parse("<redacted>").None?;
  }

  /** A quantity of the object is there in canonical form: a quantity of the same number. */
  lemma QuantityIsKept(d: Dumper, doc: Json, path: seq<string>, s: string) returns (t: string)
    requires doc.Obj? && Survives(doc, path) && Holds(doc, path, Str(s))
    requires IsQuantityAt(path) && Quantity.WellFormed(s)
    ensures Holds(CanonicalObject(d, doc), path, Str(t))
    ensures Quantity.WellFormed(t) && Quantity.Denotes(t) == Quantity.Denotes(s)
  {
    hide Holds, Survives, CanonicalObject, IsQuantityAt, Quantity.NormalizeQuantity, Quantity.WellFormed,
         Quantity.Denotes;
    t := Quantity.NormalizeQuantity(s);
    Quantity.NormalizeKeepsNumber(s);
    ObjectLeaves(d, doc, path, Str(t));
    assert StandsFor(path, Str(s), Str(t));
  }

  /** Everything but quantities is there as it was, and nothing else is. */
  lemma OthersAreUnchanged(d: Dumper, doc: Json, path: seq<string>, leaf: Json)
    requires doc.Obj? && Survives(doc, path) && IsLeaf(leaf) && (leaf.Str? ==> !IsQuantityAt(path))
    ensures Holds(CanonicalObject(d, doc), path, leaf) <==> Holds(doc, path, leaf)
  {
    hide Holds, Survives, CanonicalObject, IsQuantityAt;
    ObjectLeaves(d, doc, path, leaf);
    assert StandsFor(path, leaf, leaf);
  }

  // ----- Two objects that differ in one quantity -----

  lemma FieldDiffers(a: Json, b: Json, path: seq<string>, s: string, t: string)
    requires a.Obj?
    ensures DifferAt(a, b, path, s, t) <==>
              && path != [] && path[0] in a.fields && b.Obj? && b.fields.Keys == a.fields.Keys
              && DifferAt(a.fields[path[0]], b.fields[path[0]], path[1..], s, t)
              && forall k :: k in a.fields && k != path[0] ==> a.fields[k] == b.fields[k]
  {}

  lemma SameShape(a: Json, b: Json, path: seq<string>, s: string, t: string)
    requires DifferAt(a, b, path, s, t)
    ensures (a.Obj? <==> b.Obj?) && (s != "" && t != "" ==> (Truthy(a) <==> Truthy(b)))
    ensures path != [] ==> !a.Str? && !b.Str?
  {
    if a.Obj? {
      assert path[0] in a.fields && path[0] in b.fields;
    }
  }

  lemma CleanMetadataDiffers(a: Json, b: Json, path: seq<string>, s: string, t: string)
    requires a.Obj? && b.Obj? && DifferAt(a, b, path, s, t) && s != "" && t != ""
    requires path[0] !in RuntimeFields && (path[0] in {"annotations", "labels"} ==> Truthy(a.fields[path[0]]))
    ensures DifferAt(CleanMetadata(a), CleanMetadata(b), path, s, t)
  {
    hide DifferAt, Truthy;
    FieldDiffers(a, b, path, s, t);
    SameShape(a.fields[path[0]], b.fields[path[0]], path[1..], s, t);
    FieldDiffers(CleanMetadata(a), CleanMetadata(b), path, s, t);
  }

  lemma SameSecret(a: Json, b: Json, path: seq<string>, s: string, t: string)
    requires a.Obj? && b.Obj? && DifferAt(a, b, path, s, t) && path != ["kind"]
    ensures IsSecret(a) <==> IsSecret(b)
  {
    hide DifferAt, Text.Lower;
    FieldDiffers(a, b, path, s, t);
    SameShape(a.fields[path[0]], b.fields[path[0]], path[1..], s, t);
    assert path[0] == "kind" ==> path[1..] != [];
  }

  lemma CleanDiffers(a: Json, b: Json, path: seq<string>, s: string, t: string)
    requires a.Obj? && b.Obj? && DifferAt(a, b, path, s, t) && s != "" && t != "" && path != ["kind"]
    requires Survives(a, path)
    ensures DifferAt(Clean(a), Clean(b), path, s, t)
  {
    hide DifferAt, Truthy, CleanMetadata, IsSecret;
    FieldDiffers(a, b, path, s, t);
    SameSecret(a, b, path, s, t);
    var k, rest := path[0], path[1..];
    SameShape(a.fields[k], b.fields[k], rest, s, t);
    if k == "metadata" && a.fields[k].Obj? {
      FieldDiffers(a.fields[k], b.fields[k], rest, s, t);
      CleanMetadataDiffers(a.fields[k], b.fields[k], rest, s, t);
    }
    assert Clean(a).fields.Keys == Clean(b).fields.Keys;
    FieldDiffers(Clean(a), Clean(b), path, s, t);
  }

  lemma KindIsNoQuantity(path: seq<string>)
    ensures path == ["kind"] ==> !IsQuantityAt(path)
  {}

  /**
   * Two objects that differ in two quantities at one place have one canonical form exactly when the
   * quantities are the same number.
   */
  lemma SameFormIffSameNumber(d: Dumper, a: Json, b: Json, path: seq<string>, s: string, t: string)
    requires a.Obj? && b.Obj? && DifferAt(a, b, path, s, t) && Survives(a, path) && IsQuantityAt(path)
    requires Quantity.WellFormed(s) && Quantity.WellFormed(t)
    ensures CanonicalObject(d, a) == CanonicalObject(d, b) <==> Quantity.Denotes(s) == Quantity.Denotes(t)
  {
    hide DifferAt, Survives, Clean, CanonicalValue, IsQuantityAt, Quantity.NormalizeQuantity, Quantity.Denotes,
         Quantity.WellFormed;
    KindIsNoQuantity(path);
    QuantitiesAreTexts(s);
    QuantitiesAreTexts(t);
    CleanDiffers(a, b, path, s, t);
    DifferenceShowsIff(d, Clean(a), Clean(b), [], path, s, t);
    assert [] + path == path;
    Quantity.NormalizeIsCanonical(s, t);
  }

  lemma QuantitiesAreTexts(s: string)
    requires Quantity.WellFormed(s)
    ensures s != ""
  {
    assert Quantity.ReadUnsigned("").None?;
    assert Quantity.Strip(s) != "";
  }

  /** A text at any other place is never taken for another one. */
  lemma SameFormIffSameText(d: Dumper, a: Json, b: Json, path: seq<string>, s: string, t: string)
    requires a.Obj? && b.Obj? && DifferAt(a, b, path, s, t) && Survives(a, path) && !IsQuantityAt(path)
    requires s != "" && t != "" && path != ["kind"]
    ensures CanonicalObject(d, a) == CanonicalObject(d, b) <==> s == t
  {
    hide DifferAt, Survives, Clean, CanonicalValue, IsQuantityAt, Quantity.NormalizeQuantity;
    CleanDiffers(a, b, path, s, t);
    DifferenceShowsIff(d, Clean(a), Clean(b), [], path, s, t);
    assert [] + path == path;
  }

  // ----- Which lists forget their order -----

  /** In the lists of named things, items with different names can stand in any order. */
  lemma NamedItemsForgetOrder(d: Dumper, items: seq<Json>, path: seq<string>)
    requires forall x, y :: d.selected(x) == d.selected(y) ==> x == y
    requires path != [] && path[|path| - 1] in {"containers", "env", "imagePullSecrets", "initContainers", "volumes"}
    requires !IsQuantityAt(path)
    requires forall i :: 0 <= i < |items| ==> items[i].Obj? && Get(items[i], "name").Str?
    requires forall i, j :: 0 <= i < j < |items| ==> Get(items[i], "name") != Get(items[j], "name")
    ensures OrderIsForgotten(d, items, path)
  {
    hide OrderIsForgotten, ItemsAreIdentified, IsQuantityAt;
    NamesTellApart(d, items, path);
    OrderForgottenIff(d, items, path);
  }

  lemma NamesTellApart(d: Dumper, items: seq<Json>, path: seq<string>)
    requires forall x, y :: d.selected(x) == d.selected(y) ==> x == y
    requires path != [] && !IsQuantityAt(path)
    requires forall i :: 0 <= i < |items| ==> items[i].Obj? && Get(items[i], "name").Str?
    requires forall i, j :: 0 <= i < j < |items| ==> Get(items[i], "name") != Get(items[j], "name")
    ensures ItemsAreIdentified(d, items, path, ["name"])
  {
    hide CanonicalItems, CanonicalValue, SortKey, IsQuantityAt;
    var canonical := CanonicalItems(d, items, path);
    forall i | 0 <= i < |items|
      ensures SortKey(d, canonical[i], ["name"]) == d.selected([Get(items[i], "name")])
    {
      NamedKey(d, items[i], path);
    }
    forall i, j | && 0 <= i < |items| && 0 <= j < |items|
                  && SortKey(d, canonical[i], ["name"]) == SortKey(d, canonical[j], ["name"])
      ensures canonical[i] == canonical[j]
    {
      assert [Get(items[i], "name")] == [Get(items[j], "name")];
      assert [Get(items[i], "name")][0] == [Get(items[j], "name")][0];
      assert i == j;
    }
  }

  lemma NamedKey(d: Dumper, item: Json, path: seq<string>)
    requires item.Obj? && Get(item, "name").Str? && path != [] && !IsQuantityAt(path)
    ensures SortKey(d, CanonicalValue(d, item, path), ["name"]) == d.selected([Get(item, "name")])
  {
    hide Quantity.NormalizeQuantity, IsQuantityPath;
    var inner := path + ["name"];
    QuantityPaths(inner);
    assert !IsQuantityAt(inner) by {
      if i :| 0 <= i < |inner| && inner[i] in {"limits", "requests", "capacity"} {
        assert i < |path| ==> path[i] in {"limits", "requests", "capacity"};
      }
    }
    var canonical := CanonicalValue(d, item, path);
    assert canonical.Obj? && canonical.fields["name"] == CanonicalValue(d, item.fields["name"], inner);
    assert Get(canonical, "name") == Get(item, "name");
    assert Select(canonical, ["name"]) == [Get(item, "name")];
    assert Get(item, "name") in Select(canonical, ["name"]);
  }

  /** All other lists keep their order: two of them have one form exactly when their items have, one by one. */
  lemma OtherListsKeepOrder(d: Dumper, a: seq<Json>, b: seq<Json>, path: seq<string>)
    requires path != [] ==>
               path[|path| - 1] !in {"containers", "env", "finalizers", "imagePullSecrets", "initContainers", "ports",
                                     "rules", "subjects", "tolerations", "volumeMounts", "volumes"}
    ensures CanonicalValue(d, Arr(a), path) == CanonicalValue(d, Arr(b), path)
       <==> && |a| == |b|
            && forall i :: 0 <= i < |a| ==> CanonicalValue(d, a[i], path) == CanonicalValue(d, b[i], path)
  {
    hide SortBy;
    var x, y := CanonicalItems(d, a, path), CanonicalItems(d, b, path);
    assert CanonicalValue(d, Arr(a), path) == Arr(x) && CanonicalValue(d, Arr(b), path) == Arr(y);
    hide CanonicalValue, CanonicalItems;
    if x == y {
      assert forall i :: 0 <= i < |a| ==> x[i] == y[i];
    }
  }

  /** Secrets are told by their kind, in whatever case it is written. */
  lemma SecretIff(doc: Json)
    requires doc.Obj?
    ensures IsSecret(doc) <==>
              && "kind" in doc.fields && doc.fields["kind"].Str? && |doc.fields["kind"].s| == 6
              && forall i :: 0 <= i < 6 ==> doc.fields["kind"].s[i] in {"secret"[i], "SECRET"[i]}
  {
    if "kind" in doc.fields && doc.fields["kind"].Str? {
      var s := doc.fields["kind"].s;
      Text.LowerAt(s);
      if |s| == 6 {
        assert Text.Lower(s) == "secret" <==> forall i :: 0 <= i < 6 ==> Text.Lower(s)[i] == "secret"[i];
      }
    }
  }

  // ----- Identities -----

  /** The four things that identify a resource, as texts. */
  datatype Named = Named(apiVersion: string, kind: string, namespace: string, name: string)

  function NamedBy(repr: Json -> string, resource: Json, defaultNamespace: string): Named {
    var metadata := Get(resource, "metadata");
    Named(TextOr(repr, Get(resource, "apiVersion"), "unknown"), TextOr(repr, Get(resource, "kind"), "Unknown"),
          TextOr(repr, Get(metadata, "namespace"), defaultNamespace), TextOr(repr, Get(metadata, "name"), "unknown"))
  }

  predicate NoColon(s: string) {
    ':' !in s
  }

  /** Resources share an identity exactly when all four agree, if the first three hold no colon. */
  lemma SameIdentityIff(repr: Json -> string, a: Json, b: Json, defaultNamespace: string)
    requires var p := NamedBy(repr, a, defaultNamespace);
             NoColon(p.apiVersion) && NoColon(p.kind) && NoColon(p.namespace)
    requires var p := NamedBy(repr, b, defaultNamespace);
             NoColon(p.apiVersion) && NoColon(p.kind) && NoColon(p.namespace)
    ensures ResourceIdentity(repr, a, defaultNamespace) == ResourceIdentity(repr, b, defaultNamespace)
       <==> NamedBy(repr, a, defaultNamespace) == NamedBy(repr, b, defaultNamespace)
  {
    hide TextOr;
    var p, q := NamedBy(repr, a, defaultNamespace), NamedBy(repr, b, defaultNamespace);
    hide Get, NoColon;
    Regroup(p);
    Regroup(q);
    if ResourceIdentity(repr, a, defaultNamespace) == ResourceIdentity(repr, b, defaultNamespace) {
      SplitAtColon(p.apiVersion, q.apiVersion, p.kind + ":" + (p.namespace + ":" + p.name),
                   q.kind + ":" + (q.namespace + ":" + q.name));
      SplitAtColon(p.kind, q.kind, p.namespace + ":" + p.name, q.namespace + ":" + q.name);
      SplitAtColon(p.namespace, q.namespace, p.name, q.name);
    }
  }

  lemma Regroup(p: Named)
    ensures p.apiVersion + ":" + p.kind + ":" + p.namespace + ":" + p.name
         == p.apiVersion + ":" + (p.kind + ":" + (p.namespace + ":" + p.name))
  {}

  lemma SplitAtColon(a: string, b: string, x: string, y: string)
    requires NoColon(a) && NoColon(b) && a + ":" + x == b + ":" + y
    ensures a == b && x == y
  {
    var s, t := a + ":" + x, b + ":" + y;
    assert s[|a|] == ':' && t[|b|] == ':';
    assert forall k :: 0 <= k < |a| ==> s[k] == a[k];
    assert forall k :: 0 <= k < |b| ==> t[k] == b[k];
    assert |a| == |b|;
    assert a == s[..|a|] && b == t[..|b|] && x == s[|a| + 1..] && y == t[|b| + 1..];
  }

  /** Lists of rules and finalizers can stand in any order, whatever is in them. */
  lemma WholeItemsForgetOrder(d: Dumper, items: seq<Json>, path: seq<string>)
    requires forall x, y :: d.whole(x) == d.whole(y) ==> x == y
    requires path != [] && path[|path| - 1] in {"finalizers", "rules"}
    ensures OrderIsForgotten(d, items, path)
  {
    hide OrderIsForgotten, CanonicalItems;
    assert ListKeys(path) == Some([]);
    assert ItemsAreIdentified(d, items, path, []) by {
      assert forall item :: SortKey(d, item, []) == d.whole(item);
      hide SortKey;
    }
    OrderForgottenIff(d, items, path);
  }
}
