/**
 * The canonical form of a Kubernetes object (namespace_twin/canonicalization.py).
 */
module Canonical {
  import opened Options
  import opened Json
  import opened StableSort
  import Text
  import Quantity

  // Stands for json.dumps, once for the list of selected fields and once for a whole item. Nothing
  // is assumed about the texts.
  datatype Dumper = Dumper(selected: seq<Json> -> string, whole: Json -> string)

  /** The fields that identify an item of a list whose order does not matter. */
  function IdentifyingKeys(listKey: string): Option<seq<string>> {
    if listKey in {"containers", "env", "imagePullSecrets", "initContainers", "volumes"} then Some(["name"])
    else if listKey in {"finalizers", "rules"} then Some([])
    else if listKey == "ports" then Some(["name", "containerPort", "port"])
    else if listKey == "subjects" then Some(["kind", "namespace", "name"])
    else if listKey == "tolerations" then Some(["key", "operator", "effect", "value"])
    else if listKey == "volumeMounts" then Some(["name", "mountPath"])
    else None
  }

  function ListKeys(path: seq<string>): Option<seq<string>> {
    IdentifyingKeys(if path == [] then "" else path[|path| - 1])
  }

  predicate IsQuantityPath(path: seq<string>) {
    && path != []
    && (path[|path| - 1] == "storage" || exists part :: part in path && part in {"limits", "requests", "capacity"})
  }

  function Select(item: Json, keys: seq<string>): seq<Json> {
    seq(|keys|, i requires 0 <= i < |keys| => Get(item, keys[i]))
  }

  function SortKey(d: Dumper, item: Json, keys: seq<string>): string {
    if item.Obj? && exists v :: v in Select(item, keys) && v != Null then d.selected(Select(item, keys))
    else d.whole(item)
  }

  function KeyFor(d: Dumper, keys: seq<string>): Json -> string {
    (item: Json) => SortKey(d, item, keys)
  }

  function CanonicalItems(d: Dumper, items: seq<Json>, path: seq<string>): (r: seq<Json>)
    ensures |r| == |items|
    ensures forall i :: 0 <= i < |r| ==> r[i] == CanonicalValue(d, items[i], path)
    decreases items, 0
  {
    if items == [] then []
    else CanonicalItems(d, items[..|items| - 1], path) + [CanonicalValue(d, items[|items| - 1], path)]
  }

  /** Values in canonical form: lists whose order does not matter sorted, quantities normalised. */
  function CanonicalValue(d: Dumper, v: Json, path: seq<string>): Json
    decreases v, 1
  {
    match v
    case Obj(fields) => Obj(map k | k in fields :: CanonicalValue(d, fields[k], path + [k]))
    case Arr(items) =>
      var canonical := CanonicalItems(d, items, path);
      var keys := ListKeys(path);
      Arr(if keys.Some? then SortBy(canonical, KeyFor(d, keys.value)) else canonical)
    case Str(s) => if IsQuantityPath(path) then Str(Quantity.NormalizeQuantity(s)) else v
    case _ => v
  }

  // ----- Canonicalising twice -----

  lemma {:induction false} CanonicalItemsFixed(d: Dumper, items: seq<Json>, path: seq<string>)
    requires forall x :: x in items ==> CanonicalValue(d, x, path) == x
    ensures CanonicalItems(d, items, path) == items
  {}

  lemma ListIsIdempotent(d: Dumper, items: seq<Json>, path: seq<string>)
    requires forall x :: x in CanonicalItems(d, items, path) ==> CanonicalValue(d, x, path) == x
    ensures CanonicalValue(d, CanonicalValue(d, Arr(items), path), path) == CanonicalValue(d, Arr(items), path)
  {
    hide CanonicalItems, ListKeys, SortBy, InOrder;
    var canonical, keys := CanonicalItems(d, items, path), ListKeys(path);
    if keys.Some? {
      var key := KeyFor(d, keys.value);
      var result := SortBy(canonical, key);
      SortIsSorted(canonical, key);
      forall x | x in result ensures CanonicalValue(d, x, path) == x {
        assert x in multiset(result) && x in multiset(canonical);
      }
      CanonicalItemsFixed(d, result, path);
      SortOfSorted(result, key);
    } else {
      CanonicalItemsFixed(d, canonical, path);
    }
  }

  /** The canonical form is its own canonical form, at every depth. */
  lemma {:induction false} CanonicalIsIdempotent(d: Dumper, v: Json, path: seq<string>)
    ensures CanonicalValue(d, CanonicalValue(d, v, path), path) == CanonicalValue(d, v, path)
  {
    match v
    case Obj(fields) =>
      forall k | k in fields
        ensures CanonicalValue(d, CanonicalValue(d, fields[k], path + [k]), path + [k])
             == CanonicalValue(d, fields[k], path + [k])
      {
        CanonicalIsIdempotent(d, fields[k], path + [k]);
      }
    case Arr(items) =>
      hide CanonicalValue;
      forall x | x in CanonicalItems(d, items, path) ensures CanonicalValue(d, x, path) == x {
        var i :| 0 <= i < |items| && CanonicalItems(d, items, path)[i] == x;
        CanonicalIsIdempotent(d, items[i], path);
      }
      ListIsIdempotent(d, items, path);
    case Str(s) =>
      hide Quantity.NormalizeQuantity;
      Quantity.NormalizeIsIdempotent(s);
    case _ =>
  }

  // ----- The order of lists -----

  /** The items of a list whose order does not matter can be told apart, or are equal. */
  predicate ItemsAreIdentified(d: Dumper, items: seq<Json>, path: seq<string>, keys: seq<string>) {
    TiesAreEqual(CanonicalItems(d, items, path), KeyFor(d, keys))
  }

  /**
   * b is a with the items of lists rearranged, at any depth, where the order does not matter and
   * the items can be told apart.
   */
  ghost predicate Rearranged(d: Dumper, a: Json, b: Json, path: seq<string>)
    decreases a
  {
    match a
    case Obj(fields) =>
      && b.Obj? && fields.Keys == b.fields.Keys
      && forall k :: k in fields ==> Rearranged(d, fields[k], b.fields[k], path + [k])
    case Arr(items) =>
      && b.Arr?
      && exists middle: seq<Json> ::
           && |middle| == |items|
           && (forall i :: 0 <= i < |items| ==> Rearranged(d, items[i], middle[i], path))
           && if ListKeys(path).Some?
              then multiset(middle) == multiset(b.items) && ItemsAreIdentified(d, items, path, ListKeys(path).value)
              else middle == b.items
    case _ => a == b
  }

  lemma CanonicalItemsConcat(d: Dumper, a: seq<Json>, b: seq<Json>, path: seq<string>)
    ensures CanonicalItems(d, a + b, path) == CanonicalItems(d, a, path) + CanonicalItems(d, b, path)
  {
    hide CanonicalItems, CanonicalValue;
  }

  lemma {:induction false} CanonicalMultiset(d: Dumper, a: seq<Json>, b: seq<Json>, path: seq<string>)
    requires multiset(a) == multiset(b)
    ensures multiset(CanonicalItems(d, a, path)) == multiset(CanonicalItems(d, b, path))
  {
    hide CanonicalValue, CanonicalItems;
    if a == [] {
      assert |multiset(b)| == 0;
    } else {
      var init, last := a[..|a| - 1], a[|a| - 1];
      var front, back := TakeOut(a, b);
      CanonicalMultiset(d, init, front + back, path);
      CanonicalOfParts(d, init, [], last, path);
      CanonicalOfParts(d, front, back, last, path);
      assert init + [last] + [] == a && init + [] == init;
    }
  }

  /** The last element of a, taken out of a rearrangement b of a. */
  lemma TakeOut<T>(a: seq<T>, b: seq<T>) returns (front: seq<T>, back: seq<T>)
    requires a != [] && multiset(a) == multiset(b)
    ensures b == front + [a[|a| - 1]] + back
    ensures multiset(a[..|a| - 1]) == multiset(front + back)
  {
    var last := a[|a| - 1];
    assert last in multiset(a) && last in multiset(b);
    var j :| 0 <= j < |b| && b[j] == last;
    front, back := b[..j], b[j + 1..];
    RemoveAt(a, |a| - 1);
    RemoveAt(b, j);
  }

  lemma CanonicalOfParts(d: Dumper, front: seq<Json>, back: seq<Json>, x: Json, path: seq<string>)
    ensures multiset(CanonicalItems(d, front + [x] + back, path))
         == multiset(CanonicalItems(d, front + back, path)) + multiset(CanonicalItems(d, [x], path))
  {
    hide CanonicalItems, CanonicalValue;
    CanonicalItemsConcat(d, front, back, path);
    CanonicalItemsConcat(d, front + [x], back, path);
    CanonicalItemsConcat(d, front, [x], path);
  }

  lemma RemoveAt<T>(s: seq<T>, j: nat)
    requires j < |s|
    ensures multiset(s[..j] + s[j + 1..]) == multiset(s) - multiset{s[j]}
    ensures j == |s| - 1 ==> s[..j] + s[j + 1..] == s[..j] && s == s[..j] + [s[j]]
  {
    assert s == s[..j] + [s[j]] + s[j + 1..];
  }

  lemma CanonicalListsAgree(d: Dumper, items: seq<Json>, middle: seq<Json>, other: seq<Json>, path: seq<string>)
    requires CanonicalItems(d, items, path) == CanonicalItems(d, middle, path)
    requires if ListKeys(path).Some?
             then multiset(middle) == multiset(other) && ItemsAreIdentified(d, items, path, ListKeys(path).value)
             else middle == other
    ensures CanonicalValue(d, Arr(items), path) == CanonicalValue(d, Arr(other), path)
  {
    hide CanonicalItems, ListKeys, SortBy;
    if ListKeys(path).Some? {
      CanonicalMultiset(d, middle, other, path);
      SortForgetsOrder(CanonicalItems(d, items, path), CanonicalItems(d, other, path),
                       KeyFor(d, ListKeys(path).value));
    }
  }

  /** The list between a list and a rearrangement of it: its items rearranged, in their old order. */
  lemma MiddleOf(d: Dumper, items: seq<Json>, b: Json, path: seq<string>) returns (middle: seq<Json>)
    requires Rearranged(d, Arr(items), b, path)
    ensures b.Arr? && |middle| == |items|
    ensures forall i :: 0 <= i < |items| ==> Rearranged(d, items[i], middle[i], path)
    ensures if ListKeys(path).Some?
            then multiset(middle) == multiset(b.items) && ItemsAreIdentified(d, items, path, ListKeys(path).value)
            else middle == b.items
  {
    hide ListKeys, ItemsAreIdentified;
    middle :|
      && |middle| == |items|
      && (forall i :: 0 <= i < |items| ==> Rearranged(d, items[i], middle[i], path))
      && if ListKeys(path).Some?
         then multiset(middle) == multiset(b.items) && ItemsAreIdentified(d, items, path, ListKeys(path).value)
         else middle == b.items;
  }

  lemma FieldsAgree(d: Dumper, a: Json, b: Json, path: seq<string>)
    requires a.Obj? && b.Obj? && a.fields.Keys == b.fields.Keys
    requires forall k :: k in a.fields
               ==> CanonicalValue(d, a.fields[k], path + [k]) == CanonicalValue(d, b.fields[k], path + [k])
    ensures CanonicalValue(d, a, path) == CanonicalValue(d, b, path)
  {}

  /** Rearranging such lists, at any depth, does not change the canonical form. */
  lemma {:induction false} CanonicalForgetsOrder(d: Dumper, a: Json, b: Json, path: seq<string>)
    requires Rearranged(d, a, b, path)
    ensures CanonicalValue(d, a, path) == CanonicalValue(d, b, path)
    decreases a
  {
    hide CanonicalItems, ListKeys, ItemsAreIdentified, CanonicalValue;
    if a.Obj? {
      forall k | k in a.fields
        ensures CanonicalValue(d, a.fields[k], path + [k]) == CanonicalValue(d, b.fields[k], path + [k])
      {
        CanonicalForgetsOrder(d, a.fields[k], b.fields[k], path + [k]);
      }
      FieldsAgree(d, a, b, path);
    } else if a.Arr? {
      var items := a.items;
      var middle := MiddleOf(d, items, b, path);
      hide Rearranged;
      forall i | 0 <= i < |items|
        ensures CanonicalValue(d, items[i], path) == CanonicalValue(d, middle[i], path)
      {
        CanonicalForgetsOrder(d, items[i], middle[i], path);
      }
      CanonicalListsAgree(d, items, middle, b.items, path);
    }
  }

  /** Whether a list keeps its canonical form under every rearrangement. */
  ghost predicate OrderIsForgotten(d: Dumper, items: seq<Json>, path: seq<string>) {
    forall other: seq<Json> :: multiset(other) == multiset(items) ==>
      CanonicalValue(d, Arr(other), path) == CanonicalValue(d, Arr(items), path)
  }

  /**
   * For any list whose order should not matter, the canonical form forgets the order exactly when
   * items whose canonical forms have the same sort key have the same canonical form.
   */
  lemma OrderForgottenIff(d: Dumper, items: seq<Json>, path: seq<string>)
    requires ListKeys(path).Some?
    ensures OrderIsForgotten(d, items, path) <==> ItemsAreIdentified(d, items, path, ListKeys(path).value)
  {
    hide ListKeys, SortBy, CanonicalItems, CanonicalValue, TiesAreEqual;
    if ItemsAreIdentified(d, items, path, ListKeys(path).value) {
      forall other: seq<Json> | multiset(other) == multiset(items)
        ensures CanonicalValue(d, Arr(other), path) == CanonicalValue(d, Arr(items), path)
      {
        CanonicalListsAgree(d, items, items, other, path);
      }
    } else {
      TieShows(d, items, path);
    }
  }

  /** Two items with one sort key and different canonical forms can be exchanged with effect. */
  lemma TieShows(d: Dumper, items: seq<Json>, path: seq<string>)
    requires ListKeys(path).Some? && !ItemsAreIdentified(d, items, path, ListKeys(path).value)
    ensures !OrderIsForgotten(d, items, path)
  {
    hide ListKeys, SortBy, CanonicalItems, CanonicalValue;
    var key, canonical := KeyFor(d, ListKeys(path).value), CanonicalItems(d, items, path);
    var i, j := TieIn(canonical, key);
    var rest := BringToFront(items, i, j);
    var x, y := items[i], items[j];
    TwoInFront(d, x, y, rest, path);
    TwoInFront(d, y, x, rest, path);
    TwoFirst(canonical[i], canonical[j], CanonicalItems(d, rest, path), key);
    assert CanonicalValue(d, Arr([x, y] + rest), path) != CanonicalValue(d, Arr([y, x] + rest), path);
  }

  lemma TieIn<T>(s: seq<T>, key: T -> string) returns (i: nat, j: nat)
    requires !TiesAreEqual(s, key)
    ensures i < j < |s| && key(s[i]) == key(s[j]) && s[i] != s[j]
  {
    var a, b :| 0 <= a < |s| && 0 <= b < |s| && key(s[a]) == key(s[b]) && s[a] != s[b];
    i, j := if a < b then a else b, if a < b then b else a;
  }

  lemma TwoInFront(d: Dumper, x: Json, y: Json, rest: seq<Json>, path: seq<string>)
    requires ListKeys(path).Some?
    ensures CanonicalValue(d, Arr([x, y] + rest), path)
         == Arr(SortBy([CanonicalValue(d, x, path), CanonicalValue(d, y, path)] + CanonicalItems(d, rest, path),
                       KeyFor(d, ListKeys(path).value)))
  {
    hide ListKeys, SortBy, CanonicalItems;
    CanonicalItemsConcat(d, [x, y], rest, path);
    assert CanonicalItems(d, [x, y], path) == [CanonicalValue(d, x, path), CanonicalValue(d, y, path)];
  }

  function Port(number: real, protocol: string): Json {
    Obj(map["port" := Num(number), "protocol" := Str(protocol)])
  }

  /**
   * Two unnamed ports of a service with one number and two protocols have the same sort key, so
   * their order shows in the canonical form.
   */
  lemma UnnamedPortsKeepTheirOrder(d: Dumper, number: real)
    ensures !OrderIsForgotten(d, [Port(number, "TCP"), Port(number, "UDP")], ["spec", "ports"])
  {
    hide CanonicalValue, ItemsAreIdentified, SortBy;
    var tcp, udp, path := Port(number, "TCP"), Port(number, "UDP"), ["spec", "ports"];
    var keys := ListKeys(path).value;
    PortIsCanonical(d, number, "TCP");
    PortIsCanonical(d, number, "UDP");
    assert CanonicalItems(d, [tcp, udp], path) == [tcp, udp];
    assert Select(tcp, keys) == [Null, Null, Num(number)] == Select(udp, keys);
    assert Num(number) in Select(tcp, keys);
    assert [tcp, udp][0] == tcp && [tcp, udp][1] == udp;
    assert tcp.fields["protocol"] != udp.fields["protocol"];
    assert !ItemsAreIdentified(d, [tcp, udp], path, keys) by { PortsTie(d, tcp, udp, path, keys); }
    OrderForgottenIff(d, [tcp, udp], path);
  }

  lemma PortsTie(d: Dumper, a: Json, b: Json, path: seq<string>, keys: seq<string>)
    requires CanonicalItems(d, [a, b], path) == [a, b] && a != b && SortKey(d, a, keys) == SortKey(d, b, keys)
    ensures !ItemsAreIdentified(d, [a, b], path, keys)
  {
    hide CanonicalItems, SortKey;
    var s := [a, b];
    assert s[0] == a && s[1] == b;
  }

  lemma PortIsCanonical(d: Dumper, number: real, protocol: string)
    ensures CanonicalValue(d, Port(number, protocol), ["spec", "ports"]) == Port(number, protocol)
  {
    var path := ["spec", "ports"];
    var inner := path + ["protocol"];
    assert !IsQuantityPath(inner) by {
      assert forall part :: part in inner ==> part == "spec" || part == "ports" || part == "protocol";
    }
    assert CanonicalValue(d, Port(number, protocol), path).fields == Port(number, protocol).fields;
  }

  // ----- Whole objects -----

  /** The identity of a resource: API version, kind, namespace and name. */
  function ResourceIdentity(repr: Json -> string, resource: Json, defaultNamespace: string): string {
    var metadata := Get(resource, "metadata");
    TextOr(repr, Get(resource, "apiVersion"), "unknown") + ":" + TextOr(repr, Get(resource, "kind"), "Unknown") + ":"
    + TextOr(repr, Get(metadata, "namespace"), defaultNamespace) + ":" + TextOr(repr, Get(metadata, "name"), "unknown")
  }

  const RuntimeFields: set<string> :=
    {"creationTimestamp", "deletionGracePeriodSeconds", "deletionTimestamp", "generation",
     "managedFields", "resourceVersion", "selfLink", "uid"}

  const Redacted := Str("<redacted>")

  predicate IsSecret(doc: Json) {
    Get(doc, "kind").Str? && Text.Lower(Get(doc, "kind").s) == "secret"
  }

  /** Metadata without runtime fields and without empty annotations and labels. */
  function CleanMetadata(metadata: Json): Json
    requires metadata.Obj?
  {
    Obj(map k | k in metadata.fields && k !in RuntimeFields
                && (k in {"annotations", "labels"} ==> Truthy(metadata.fields[k])) :: metadata.fields[k])
  }

  function RedactValues(v: Json): Json {
    if v.Obj? then Obj(map k | k in v.fields :: Redacted) else v
  }

  /** What is left of a field of the document after the status and the runtime noise are gone. */
  function CleanField(doc: Json, k: string): Json
    requires doc.Obj? && k in doc.fields
  {
    if k == "metadata" && doc.fields[k].Obj? then CleanMetadata(doc.fields[k])
    else if k in {"data", "stringData"} && IsSecret(doc) then RedactValues(doc.fields[k])
    else doc.fields[k]
  }

  function Clean(doc: Json): Json
    requires doc.Obj?
  {
    Obj(map k | k in doc.fields && k != "status" :: CleanField(doc, k))
  }

  function CanonicalObject(d: Dumper, doc: Json): Json
    requires doc.Obj?
  {
    CanonicalValue(d, Clean(doc), [])
  }

  method StripMetadata(fields: map<string, Json>) returns (metadata: map<string, Json>)
    ensures Obj(metadata) == CleanMetadata(Obj(fields))
  {
    metadata := fields;
    var todo := RuntimeFields;
    while todo != {}
      invariant todo <= RuntimeFields
      invariant metadata == fields - (RuntimeFields - todo)
      decreases todo
    {
      var field :| field in todo;
      metadata := metadata - {field};
      todo := todo - {field};
    }
    if !Truthy(Get(Obj(metadata), "annotations")) {
      metadata := metadata - {"annotations"};
    }
    if !Truthy(Get(Obj(metadata), "labels")) {
      metadata := metadata - {"labels"};
    }
    assert metadata == CleanMetadata(Obj(fields)).fields;
  }

  /** The operation step by step: fields of a copy are removed and rewritten in turn. */
  method CanonicalizeKubernetesObject(d: Dumper, resource: Json) returns (r: Json)
    requires resource.Obj?
    ensures r == CanonicalObject(d, resource)
  {
    hide CanonicalValue, IsSecret, CleanMetadata, RedactValues;
    var document := resource.fields - {"status"};
    if "metadata" in document && document["metadata"].Obj? {
      var metadata := StripMetadata(document["metadata"].fields);
      document := document["metadata" := Obj(metadata)];
    }
    if IsSecret(resource) {
      if "data" in document {
        document := document["data" := RedactValues(document["data"])];
      }
      if "stringData" in document {
        document := document["stringData" := RedactValues(document["stringData"])];
      }
    }
    assert document == Clean(resource).fields;
    r := CanonicalValue(d, Obj(document), []);
  }

  lemma NotAQuantity(key: string)
    ensures !IsQuantityPath(["metadata", key]) || key in {"limits", "requests", "capacity", "storage"}
    ensures !IsQuantityPath(["kind"])
  {
    assert ["metadata", key] == ["metadata"] + [key];
    assert forall part :: part in ["metadata", key] ==> part == "metadata" || part == key;
    assert forall part :: part in ["kind"] ==> part == "kind";
  }

  lemma RedactedStays(d: Dumper, path: seq<string>)
    ensures CanonicalValue(d, Redacted, path) == Redacted
  {
    assert Quantity.Strip("<redacted>") == "<redacted>";
    assert Quantity.Parse("<redacted>").None?;
  }

  /** Canonical values keep their shape, so what was worth keeping stays so. */
  lemma CanonicalKeepsShape(d: Dumper, v: Json, path: seq<string>)
    ensures v.Obj? <==> CanonicalValue(d, v, path).Obj?
    ensures v.Obj? ==> CanonicalValue(d, v, path).fields.Keys == v.fields.Keys
    ensures !IsQuantityPath(path) ==> (Truthy(v) <==> Truthy(CanonicalValue(d, v, path)))
    ensures !IsQuantityPath(path) && v.Str? ==> CanonicalValue(d, v, path) == v
    ensures v.Str? <==> CanonicalValue(d, v, path).Str?
  {
    hide Quantity.NormalizeQuantity, SortBy, InOrder, CanonicalItems, ListKeys, IsQuantityPath;
    match v
    case Arr(items) =>
      var canonical := CanonicalItems(d, items, path);
      if ListKeys(path).Some? {
        var key := KeyFor(d, ListKeys(path).value);
        SortIsSorted(canonical, key);
        assert |SortBy(canonical, key)| == |multiset(canonical)| == |canonical|;
      }
    case Obj(fields) =>
      var r := CanonicalValue(d, v, path).fields;
      assert r.Keys == fields.Keys;
      assert fields != map[] ==> exists k :: k in fields;
    case _ =>
  }

  /** Cleaning finds nothing more to remove in a canonical object. */
  lemma CleanOfCanonical(d: Dumper, doc: Json)
    requires doc.Obj?
    ensures CanonicalObject(d, doc).Obj? && Clean(CanonicalObject(d, doc)) == CanonicalObject(d, doc)
  {
    var clean, canonical := Clean(doc), CanonicalObject(d, doc);
    assert canonical.fields.Keys == clean.fields.Keys;
    SecretStaysSecret(d, doc);
    forall k | k in canonical.fields ensures k != "status" && CleanField(canonical, k) == canonical.fields[k] {
      assert [] + [k] == [k];
      CleanFieldStays(d, doc, k);
    }
    assert Clean(canonical).fields == canonical.fields;
  }

  lemma SecretStaysSecret(d: Dumper, doc: Json)
    requires doc.Obj?
    ensures IsSecret(CanonicalObject(d, doc)) <==> IsSecret(doc)
  {
    hide CanonicalValue, Text.Lower;
    if "kind" in doc.fields {
      assert Get(Clean(doc), "kind") == Get(doc, "kind");
      FieldOfCanonical(d, Clean(doc), "kind");
      NotAQuantity("");
      CanonicalKeepsShape(d, doc.fields["kind"], ["kind"]);
    } else {
      FieldsOfCanonical(d, Clean(doc));
    }
  }

  lemma FieldsOfCanonical(d: Dumper, doc: Json)
    requires doc.Obj?
    ensures CanonicalValue(d, doc, []).Obj? && CanonicalValue(d, doc, []).fields.Keys == doc.fields.Keys
  {}

  lemma FieldOfCanonical(d: Dumper, doc: Json, k: string)
    requires doc.Obj? && k in doc.fields
    ensures CanonicalValue(d, doc, []).Obj? && CanonicalValue(d, doc, []).fields.Keys == doc.fields.Keys
    ensures CanonicalValue(d, doc, []).fields[k] == CanonicalValue(d, doc.fields[k], [k])
  {
    assert [] + [k] == [k];
  }

  lemma CleanFieldStays(d: Dumper, doc: Json, k: string)
    requires doc.Obj? && k in doc.fields && k != "status"
    ensures CanonicalObject(d, doc).Obj? && k in CanonicalObject(d, doc).fields
    ensures CleanField(CanonicalObject(d, doc), k) == CanonicalObject(d, doc).fields[k]
  {
    hide CanonicalValue, Text.Lower;
    var canonical, value := CanonicalObject(d, doc), doc.fields[k];
    FieldOfCanonical(d, Clean(doc), k);
    SecretStaysSecret(d, doc);
    CanonicalKeepsShape(d, CleanField(doc, k), [k]);
    if k == "metadata" && value.Obj? {
      MetadataStaysClean(d, value);
    } else if k in {"data", "stringData"} && IsSecret(doc) && value.Obj? {
      RedactedStaysRedacted(d, value, [k]);
    }
  }

  lemma MetadataStaysClean(d: Dumper, metadata: Json)
    requires metadata.Obj?
    ensures CanonicalValue(d, CleanMetadata(metadata), ["metadata"]).Obj?
    ensures CleanMetadata(CanonicalValue(d, CleanMetadata(metadata), ["metadata"]))
         == CanonicalValue(d, CleanMetadata(metadata), ["metadata"])
  {
    var clean := CleanMetadata(metadata);
    var canonical := CanonicalValue(d, clean, ["metadata"]);
    assert canonical.fields.Keys == clean.fields.Keys;
    forall k | k in canonical.fields
      ensures k !in RuntimeFields && (k in {"annotations", "labels"} ==> Truthy(canonical.fields[k]))
    {
      if k in {"annotations", "labels"} {
        NotAQuantity(k);
        assert ["metadata"] + [k] == ["metadata", k];
        CanonicalKeepsShape(d, clean.fields[k], ["metadata", k]);
      }
    }
    assert CleanMetadata(canonical).fields == canonical.fields;
  }

  lemma RedactedStaysRedacted(d: Dumper, v: Json, path: seq<string>)
    requires v.Obj?
    ensures CanonicalValue(d, RedactValues(v), path) == RedactValues(v)
  {
    forall k | k in v.fields ensures CanonicalValue(d, Redacted, path + [k]) == Redacted {
      RedactedStays(d, path + [k]);
    }
  }

  /** Canonicalising a whole object twice is the same as once. */
  lemma ObjectIsIdempotent(d: Dumper, doc: Json)
    requires doc.Obj?
    ensures CanonicalObject(d, doc).Obj?
    ensures CanonicalObject(d, CanonicalObject(d, doc)) == CanonicalObject(d, doc)
  {
    hide CanonicalValue, Clean;
    CleanOfCanonical(d, doc);
    CanonicalIsIdempotent(d, Clean(doc), []);
  }

  /** Nothing of a secret's values is left in its canonical form. */
  lemma SecretValuesAreGone(d: Dumper, doc: Json, k: string, key: string)
    requires doc.Obj? && IsSecret(doc) && k in {"data", "stringData"} && k in doc.fields
    requires doc.fields[k].Obj? && key in doc.fields[k].fields
    ensures CanonicalObject(d, doc).Obj? && k in CanonicalObject(d, doc).fields
    ensures Get(CanonicalObject(d, doc).fields[k], key) == Redacted
  {
    FieldOfCanonical(d, Clean(doc), k);
    RedactedStaysRedacted(d, doc.fields[k], [k]);
  }
}
