/**
 * The search for a deployed Helm release in a nested status response
 * (runtime/mutation.py, _helm_release_is_deployed).
 */
module HelmStatus {
  import opened Json
  import Quantity
  import Text

  /** Whether a dict names the release and calls it deployed. */
  predicate IsDeployedRelease(repr: Json -> string, v: Json, release: string) {
    var name := Or(Or(Get(v, "name"), Get(v, "release_name")), Str(""));
    var info := Get(v, "info");
    var status := Or(Or(Get(v, "status"), Get(info, "status")), Str(""));
    && v.Obj?
    && Quantity.Strip(TextOf(repr, name)) == release
    && Text.Lower(Quantity.Strip(TextOf(repr, status))) == "deployed"
  }

  /** x is v or is nested in v, through lists and dicts. */
  ghost predicate Contains(v: Json, x: Json)
    decreases v
  {
    || v == x
    || (v.Arr? && exists i :: 0 <= i < |v.items| && Contains(v.items[i], x))
    || (v.Obj? && exists k :: k in v.fields && Contains(v.fields[k], x))
  }

  /** Some dict anywhere in v is the deployed release. */
  ghost predicate Mentions(repr: Json -> string, v: Json, release: string) {
    exists x :: Contains(v, x) && IsDeployedRelease(repr, x, release)
  }

  predicate IsContainer(v: Json) {
    v.Arr? || v.Obj?
  }

  // ----- The size of what is left to look at -----

  ghost function Size(v: Json): nat
    decreases v, 2, 0
  {
    match v
    case Arr(items) => 1 + ItemsSize(items)
    case Obj(fields) => 1 + FieldsSize(v, fields.Keys)
    case _ => 1
  }

  ghost function ItemsSize(items: seq<Json>): nat
    decreases items, 1, 0
  {
    if items == [] then 0 else ItemsSize(items[..|items| - 1]) + Size(items[|items| - 1])
  }

  ghost function FieldsSize(v: Json, keys: set<string>): nat
    requires v.Obj? && keys <= v.fields.Keys
    decreases v, 1, |keys|
  {
    if keys == {} then 0
    else
      var k :| k in keys;
      Size(v.fields[k]) + FieldsSize(v, keys - {k})
  }

  lemma {:induction false} FieldsSizeSplit(v: Json, keys: set<string>, k: string)
    requires v.Obj? && keys <= v.fields.Keys && k in keys
    ensures FieldsSize(v, keys) == Size(v.fields[k]) + FieldsSize(v, keys - {k})
    decreases |keys|
  {
    hide Size;
    var j :| j in keys && FieldsSize(v, keys) == Size(v.fields[j]) + FieldsSize(v, keys - {j});
    if j != k {
      FieldsSizeSplit(v, keys - {j}, k);
      FieldsSizeSplit(v, keys - {k}, j);
      assert keys - {j} - {k} == keys - {k} - {j};
    }
  }

  lemma {:induction false} ItemsSizeConcat(a: seq<Json>, b: seq<Json>)
    ensures ItemsSize(a + b) == ItemsSize(a) + ItemsSize(b)
  {
    hide Size;
    if b == [] {
      assert a + b == a;
    } else {
      assert (a + b)[..|a + b| - 1] == a + b[..|b| - 1];
      ItemsSizeConcat(a, b[..|b| - 1]);
    }
  }

  // ----- The loop -----

  /** The lists and dicts among the values of a dict, in any order. */
  method ContainerValues(v: Json) returns (values: seq<Json>)
    requires v.Obj?
    ensures ItemsSize(values) < Size(v)
    ensures forall x :: x in values ==> exists k :: k in v.fields && v.fields[k] == x
    ensures forall k :: k in v.fields && IsContainer(v.fields[k]) ==> v.fields[k] in values
  {
    hide Size;
    values := [];
    var todo := v.fields.Keys;
    while todo != {}
      invariant todo <= v.fields.Keys
      invariant ItemsSize(values) + FieldsSize(v, todo) <= FieldsSize(v, v.fields.Keys)
      invariant forall x :: x in values ==> exists k :: k in v.fields && v.fields[k] == x
      invariant forall k :: k in v.fields && k !in todo && IsContainer(v.fields[k]) ==> v.fields[k] in values
      decreases todo
    {
      var k :| k in todo;
      FieldsSizeSplit(v, todo, k);
      if IsContainer(v.fields[k]) {
        ItemsSizeConcat(values, [v.fields[k]]);
        assert ItemsSize([v.fields[k]]) == Size(v.fields[k]) by { assert [v.fields[k]][..0] == []; }
        values := values + [v.fields[k]];
      }
      todo := todo - {k};
    }
    SizeOfDict(v);
  }

  lemma SizeOfDict(v: Json)
    requires v.Obj?
    ensures Size(v) == 1 + FieldsSize(v, v.fields.Keys)
  {}

  lemma OnlyContainersMention(repr: Json -> string, v: Json, release: string)
    requires !IsContainer(v)
    ensures !Mentions(repr, v, release)
  {
    hide IsDeployedRelease;
    forall x | Contains(v, x) ensures !IsDeployedRelease(repr, x, release) {
      assert x == v;
      NotADict(repr, x, release);
    }
  }

  lemma NotADict(repr: Json -> string, v: Json, release: string)
    requires !v.Obj?
    ensures !IsDeployedRelease(repr, v, release)
  {}

  lemma ListMentions(repr: Json -> string, v: Json, release: string)
    requires v.Arr?
    ensures Mentions(repr, v, release) <==> exists x :: x in v.items && Mentions(repr, x, release)
  {
    hide IsDeployedRelease;
    NotADict(repr, v, release);
    if Mentions(repr, v, release) {
      var x :| Contains(v, x) && IsDeployedRelease(repr, x, release);
      var i :| 0 <= i < |v.items| && Contains(v.items[i], x);
      assert v.items[i] in v.items && Mentions(repr, v.items[i], release);
    }
    forall item | item in v.items && Mentions(repr, item, release) ensures Mentions(repr, v, release) {
      var i :| 0 <= i < |v.items| && v.items[i] == item;
      var x :| Contains(item, x) && IsDeployedRelease(repr, x, release);
      assert Contains(v, x);
    }
  }

  lemma DictMentions(repr: Json -> string, v: Json, values: seq<Json>, release: string)
    requires v.Obj? && !IsDeployedRelease(repr, v, release)
    requires forall x :: x in values ==> exists k :: k in v.fields && v.fields[k] == x
    requires forall k :: k in v.fields && IsContainer(v.fields[k]) ==> v.fields[k] in values
    ensures Mentions(repr, v, release) <==> exists x :: x in values && Mentions(repr, x, release)
  {
    hide IsDeployedRelease;
    if Mentions(repr, v, release) {
      var x :| Contains(v, x) && IsDeployedRelease(repr, x, release);
      var k :| k in v.fields && Contains(v.fields[k], x);
      assert Mentions(repr, v.fields[k], release);
      if !IsContainer(v.fields[k]) { OnlyContainersMention(repr, v.fields[k], release); }
      assert v.fields[k] in values;
    }
    forall value | value in values && Mentions(repr, value, release) ensures Mentions(repr, v, release) {
      var k :| k in v.fields && v.fields[k] == value;
      var x :| Contains(value, x) && IsDeployedRelease(repr, x, release);
      assert Contains(v, x);
    }
  }

  ghost predicate AnyMentions(repr: Json -> string, vs: seq<Json>, release: string) {
    exists x :: x in vs && Mentions(repr, x, release)
  }

  lemma AnyMentionsConcat(repr: Json -> string, a: seq<Json>, b: seq<Json>, release: string)
    ensures AnyMentions(repr, a + b, release) <==> AnyMentions(repr, a, release) || AnyMentions(repr, b, release)
  {
    hide Mentions;
    if AnyMentions(repr, a, release) {
      var x :| x in a && Mentions(repr, x, release);
      assert x in a + b;
    }
    if AnyMentions(repr, b, release) {
      var x :| x in b && Mentions(repr, x, release);
      assert x in a + b;
    }
  }

  /**
   * The stack loop stops, and answers whether the response of a successful call is a dict with the
   * deployed release anywhere in it.
   */
  method HelmReleaseIsDeployed(repr: Json -> string, success: bool, data: Json, release: string)
      returns (deployed: bool)
    ensures deployed <==> success && data.Obj? && Mentions(repr, data, release)
  {
    hide Size, Mentions, IsDeployedRelease;
    if !success || !data.Obj? {
      return false;
    }
    var pending := [data];
    assert data in pending;
    while pending != []
      invariant AnyMentions(repr, pending, release) <==> Mentions(repr, data, release)
      decreases ItemsSize(pending)
    {
      var current := pending[|pending| - 1];
      ghost var before := pending;
      pending := pending[..|pending| - 1];
      assert before == pending + [current];
      AnyMentionsConcat(repr, pending, [current], release);
      ItemsSizeConcat(pending, [current]);
      assert AnyMentions(repr, [current], release)
          <==> Mentions(repr, current, release) by { assert current in [current]; }
      assert ItemsSize([current]) == Size(current) by { assert [current][..0] == []; }
      if current.Arr? {
        ListMentions(repr, current, release);
        AnyMentionsConcat(repr, pending, current.items, release);
        ItemsSizeConcat(pending, current.items);
        SizeOfList(current);
        pending := pending + current.items;
      } else if !current.Obj? {
        OnlyContainersMention(repr, current, release);
        SizeIsPositive(current);
      } else if IsDeployedRelease(repr, current, release) {
        DeployedIsMentioned(repr, current, release);
        return true;
      } else {
        var values := ContainerValues(current);
        DictMentions(repr, current, values, release);
        AnyMentionsConcat(repr, pending, values, release);
        ItemsSizeConcat(pending, values);
        pending := pending + values;
      }
    }
    deployed := false;
  }

  lemma SizeOfList(v: Json)
    requires v.Arr?
    ensures Size(v) == 1 + ItemsSize(v.items)
  {}

  lemma SizeIsPositive(v: Json)
    ensures Size(v) > 0
  {}

  lemma DeployedIsMentioned(repr: Json -> string, v: Json, release: string)
    requires IsDeployedRelease(repr, v, release)
    ensures Mentions(repr, v, release)
  {
    assert Contains(v, v);
  }

  /** The first of two values that says anything, or an empty text. */
  ghost predicate IsFirstOf(value: Json, first: Json, second: Json) {
    value == if Truthy(first) then first else if Truthy(second) then second else Str("")
  }

  /**
   * A dict is the deployed release when its name, or else its release name, is that of the release
   * and its status, or else the status in its info, is deployed in whatever case; white space
   * around them does not count.
   */
  lemma DeployedIff(repr: Json -> string, v: Json, release: string, name: Json, status: Json)
    requires IsFirstOf(name, Get(v, "name"), Get(v, "release_name"))
    requires IsFirstOf(status, Get(v, "status"), Get(Get(v, "info"), "status"))
    ensures IsDeployedRelease(repr, v, release) <==>
              && v.Obj? && Quantity.Strip(TextOf(repr, name)) == release
              && var said := Quantity.Strip(TextOf(repr, status));
                 |said| == 8 && forall i :: 0 <= i < 8 ==> said[i] in {"deployed"[i], "DEPLOYED"[i]}
  {
    hide Text.Lower, Quantity.Strip;
    var said := Quantity.Strip(TextOf(repr, status));
    Text.LowerAt(said);
    if |said| == 8 {
      assert Text.Lower(said) == "deployed" <==> forall i :: 0 <= i < 8 ==> Text.Lower(said)[i] == "deployed"[i];
    }
  }
}
