/** Strings: their order, sorting a set of keys, and lower case. */
module Text {

  /** Python compares strings by code points. */
  predicate Leq(a: string, b: string) {
    a == "" || (b != "" && (a[0] < b[0] || (a[0] == b[0] && Leq(a[1..], b[1..]))))
  }

  lemma {:induction false} LeqTotal(a: string, b: string)
    ensures Leq(a, b) || Leq(b, a)
  {
    if a != "" && b != "" && a[0] == b[0] {
      LeqTotal(a[1..], b[1..]);
    }
  }

  lemma {:induction false} LeqAntisymmetric(a: string, b: string)
    requires Leq(a, b) && Leq(b, a)
    ensures a == b
  {
    if a != "" {
      LeqAntisymmetric(a[1..], b[1..]);
      assert a == [a[0]] + a[1..] && b == [b[0]] + b[1..];
    }
  }

  lemma {:induction false} LeqTransitive(a: string, b: string, c: string)
    requires Leq(a, b) && Leq(b, c)
    ensures Leq(a, c)
  {
    if a != "" && a[0] == b[0] == c[0] {
      LeqTransitive(a[1..], b[1..], c[1..]);
    }
  }

  predicate Sorted(s: seq<string>) {
    forall i, j :: 0 <= i < j < |s| ==> Leq(s[i], s[j]) && s[i] != s[j]
  }

  ghost predicate IsLeast(x: string, keys: set<string>) {
    x in keys && forall y :: y in keys ==> Leq(x, y)
  }

  lemma {:induction false} LeastExists(keys: set<string>)
    requires keys != {}
    ensures exists x :: IsLeast(x, keys)
    decreases |keys|
  {
    var k :| k in keys;
    LeqTotal(k, k);
    if keys == {k} {
      assert IsLeast(k, keys);
    } else {
      var rest := keys - {k};
      LeastExists(rest);
      var x :| IsLeast(x, rest);
      LeqTotal(k, x);
      if Leq(k, x) {
        forall y | y in keys ensures Leq(k, y) { if y != k { LeqTransitive(k, x, y); } }
        assert IsLeast(k, keys);
      } else {
        assert IsLeast(x, keys);
      }
    }
  }

  /** sorted() of a set of keys. */
  ghost function SortedKeys(keys: set<string>): (r: seq<string>)
    ensures Sorted(r)
    ensures forall k :: k in r <==> k in keys
  {
    if keys == {} then []
    else
      LeastExists(keys);
      var x :| IsLeast(x, keys);
      [x] + SortedKeys(keys - {x})
  }

  lemma {:induction false} SortedIsUnique(a: seq<string>, b: seq<string>)
    requires Sorted(a) && Sorted(b) && (forall k :: k in a <==> k in b)
    ensures a == b
  {
    if a != [] { assert a[0] in b; }
    if b != [] { assert b[0] in a; }
    if a != [] {
      assert Leq(a[0], b[0]) && Leq(b[0], a[0]) by { LeqTotal(a[0], a[0]); }
      LeqAntisymmetric(a[0], b[0]);
      assert forall k :: k in a[1..] <==> k in a && k != a[0];
      assert forall k :: k in b[1..] <==> k in b && k != b[0];
      SortedIsUnique(a[1..], b[1..]);
      assert a == [a[0]] + a[1..] && b == [b[0]] + b[1..];
    }
  }

  method Least(keys: set<string>) returns (x: string)
    requires keys != {}
    ensures IsLeast(x, keys)
  {
    x :| x in keys;
    var rest := keys - {x};
    LeqTotal(x, x);
    while rest != {}
      invariant rest <= keys && x in keys
      invariant forall y :: y in keys && y !in rest ==> Leq(x, y)
      decreases rest
    {
      var y :| y in rest;
      LeqTotal(x, y);
      if Leq(y, x) && y != x {
        forall z | z in keys && z !in rest ensures Leq(y, z) { LeqTransitive(y, x, z); }
        LeqTotal(y, y);
        x := y;
      }
      rest := rest - {y};
    }
  }

  /** Sorting by repeatedly taking the least key. */
  method SortKeys(keys: set<string>) returns (r: seq<string>)
    ensures r == SortedKeys(keys)
  {
    r := [];
    var rest := keys;
    while rest != {}
      invariant rest <= keys && Sorted(r)
      invariant forall k :: k in r <==> k in keys && k !in rest
      invariant forall x, y :: x in r && y in rest ==> Leq(x, y)
      decreases rest
    {
      var x := Least(rest);
      r := r + [x];
      rest := rest - {x};
    }
    SortedIsUnique(r, SortedKeys(keys));
  }

  /** str.lower for ASCII letters. */
  function Lower(s: string): string {
    if s == "" then "" else [if 'A' <= s[0] <= 'Z' then (s[0] as int + 32) as char else s[0]] + Lower(s[1..])
  }

  /** Capital letters become small, and all else stays. */
  lemma {:induction false} LowerAt(s: string)
    ensures |Lower(s)| == |s|
    ensures forall i :: 0 <= i < |s| ==>
              Lower(s)[i] == if 'A' <= s[i] <= 'Z' then 'a' + (s[i] - 'A') else s[i]
  {
    if s != "" {
      LowerAt(s[1..]);
      assert Lower(s)[1..] == Lower(s[1..]);
      assert forall i :: 0 < i < |s| ==> s[i] == s[1..][i - 1] && Lower(s)[i] == Lower(s)[1..][i - 1];
    }
  }

  /** The order is decided by the first character that differs; a prefix comes first. */
  lemma {:induction false} LeqIff(a: string, b: string)
    ensures Leq(a, b) <==>
              a <= b || exists k :: 0 <= k < |a| && k < |b| && a[..k] == b[..k] && a[k] < b[k]
  {
    if a != "" && b != "" && a[0] == b[0] {
      LeqIff(a[1..], b[1..]);
      assert a == [a[0]] + a[1..] && b == [b[0]] + b[1..];
      if k :| 0 <= k < |a[1..]| && k < |b[1..]| && a[1..][..k] == b[1..][..k] && a[1..][k] < b[1..][k] {
        assert a[..k + 1] == [a[0]] + a[1..][..k] && b[..k + 1] == [b[0]] + b[1..][..k];
        assert a[k + 1] < b[k + 1];
      }
      if k :| 0 <= k < |a| && k < |b| && a[..k] == b[..k] && a[k] < b[k] {
        assert a[1..][..k - 1] == a[..k][1..] && b[1..][..k - 1] == b[..k][1..];
        assert a[1..][k - 1] < b[1..][k - 1];
      }
    } else if a != "" && b != "" {
      assert a[0] < b[0] ==> a[..0] == b[..0];
      assert forall k :: 0 < k < |a| && k < |b| ==> a[..k][0] != b[..k][0];
    }
  }
}
