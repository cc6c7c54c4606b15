/** Python's sorted() with a string key: a stable sort, and when it forgets the input order. */
module StableSort {
  import opened Text

  /** Puts x after every element whose key is not larger. */
  function Insert<T>(x: T, s: seq<T>, key: T -> string): seq<T> {
    if s == [] then [x]
    else if Leq(key(s[|s| - 1]), key(x)) then s + [x]
    else Insert(x, s[..|s| - 1], key) + [s[|s| - 1]]
  }

  function SortBy<T>(s: seq<T>, key: T -> string): seq<T> {
    if s == [] then [] else Insert(s[|s| - 1], SortBy(s[..|s| - 1], key), key)
  }

  predicate InOrder<T>(s: seq<T>, key: T -> string) {
    forall i, j :: 0 <= i < j < |s| ==> Leq(key(s[i]), key(s[j]))
  }

  /** Elements with the same key are equal. */
  predicate TiesAreEqual<T(==)>(s: seq<T>, key: T -> string) {
    forall i, j :: 0 <= i < |s| && 0 <= j < |s| && key(s[i]) == key(s[j]) ==> s[i] == s[j]
  }

  /** The elements with a given key, in order. */
  function WithKey<T>(s: seq<T>, key: T -> string, k: string): seq<T> {
    if s == [] then []
    else WithKey(s[..|s| - 1], key, k) + if key(s[|s| - 1]) == k then [s[|s| - 1]] else []
  }

  lemma {:induction false} InsertIsSorted<T>(x: T, s: seq<T>, key: T -> string)
    requires InOrder(s, key)
    ensures InOrder(Insert(x, s, key), key)
    ensures multiset(Insert(x, s, key)) == multiset(s) + multiset{x}
  {
    hide Leq;
    var r := Insert(x, s, key);
    if s != [] {
      var init, last := s[..|s| - 1], s[|s| - 1];
      assert s == init + [last];
      if Leq(key(last), key(x)) {
        forall i | 0 <= i < |s| ensures Leq(key(s[i]), key(x)) {
          LeqTotal(key(last), key(last));
          assert Leq(key(s[i]), key(last));
          LeqTransitive(key(s[i]), key(last), key(x));
        }
      } else {
        InsertIsSorted(x, init, key);
        LeqTotal(key(last), key(x));
        var r' := Insert(x, init, key);
        forall i | 0 <= i < |r'| ensures Leq(key(r'[i]), key(last)) {
          assert r'[i] in multiset(r');
          assert r'[i] == x || r'[i] in init;
        }
      }
    }
  }

  lemma {:induction false} SortIsSorted<T>(s: seq<T>, key: T -> string)
    ensures InOrder(SortBy(s, key), key)
    ensures multiset(SortBy(s, key)) == multiset(s)
  {
    hide Leq, Insert;
    if s != [] {
      SortIsSorted(s[..|s| - 1], key);
      InsertIsSorted(s[|s| - 1], SortBy(s[..|s| - 1], key), key);
      assert s == s[..|s| - 1] + [s[|s| - 1]];
    }
  }

  /** Sorting what is in order changes nothing. */
  lemma {:induction false} SortOfSorted<T>(s: seq<T>, key: T -> string)
    requires InOrder(s, key)
    ensures SortBy(s, key) == s
  {
    hide Leq;
    if s != [] {
      var init := s[..|s| - 1];
      SortOfSorted(init, key);
      assert init != [] ==> Leq(key(init[|init| - 1]), key(s[|s| - 1]));
      assert s == init + [s[|s| - 1]];
    }
  }

  lemma {:induction false} WithKeyConcat<T>(a: seq<T>, b: seq<T>, key: T -> string, k: string)
    ensures WithKey(a + b, key, k) == WithKey(a, key, k) + WithKey(b, key, k)
  {
    if b == [] {
      assert a + b == a;
    } else {
      assert (a + b)[..|a + b| - 1] == a + b[..|b| - 1];
      WithKeyConcat(a, b[..|b| - 1], key, k);
    }
  }

  lemma WithKeyOne<T>(x: T, key: T -> string, k: string)
    ensures WithKey([x], key, k) == if key(x) == k then [x] else []
  {
    assert [x][..0] == [];
  }

  lemma WithKeySwap<T>(s: seq<T>, x: T, y: T, key: T -> string, k: string)
    requires key(x) != key(y)
    ensures WithKey(s + [x] + [y], key, k) == WithKey(s + [y] + [x], key, k)
  {
    hide WithKey;
    WithKeyConcat(s + [x], [y], key, k);
    WithKeyConcat(s, [x], key, k);
    WithKeyConcat(s + [y], [x], key, k);
    WithKeyConcat(s, [y], key, k);
    WithKeyOne(x, key, k);
    WithKeyOne(y, key, k);
  }

  lemma {:induction false} InsertIsStable<T>(x: T, s: seq<T>, key: T -> string, k: string)
    requires InOrder(s, key)
    ensures WithKey(Insert(x, s, key), key, k) == WithKey(s + [x], key, k)
  {
    hide Leq, WithKey;
    if s == [] {
      assert s + [x] == [x];
    } else if !Leq(key(s[|s| - 1]), key(x)) {
      var init, last := s[..|s| - 1], s[|s| - 1];
      assert s == init + [last];
      InsertIsStable(x, init, key, k);
      WithKeyConcat(Insert(x, init, key), [last], key, k);
      WithKeyConcat(init + [x], [last], key, k);
      LeqTotal(key(x), key(x));
      WithKeySwap(init, x, last, key, k);
    }
  }

  /** Elements with equal keys keep their order. */
  lemma {:induction false} SortIsStable<T>(s: seq<T>, key: T -> string, k: string)
    ensures WithKey(SortBy(s, key), key, k) == WithKey(s, key, k)
  {
    hide Leq, Insert, InOrder;
    if s != [] {
      var init, last := s[..|s| - 1], s[|s| - 1];
      SortIsStable(init, key, k);
      SortIsSorted(init, key);
      InsertIsStable(last, SortBy(init, key), key, k);
      WithKeyConcat(SortBy(init, key), [last], key, k);
      WithKeyConcat(init, [last], key, k);
      assert s == init + [last];
    }
  }

  lemma TiesAsMembers<T>(s: seq<T>, key: T -> string)
    ensures TiesAreEqual(s, key) <==> forall x, y :: x in multiset(s) && y in multiset(s) && key(x) == key(y) ==> x == y
  {
    if TiesAreEqual(s, key) {
      forall x, y | x in multiset(s) && y in multiset(s) && key(x) == key(y) ensures x == y {
        var i :| 0 <= i < |s| && s[i] == x;
        var j :| 0 <= j < |s| && s[j] == y;
      }
    } else {
      var i, j :| 0 <= i < |s| && 0 <= j < |s| && key(s[i]) == key(s[j]) && s[i] != s[j];
      assert s[i] in multiset(s) && s[j] in multiset(s);
    }
  }

  lemma HeadsAgree<T>(a: seq<T>, b: seq<T>, key: T -> string)
    requires InOrder(a, key) && InOrder(b, key) && multiset(a) == multiset(b) && TiesAreEqual(a, key)
    requires a != [] && b != []
    ensures a[0] == b[0]
  {
    hide Leq;
    assert a[0] in multiset(b) && b[0] in multiset(a);
    var i :| 0 <= i < |b| && b[i] == a[0];
    var j :| 0 <= j < |a| && a[j] == b[0];
    LeqTotal(key(a[0]), key(a[0]));
    LeqTotal(key(b[0]), key(b[0]));
    LeqAntisymmetric(key(a[0]), key(b[0]));
  }

  lemma TailMultiset<T>(a: seq<T>)
    requires a != []
    ensures multiset(a[1..]) == multiset(a) - multiset{a[0]}
  {
    assert a == [a[0]] + a[1..];
  }

  /** There is one sorted arrangement when equal keys mean equal elements. */
  lemma {:induction false} SortedArrangementIsUnique<T>(a: seq<T>, b: seq<T>, key: T -> string)
    requires InOrder(a, key) && InOrder(b, key) && multiset(a) == multiset(b) && TiesAreEqual(a, key)
    ensures a == b
  {
    hide Leq;
    assert |a| == |multiset(a)| == |multiset(b)| == |b|;
    if a != [] {
      HeadsAgree(a, b, key);
      TailMultiset(a);
      TailMultiset(b);
      SortedArrangementIsUnique(a[1..], b[1..], key);
      assert a == [a[0]] + a[1..] && b == [b[0]] + b[1..];
    }
  }

  lemma SortForgetsOrder<T>(a: seq<T>, b: seq<T>, key: T -> string)
    requires multiset(a) == multiset(b) && TiesAreEqual(a, key)
    ensures SortBy(a, key) == SortBy(b, key)
  {
    hide Leq, SortBy, InOrder, TiesAreEqual;
    SortIsSorted(a, key);
    SortIsSorted(b, key);
    TiesAsMembers(a, key);
    TiesAsMembers(SortBy(a, key), key);
    SortedArrangementIsUnique(SortBy(a, key), SortBy(b, key), key);
  }

  lemma TwoFirst<T>(x: T, y: T, rest: seq<T>, key: T -> string)
    requires key(x) == key(y) && x != y
    ensures SortBy([x, y] + rest, key) != SortBy([y, x] + rest, key)
  {
    hide Leq, SortBy;
    var k := key(x);
    SortIsStable([x, y] + rest, key, k);
    SortIsStable([y, x] + rest, key, k);
    FirstWithKey(x, y, rest, key);
    FirstWithKey(y, x, rest, key);
  }

  lemma FirstWithKey<T>(x: T, y: T, rest: seq<T>, key: T -> string)
    ensures WithKey([x, y] + rest, key, key(x)) != [] && WithKey([x, y] + rest, key, key(x))[0] == x
  {
    assert [x, y] + rest == [x] + ([y] + rest);
    WithKeyConcat([x], [y] + rest, key, key(x));
    WithKeyOne(x, key, key(x));
  }

  lemma BringToFront<T>(s: seq<T>, i: nat, j: nat) returns (rest: seq<T>)
    requires i < j < |s|
    ensures multiset([s[i], s[j]] + rest) == multiset([s[j], s[i]] + rest) == multiset(s)
  {
    var a, b, c := s[..i], s[i + 1..j], s[j + 1..];
    rest := a + b + c;
    assert s == a + [s[i]] + b + [s[j]] + c;
  }

  /** Every arrangement sorts to the same list exactly when equal keys mean equal elements. */
  lemma SortForgetsOrderIff<T(!new)>(s: seq<T>, key: T -> string)
    ensures (forall t: seq<T> :: multiset(t) == multiset(s) ==> SortBy(t, key) == SortBy(s, key))
       <==> TiesAreEqual(s, key)
  {
    hide SortBy;
    if TiesAreEqual(s, key) {
      forall t: seq<T> | multiset(t) == multiset(s) ensures SortBy(t, key) == SortBy(s, key) {
        SortForgetsOrder(s, t, key);
      }
    } else {
      var i, j :| 0 <= i < |s| && 0 <= j < |s| && key(s[i]) == key(s[j]) && s[i] != s[j];
      var lo, hi := if i < j then i else j, if i < j then j else i;
      var rest := BringToFront(s, lo, hi);
      TwoFirst(s[lo], s[hi], rest, key);
    }
  }
}
