/**
 * The field-by-field comparison of a live and a planned object, and the immutable-field test
 * (namespace_twin/delta.py, _field_changes and _immutable_conflict).
 */
module FieldChanges {
  import opened Json
  import opened Text

  // The source joins the path with dots; here the keys are kept, and Dotted joins them.
  datatype Change = Change(path: seq<string>, current: Json, planned: Json)

  function AllKeys(a: Json, b: Json): set<string>
    requires a.Obj? && b.Obj?
  {
    a.fields.Keys + b.fields.Keys
  }

  ghost function Changes(current: Json, planned: Json, path: seq<string>): seq<Change>
    decreases current.Obj? && planned.Obj?, current, 1, 0
  {
    if current.Obj? && planned.Obj? then Rows(current, planned, path, SortedKeys(AllKeys(current, planned)))
    else if !PyEqual(current, planned) then [Change(path, current, planned)]
    else []
  }

  /** The changes below the given keys, in their order. */
  ghost function Rows(current: Json, planned: Json, path: seq<string>, keys: seq<string>): seq<Change>
    requires current.Obj? && planned.Obj?
    decreases true, current, 0, |keys|
  {
    if keys == [] then []
    else Rows(current, planned, path, keys[..|keys| - 1])
         + Changes(Get(current, keys[|keys| - 1]), Get(planned, keys[|keys| - 1]), path + [keys[|keys| - 1]])
  }

  /** The comparison as the source runs it: one list, extended key by key. */
  method CollectChanges(current: Json, planned: Json, path: seq<string>) returns (rows: seq<Change>)
    ensures rows == Changes(current, planned, path)
    decreases current.Obj? && planned.Obj?, current
  {
    hide PyEqual, SortedKeys;
    if current.Obj? && planned.Obj? {
      rows := [];
      var keys := SortKeys(AllKeys(current, planned));
      for i := 0 to |keys|
        invariant rows == Rows(current, planned, path, keys[..i])
      {
        assert keys[..i + 1][..i] == keys[..i];
        var below := CollectChanges(Get(current, keys[i]), Get(planned, keys[i]), path + [keys[i]]);
        rows := rows + below;
      }
      assert keys[..|keys|] == keys;
    } else if !PyEqual(current, planned) {
      rows := [Change(path, current, planned)];
    } else {
      rows := [];
    }
  }

  // ----- What equality the comparison decides -----

  /**
   * The value with null-valued keys dropped at every position reached through dicts only, and up
   * to Python's equality elsewhere.
   */
  ghost function Norm(v: Json): Json {
    match v
    case Obj(fields) => Obj(map k | k in fields && fields[k] != Null :: Norm(fields[k]))
    case _ => Plain(v)
  }

  lemma NormNull(v: Json)
    ensures Norm(v) == Null <==> v == Null
  {}

  lemma NormGet(v: Json, k: string)
    requires v.Obj?
    ensures Norm(Get(v, k)) == Get(Norm(v), k)
  {
    NormNull(Get(v, k));
  }

  /** Two dicts agree up to Norm exactly when they do so at every key. */
  lemma NormByKeys(a: Json, b: Json)
    requires a.Obj? && b.Obj?
    ensures Norm(a) == Norm(b) <==> forall k :: k in AllKeys(a, b) ==> Norm(Get(a, k)) == Norm(Get(b, k))
  {
    if forall k :: k in AllKeys(a, b) ==> Norm(Get(a, k)) == Norm(Get(b, k)) {
      var na, nb := Norm(a).fields, Norm(b).fields;
      forall k ensures k in na <==> k in nb {
        NormNull(Get(a, k));
        NormNull(Get(b, k));
      }
      forall k | k in na ensures na[k] == nb[k] {
        assert na[k] == Norm(Get(a, k)) && nb[k] == Norm(Get(b, k));
      }
      assert na == nb;
    } else {
      var k :| k in AllKeys(a, b) && Norm(Get(a, k)) != Norm(Get(b, k));
      NormGet(a, k);
      NormGet(b, k);
    }
  }

  /** The list is empty exactly when the two sides agree. */
  lemma {:induction false} NoChangesIffEqual(current: Json, planned: Json, path: seq<string>)
    ensures Changes(current, planned, path) == [] <==> Norm(current) == Norm(planned)
    decreases current.Obj? && planned.Obj?, current, 1, 0
  {
    if current.Obj? && planned.Obj? {
      var keys := SortedKeys(AllKeys(current, planned));
      NoRowsIffEqual(current, planned, path, keys);
      NormByKeys(current, planned);
    }
  }

  lemma {:induction false} NoRowsIffEqual(current: Json, planned: Json, path: seq<string>, keys: seq<string>)
    requires current.Obj? && planned.Obj?
    ensures Rows(current, planned, path, keys) == []
       <==> forall k :: k in keys ==> Norm(Get(current, k)) == Norm(Get(planned, k))
    decreases true, current, 0, |keys|
  {
    if keys != [] {
      var init, last := keys[..|keys| - 1], keys[|keys| - 1];
      assert keys == init + [last];
      NoRowsIffEqual(current, planned, path, init);
      NoChangesIffEqual(Get(current, last), Get(planned, last), path + [last]);
    }
  }

  // ----- Patching -----

  /** Writes a value at a path, making dicts on the way where there are none. */
  function SetPath(v: Json, path: seq<string>, value: Json): Json
    decreases |path|
  {
    if path == [] then value
    else
      var fields := if v.Obj? then v.fields else map[];
      Obj(fields[path[0] := SetPath(Get(v, path[0]), path[1..], value)])
  }

  /** Writes the planned values of all changes, whose paths start below a common prefix. */
  function Patch(v: Json, prefix: nat, changes: seq<Change>): Json
    requires forall c :: c in changes ==> prefix <= |c.path|
  {
    if changes == [] then v
    else
      var last := changes[|changes| - 1];
      SetPath(Patch(v, prefix, changes[..|changes| - 1]), last.path[prefix..], last.planned)
  }

  ghost predicate Below(changes: seq<Change>, path: seq<string>) {
    forall c :: c in changes ==> path <= c.path
  }

  lemma {:induction false} ChangesBelow(current: Json, planned: Json, path: seq<string>)
    ensures Below(Changes(current, planned, path), path)
    decreases current.Obj? && planned.Obj?, current, 1, 0
  {
    if current.Obj? && planned.Obj? {
      RowsBelow(current, planned, path, SortedKeys(AllKeys(current, planned)));
    }
  }

  lemma {:induction false} RowsBelow(current: Json, planned: Json, path: seq<string>, keys: seq<string>)
    requires current.Obj? && planned.Obj?
    ensures Below(Rows(current, planned, path, keys), path)
    decreases true, current, 0, |keys|
  {
    if keys != [] {
      RowsBelow(current, planned, path, keys[..|keys| - 1]);
      var deeper := path + [keys[|keys| - 1]];
      ChangesBelow(Get(current, keys[|keys| - 1]), Get(planned, keys[|keys| - 1]), deeper);
      assert path <= deeper;
    }
  }

  lemma {:induction false} PatchConcat(v: Json, prefix: nat, a: seq<Change>, b: seq<Change>)
    requires forall c :: c in a + b ==> prefix <= |c.path|
    ensures forall c :: c in a ==> c in a + b
    ensures forall c :: c in b ==> c in a + b
    ensures Patch(v, prefix, a + b) == Patch(Patch(v, prefix, a), prefix, b)
  {
    if b == [] {
      assert a + b == a;
    } else {
      var init := b[..|b| - 1];
      assert (a + b)[..|a + b| - 1] == a + init;
      PatchConcat(v, prefix, a, init);
    }
  }

  /** Patches below one key of a dict change that key only. */
  lemma {:induction false} PatchBelowKey(v: Json, path: seq<string>, key: string, changes: seq<Change>)
    requires v.Obj? && Below(changes, path + [key])
    ensures Patch(v, |path|, changes)
         == if changes == [] then v
            else Obj(v.fields[key := Patch(Get(v, key), |path| + 1, changes)])
  {
    if changes != [] {
      var init, last := changes[..|changes| - 1], changes[|changes| - 1];
      PatchBelowKey(v, path, key, init);
      assert last in changes && path + [key] <= last.path;
      assert last.path[|path|..][0] == key;
      assert last.path[|path|..][1..] == last.path[|path| + 1..];
      var before := Patch(v, |path|, init);
      assert Get(before, key) == Patch(Get(v, key), |path| + 1, init);
      assert before.fields[key := Null] == v.fields[key := Null];
      var value := SetPath(Get(before, key), last.path[|path| + 1..], last.planned);
      assert before.fields[key := value] == v.fields[key := value];
    }
  }

  /** Writing the planned values at the reported paths turns the live side into the planned one. */
  lemma {:induction false} PatchGivesPlanned(current: Json, planned: Json, path: seq<string>)
    ensures Below(Changes(current, planned, path), path)
    ensures Norm(Patch(current, |path|, Changes(current, planned, path))) == Norm(planned)
    decreases current.Obj? && planned.Obj?, current, 1, 0
  {
    ChangesBelow(current, planned, path);
    if current.Obj? && planned.Obj? {
      var keys := SortedKeys(AllKeys(current, planned));
      PatchRows(current, planned, path, keys);
      var patched := Patch(current, |path|, Rows(current, planned, path, keys));
      NormByKeys(patched, planned);
    } else if !PyEqual(current, planned) {
      var all := [Change(path, current, planned)];
      assert path[|path|..] == [];
      assert Patch(current, |path|, all[..0]) == current;
    }
  }

  lemma PatchNone(v: Json, prefix: nat)
    ensures Patch(v, prefix, []) == v
  {}

  /** After the rows of some keys, those keys agree with the plan and the others are as before. */
  lemma {:induction false} PatchRows(current: Json, planned: Json, path: seq<string>, keys: seq<string>)
    requires current.Obj? && planned.Obj? && Sorted(keys)
    requires forall k :: k in keys ==> k in AllKeys(current, planned)
    ensures Below(Rows(current, planned, path, keys), path)
    ensures var patched := Patch(current, |path|, Rows(current, planned, path, keys));
            && patched.Obj?
            && AllKeys(patched, planned) <= AllKeys(current, planned)
            && (forall k :: k in keys ==> Norm(Get(patched, k)) == Norm(Get(planned, k)))
            && (forall k :: k !in keys ==> Get(patched, k) == Get(current, k))
    decreases true, current, 0, |keys|
  {
    hide Norm, SetPath, Patch, Changes, PyEqual;
    RowsBelow(current, planned, path, keys);
    if keys == [] {
      PatchNone(current, |path|);
    } else {
      var init, last := keys[..|keys| - 1], keys[|keys| - 1];
      assert keys == init + [last];
      PatchRows(current, planned, path, init);
      var rows := Rows(current, planned, path, init);
      var more := Changes(Get(current, last), Get(planned, last), path + [last]);
      PatchGivesPlanned(Get(current, last), Get(planned, last), path + [last]);
      PatchConcat(current, |path|, rows, more);
      var before := Patch(current, |path|, rows);
      PatchNone(Get(current, last), |path| + 1);
      PatchBelowKey(before, path, last, more);
      assert last !in init;
      assert Get(before, last) == Get(current, last);
      var patched := Patch(before, |path|, more);
      assert Norm(Get(patched, last)) == Norm(Get(planned, last));
      forall k | k != last ensures Get(patched, k) == Get(before, k) {}
    }
  }

  // ----- The immutable-field test on dotted paths -----

  /** The path as the source reports it. */
  function Dotted(path: seq<string>): string {
    if path == [] then "" else if |path| == 1 then path[0] else path[0] + "." + Dotted(path[1..])
  }

  /** Python's split at dots. */
  function Split(s: string): (r: seq<string>)
    ensures r != []
  {
    if s == "" then [""]
    else
      var rest := Split(s[1..]);
      if s[0] == '.' then [""] + rest else [[s[0]] + rest[0]] + rest[1..]
  }

  predicate NoDot(s: string) {
    '.' !in s
  }

  /** The fields of spec that a kind must not change. */
  function ImmutableFields(kind: string): seq<string> {
    if kind == "Deployment" then ["selector"]
    else if kind == "StatefulSet" then ["selector", "serviceName"]
    else if kind == "Service" then ["clusterIP", "clusterIPs", "ipFamilies", "ipFamilyPolicy"]
    else if kind == "PersistentVolumeClaim" then ["storageClassName", "volumeMode", "volumeName", "dataSource"]
    else []
  }

  /** The test of one reported path against one protected path. */
  predicate DottedMatch(path: seq<string>, pattern: seq<string>) {
    pattern <= Split(Dotted(path))
  }

  predicate ImmutableConflict(kind: string, changes: seq<Change>) {
    exists c, f :: c in changes && f in ImmutableFields(kind) && DottedMatch(c.path, ["spec", f])
  }

  lemma {:induction false} SplitSegmentsHaveNoDot(s: string)
    ensures forall k :: 0 <= k < |Split(s)| ==> NoDot(Split(s)[k])
  {
    if s != "" {
      SplitSegmentsHaveNoDot(s[1..]);
      var rest := Split(s[1..]);
      assert NoDot(rest[0]);
    }
  }

  lemma {:induction false} SplitAtDot(a: string, b: string)
    ensures Split(a + "." + b) == Split(a) + Split(b)
  {
    var s := a + "." + b;
    if a == "" {
      assert s[1..] == b;
    } else {
      assert s[1..] == a[1..] + "." + b;
      SplitAtDot(a[1..], b);
    }
  }

  lemma {:induction false} SplitNoDot(s: string)
    requires NoDot(s)
    ensures Split(s) == [s]
  {
    if s != "" {
      SplitNoDot(s[1..]);
      assert [s[0]] + s[1..] == s;
    }
  }

  lemma {:induction false} SplitDotted(path: seq<string>)
    requires path != []
    ensures |Split(Dotted(path))| >= |path|
    ensures forall n :: 0 <= n <= |path| && (forall i :: 0 <= i < n ==> NoDot(path[i])) ==>
              path[..n] <= Split(Dotted(path))
  {
    var segments := Split(Dotted(path));
    if |path| > 1 {
      var rest := path[1..];
      SplitAtDot(path[0], Dotted(rest));
      SplitDotted(rest);
      forall n | 1 <= n <= |path| && (forall i :: 0 <= i < n ==> NoDot(path[i]))
        ensures path[..n] <= segments
      {
        SplitNoDot(path[0]);
        assert forall i :: 0 <= i < n - 1 ==> rest[i] == path[i + 1];
        assert rest[..n - 1] <= Split(Dotted(rest));
        assert path[..n] == [path[0]] + rest[..n - 1];
      }
    } else if NoDot(path[0]) {
      SplitNoDot(path[0]);
      assert path == [path[0]];
    }
  }

  /** A change below a protected path is always caught. */
  lemma ProtectedPathsAreCaught(path: seq<string>, pattern: seq<string>)
    requires pattern != [] && pattern <= path && forall i :: 0 <= i < |pattern| ==> NoDot(pattern[i])
    ensures DottedMatch(path, pattern)
  {
    SplitDotted(path);
    assert path[..|pattern|] == pattern;
  }

  predicate DotFree(pattern: seq<string>) {
    forall i :: 0 <= i < |pattern| ==> NoDot(pattern[i])
  }

  /**
   * The dotted test agrees with the test on keys, for all dot-free patterns of n keys, exactly
   * when the first n keys hold no dot, or when even the dotted path is too short to match.
   */
  lemma DottedTestIsExactWithoutDots(path: seq<string>, n: nat)
    requires n > 0
    ensures (forall pattern :: |pattern| == n && DotFree(pattern) ==> (DottedMatch(path, pattern) <==> pattern <= path))
       <==> (|Split(Dotted(path))| < n || (n <= |path| && DotFree(path[..n])))
  {
    var segments := Split(Dotted(path));
    if path != [] { SplitDotted(path); }
    if |segments| < n || (n <= |path| && DotFree(path[..n])) {
      forall pattern | |pattern| == n && DotFree(pattern)
        ensures DottedMatch(path, pattern) <==> pattern <= path
      {
        if |segments| >= n {
          assert forall i :: 0 <= i < n ==> path[..n][i] == path[i];
          assert path[..n] <= segments;
        }
      }
    } else {
      var pattern := segments[..n];
      SplitSegmentsHaveNoDot(Dotted(path));
      assert DotFree(pattern) && DottedMatch(path, pattern);
      assert n <= |path| ==> path[..n] != pattern;
    }
  }

  /**
   * On changes whose first two keys hold no dot, the conflict test finds exactly the changes of
   * or below a protected field. A change with one key only, such as a replaced spec, is none.
   */
  lemma ConflictIsExact(kind: string, changes: seq<Change>)
    requires forall c :: c in changes ==> DotFree(if |c.path| <= 2 then c.path else c.path[..2])
    ensures ImmutableConflict(kind, changes)
       <==> exists c, f :: c in changes && f in ImmutableFields(kind) && ["spec", f] <= c.path
  {
    forall c, f | c in changes && f in ImmutableFields(kind)
      ensures DottedMatch(c.path, ["spec", f]) <==> ["spec", f] <= c.path
    {
      FieldsAreDotFree(kind, f);
      if |c.path| >= 2 {
        assert forall i :: 0 <= i < 2 ==> c.path[i] == c.path[..2][i];
        DottedTestIsExactWithoutDots(c.path, 2);
      } else if c.path != [] {
        assert c.path == [c.path[0]];
        SplitNoDot(c.path[0]);
      }
    }
  }

  lemma FieldsAreDotFree(kind: string, f: string)
    requires f in ImmutableFields(kind)
    ensures DotFree(["spec", f])
  {}

  // ----- The conflict test on objects -----

  ghost predicate Differs(a: Json, b: Json, key: string) {
    Norm(Get(a, key)) != Norm(Get(b, key))
  }

  /** The key is the name itself or goes on with a dot. */
  predicate StartsAs(key: string, name: string) {
    key == name || name + "." <= key
  }

  function Spec(v: Json): Json {
    Get(v, "spec")
  }

  /** What the test is for: a protected field of the spec differs, null counting as absent. */
  ghost predicate FieldDiffers(kind: string, current: Json, planned: Json) {
    exists f :: f in ImmutableFields(kind) && Differs(Spec(current), Spec(planned), f)
  }

  /** A difference at a key with a dot that reads as a protected field once it is joined. */
  ghost predicate DottedKeyDiffers(kind: string, current: Json, planned: Json) {
    || (exists f, k :: f in ImmutableFields(kind) && StartsAs(k, "spec." + f) && Differs(current, planned, k))
    || (Spec(current).Obj? && Spec(planned).Obj?
        && exists f, k :: f in ImmutableFields(kind) && f + "." <= k && Differs(Spec(current), Spec(planned), k))
  }

  lemma {:induction false} SplitHead(s: string)
    ensures NoDot(s) || exists a, b :: NoDot(a) && s == a + "." + b
  {
    if s != "" && s[0] != '.' {
      SplitHead(s[1..]);
      if !NoDot(s[1..]) {
        var a, b :| NoDot(a) && s[1..] == a + "." + b;
        assert NoDot([s[0]] + a) && s == ([s[0]] + a) + "." + b;
      }
    } else if s != "" {
      assert NoDot("") && s == "" + "." + s[1..];
    }
  }

  lemma FirstSegment(s: string, name: string)
    requires NoDot(name)
    ensures Split(s)[0] == name <==> StartsAs(s, name)
  {
    SplitHead(s);
    DotAfter(s, name);
    if NoDot(s) {
      SplitNoDot(s);
    } else {
      var a, b :| NoDot(a) && s == a + "." + b;
      SplitAtDot(a, b);
      SplitNoDot(a);
      HeadIs(s, a, b, name);
    }
  }

  lemma DotAfter(s: string, name: string)
    ensures name + "." <= s ==> !NoDot(s)
  {
    if name + "." <= s {
      assert s[|name|] == '.';
    }
  }

  lemma HeadIs(s: string, a: string, b: string, name: string)
    requires NoDot(a) && NoDot(name) && s == a + "." + b
    ensures a == name <==> StartsAs(s, name)
  {
    assert s[|a|] == '.' && (forall i :: 0 <= i < |a| ==> s[i] == a[i]);
    assert s[..|a| + 1] == a + ".";
    if name + "." <= s {
      assert s[|name|] == '.' && forall i :: 0 <= i < |name| ==> s[i] == name[i];
      assert |a| == |name|;
      assert a == s[..|a|] && name == s[..|name|];
    }
    assert '.' in s;
  }

  /** The first two segments of a key with a dot. */
  lemma TwoSegments(s: string, first: string, second: string)
    requires NoDot(first) && NoDot(second)
    ensures [first, second] <= Split(s) <==> StartsAs(s, first + "." + second)
  {
    FirstSegment(s, first);
    if first + "." <= s {
      var rest := s[|first| + 1..];
      assert s == first + "." + rest;
      SplitAtDot(first, rest);
      SplitNoDot(first);
      FirstSegment(rest, second);
      assert Split(s) == [first] + Split(rest);
      TwoFirst(first, second, Split(rest));
      AfterPrefix(s, first + ".", rest, second);
    } else if s == first {
      SplitNoDot(s);
    }
  }

  lemma TwoFirst(first: string, second: string, rest: seq<string>)
    requires rest != []
    ensures forall x :: [first, second] <= [x] + rest <==> x == first && rest[0] == second
  {
    forall x ensures [first, second] <= [x] + rest <==> x == first && rest[0] == second {
      var s := [x] + rest;
      assert s[0] == x && s[1] == rest[0];
    }
  }

  lemma AfterPrefix(s: string, p: string, rest: string, name: string)
    requires s == p + rest
    ensures StartsAs(rest, name) <==> StartsAs(s, p + name)
  {
    assert s[|p|..] == rest;
    assert p + name + "." == p + (name + ".");
    if p + (name + ".") <= s {
      assert s[|p|..][..|name| + 1] == (p + (name + "."))[|p|..];
    }
    if p + name == s {
      assert (p + name)[|p|..] == name;
    }
  }

  lemma ChangesByKey(a: Json, b: Json, path: seq<string>, c: Change)
    requires a.Obj? && b.Obj?
    ensures c in Changes(a, b, path)
       <==> exists k :: k in AllKeys(a, b) && c in Changes(Get(a, k), Get(b, k), path + [k])
  {
    RowsByKey(a, b, path, SortedKeys(AllKeys(a, b)), c);
  }

  lemma {:induction false} RowsByKey(a: Json, b: Json, path: seq<string>, keys: seq<string>, c: Change)
    requires a.Obj? && b.Obj?
    ensures c in Rows(a, b, path, keys) <==> exists k :: k in keys && c in Changes(Get(a, k), Get(b, k), path + [k])
  {
    hide Changes;
    if keys != [] {
      RowsByKey(a, b, path, keys[..|keys| - 1], c);
      assert keys == keys[..|keys| - 1] + [keys[|keys| - 1]];
    }
  }

  /** Below a key there is a change exactly when the two sides differ there. */
  lemma ChangeAtKey(a: Json, b: Json, path: seq<string>, key: string)
    requires a.Obj? && b.Obj?
    ensures Differs(a, b, key) <==> Changes(Get(a, key), Get(b, key), path + [key]) != []
    ensures Differs(a, b, key) ==> key in AllKeys(a, b)
    ensures forall c :: c in Changes(Get(a, key), Get(b, key), path + [key]) ==> path + [key] <= c.path
  {
    hide Changes, Norm;
    NoChangesIffEqual(Get(a, key), Get(b, key), path + [key]);
    ChangesBelow(Get(a, key), Get(b, key), path + [key]);
  }

  lemma DottedHead(path: seq<string>)
    requires path != []
    ensures Split(Dotted(path))[0] == Split(path[0])[0]
    ensures |path| > 1 ==> Split(Dotted(path)) == Split(path[0]) + Split(Dotted(path[1..]))
  {
    if |path| > 1 {
      SplitAtDot(path[0], Dotted(path[1..]));
    }
  }

  lemma SegmentCount(s: string)
    ensures |Split(s)| == 1 <==> NoDot(s)
    ensures NoDot(s) ==> Split(s) == [s]
  {
    SplitHead(s);
    if NoDot(s) {
      SplitNoDot(s);
    } else {
      var a, b :| NoDot(a) && s == a + "." + b;
      SplitAtDot(a, b);
    }
  }

  /** Which paths the test takes for a change of spec and the field. */
  lemma MatchOfPath(path: seq<string>, f: string)
    requires path != [] && NoDot(f)
    ensures DottedMatch(path, ["spec", f])
       <==> StartsAs(path[0], "spec." + f) || (path[0] == "spec" && |path| > 1 && StartsAs(path[1], f))
  {
    hide Split, Dotted, StartsAs;
    assert Split(path[0]) != [];
    TwoSegments(path[0], "spec", f);
    assert "spec" + "." + f == "spec." + f;
    SegmentCount(path[0]);
    DottedHead(path);
    if |path| == 1 {
      OneKey(path);
    } else {
      assert Split(Dotted(path)) == Split(path[0]) + Split(Dotted(path[1..]));
      DottedHead(path[1..]);
      FirstSegment(path[1], f);
      if NoDot(path[0]) {
        DotInside(path[0], f);
        assert Split(Dotted(path)) == [path[0]] + Split(Dotted(path[1..]));
        TwoFirst("spec", f, Split(Dotted(path[1..])));
      } else {
        assert path[0] != "spec";
        assert |Split(path[0])| >= 2;
        assert Split(Dotted(path))[..2] == Split(path[0])[..2];
        TwoOfMany("spec", f, Split(path[0]));
        TwoOfMany("spec", f, Split(Dotted(path)));
      }
    }
  }

  lemma OneKey(path: seq<string>)
    requires |path| == 1
    ensures Dotted(path) == path[0]
  {}

  lemma TwoOfMany(first: string, second: string, s: seq<string>)
    requires |s| >= 2
    ensures [first, second] <= s <==> s[..2] == [first, second]
  {}

  lemma DotInside(key: string, f: string)
    ensures StartsAs(key, "spec." + f) ==> !NoDot(key)
  {
    if StartsAs(key, "spec." + f) {
      assert ("spec." + f)[4] == '.';
      assert key[4] == '.';
    }
  }

  lemma HitIff(current: Json, planned: Json, f: string)
    requires current.Obj? && planned.Obj? && NoDot(f)
    ensures (exists c :: c in Changes(current, planned, []) && DottedMatch(c.path, ["spec", f]))
       <==> || (exists k :: StartsAs(k, "spec." + f) && Differs(current, planned, k))
            || (Spec(current).Obj? && Spec(planned).Obj?
                && exists k :: StartsAs(k, f) && Differs(Spec(current), Spec(planned), k))
  {
    hide Changes, Norm, DottedMatch, StartsAs, Differs;
    if c :| c in Changes(current, planned, []) && DottedMatch(c.path, ["spec", f]) {
      HitIsDifference(current, planned, f, c);
    }
    if k :| StartsAs(k, "spec." + f) && Differs(current, planned, k) {
      var c := ChangeBelow(current, planned, k);
      MatchOfPath(c.path, f);
    }
    if Spec(current).Obj? && Spec(planned).Obj? {
      if k :| StartsAs(k, f) && Differs(Spec(current), Spec(planned), k) {
        var c := ChangeInSpec(current, planned, k);
        MatchOfPath(c.path, f);
      }
    }
  }

  lemma HitIsDifference(current: Json, planned: Json, f: string, c: Change)
    requires current.Obj? && planned.Obj? && NoDot(f)
    requires c in Changes(current, planned, []) && DottedMatch(c.path, ["spec", f])
    ensures || (exists k :: StartsAs(k, "spec." + f) && Differs(current, planned, k))
            || (Spec(current).Obj? && Spec(planned).Obj?
                && exists k :: StartsAs(k, f) && Differs(Spec(current), Spec(planned), k))
  {
    hide Norm, DottedMatch, StartsAs, Differs, Rows, SortedKeys;
    ChangesByKey(current, planned, [], c);
    var k :| k in AllKeys(current, planned) && c in Changes(Get(current, k), Get(planned, k), [] + [k]);
    ChangeAtKey(current, planned, [], k);
    assert Differs(current, planned, k);
    assert [] + [k] == [k];
    MatchOfPath(c.path, f);
    if !StartsAs(k, "spec." + f) {
      assert k == "spec" && |c.path| > 1;
      var a, b := Spec(current), Spec(planned);
      OnlyDictsGoOn(a, b, ["spec"], c);
      ChangesByKey(a, b, ["spec"], c);
      var inner :| inner in AllKeys(a, b) && c in Changes(Get(a, inner), Get(b, inner), ["spec"] + [inner]);
      ChangeAtKey(a, b, ["spec"], inner);
      assert c.path[1] == inner;
    }
  }

  lemma OnlyDictsGoOn(a: Json, b: Json, path: seq<string>, c: Change)
    requires c in Changes(a, b, path) && |c.path| > |path|
    ensures a.Obj? && b.Obj?
  {
    hide Rows, SortedKeys;
  }

  lemma ChangeBelow(current: Json, planned: Json, k: string) returns (c: Change)
    requires current.Obj? && planned.Obj? && Differs(current, planned, k)
    ensures c in Changes(current, planned, []) && [k] <= c.path
  {
    hide Changes, Norm, Differs;
    ChangeAtKey(current, planned, [], k);
    assert [] + [k] == [k];
    c := Changes(Get(current, k), Get(planned, k), [k])[0];
    ChangesByKey(current, planned, [], c);
  }

  lemma ChangeInSpec(current: Json, planned: Json, k: string) returns (c: Change)
    requires current.Obj? && planned.Obj? && Spec(current).Obj? && Spec(planned).Obj?
    requires Differs(Spec(current), Spec(planned), k)
    ensures c in Changes(current, planned, []) && ["spec", k] <= c.path
  {
    hide Changes, Norm, Differs;
    var a, b := Spec(current), Spec(planned);
    ChangeAtKey(a, b, ["spec"], k);
    assert ["spec"] + [k] == ["spec", k] && [] + ["spec"] == ["spec"];
    c := Changes(Get(a, k), Get(b, k), ["spec", k])[0];
    ChangesByKey(a, b, ["spec"], c);
    ChangesByKey(current, planned, [], c);
  }

  /** What the test finds on two objects, whatever their keys and specs are. */
  lemma ConflictOnObjects(kind: string, current: Json, planned: Json)
    requires current.Obj? && planned.Obj?
    ensures ImmutableConflict(kind, Changes(current, planned, []))
       <==> || (Spec(current).Obj? && Spec(planned).Obj? && FieldDiffers(kind, current, planned))
            || DottedKeyDiffers(kind, current, planned)
  {
    hide Changes, DottedMatch, Differs, ImmutableFields;
    forall f | f in ImmutableFields(kind)
      ensures (exists c :: c in Changes(current, planned, []) && DottedMatch(c.path, ["spec", f]))
         <==> || (exists k :: StartsAs(k, "spec." + f) && Differs(current, planned, k))
              || (Spec(current).Obj? && Spec(planned).Obj?
                  && exists k :: StartsAs(k, f) && Differs(Spec(current), Spec(planned), k))
    {
      FieldsAreDotFree(kind, f);
      assert NoDot(["spec", f][1]);
      HitIff(current, planned, f);
    }
  }

  /**
   * The test says that a protected field differs, exactly when it meets no dotted key that reads
   * as one, and a field only differs where both specs are dicts; or when both mistakes coincide.
   */
  lemma ConflictMeansDifferenceIff(kind: string, current: Json, planned: Json)
    requires current.Obj? && planned.Obj?
    ensures (ImmutableConflict(kind, Changes(current, planned, [])) <==> FieldDiffers(kind, current, planned))
       <==> if FieldDiffers(kind, current, planned)
            then (Spec(current).Obj? && Spec(planned).Obj?) || DottedKeyDiffers(kind, current, planned)
            else !DottedKeyDiffers(kind, current, planned)
  {
    ConflictOnObjects(kind, current, planned);
  }

  /** Without dots in the keys of the object and of its spec, both specs being dicts is all that is needed. */
  lemma ConflictIsFieldDifference(kind: string, current: Json, planned: Json)
    requires current.Obj? && planned.Obj? && Spec(current).Obj? && Spec(planned).Obj?
    requires forall k :: k in AllKeys(current, planned) + AllKeys(Spec(current), Spec(planned)) ==> NoDot(k)
    ensures ImmutableConflict(kind, Changes(current, planned, [])) <==> FieldDiffers(kind, current, planned)
  {
    hide Changes, Differs, ImmutableFields;
    ConflictOnObjects(kind, current, planned);
    forall f, k | StartsAs(k, "spec." + f) ensures !Differs(current, planned, k) {
      DottedIsAbsent(current, planned, k) by { assert k[4] == '.'; }
    }
    forall f: string, k | f + "." <= k ensures !Differs(Spec(current), Spec(planned), k) {
      DottedIsAbsent(Spec(current), Spec(planned), k) by { assert k[|f|] == '.'; }
    }
  }

  /** What must not change, kind by kind. */
  lemma ConflictByKind(kind: string, current: Json, planned: Json)
    requires current.Obj? && planned.Obj? && Spec(current).Obj? && Spec(planned).Obj?
    requires forall k :: k in AllKeys(current, planned) + AllKeys(Spec(current), Spec(planned)) ==> NoDot(k)
    ensures ImmutableConflict(kind, Changes(current, planned, [])) <==>
              exists f :: Differs(Spec(current), Spec(planned), f)
                          && (|| (f == "selector" && kind in {"Deployment", "StatefulSet"})
                              || (f == "serviceName" && kind == "StatefulSet")
                              || (f in {"clusterIP", "clusterIPs", "ipFamilies", "ipFamilyPolicy"} && kind == "Service")
                              || (f in {"storageClassName", "volumeMode", "volumeName", "dataSource"}
                                  && kind == "PersistentVolumeClaim"))
  {
    hide Changes, Differs, ImmutableConflict;
    ConflictIsFieldDifference(kind, current, planned);
    forall f ensures f in ImmutableFields(kind) <==>
                       || (f == "selector" && kind in {"Deployment", "StatefulSet"})
                       || (f == "serviceName" && kind == "StatefulSet")
                       || (f in {"clusterIP", "clusterIPs", "ipFamilies", "ipFamilyPolicy"} && kind == "Service")
                       || (f in {"storageClassName", "volumeMode", "volumeName", "dataSource"}
                           && kind == "PersistentVolumeClaim") {
      FieldsOfKinds(kind, f);
    }
    hide ImmutableFields;
  }

  lemma FieldsOfKinds(kind: string, f: string)
    ensures f in ImmutableFields(kind) <==>
              || (f == "selector" && kind in {"Deployment", "StatefulSet"})
              || (f == "serviceName" && kind == "StatefulSet")
              || (f in {"clusterIP", "clusterIPs", "ipFamilies", "ipFamilyPolicy"} && kind == "Service")
              || (f in {"storageClassName", "volumeMode", "volumeName", "dataSource"}
                  && kind == "PersistentVolumeClaim")
  {}

  lemma DottedIsAbsent(a: Json, b: Json, k: string)
    requires a.Obj? && b.Obj? && !NoDot(k) && forall key :: key in AllKeys(a, b) ==> NoDot(key)
    ensures !Differs(a, b, k)
  {
    hide Norm;
    assert k !in AllKeys(a, b);
  }

  /** A spec that appears or goes away as a whole is reported as one row, and no field of it is seen. */
  lemma WholeSpecIsMissed(selector: Json)
    requires selector != Null
    ensures var current, planned := Obj(map["spec" := Null]), Obj(map["spec" := Obj(map["selector" := selector])]);
            && FieldDiffers("Deployment", current, planned)
            && !ImmutableConflict("Deployment", Changes(current, planned, []))
  {
    hide Changes, Norm;
    var current, planned := Obj(map["spec" := Null]), Obj(map["spec" := Obj(map["selector" := selector])]);
    NormNull(selector);
    NormNull(Null);
    assert "selector" in ImmutableFields("Deployment") && Differs(Spec(current), Spec(planned), "selector");
    ConflictOnObjects("Deployment", current, planned);
    forall f, k | StartsAs(k, "spec." + f) ensures !Differs(current, planned, k) {
      assert k[4] == '.' && |"spec"| == 4;
    }
  }

  /** A key with a dot makes the test fire on a field that is not protected, as selector.x does. */
  lemma DottedKeyIsMistaken(parent: string, field: string, more: string)
    requires NoDot(parent) && NoDot(field)
    ensures DottedMatch([parent, field + "." + more], [parent, field])
    ensures !([parent, field] <= [parent, field + "." + more])
  {
    var key := field + "." + more;
    SplitAtDot(parent, key);
    SplitNoDot(parent);
    SplitAtDot(field, more);
    SplitNoDot(field);
    assert [parent, key][1..] == [key];
    assert Split(Dotted([parent, key])) == [parent, field] + Split(more);
    assert [parent, key][1] != [parent, field][1] by { assert |key| > |field|; }
  }
}
