/** Merging a value object into one element (mergeElemKeys in patch/apply_add.go). The source
    visits the members in map order, which is arbitrary; what it computes does not depend on
    it. */
module PatchMerging {
  import opened Text
  import opened Schema
  import opened Values
  import opened Documents
  import opened PatchRules
  import opened Ordering

  predicate SkippedKey(a: Attribute, k: string) {
    var s := FindAttribute(a.subs, k);
    s.Some? && s.value.access == ReadOnly
  }

  /** The member passes the immutability guard on the element. */
  predicate Admits(lx: Lexicon, a: Attribute, elem: Elem, obj: Elem, k: string)
    requires k in obj
  {
    var s := FindAttribute(a.subs, k);
    s.None? || s.value.access == ReadOnly || CheckElemImmutable(lx, s.value, elem, obj[k]).None?
  }

  /** The members among keys that a merge writes: all but the readOnly ones. */
  function Overlay(a: Attribute, obj: Elem, keys: set<string>): Elem {
    map k | k in obj.Keys && k in keys && !SkippedKey(a, k) :: obj[k]
  }

  /** Admission depends on the element's own member of that name only. */
  lemma {:induction false} AdmitsByMember(lx: Lexicon, a: Attribute, e: Elem, e': Elem, obj: Elem, k: string)
    requires k in obj && Fold(k) == k && Lookup(e, k) == Lookup(e', k)
    ensures Admits(lx, a, e, obj, k) == Admits(lx, a, e', obj, k)
  {
    hide CheckImmutableSub;
  }

  lemma {:induction false} GuardKinds(lx: Lexicon, s: Attribute, e: Elem, v: Value)
    ensures var r := CheckElemImmutable(lx, s, e, v); r.Some? ==> r.value == InvalidValue || r.value == Mutability
  {
    hide ValuesEqual;
  }

  lemma {:induction false} InOrderTail(keys: seq<string>)
    requires InOrder(keys) && keys != []
    ensures InOrder(keys[1..]) && keys[0] !in keys[1..]
  {
    hide LessEq;
    forall i | 0 <= i < |keys[1..]| ensures keys[1..][i] != keys[0] {
      assert LessEq(keys[0], keys[i + 1]);
    }
    forall i, j | 0 <= i < j < |keys[1..]| ensures keys[1..][i] != keys[1..][j] && LessEq(keys[1..][i], keys[1..][j]) {
      assert LessEq(keys[i + 1], keys[j + 1]);
    }
  }

  predicate FoldedKeys(obj: Elem) {
    forall k <- obj.Keys :: Fold(k) == k
  }

  /** One step of the merge. */
  lemma {:induction false} MergeStep(lx: Lexicon, a: Attribute, cur: Elem, obj: Elem, keys: seq<string>)
    requires keys != [] && forall k <- keys :: k in obj
    ensures var k, r := keys[0], MergeKeys(lx, a, cur, obj, keys);
            && (Admits(lx, a, cur, obj, k) ==> r == MergeKeys(lx, a, if SkippedKey(a, k) then cur else cur[k := obj[k]], obj, keys[1..]))
            && (!Admits(lx, a, cur, obj, k) ==> r.Err? && (r.kind == InvalidValue || r.kind == Mutability))
  {
    hide CheckElemImmutable;
    var s := FindAttribute(a.subs, keys[0]);
    if s.Some? { GuardKinds(lx, s.value, cur, obj[keys[0]]); }
  }

  lemma MergeNone(lx: Lexicon, a: Attribute, cur: Elem, obj: Elem)
    ensures MergeKeys(lx, a, cur, obj, []) == Ok(cur)
  {
  }

  /** The merge succeeds exactly when every member is admitted, in whatever order they are
      visited, and then writes all but the readOnly ones. */
  lemma {:induction false} MergeIff(lx: Lexicon, a: Attribute, cur: Elem, obj: Elem, keys: seq<string>)
    requires (forall k <- keys :: k in obj) && FoldedKeys(obj) && InOrder(keys)
    ensures var r := MergeKeys(lx, a, cur, obj, keys);
            && (r.Ok? <==> forall k <- keys :: Admits(lx, a, cur, obj, k))
            && (r.Ok? ==> r.value == cur + Overlay(a, obj, set k <- keys))
            && (r.Err? ==> r.kind == InvalidValue || r.kind == Mutability)
    decreases |keys|
  {
    hide Admits, InOrder, SkippedKey, MergeKeys, Fold;
    if keys == [] {
      MergeNone(lx, a, cur, obj);
      assert cur + Overlay(a, obj, set k <- keys) == cur;
    } else {
      var k0 := keys[0];
      MergeStep(lx, a, cur, obj, keys);
      if Admits(lx, a, cur, obj, k0) {
        InOrderTail(keys);
        var rest := set k <- keys[1..];
        assert (set k <- keys) == {k0} + rest;
        var next := if SkippedKey(a, k0) then cur else cur[k0 := obj[k0]];
        forall k <- keys[1..] ensures k in obj && Admits(lx, a, next, obj, k) == Admits(lx, a, cur, obj, k) {
          assert k in keys && k != k0;
          AdmitsByMember(lx, a, cur, next, obj, k);
        }
        MergeIff(lx, a, next, obj, keys[1..]);
        assert next + Overlay(a, obj, rest) == cur + Overlay(a, obj, {k0} + rest);
      }
    }
  }

  /** The same for a whole object. */
  lemma {:induction false} MergeAllIff(lx: Lexicon, a: Attribute, cur: Elem, obj: Elem)
    requires FoldedKeys(obj)
    ensures var r := MergeKeys(lx, a, cur, obj, SortedKeys(obj.Keys));
            && (r.Ok? <==> forall k <- obj.Keys :: Admits(lx, a, cur, obj, k))
            && (r.Ok? ==> r.value == cur + Overlay(a, obj, obj.Keys))
            && (r.Err? ==> r.kind == InvalidValue || r.kind == Mutability)
  {
    hide Admits, MergeKeys, InOrder, FoldedKeys;
    var keys := SortedKeys(obj.Keys);
    SortedKeysInOrder(obj.Keys);
    MergeIff(lx, a, cur, obj, keys);
    assert (set k <- keys) == obj.Keys;
  }

  /** Whatever the names and their order, a merge that succeeds has written all the members
      visited but the readOnly ones. */
  lemma {:induction false} MergeOverlays(lx: Lexicon, a: Attribute, cur: Elem, obj: Elem, keys: seq<string>)
    requires forall k <- keys :: k in obj
    ensures var r := MergeKeys(lx, a, cur, obj, keys); r.Ok? ==> r.value == cur + Overlay(a, obj, set k <- keys)
    decreases |keys|
  {
    hide Admits, SkippedKey, MergeKeys;
    if keys == [] {
      MergeNone(lx, a, cur, obj);
      assert cur + Overlay(a, obj, set k <- keys) == cur;
    } else {
      var k0, rest := keys[0], set k <- keys[1..];
      MergeStep(lx, a, cur, obj, keys);
      var next := if SkippedKey(a, k0) then cur else cur[k0 := obj[k0]];
      MergeOverlays(lx, a, next, obj, keys[1..]);
      assert (set k <- keys) == {k0} + rest;
      assert next + Overlay(a, obj, rest) == cur + Overlay(a, obj, {k0} + rest);
    }
  }
}
