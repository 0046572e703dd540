/** What appending a batch to a multi-valued attribute leaves, exactly (appendNew in
    patch/apply_add.go): the old list, followed by the members of the batch that neither the list
    nor the batch before them has already. */
module PatchAppend {
  import opened Text
  import opened Schema
  import opened Values
  import opened PatchRules
  import opened PatchElements

  // ----- Lists of complex values -----

  /** x stands for e already: they have the same value member or, where e has none, are equal. */
  predicate Alike(x: Elem, e: Elem) {
    if VALUE in e then VALUE in x && SimpleEqual(x[VALUE], e[VALUE]) else ElemEqual(x, e)
  }

  /** Neither the list nor the batch before position i has the element. */
  predicate New(list: seq<Elem>, batch: seq<Elem>, i: nat)
    requires i < |batch|
  {
    (forall x <- list :: !Alike(x, batch[i])) && forall j :: 0 <= j < i ==> !Alike(batch[j], batch[i])
  }

  /** The new elements among the first n of the batch, in order. */
  function News(list: seq<Elem>, batch: seq<Elem>, n: nat): seq<Elem>
    requires n <= |batch|
  {
    if n == 0 then [] else News(list, batch, n - 1) + if New(list, batch, n - 1) then [batch[n - 1]] else []
  }

  /** The list with every primary flag taken down. */
  function Lowered(list: seq<Elem>): seq<Elem> {
    seq(|list|, i requires 0 <= i < |list| => if PrimaryTrue(list[i]) then list[i][PRIMARY := Bool(false)] else list[i])
  }

  lemma {:induction false} AlikeTrans(x: Elem, y: Elem, z: Elem)
    requires Alike(x, y) && Alike(y, z)
    ensures Alike(x, z)
  {
    hide SimpleEqual;
    if VALUE in z {
      SimpleEqualTrans(x[VALUE], y[VALUE], z[VALUE]);
    } else {
      ElemEqualKeys(y, z);
      ElemEqualTrans(x, y, z);
    }
  }

  lemma AlikeIs(a: Attribute, x: Elem, e: Elem)
    requires StoredElem(a, e)
    ensures Duplicates(x, e) <==> Alike(x, e)
  {
    if VALUE in e { StoredNotNil(FindAttribute(a.subs, VALUE).value, e[VALUE]); }
  }

  /** An element of the batch before n that is alike is found in the list or among the new. */
  lemma {:induction false} AlikeKept(list: seq<Elem>, batch: seq<Elem>, n: nat, j: nat, e: Elem)
    requires j < n <= |batch| && Alike(batch[j], e)
    ensures exists x <- list + News(list, batch, n) :: Alike(x, e)
    decreases j
  {
    hide Alike;
    if New(list, batch, j) {
      NewKept(list, batch, n, j);
    } else if exists x <- list :: Alike(x, batch[j]) {
      var x :| x in list && Alike(x, batch[j]);
      AlikeTrans(x, batch[j], e);
      assert x in list + News(list, batch, n);
    } else {
      var i :| 0 <= i < j && Alike(batch[i], batch[j]);
      AlikeTrans(batch[i], batch[j], e);
      AlikeKept(list, batch, n, i, e);
    }
  }

  lemma {:induction false} NewKept(list: seq<Elem>, batch: seq<Elem>, n: nat, j: nat)
    requires j < n <= |batch| && New(list, batch, j)
    ensures batch[j] in News(list, batch, n)
  {
    hide New;
    if j < n - 1 { NewKept(list, batch, n - 1, j); }
  }

  lemma {:induction false} NewsFrom(list: seq<Elem>, batch: seq<Elem>, n: nat)
    requires n <= |batch|
    ensures forall x <- News(list, batch, n) :: exists j :: 0 <= j < n && batch[j] == x
  {
    hide New;
    if n > 0 { NewsFrom(list, batch, n - 1); }
  }

  /** The loop finds a duplicate exactly when the element is not new. */
  lemma {:induction false} FoundIff(a: Attribute, list: seq<Elem>, batch: seq<Elem>, n: nat)
    requires n < |batch| && StoredElem(a, batch[n])
    ensures HasDuplicate(list + News(list, batch, n), batch[n]) <==> !New(list, batch, n)
  {
    hide Alike, StoredElem, Duplicates;
    var out := list + News(list, batch, n);
    if HasDuplicate(out, batch[n]) {
      var i :| 0 <= i < |out| && Duplicates(out[i], batch[n]);
      AlikeIs(a, out[i], batch[n]);
      NewsFrom(list, batch, n);
      assert out[i] in list || out[i] in News(list, batch, n);
    }
    if !New(list, batch, n) {
      if forall x <- list :: !Alike(x, batch[n]) {
        var j :| 0 <= j < n && Alike(batch[j], batch[n]);
        AlikeKept(list, batch, n, j, batch[n]);
      }
      var x :| x in out && Alike(x, batch[n]);
      var i :| 0 <= i < |out| && out[i] == x;
      AlikeIs(a, x, batch[n]);
    }
  }

  lemma {:induction false} AppendFrom(a: Attribute, list: seq<Elem>, batch: seq<Elem>, n: nat)
    requires n <= |batch| && forall i :: 0 <= i < |batch| ==> StoredElem(a, batch[i])
    ensures AppendElems(list + News(list, batch, n), batch[n..]) == list + News(list, batch, |batch|)
    decreases |batch| - n
  {
    hide StoredElem, HasDuplicate, New;
    if n < |batch| {
      FoundIff(a, list, batch, n);
      assert batch[n..][1..] == batch[n + 1..];
      var found := News(list, batch, n);
      assert list + (found + [batch[n]]) == list + found + [batch[n]] && found + [] == found;
      AppendFrom(a, list, batch, n + 1);
    }
  }

  /** Appending complex values: the old elements, their primary flags taken down when a new one
      is primary, followed by the new ones. */
  lemma {:induction false} ComplexAppend(a: Attribute, existing: seq<Elem>, incoming: seq<Elem>)
    requires forall i :: 0 <= i < |incoming| ==> StoredElem(a, incoming[i])
    ensures var news := News(existing, incoming, |incoming|);
            AppendNew(Multi(existing), Multi(incoming)) ==
            (Multi((if exists e <- news :: PrimaryTrue(e) then Lowered(existing) else existing) + news), news != [])
  {
    hide StoredElem, PrimaryTrue, AppendElems, News;
    var news := News(existing, incoming, |incoming|);
    assert existing + News(existing, incoming, 0) == existing && incoming[0..] == incoming by { NoNews(existing, incoming); }
    AppendFrom(a, existing, incoming, 0);
    DemotedTail(existing, news);
    if news == [] { assert existing + news == existing; }
  }

  lemma NoNews(list: seq<Elem>, batch: seq<Elem>)
    ensures News(list, batch, 0) == []
  {
  }

  lemma {:induction false} DemotedTail(list: seq<Elem>, news: seq<Elem>)
    ensures Demoted(list + news, IndexRange(|list|, |list + news|)) == (if exists e <- news :: PrimaryTrue(e) then Lowered(list) else list) + news
  {
    hide PrimaryTrue, Demoted, Lowered;
    var out := list + news;
    var keep := IndexRange(|list|, |out|);
    if exists e <- news :: PrimaryTrue(e) {
      var e :| e in news && PrimaryTrue(e);
      var k :| 0 <= k < |news| && news[k] == e;
      assert out[|list| + k] == e && |list| + k in keep;
      DemotedAll(out, keep, |list| + k);
      LoweredAt(list);
      var r := Demoted(out, keep);
      assert |r| == |list| + |news|;
      forall i | 0 <= i < |out| ensures r[i] == (Lowered(list) + news)[i] {
        if i < |list| { assert out[i] == list[i]; } else { assert out[i] == news[i - |list|]; }
      }
      assert r == Lowered(list) + news;
    } else {
      forall i | 0 <= i < |out| && i in keep ensures !PrimaryTrue(out[i]) {
        assert out[i] == news[i - |list|] && news[i - |list|] in news;
      }
      NoneDemoted(out, keep);
    }
  }

  lemma DemotedAll(list: seq<Elem>, keep: set<nat>, k: nat)
    requires k < |list| && k in keep && PrimaryTrue(list[k])
    ensures forall i :: 0 <= i < |list| ==>
              Demoted(list, keep)[i] == if i !in keep && PrimaryTrue(list[i]) then list[i][PRIMARY := Bool(false)] else list[i]
  {
    hide PrimaryTrue;
  }

  lemma NoneDemoted(list: seq<Elem>, keep: set<nat>)
    requires forall i :: 0 <= i < |list| && i in keep ==> !PrimaryTrue(list[i])
    ensures Demoted(list, keep) == list
  {
    hide PrimaryTrue;
  }

  lemma LoweredAt(list: seq<Elem>)
    ensures |Lowered(list)| == |list|
    ensures forall i :: 0 <= i < |list| ==> Lowered(list)[i] == if PrimaryTrue(list[i]) then list[i][PRIMARY := Bool(false)] else list[i]
  {
    hide PrimaryTrue;
  }

  // ----- Lists of scalars -----

  predicate NewScalar(list: seq<Value>, batch: seq<Value>, i: nat)
    requires i < |batch|
  {
    (forall x <- list :: !ScalarEqual(x, batch[i])) && forall j :: 0 <= j < i ==> !ScalarEqual(batch[j], batch[i])
  }

  function NewScalars(list: seq<Value>, batch: seq<Value>, n: nat): seq<Value>
    requires n <= |batch|
  {
    if n == 0 then [] else NewScalars(list, batch, n - 1) + if NewScalar(list, batch, n - 1) then [batch[n - 1]] else []
  }

  lemma {:induction false} ScalarKept(list: seq<Value>, batch: seq<Value>, n: nat, j: nat, v: Value)
    requires j < n <= |batch| && ScalarEqual(batch[j], v)
    ensures exists x <- list + NewScalars(list, batch, n) :: ScalarEqual(x, v)
    decreases j
  {
    if NewScalar(list, batch, j) {
      NewScalarKept(list, batch, n, j);
    } else if exists x <- list :: ScalarEqual(x, batch[j]) {
      var x :| x in list && ScalarEqual(x, batch[j]);
      assert ScalarEqual(x, v) && x in list + NewScalars(list, batch, n);
    } else {
      var i :| 0 <= i < j && ScalarEqual(batch[i], batch[j]);
      assert ScalarEqual(batch[i], v);
      ScalarKept(list, batch, n, i, v);
    }
  }

  lemma {:induction false} NewScalarKept(list: seq<Value>, batch: seq<Value>, n: nat, j: nat)
    requires j < n <= |batch| && NewScalar(list, batch, j)
    ensures batch[j] in NewScalars(list, batch, n)
  {
    hide NewScalar;
    if j < n - 1 { NewScalarKept(list, batch, n - 1, j); }
  }

  lemma {:induction false} ScalarsFrom(list: seq<Value>, batch: seq<Value>, n: nat)
    requires n <= |batch|
    ensures forall x <- NewScalars(list, batch, n) :: exists j :: 0 <= j < n && batch[j] == x
  {
    hide NewScalar;
    if n > 0 { ScalarsFrom(list, batch, n - 1); }
  }

  lemma {:induction false} ScalarFoundIff(list: seq<Value>, batch: seq<Value>, n: nat)
    requires n < |batch|
    ensures HasScalar(list + NewScalars(list, batch, n), batch[n]) <==> !NewScalar(list, batch, n)
  {
    hide ScalarEqual;
    var out := list + NewScalars(list, batch, n);
    if HasScalar(out, batch[n]) {
      var i :| 0 <= i < |out| && ScalarEqual(out[i], batch[n]);
      ScalarsFrom(list, batch, n);
      assert out[i] in list || out[i] in NewScalars(list, batch, n);
    }
    if !NewScalar(list, batch, n) {
      if forall x <- list :: !ScalarEqual(x, batch[n]) {
        var j :| 0 <= j < n && ScalarEqual(batch[j], batch[n]);
        ScalarKept(list, batch, n, j, batch[n]);
      }
      var x :| x in out && ScalarEqual(x, batch[n]);
      var i :| 0 <= i < |out| && out[i] == x;
    }
  }

  lemma {:induction false} ScalarsAppendFrom(list: seq<Value>, batch: seq<Value>, n: nat)
    requires n <= |batch|
    ensures AppendScalars(list + NewScalars(list, batch, n), batch[n..]) == list + NewScalars(list, batch, |batch|)
    decreases |batch| - n
  {
    hide HasScalar, NewScalar;
    if n < |batch| {
      ScalarFoundIff(list, batch, n);
      assert batch[n..][1..] == batch[n + 1..];
      var found := NewScalars(list, batch, n);
      assert list + (found + [batch[n]]) == list + found + [batch[n]] && found + [] == found;
      ScalarsAppendFrom(list, batch, n + 1);
    }
  }

  /** Appending scalars of one type: the old list followed by the new ones. */
  lemma {:induction false} ScalarAppend(typ: AttrType, existing: seq<Value>, incoming: seq<Value>)
    ensures var news := NewScalars(existing, incoming, |incoming|);
            AppendNew(Slice(typ, existing), Slice(typ, incoming)) == (Slice(typ, existing + news), news != [])
  {
    hide HasScalar, NewScalar;
    assert existing + NewScalars(existing, incoming, 0) == existing && incoming[0..] == incoming;
    ScalarsAppendFrom(existing, incoming, 0);
  }
}
