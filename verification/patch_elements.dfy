/** What PATCH does to the elements of a multi-valued complex attribute: appending, demoting
    the previous primary, and editing the elements a value filter selects. */
module PatchElements {
  import opened Text
  import opened Schema
  import opened Values
  import opened Documents
  import opened DocumentFacts
  import opened Paths
  import opened PatchRules
  import opened PatchSpec
  import opened PatchFacts
  import opened PatchGuards
  import opened Ordering
  import F = FilterAst

  // ----- Primary -----

  /** The element e, or e with its primary flag taken away. */
  predicate OnlyDemoted(e: Elem, e': Elem) {
    e' == e || (PrimaryTrue(e) && e' == e[PRIMARY := Bool(false)])
  }

  lemma DemotedAt(list: seq<Elem>, keep: set<nat>, i: nat)
    requires i < |list|
    ensures OnlyDemoted(list[i], Demoted(list, keep)[i])
    ensures i in keep ==> Demoted(list, keep)[i] == list[i]
  {
  }

  lemma {:induction false} DemoteStored(a: Attribute, e: Elem)
    requires StoredElem(a, e) && e != map[]
    ensures StoredElem(a, Demote(e)) && Demote(e) != map[] && !PrimaryTrue(Demote(e))
    ensures RecoercibleElem(e) ==> RecoercibleElem(Demote(e))
  {
    if PrimaryTrue(e) {
      var sub := FindAttribute(a.subs, PRIMARY);
      assert StoredSimple(sub.value, e[PRIMARY]);
      assert PRIMARY in Demote(e);
    }
  }

  lemma {:induction false} CountConcat(a: seq<Elem>, b: seq<Elem>)
    ensures PrimaryCount(a + b) == PrimaryCount(a) + PrimaryCount(b)
  {
    if a == [] {
      assert a + b == b;
    } else {
      CountConcat(a[1..], b);
      assert (a + b)[1..] == a[1..] + b;
    }
  }

  lemma {:induction false} CountNone(a: seq<Elem>)
    requires forall i :: 0 <= i < |a| ==> !PrimaryTrue(a[i])
    ensures PrimaryCount(a) == 0
  {
    if a != [] { CountNone(a[1..]); }
  }

  /** A primary element makes the count positive. */
  lemma {:induction false} CountSome(a: seq<Elem>, i: nat)
    requires i < |a| && PrimaryTrue(a[i])
    ensures 1 <= PrimaryCount(a)
  {
    if i > 0 { CountSome(a[1..], i - 1); }
  }

  lemma {:induction false} CountZero(a: seq<Elem>)
    requires PrimaryCount(a) == 0
    ensures forall i :: 0 <= i < |a| ==> !PrimaryTrue(a[i])
  {
    forall i | 0 <= i < |a| ensures !PrimaryTrue(a[i]) {
      if PrimaryTrue(a[i]) { CountSome(a, i); }
    }
  }

  // ----- Appending -----

  /** tail holds elements of incoming, in their order. */
  predicate DrawnFrom(tail: seq<Elem>, incoming: seq<Elem>)
    decreases |incoming|
  {
    tail == [] || (incoming != [] && ((tail[0] == incoming[0] && DrawnFrom(tail[1..], incoming[1..])) || DrawnFrom(tail, incoming[1..])))
  }

  lemma {:induction false} AppendDrawn(out: seq<Elem>, incoming: seq<Elem>)
    ensures DrawnFrom(AppendElems(out, incoming)[|out|..], incoming)
    decreases |incoming|
  {
    hide HasDuplicate;
    if incoming != [] {
      if HasDuplicate(out, incoming[0]) {
        AppendDrawn(out, incoming[1..]);
      } else {
        var next := out + [incoming[0]];
        AppendDrawn(next, incoming[1..]);
        var r := AppendElems(next, incoming[1..]);
        assert r[|out|] == r[..|next|][|out|] == incoming[0];
        assert r[|out|..][1..] == r[|next|..];
        assert r[|out|..][0] == incoming[0];
      }
    }
  }

  lemma {:induction false} DrawnStored(a: Attribute, tail: seq<Elem>, incoming: seq<Elem>)
    requires DrawnFrom(tail, incoming)
    requires forall i :: 0 <= i < |incoming| ==> incoming[i] != map[] && StoredElem(a, incoming[i])
    ensures forall i :: 0 <= i < |tail| ==> tail[i] != map[] && StoredElem(a, tail[i])
    ensures PrimaryCount(tail) <= PrimaryCount(incoming)
    decreases |incoming|
  {
    hide StoredElem, PrimaryTrue;
    if tail != [] {
      var rest := incoming[1..];
      if tail[0] == incoming[0] && DrawnFrom(tail[1..], rest) {
        DrawnStored(a, tail[1..], rest);
        assert tail == [tail[0]] + tail[1..];
      } else {
        DrawnStored(a, tail, rest);
      }
    }
  }

  lemma {:induction false} DrawnIn(tail: seq<Elem>, incoming: seq<Elem>)
    requires DrawnFrom(tail, incoming)
    ensures forall i :: 0 <= i < |tail| ==> tail[i] in incoming
    decreases |incoming|
  {
    if tail != [] {
      if tail[0] == incoming[0] && DrawnFrom(tail[1..], incoming[1..]) {
        DrawnIn(tail[1..], incoming[1..]);
        assert forall i :: 1 <= i < |tail| ==> tail[i] == tail[1..][i - 1];
      } else {
        DrawnIn(tail, incoming[1..]);
      }
    }
  }

  /** The elements before and after an append. */
  predicate Appended(existing: seq<Elem>, incoming: seq<Elem>, out: seq<Elem>) {
    && |existing| <= |out|
    && (forall i :: 0 <= i < |existing| ==> OnlyDemoted(existing[i], out[i]))
    && DrawnFrom(out[|existing|..], incoming)
  }

  lemma {:induction false} DemotedParts(existing: seq<Elem>, out: seq<Elem>)
    requires |existing| <= |out| && out[..|existing|] == existing
    ensures var r := Demoted(out, IndexRange(|existing|, |out|));
            && |r| == |out|
            && r[|existing|..] == out[|existing|..]
            && (forall i :: 0 <= i < |existing| ==> OnlyDemoted(existing[i], r[i]))
  {
    var keep := IndexRange(|existing|, |out|);
    forall i | 0 <= i < |out|
      ensures OnlyDemoted(out[i], Demoted(out, keep)[i])
      ensures |existing| <= i ==> Demoted(out, keep)[i] == out[i]
    {
      DemotedAt(out, keep, i);
    }
    forall i | 0 <= i < |existing| ensures out[i] == existing[i] {
      assert out[i] == out[..|existing|][i];
    }
  }

  /** When something was appended, the primary flags of the result: those of the new elements
      if they carry one, else those of the old. */
  lemma {:induction false} DemotedCount(a: Attribute, existing: seq<Elem>, out: seq<Elem>)
    requires |existing| <= |out| && out[..|existing|] == existing
    requires forall i :: 0 <= i < |existing| ==> existing[i] != map[] && StoredElem(a, existing[i])
    ensures var r, tail := Demoted(out, IndexRange(|existing|, |out|)), out[|existing|..];
            PrimaryCount(r) == if PrimaryCount(tail) > 0 then PrimaryCount(tail) else PrimaryCount(existing)
  {
    hide StoredElem, PrimaryTrue;
    var keep := IndexRange(|existing|, |out|);
    var r, tail := Demoted(out, keep), out[|existing|..];
    DemotedParts(existing, out);
    assert r == r[..|existing|] + tail;
    CountConcat(r[..|existing|], tail);
    if PrimaryCount(tail) > 0 {
      var k := PrimaryIndex(tail);
      assert out[|existing| + k] == tail[k];
      forall i | 0 <= i < |existing| ensures !PrimaryTrue(r[..|existing|][i]) {
        assert out[i] == out[..|existing|][i];
        DemoteStored(a, existing[i]);
      }
      CountNone(r[..|existing|]);
    } else {
      CountZero(tail);
      forall i | 0 <= i < |out| && i in keep ensures !PrimaryTrue(out[i]) {
        assert out[i] == tail[i - |existing|];
      }
      assert r == out;
    }
  }

  lemma {:induction false} PrimaryIndex(a: seq<Elem>) returns (k: nat)
    requires PrimaryCount(a) > 0
    ensures k < |a| && PrimaryTrue(a[k])
  {
    if PrimaryTrue(a[0]) { k := 0; } else {
      k := PrimaryIndex(a[1..]);
      k := k + 1;
    }
  }

  /** Appending stored elements to stored elements gives a stored value: the old primary never
      stands in the way, at most one element is primary afterwards, no existing element changes
      but for its primary flag, and what is added comes from the batch in order. */
  lemma {:induction false} AppendStored(a: Attribute, existing: seq<Elem>, incoming: seq<Elem>)
    requires a.typ == TComplex && a.multi && Stored(a, Multi(existing)) && Stored(a, Multi(incoming))
    ensures var (out, added) := AppendComplex(existing, incoming);
            && Stored(a, Multi(out)) && Appended(existing, incoming, out)
            && (!added ==> out == existing)
            && (added && PrimaryCount(out[|existing|..]) > 0 ==>
                  forall i :: 0 <= i < |existing| ==> !PrimaryTrue(out[i]))
  {
    hide StoredElem, PrimaryTrue, HasDuplicate;
    var raw := AppendElems(existing, incoming);
    var (out, added) := AppendComplex(existing, incoming);
    AppendDrawn(existing, incoming);
    var tail := raw[|existing|..];
    DrawnStored(a, tail, incoming);
    if added {
      DemotedParts(existing, raw);
      DemotedCount(a, existing, raw);
      AppendedElems(a, existing, raw, out);
      CountConcat(out[..|existing|], tail);
      assert out == out[..|existing|] + tail;
      if PrimaryCount(tail) > 0 {
        CountZero(out[..|existing|]);
        assert forall i :: 0 <= i < |existing| ==> out[i] == out[..|existing|][i];
      }
    } else {
      assert out[|existing|..] == [];
    }
  }

  lemma {:induction false} AppendedElems(a: Attribute, existing: seq<Elem>, raw: seq<Elem>, out: seq<Elem>)
    requires |existing| <= |raw| == |out| && out[|existing|..] == raw[|existing|..]
    requires forall i :: 0 <= i < |existing| ==> existing[i] != map[] && StoredElem(a, existing[i]) && OnlyDemoted(existing[i], out[i])
    requires var tail := raw[|existing|..]; forall i :: 0 <= i < |tail| ==> tail[i] != map[] && StoredElem(a, tail[i])
    ensures forall i :: 0 <= i < |out| ==> out[i] != map[] && StoredElem(a, out[i])
  {
    hide StoredElem, PrimaryTrue;
    forall i | 0 <= i < |out| ensures out[i] != map[] && StoredElem(a, out[i]) {
      if i < |existing| {
        DemoteStored(a, existing[i]);
      } else {
        assert out[i] == raw[|existing|..][i - |existing|];
      }
    }
  }

  // ----- Adding twice -----

  lemma {:induction false} DuplicatesSelf(a: Attribute, e: Elem)
    requires StoredElem(a, e)
    ensures Duplicates(e, e)
  {
    hide StoredSimple, SimpleEqual;
    StoredElemEqualSelf(a, e);
    if VALUE in e { assert SimpleEqual(e[VALUE], e[VALUE]); }
  }

  lemma {:induction false} DuplicateStays(out: seq<Elem>, more: seq<Elem>, e: Elem)
    requires HasDuplicate(out, e) && |out| <= |more| && more[..|out|] == out
    ensures HasDuplicate(more, e)
  {
    hide Duplicates;
    var i :| 0 <= i < |out| && Duplicates(out[i], e);
    assert more[i] == more[..|out|][i];
  }

  /** After an append every incoming element has a duplicate. */
  lemma {:induction false} AppendCovers(a: Attribute, out: seq<Elem>, incoming: seq<Elem>)
    requires forall i :: 0 <= i < |incoming| ==> StoredElem(a, incoming[i])
    ensures forall i :: 0 <= i < |incoming| ==> HasDuplicate(AppendElems(out, incoming), incoming[i])
    decreases |incoming|
  {
    hide StoredElem, HasDuplicate;
    if incoming != [] {
      var next := if HasDuplicate(out, incoming[0]) then out else out + [incoming[0]];
      assert HasDuplicate(next, incoming[0]) by {
        if next != out { DuplicateLast(a, out, incoming[0]); }
      }
      AppendCovers(a, next, incoming[1..]);
      var r := AppendElems(next, incoming[1..]);
      DuplicateStays(next, r, incoming[0]);
      assert forall i :: 1 <= i < |incoming| ==> incoming[i] == incoming[1..][i - 1];
    }
  }

  lemma {:induction false} DuplicateLast(a: Attribute, out: seq<Elem>, e: Elem)
    requires StoredElem(a, e)
    ensures HasDuplicate(out + [e], e)
  {
    hide Duplicates, StoredElem;
    DuplicatesSelf(a, e);
    assert (out + [e])[|out|] == e;
  }

  lemma {:induction false} AppendNone(out: seq<Elem>, incoming: seq<Elem>)
    requires forall i :: 0 <= i < |incoming| ==> HasDuplicate(out, incoming[i])
    ensures AppendElems(out, incoming) == out
    decreases |incoming|
  {
    hide HasDuplicate;
    if incoming != [] {
      assert forall i :: 0 <= i < |incoming| - 1 ==> incoming[1..][i] == incoming[i + 1];
      AppendNone(out, incoming[1..]);
    }
  }

  lemma {:induction false} TwoPrimaries(list: seq<Elem>, i: nat, j: nat)
    requires i < j < |list| && PrimaryTrue(list[i]) && PrimaryTrue(list[j])
    ensures 2 <= PrimaryCount(list)
  {
    hide PrimaryTrue;
    assert list == list[..j] + list[j..];
    CountConcat(list[..j], list[j..]);
    CountSome(list[..j], i);
    CountSome(list[j..], 0);
  }

  lemma {:induction false} EqualPrimary(x: Elem, e: Elem)
    requires ElemEqual(x, e)
    ensures PrimaryTrue(x) == PrimaryTrue(e)
  {
    ElemEqualKeys(x, e);
    if PRIMARY in x { assert SimpleEqual(x[PRIMARY], e[PRIMARY]); }
  }

  /** A demoted element stands for the same duplicates, unless the duplicate is primary. */
  lemma {:induction false} DemotedDuplicates(x: Elem, x': Elem, e: Elem)
    requires OnlyDemoted(x, x') && Duplicates(x, e) && !PrimaryTrue(e)
    ensures Duplicates(x', e)
  {
    if VALUE !in e { EqualPrimary(x, e); }
  }

  lemma DemotedByValue(x: Elem, x': Elem, e: Elem)
    requires OnlyDemoted(x, x') && Duplicates(x, e) && VALUE in e
    ensures Duplicates(x', e)
  {
  }

  /** Demoting old elements loses no duplicate of the batch. */
  lemma {:induction false} DemotionCovers(a: Attribute, existing: seq<Elem>, incoming: seq<Elem>, k: nat)
    requires a.typ == TComplex && a.multi && Stored(a, Multi(existing)) && Stored(a, Multi(incoming)) && k < |incoming|
    requires AppendComplex(existing, incoming).1
    ensures HasDuplicate(AppendComplex(existing, incoming).0, incoming[k])
  {
    hide StoredElem, PrimaryTrue, Duplicates, OnlyDemoted;
    var raw, out := AppendElems(existing, incoming), AppendComplex(existing, incoming).0;
    AppendCovers(a, existing, incoming);
    DemotedParts(existing, raw);
    var e := incoming[k];
    var i :| 0 <= i < |raw| && Duplicates(raw[i], e);
    if i >= |existing| {
      assert out[i] == out[|existing|..][i - |existing|] == raw[|existing|..][i - |existing|] == raw[i];
    } else {
      assert raw[i] == raw[..|existing|][i] == existing[i];
      if VALUE in e {
        DemotedByValue(raw[i], out[i], e);
      } else if !PrimaryTrue(e) {
        DemotedDuplicates(raw[i], out[i], e);
      } else if PrimaryCount(raw[|existing|..]) > 0 {
        NewPrimaryIs(existing, incoming, k);
        DuplicatesSelf(a, e);
      } else {
        NotDemoted(existing, raw);
      }
    }
  }

  lemma {:induction false} NotDemoted(existing: seq<Elem>, raw: seq<Elem>)
    requires |existing| <= |raw| && PrimaryCount(raw[|existing|..]) == 0
    ensures Demoted(raw, IndexRange(|existing|, |raw|)) == raw
  {
    hide PrimaryTrue;
    CountZero(raw[|existing|..]);
    assert forall i :: |existing| <= i < |raw| ==> raw[i] == raw[|existing|..][i - |existing|];
  }

  /** When the batch adds a primary element, it is the batch's only one. */
  lemma {:induction false} NewPrimaryIs(existing: seq<Elem>, incoming: seq<Elem>, k: nat)
    requires k < |incoming| && PrimaryTrue(incoming[k]) && PrimaryCount(incoming) <= 1
    requires var raw := AppendElems(existing, incoming); PrimaryCount(raw[|existing|..]) > 0
    ensures var out := AppendComplex(existing, incoming).0; exists i :: 0 <= i < |out| && out[i] == incoming[k]
  {
    hide PrimaryTrue, HasDuplicate;
    var raw, out := AppendElems(existing, incoming), AppendComplex(existing, incoming).0;
    var tail := raw[|existing|..];
    var j := PrimaryIndex(tail);
    AppendDrawn(existing, incoming);
    DrawnIn(tail, incoming);
    var n :| 0 <= n < |incoming| && incoming[n] == tail[j];
    if n < k { TwoPrimaries(incoming, n, k); }
    if k < n { TwoPrimaries(incoming, k, n); }
    DemotedParts(existing, raw);
    assert out[|existing| + j] == out[|existing|..][j] == tail[j];
  }

  /** A second append of the same batch adds nothing. */
  lemma {:induction false} AppendTwice(a: Attribute, existing: seq<Elem>, incoming: seq<Elem>)
    requires a.typ == TComplex && a.multi && Stored(a, Multi(existing)) && Stored(a, Multi(incoming))
    ensures var out := AppendComplex(existing, incoming).0; !AppendComplex(out, incoming).1
  {
    hide StoredElem, PrimaryTrue, HasDuplicate, Demoted;
    var (out, added) := AppendComplex(existing, incoming);
    if added {
      forall k | 0 <= k < |incoming| ensures HasDuplicate(out, incoming[k]) {
        DemotionCovers(a, existing, incoming, k);
      }
      AppendNone(out, incoming);
    }
  }

  lemma {:induction false} ScalarsCover(typ: AttrType, out: seq<Value>, incoming: seq<Value>)
    requires forall i :: 0 <= i < |incoming| ==> ScalarOf(typ, incoming[i])
    ensures forall i :: 0 <= i < |incoming| ==> HasScalar(AppendScalars(out, incoming), incoming[i])
    decreases |incoming|
  {
    hide ScalarEqual, ScalarOf, HasScalar;
    if incoming != [] {
      var next := if HasScalar(out, incoming[0]) then out else out + [incoming[0]];
      if next != out { ScalarLast(typ, out, incoming[0]); }
      ScalarsCover(typ, next, incoming[1..]);
      ScalarStays(next, AppendScalars(next, incoming[1..]), incoming[0]);
      assert forall i :: 1 <= i < |incoming| ==> incoming[i] == incoming[1..][i - 1];
    }
  }

  lemma {:induction false} ScalarLast(typ: AttrType, out: seq<Value>, v: Value)
    requires ScalarOf(typ, v)
    ensures HasScalar(out + [v], v)
  {
    assert (out + [v])[|out|] == v;
  }

  lemma {:induction false} ScalarStays(out: seq<Value>, more: seq<Value>, v: Value)
    requires HasScalar(out, v) && |out| <= |more| && more[..|out|] == out
    ensures HasScalar(more, v)
  {
    var i :| 0 <= i < |out| && ScalarEqual(out[i], v);
    assert more[i] == more[..|out|][i];
  }

  lemma {:induction false} ScalarsNone(out: seq<Value>, incoming: seq<Value>)
    requires forall i :: 0 <= i < |incoming| ==> HasScalar(out, incoming[i])
    ensures AppendScalars(out, incoming) == out
    decreases |incoming|
  {
    hide HasScalar;
    if incoming != [] {
      assert forall i :: 0 <= i < |incoming| - 1 ==> incoming[1..][i] == incoming[i + 1];
      ScalarsNone(out, incoming[1..]);
    }
  }

  /** appendNew is idempotent on stored multi-values. */
  lemma {:induction false} AppendNewTwice(a: Attribute, existing: Value, incoming: Value)
    requires a.multi && Stored(a, existing) && Stored(a, incoming)
    ensures !AppendNew(AppendNew(existing, incoming).0, incoming).1
    ensures !AppendNew(incoming, incoming).1
  {
    hide StoredElem, AppendComplex, HasScalar;
    if a.typ == TComplex {
      AppendTwice(a, existing.elems, incoming.elems);
      SelfAppend(a, incoming.elems);
    } else {
      ScalarsCover(a.typ, existing.scalars, incoming.scalars);
      ScalarsNone(AppendScalars(existing.scalars, incoming.scalars), incoming.scalars);
      SelfScalars(a.typ, incoming.scalars);
      ScalarsNone(incoming.scalars, incoming.scalars);
    }
  }

  lemma {:induction false} SelfScalars(typ: AttrType, list: seq<Value>)
    requires forall i :: 0 <= i < |list| ==> ScalarOf(typ, list[i])
    ensures forall i :: 0 <= i < |list| ==> HasScalar(list, list[i])
  {
    forall i | 0 <= i < |list| ensures HasScalar(list, list[i]) {
      assert ScalarOf(typ, list[i]);
      assert ScalarEqual(list[i], list[i]);
    }
  }

  lemma {:induction false} SelfAppend(a: Attribute, list: seq<Elem>)
    requires forall i :: 0 <= i < |list| ==> StoredElem(a, list[i])
    ensures !AppendComplex(list, list).1
  {
    hide StoredElem, Duplicates;
    forall i | 0 <= i < |list| ensures HasDuplicate(list, list[i]) {
      DuplicatesSelf(a, list[i]);
    }
    AppendNone(list, list);
  }

  lemma {:induction false} AppendNewStored(a: Attribute, existing: Value, incoming: Value)
    requires a.multi && Stored(a, existing) && Stored(a, incoming)
    ensures Stored(a, AppendNew(existing, incoming).0)
  {
    hide StoredElem, AppendComplex;
    if a.typ == TComplex {
      AppendStored(a, existing.elems, incoming.elems);
    } else {
      ScalarsDrawn(a.typ, existing.scalars, incoming.scalars);
      var out := AppendScalars(existing.scalars, incoming.scalars);
      assert AllScalars(a.typ, out);
    }
  }

  predicate AllScalars(typ: AttrType, list: seq<Value>) {
    forall i :: 0 <= i < |list| ==> ScalarOf(typ, list[i])
  }

  lemma {:induction false} ScalarsDrawn(typ: AttrType, out: seq<Value>, incoming: seq<Value>)
    requires AllScalars(typ, out) && AllScalars(typ, incoming)
    ensures AllScalars(typ, AppendScalars(out, incoming))
    decreases |incoming|
  {
    hide ScalarOf, HasScalar;
    if incoming != [] {
      var next := if HasScalar(out, incoming[0]) then out else out + [incoming[0]];
      ScalarsDrawn(typ, next, incoming[1..]);
      assert AppendScalars(out, incoming) == AppendScalars(next, incoming[1..]);
    }
  }

  /** The value a multi-valued attribute is set to, when it is already stored, is the value it
      then holds. */
  lemma {:induction false} TrackedStored(env: Env, w: Work, path: string, v: Value, rp: Resolved)
    requires ResolvePath(env.rt, path) == Ok(rp) && Sound(env.rt, rp) && rp.sub.None? && Stored(rp.attr.value, v)
    ensures var r := SetTracked(env, w, path, v);
            r.Ok? ==> Get(env.rt, r.value.doc, path) == Some(v) && Slot(r.value.doc, LocOf(rp)) == Some(v)
  {
    hide ResolvePath, Coerce, SetResolved, GetResolved, Slot, Stored, Declared, ValuesEqual;
    var r := SetTracked(env, w, path, v);
    if r.Ok? {
      TrackedSlot(env, w, path, v, rp);
      CoerceFixedIff(env.lx, rp.attr.value, v);
      StoredValueNotNil(rp.attr.value, v);
      SetOkSettable(env.lx, w.doc, rp, v);
      GetSlot(env.rt, r.value.doc, rp);
    }
  }

  /** Adding the same value to a multi-valued attribute a second time changes nothing. */
  lemma {:induction false} AddTwice(env: Env, w: Work, path: string, v: Value, rp: Resolved)
    requires Canonical(env.rt, w.doc) && ResolvePath(env.rt, path) == Ok(rp) && Sound(env.rt, rp)
    requires rp.sub.None? && rp.attr.value.multi
    ensures var r := AddMulti(env, w, path, rp.attr.value, v);
            r.Ok? ==> AddMulti(env, r.value, path, rp.attr.value, v) == r
  {
    hide Canonical, ResolvePath, Sound, Coerce, SetTracked, Get, Stored, AppendNew, Slot, Wrapped;
    SoundDeclared(env.rt, rp);
    var attr := rp.attr.value;
    var r := AddMulti(env, w, path, attr, v);
    if r.Ok? && r.value != w {
      var incoming := Coerce(env.lx, attr, Wrapped(v)).value;
      CoerceStored(env.lx, attr, Wrapped(v));
      var existing := Get(env.rt, w.doc, path);
      if existing.None? {
        TrackedStored(env, w, path, incoming, rp);
        AppendNewTwice(attr, incoming, incoming);
      } else {
        ExistingStored(env, w, path, rp, incoming);
        AppendNewStored(attr, existing.value, incoming);
        TrackedStored(env, w, path, AppendNew(existing.value, incoming).0, rp);
        AppendNewTwice(attr, existing.value, incoming);
      }
    }
  }

  /** The value found at a path that can be written is stored. */
  lemma {:induction false} ExistingStored(env: Env, w: Work, path: string, rp: Resolved, incoming: Value)
    requires Canonical(env.rt, w.doc) && ResolvePath(env.rt, path) == Ok(rp) && Sound(env.rt, rp) && rp.sub.None?
    requires Get(env.rt, w.doc, path).Some?
    requires SetTracked(env, w, path, AppendNew(Get(env.rt, w.doc, path).value, incoming).0).Ok?
    ensures Stored(rp.attr.value, Get(env.rt, w.doc, path).value)
  {
    hide Canonical, ResolvePath, SetResolved, GetResolved, Slot, Stored, AppendNew, Declared, ValuesEqual;
    SetOkSettable(env.lx, w.doc, rp, AppendNew(Get(env.rt, w.doc, path).value, incoming).0);
    GetSlot(env.rt, w.doc, rp);
    CanonicalAt(env.rt, w.doc, LocOf(rp));
  }

  /** The match-or-error guard on an immutable attribute coerces the value without the wrapping
      that AddMulti gives a bare element, so a bare element that was stored is refused when it
      comes again. */
  predicate Repeatable(lx: Lexicon, attr: Attribute, v: Value) {
    attr.access != Immutable || v.Arr? || Coerce(lx, attr, Wrapped(v)) == Ok(Nil)
  }

  lemma {:induction false} BareRefused(lx: Lexicon, attr: Attribute, v: Value)
    requires attr.multi && !v.Arr? && Coerce(lx, attr, Wrapped(v)).Ok? && !Coerce(lx, attr, Wrapped(v)).value.Nil?
    ensures Coerce(lx, attr, v) == Err(InvalidValue)
  {
    hide CoerceScalar;
    CoerceOne(lx, attr, v);
  }

  /** The guard, met a second time on an immutable attribute. */
  lemma {:induction false} GuardAgain(env: Env, w: Work, path: string, v: Value, rp: Resolved)
    requires Canonical(env.rt, w.doc) && ResolvePath(env.rt, path) == Ok(rp) && Sound(env.rt, rp)
    requires rp.sub.None? && rp.attr.value.multi && rp.attr.value.access == Immutable
    requires CheckImmutableAttr(env.lx, Get(env.rt, w.doc, path), rp.attr.value, Add, v).None?
    ensures var r := AddMulti(env, w, path, rp.attr.value, v);
            r.Ok? ==> CheckImmutableAttr(env.lx, Get(env.rt, r.value.doc, path), rp.attr.value, Add, v) ==
                      if Repeatable(env.lx, rp.attr.value, v) then None else Some(InvalidValue)
  {
    hide Canonical, ResolvePath, Sound, Coerce, SetTracked, Get, Stored, AppendNew, Slot, Wrapped;
    SoundDeclared(env.rt, rp);
    var attr := rp.attr.value;
    var x, cw := Get(env.rt, w.doc, path), Coerce(env.lx, attr, Wrapped(v));
    if AddMulti(env, w, path, attr, v).Ok? && !cw.value.Nil? {
      CoerceStored(env.lx, attr, Wrapped(v));
      AppendNewTwice(attr, cw.value, cw.value);
      if x.None? { TrackedStored(env, w, path, cw.value, rp); }
      if v.Arr? {
        ArrWrapped(v);
      } else {
        BareRefused(env.lx, attr, v);
      }
    }
  }

  lemma ArrWrapped(v: Value)
    requires v.Arr?
    ensures Wrapped(v) == v
  {
  }

  lemma {:induction false} AddReplays(env: Env, w: Work, op: Op, p: F.Path)
    requires Regular(env.rt) && ParsedPath(p) && Canonical(env.rt, w.doc)
    requires op.kind.Add? && op.path == Some(p) && p.filter.None? && ResolveTarget(env.rt, p).Some?
    requires ResolveTarget(env.rt, p).value.0.multi && ApplyOp(env, w, op).Ok?
    ensures var r := ApplyOp(env, w, op);
            ApplyOp(env, r.value, op) == if Repeatable(env.lx, ResolveTarget(env.rt, p).value.0, op.value) then r else Err(InvalidValue)
  {
    hide Regular, ParsedPath, Canonical, ResolvePath, ResolveTarget, AddMulti, Sound, AttrPathText, SubPathText, Get, Coerce, Repeatable, CheckImmutableAttr;
    ResolversAgreeAt(env.rt, p);
    var attr, rp := ResolveTarget(env.rt, p).value.0, ResolvePath(env.rt, AttrPathText(p)).value;
    AddTwice(env, w, AttrPathText(p), op.value, rp);
    if attr.access == Immutable {
      GuardAgain(env, w, AttrPathText(p), op.value, rp);
    } else {
      RepeatableMutable(env.lx, attr, op.value);
    }
  }

  /** An accepted pathed add to a multi-valued attribute, sent again, leaves the resource as it
      is, alone or after the first, and on its own reports that nothing changed; unless the
      attribute is immutable and the value a bare element that was not nothing: then it is
      refused. */
  lemma {:induction false} AddOpTwice(env: Env, w: Work, op: Op, p: F.Path)
    requires Regular(env.rt) && ParsedPath(p) && Canonical(env.rt, w.doc)
    requires op.kind.Add? && op.path == Some(p) && p.filter.None? && ResolveTarget(env.rt, p).Some?
    requires ResolveTarget(env.rt, p).value.0.multi
    ensures var r := ApplyOp(env, w, op);
            r.Ok? ==>
              var again := Repeatable(env.lx, ResolveTarget(env.rt, p).value.0, op.value);
              && ApplyOp(env, r.value, op) == (if again then r else Err(InvalidValue))
              && PatchSpec.Apply(env, r.value.doc, [op]) == (if again then Ok(Work(r.value.doc, false)) else Err(InvalidValue))
  {
    hide Regular, ParsedPath, Canonical, ResolveTarget, ApplyOp, Repeatable, PatchSpec.Apply;
    var r := ApplyOp(env, w, op);
    if r.Ok? {
      AddReplays(env, w, op, p);
      AppliedCanonical(env, w, op, p);
      ReportsNothing(env, r.value, op, p);
    }
  }

  lemma RepeatableMutable(lx: Lexicon, attr: Attribute, v: Value)
    ensures attr.access != Immutable ==> Repeatable(lx, attr, v)
  {
  }

  /** Adding elements to an assigned multi-valued complex attribute: it succeeds exactly when
      the batch coerces and, if it brings anything new, every element of the outcome can be
      written back; the old primary is never the obstacle. The attribute then holds the old
      elements, demoted at most, followed by new ones of the batch. */
  lemma {:induction false} AppendIff(env: Env, w: Work, path: string, v: Value, rp: Resolved)
    requires Canonical(env.rt, w.doc) && ResolvePath(env.rt, path) == Ok(rp) && Sound(env.rt, rp) && Settable(rp)
    requires rp.sub.None? && rp.attr.value.multi && rp.attr.value.typ == TComplex
    requires Slot(w.doc, LocOf(rp)).Some? && Coerce(env.lx, rp.attr.value, Wrapped(v)).Ok? && !Coerce(env.lx, rp.attr.value, Wrapped(v)).value.Nil?
    ensures var existing, incoming := Slot(w.doc, LocOf(rp)).value, Coerce(env.lx, rp.attr.value, Wrapped(v)).value;
            existing.Multi? && incoming.Multi? &&
            var (out, added) := AppendComplex(existing.elems, incoming.elems);
            var r := AddMulti(env, w, path, rp.attr.value, v);
            && (r.Ok? <==> !added || Writable(Multi(out)))
            && (r.Ok? ==> Slot(r.value.doc, LocOf(rp)) == Some(Multi(out)))
            && Appended(existing.elems, incoming.elems, out)
            && PrimaryCount(out) <= 1
  {
    hide Canonical, ResolvePath, Coerce, SetTracked, Slot, Stored, Wrapped, AppendComplex, Declared, GetResolved, Writable, LocOf;
    var attr := rp.attr.value;
    CanonicalAt(env.rt, w.doc, LocOf(rp));
    GetSlot(env.rt, w.doc, rp);
    CoerceStored(env.lx, attr, Wrapped(v));
    var existing, incoming := Slot(w.doc, LocOf(rp)).value, Coerce(env.lx, attr, Wrapped(v)).value;
    StoredMulti(attr, existing);
    StoredMulti(attr, incoming);
    AppendStored(attr, existing.elems, incoming.elems);
    var (out, added) := AppendComplex(existing.elems, incoming.elems);
    StoredMulti(attr, Multi(out));
    if added { TrackedIff(env, w, path, Multi(out), rp); }
  }

  lemma StoredMulti(a: Attribute, v: Value)
    requires Stored(a, v) && a.typ == TComplex && a.multi
    ensures v.Multi? && PrimaryCount(v.elems) <= 1
  {
  }

  /** Writing a stored value succeeds exactly when it can be written back, and then holds. */
  lemma {:induction false} TrackedIff(env: Env, w: Work, path: string, v: Value, rp: Resolved)
    requires ResolvePath(env.rt, path) == Ok(rp) && Settable(rp) && rp.sub.None? && Stored(rp.attr.value, v)
    ensures var r := SetTracked(env, w, path, v);
            && (r.Ok? <==> Writable(v))
            && (r.Ok? ==> Slot(r.value.doc, LocOf(rp)) == Some(v))
  {
    hide ResolvePath, Coerce, Stored, ValuesEqual, GetOrNil, Writable;
    CoerceFixedIff(env.lx, rp.attr.value, v);
    StoredValueNotNil(rp.attr.value, v);
    var held := Container(w.doc, rp);
    SetWhole(env.lx, if held.None? then map[] else held.value, rp, v);
    if SetResolved(env.lx, w.doc, rp, v).Ok? { SetSlot(env.lx, w.doc, rp, v); }
  }
}
