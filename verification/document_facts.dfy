/** What one Set does to a document: it touches the slot its path names and nothing else,
    keeps every value canonical, and is seen by Get exactly when it is a change. */
module DocumentFacts {
  import opened Text
  import opened Schema
  import opened Values
  import opened Paths
  import opened Documents

  /** rp is what a path resolves to, and names an attribute. */
  predicate Sound(rt: ResourceType, rp: Resolved) {
    && rp.attr.Some?
    && (rp.sub.Some? ==> rp.attr.value.typ == TComplex && !rp.attr.value.multi && FindAttribute(rp.attr.value.subs, rp.sub.value.name) == rp.sub && rp.sub.value.typ != TComplex)
    && Declared(rt, LocOf(rp)) == rp.attr
    && rp.common == (rp.urn == "" && FindAttribute(rt.core.attrs, Fold(rp.attr.value.name)).None?)
  }

  lemma {:induction false} NamespaceByFold(rt: ResourceType, u: string, a: string, b: string)
    requires Fold(a) == Fold(b)
    ensures NamespaceAttr(rt, u, a) == NamespaceAttr(rt, Fold(u), b)
  {
    FoldIdempotent(u);
    assert u == "" <==> Fold(u) == "" by { assert |Fold(u)| == |u|; }
    FindByFold(rt.core.attrs, a, b);
    FindByFold(COMMON, a, b);
    FindSchemaByFold(rt.exts, u, Fold(u));
    var s := FindSchema(rt.exts, u);
    if s.Some? { FindByFold(s.value.attrs, a, b); }
  }

  lemma NamespaceName(rt: ResourceType, u: string, name: string)
    ensures var a := NamespaceAttr(rt, u, name); a.Some? ==> Fold(a.value.name) == Fold(name)
  {
  }

  lemma {:induction false} NamespaceFlat(rt: ResourceType, u: string, name: string)
    requires FlatType(rt)
    ensures var a := NamespaceAttr(rt, u, name); a.Some? ==> forall s <- a.value.subs :: s.typ != TComplex
  {
    hide FindAttribute, FindSchema, Fold;
    assert Flat(COMMON) by { CommonFlat(); }
  }

  lemma CommonFlat()
    ensures Flat(COMMON)
  {
  }

  lemma {:induction false} ResolvedSound(rt: ResourceType, path: string)
    requires FlatType(rt)
    ensures var rp := ResolvePath(rt, path); rp.Ok? && rp.value.attr.Some? ==> Sound(rt, rp.value)
  {
    hide NamespaceAttr, SplitUrnPrefix, SplitAttrExpr, HasPrefix, FlatType;
    var rp := ResolvePath(rt, path);
    if rp.Ok? && rp.value.attr.Some? {
      var (urn, expr, isCore) := SplitUrnPrefix(rt, path);
      var (name, subName) := SplitAttrExpr(expr).value;
      var attr := rp.value.attr.value;
      NamespaceName(rt, urn, name);
      NamespaceFlat(rt, urn, name);
      FoldIdempotent(name);
      NamespaceByFold(rt, urn, name, Fold(attr.name));
      FindByFold(rt.core.attrs, name, Fold(attr.name));
      if rp.value.sub.Some? { FindByFold(attr.subs, subName, rp.value.sub.value.name); }
    }
  }

  // ----- One container -----

  /** The value a container holds after setInContainer on a whole attribute. */
  lemma {:induction false} SetWhole(lx: Lexicon, c: Elem, rp: Resolved, v: Value)
    requires rp.attr.Some? && rp.sub.None?
    ensures var r, cv := SetInContainer(lx, c, rp, v), Coerce(lx, rp.attr.value, v);
            && r.Ok? == cv.Ok?
            && (r.Ok? ==> Lookup(r.value, Fold(rp.attr.value.name)) == if cv.value.Nil? then None else Some(cv.value))
  {
    hide Coerce;
  }

  /** A value that does not coerce is not written. */
  lemma {:induction false} SettableRefused(lx: Lexicon, d: Doc, rp: Resolved, v: Value)
    requires Settable(rp) && rp.sub.None? && Coerce(lx, rp.attr.value, v) == Err(InvalidValue)
    ensures SetResolved(lx, d, rp, v) == Err(InvalidValue)
  {
    hide Coerce;
  }

  lemma {:induction false} SetInFrame(lx: Lexicon, c: Elem, rp: Resolved, v: Value)
    requires rp.attr.Some?
    ensures var r := SetInContainer(lx, c, rp, v);
            r.Ok? ==> forall k :: k != Fold(rp.attr.value.name) ==> Lookup(r.value, k) == Lookup(c, k)
  {
    hide Coerce;
  }

  /** A member of a stored single-valued complex value, seen as a plain value. */
  function MemberOf(v: Option<Value>, key: string): Value {
    if v.Some? && v.value.Cplx? && key in v.value.elem then v.value.elem[key] else Nil
  }

  /** The elements with a member replaced, or dropped when the new member is nothing. */
  function WithMember(m: Elem, key: string, cv: Value): Elem {
    if cv.Nil? then m - {key} else m[key := cv]
  }

  function HeldElem(v: Option<Value>): Elem {
    if v.Some? && v.value.Cplx? then v.value.elem else map[]
  }

  /** The value a container holds after setSub. */
  lemma {:induction false} SetMember(lx: Lexicon, c: Elem, rp: Resolved, v: Value)
    requires rp.attr.Some? && rp.sub.Some?
    requires var x := Lookup(c, Fold(rp.attr.value.name)); x.Some? ==> x.value.Cplx? && x.value.elem != map[]
    ensures var r, cv := SetInContainer(lx, c, rp, v), Coerce(lx, rp.sub.value, v);
            var key := Fold(rp.attr.value.name);
            && r.Ok? == cv.Ok?
            && (r.Ok? ==>
                  var m := WithMember(HeldElem(Lookup(c, key)), Fold(rp.sub.value.name), cv.value);
                  Lookup(r.value, key) == if m == map[] then None else Some(Cplx(m)))
  {
    hide Coerce;
    var key, subKey := Fold(rp.attr.value.name), Fold(rp.sub.value.name);
    var cv := Coerce(lx, rp.sub.value, v);
    if cv.Ok? && !cv.value.Nil? {
      assert subKey in HeldElem(Lookup(c, key))[subKey := cv.value];
    } else if cv.Ok? && key !in c {
      var none: Elem := map[];
      assert none - {subKey} == none;
    }
  }

  // ----- The whole document -----

  lemma {:induction false} SlotAt(rt: ResourceType, d: Doc, rp: Resolved)
    requires rp.attr.Some?
    ensures Slot(d, LocOf(rp)) == var c := Container(d, rp); if c.None? then None else Lookup(c.value, Fold(rp.attr.value.name))
  {
    assert rp.urn == "" <==> Fold(rp.urn) == "" by { assert |Fold(rp.urn)| == |rp.urn|; }
  }

  /** Set changes no slot but its own, and never the metadata. */
  lemma {:induction false} SetFrame(lx: Lexicon, d: Doc, rp: Resolved, v: Value)
    requires rp.attr.Some?
    ensures var r := SetResolved(lx, d, rp, v);
            r.Ok? ==> r.value.meta == d.meta && forall l: Loc :: l != LocOf(rp) ==> Slot(r.value, l) == Slot(d, l)
  {
    hide SetInContainer;
    var r := SetResolved(lx, d, rp, v);
    if r.Ok? {
      var key := Fold(rp.attr.value.name);
      assert rp.urn == "" <==> Fold(rp.urn) == "" by { assert |Fold(rp.urn)| == |rp.urn|; }
      if rp.urn == "" {
        SetInFrame(lx, d.attrs, rp, v);
      } else {
        var held := Container(d, rp);
        SetInFrame(lx, if held.None? then map[] else held.value, rp, v);
        CommitFrame(d, Fold(rp.urn), if held.None? then map[] else held.value, SetInContainer(lx, if held.None? then map[] else held.value, rp, v).value, key);
      }
    }
  }

  lemma {:induction false} CommitFrame(d: Doc, u: string, old_: Elem, c: Elem, key: string)
    requires u != "" && old_ == (if u in d.exts then d.exts[u] else map[])
    requires forall k :: k != key ==> Lookup(c, k) == Lookup(old_, k)
    ensures forall l: Loc :: l != Loc(u, key) ==> Slot(d.(exts := Commit(d.exts, u, c)), l) == Slot(d, l)
    ensures Slot(d.(exts := Commit(d.exts, u, c)), Loc(u, key)) == Lookup(c, key)
  {
    forall l: Loc | l != Loc(u, key) ensures Slot(d.(exts := Commit(d.exts, u, c)), l) == Slot(d, l) {
      if l.urn == u {
        assert Lookup(c, l.key) == Lookup(old_, l.key);
      }
    }
  }

  /** The slot Set leaves behind is what its container then holds. */
  lemma {:induction false} SetSlot(lx: Lexicon, d: Doc, rp: Resolved, v: Value)
    requires rp.attr.Some?
    ensures var held := Container(d, rp);
            var r, c := SetResolved(lx, d, rp, v), SetInContainer(lx, if held.None? then map[] else held.value, rp, v);
            r.Ok? ==> c.Ok? && Slot(r.value, LocOf(rp)) == Lookup(c.value, Fold(rp.attr.value.name))
  {
    hide SetInContainer;
    var r := SetResolved(lx, d, rp, v);
    if r.Ok? {
      assert rp.urn == "" <==> Fold(rp.urn) == "" by { assert |Fold(rp.urn)| == |rp.urn|; }
      if rp.urn != "" {
        var held := Container(d, rp);
        var old_ := if held.None? then map[] else held.value;
        SetInFrame(lx, old_, rp, v);
        CommitFrame(d, Fold(rp.urn), old_, SetInContainer(lx, old_, rp, v).value, Fold(rp.attr.value.name));
      }
    }
  }

  predicate Settable(rp: Resolved) {
    rp.attr.Some? && !(rp.common && (Fold(rp.attr.value.name) == SCHEMAS || Fold(rp.attr.value.name) == META))
  }

  lemma SetOkSettable(lx: Lexicon, d: Doc, rp: Resolved, v: Value)
    requires rp.attr.Some?
    ensures SetResolved(lx, d, rp, v).Ok? ==> Settable(rp)
  {
  }

  lemma {:induction false} GetSlot(rt: ResourceType, d: Doc, rp: Resolved)
    requires Settable(rp)
    ensures GetResolved(rt, d, rp) == SubValue(Slot(d, LocOf(rp)), rp.sub)
  {
    SlotAt(rt, d, rp);
  }

  lemma {:induction false} CanonicalAt(rt: ResourceType, d: Doc, l: Loc)
    requires Canonical(rt, d)
    ensures Slot(d, l).Some? ==> CanonicalSlot(rt, l, Slot(d, l).value)
  {
    hide CanonicalSlot;
  }

  /** The slot a Set leaves is canonical, whole attribute or member. */
  lemma {:induction false} SetSlotCanonical(lx: Lexicon, rt: ResourceType, d: Doc, rp: Resolved, v: Value)
    requires Canonical(rt, d) && Sound(rt, rp) && SetResolved(lx, d, rp, v).Ok?
    ensures var s := Slot(SetResolved(lx, d, rp, v).value, LocOf(rp)); s.Some? ==> CanonicalSlot(rt, LocOf(rp), s.value)
  {
    hide Coerce, Stored, StoredElem, SetInContainer, Canonical, SetResolved, Declared, DerivedLoc;
    var held := Container(d, rp);
    var c := if held.None? then map[] else held.value;
    SetSlot(lx, d, rp, v);
    SetOkSettable(lx, d, rp, v);
    NotDerived(rt, rp);
    FoldIdempotent(rp.attr.value.name);
    if rp.sub.None? {
      SetWhole(lx, c, rp, v);
      CoerceStored(lx, rp.attr.value, v);
    } else {
      SlotAt(rt, d, rp);
      CanonicalAt(rt, d, LocOf(rp));
      var key := Fold(rp.attr.value.name);
      var x := Lookup(c, key);
      if x.Some? { StoredSingle(rp.attr.value, x.value); }
      SetMember(lx, c, rp, v);
      CoerceStored(lx, rp.sub.value, v);
      MemberStored(rp.attr.value, HeldElem(x), rp.sub.value, Coerce(lx, rp.sub.value, v).value);
    }
  }

  /** A path that can be set names a location that is not derived. */
  lemma {:induction false} NotDerived(rt: ResourceType, rp: Resolved)
    requires Sound(rt, rp) && Settable(rp)
    ensures !DerivedLoc(rt, LocOf(rp))
  {
    assert |Fold(rp.urn)| == |rp.urn|;
  }

  lemma StoredSingle(a: Attribute, v: Value)
    requires Stored(a, v) && a.typ == TComplex && !a.multi
    ensures v.Cplx? && v.elem != map[] && StoredElem(a, v.elem)
  {
  }

  /** A member write keeps a complex value stored. */
  lemma {:induction false} MemberStored(a: Attribute, m: Elem, sub: Attribute, cv: Value)
    requires a.typ == TComplex && !a.multi && StoredElem(a, m)
    requires FindAttribute(a.subs, sub.name) == Some(sub) && sub.typ != TComplex
    requires cv.Nil? || Stored(sub, cv)
    ensures var r := WithMember(m, Fold(sub.name), cv); r != map[] ==> Stored(a, Cplx(r))
  {
    FoldIdempotent(sub.name);
    FindByFold(a.subs, sub.name, Fold(sub.name));
  }

  lemma {:induction false} CommitShape(lx: Lexicon, d: Doc, rp: Resolved, v: Value)
    requires rp.attr.Some? && SetResolved(lx, d, rp, v).Ok?
    requires forall u <- d.exts.Keys :: u != "" && Fold(u) == u && d.exts[u] != map[]
    ensures var e := SetResolved(lx, d, rp, v).value.exts;
            forall u <- e.Keys :: u != "" && Fold(u) == u && e[u] != map[]
  {
    hide SetInContainer;
    FoldIdempotent(rp.urn);
    assert rp.urn == "" <==> Fold(rp.urn) == "" by { assert |Fold(rp.urn)| == |rp.urn|; }
  }

  /** Set keeps a document canonical. */
  lemma {:induction false} SetCanonical(lx: Lexicon, rt: ResourceType, d: Doc, rp: Resolved, v: Value)
    requires Canonical(rt, d) && Sound(rt, rp) && SetResolved(lx, d, rp, v).Ok?
    ensures Canonical(rt, SetResolved(lx, d, rp, v).value)
  {
    hide CanonicalSlot, SetResolved, Slot;
    var d' := SetResolved(lx, d, rp, v).value;
    SetFrame(lx, d, rp, v);
    SetSlotCanonical(lx, rt, d, rp, v);
    CommitShape(lx, d, rp, v);
    forall l: Loc | Slot(d', l).Some? ensures CanonicalSlot(rt, l, Slot(d', l).value) {
      if l != LocOf(rp) { CanonicalAt(rt, d, l); }
    }
    CanonicalBySlots(rt, d');
  }

  lemma {:induction false} CanonicalBySlots(rt: ResourceType, d: Doc)
    requires forall l: Loc :: Slot(d, l).Some? ==> CanonicalSlot(rt, l, Slot(d, l).value)
    requires forall u <- d.exts.Keys :: u != "" && Fold(u) == u && d.exts[u] != map[]
    ensures Canonical(rt, d)
  {
    hide CanonicalSlot;
    forall k <- d.attrs.Keys ensures CanonicalSlot(rt, Loc("", k), d.attrs[k]) {
      assert Slot(d, Loc("", k)) == Some(d.attrs[k]);
    }
    forall u <- d.exts.Keys ensures CanonicalContainer(rt, u, d.exts[u]) {
      forall k <- d.exts[u].Keys ensures CanonicalSlot(rt, Loc(u, k), d.exts[u][k]) {
        assert Slot(d, Loc(u, k)) == Some(d.exts[u][k]);
      }
    }
  }

  // ----- Change detection -----

  function OrNil(v: Option<Value>): Value {
    if v.None? then Nil else v.value
  }

  /** Replacing a member is a change of the whole value exactly when the member changes. */
  lemma {:induction false} MemberChange(a: Attribute, m: Elem, key: string, cv: Value)
    requires StoredElem(a, m)
    ensures var old_ := if key in m then m[key] else Nil;
            ElemEqual(m, WithMember(m, key, cv)) <==> SimpleEqual(old_, cv)
  {
    hide SimpleEqual, StoredSimple;
    var r := WithMember(m, key, cv);
    var old_ := if key in m then m[key] else Nil;
    StoredElemEqualSelf(a, m);
    if key in m {
      StoredNotNil(FindAttribute(a.subs, key).value, m[key]);
      NilUnequal(m[key], cv);
    }
    NilUnequal(old_, cv);
    if SimpleEqual(old_, cv) {
      if cv.Nil? {
        assert r == m;
      } else {
        assert r.Keys == m.Keys;
        assert |r| == |r.Keys| && |m| == |m.Keys|;
      }
    } else if ElemEqual(m, r) {
      ElemEqualKeys(m, r);
    }
  }

  lemma NilUnequal(a: Value, b: Value)
    ensures SimpleEqual(a, b) ==> a.Nil? == b.Nil?
    ensures a.Nil? && b.Nil? ==> SimpleEqual(a, b)
  {
  }

  lemma StoredValueNotNil(a: Attribute, v: Value)
    requires Stored(a, v)
    ensures !v.Nil? && (a.typ != TComplex ==> !v.Cplx? && !v.Multi?)
  {
  }

  lemma EqualNil(a: Value, b: Value)
    ensures ValuesEqual(a, b) ==> a.Nil? == b.Nil?
  {
  }

  /** A stored member is a simple value: both equalities are the same on it. */
  lemma SimpleIsValues(a: Value, b: Value)
    requires !a.Cplx? && !a.Multi?
    ensures ValuesEqual(a, b) == SimpleEqual(a, b)
  {
  }

  lemma {:induction false} ChangeSeenWhole(lx: Lexicon, rt: ResourceType, d: Doc, rp: Resolved, v: Value)
    requires Canonical(rt, d) && Sound(rt, rp) && rp.sub.None? && SetResolved(lx, d, rp, v).Ok?
    ensures var d' := SetResolved(lx, d, rp, v).value;
            SameSlot(Slot(d, LocOf(rp)), Slot(d', LocOf(rp))) <==>
            ValuesEqual(OrNil(GetResolved(rt, d, rp)), OrNil(GetResolved(rt, d', rp)))
  {
    hide Canonical, Declared, Stored, SetResolved, Slot, ValuesEqual, GetResolved;
    var d' := SetResolved(lx, d, rp, v).value;
    SetOkSettable(lx, d, rp, v);
    GetSlot(rt, d, rp);
    GetSlot(rt, d', rp);
    CanonicalAt(rt, d, LocOf(rp));
    SetCanonical(lx, rt, d, rp, v);
    CanonicalAt(rt, d', LocOf(rp));
    var x, y := Slot(d, LocOf(rp)), Slot(d', LocOf(rp));
    if x.Some? { StoredValueNotNil(rp.attr.value, x.value); }
    if y.Some? { StoredValueNotNil(rp.attr.value, y.value); }
    EqualNil(OrNil(x), OrNil(y));
    EqualSelf(rp.attr.value, Nil);
  }

  lemma {:induction false} ChangeSeenMember(lx: Lexicon, rt: ResourceType, d: Doc, rp: Resolved, v: Value)
    requires Canonical(rt, d) && Sound(rt, rp) && rp.sub.Some? && SetResolved(lx, d, rp, v).Ok?
    ensures var d' := SetResolved(lx, d, rp, v).value;
            SameSlot(Slot(d, LocOf(rp)), Slot(d', LocOf(rp))) <==>
            ValuesEqual(OrNil(GetResolved(rt, d, rp)), OrNil(GetResolved(rt, d', rp)))
  {
    hide Canonical, Declared, Stored, StoredElem, SetResolved, Slot, SimpleEqual, ElemEqual, GetResolved, Coerce, SetInContainer;
    var d' := SetResolved(lx, d, rp, v).value;
    var subKey := Fold(rp.sub.value.name);
    SetOkSettable(lx, d, rp, v);
    GetSlot(rt, d, rp);
    GetSlot(rt, d', rp);
    CanonicalAt(rt, d, LocOf(rp));
    var x := Slot(d, LocOf(rp));
    if x.Some? { StoredSingle(rp.attr.value, x.value); }
    MemberSlot(lx, rt, d, rp, v);
    var cv := Coerce(lx, rp.sub.value, v).value;
    CoerceStored(lx, rp.sub.value, v);
    if !cv.Nil? { StoredValueNotNil(rp.sub.value, cv); }
    var m := HeldElem(x);
    EmptyStored(rp.attr.value);
    MemberChange(rp.attr.value, m, subKey, cv);
    MemberSimple(rp.attr.value, m, subKey);
    SimpleIsValues(MemberOf(x, subKey), cv);
    NilUnequal(MemberOf(x, subKey), cv);
    EmptyApart(m, WithMember(m, subKey, cv));
  }

  /** setSub's slot, read off the document. */
  lemma {:induction false} MemberSlot(lx: Lexicon, rt: ResourceType, d: Doc, rp: Resolved, v: Value)
    requires Canonical(rt, d) && Sound(rt, rp) && rp.sub.Some? && SetResolved(lx, d, rp, v).Ok?
    ensures Coerce(lx, rp.sub.value, v).Ok?
    ensures var m := WithMember(HeldElem(Slot(d, LocOf(rp))), Fold(rp.sub.value.name), Coerce(lx, rp.sub.value, v).value);
            Slot(SetResolved(lx, d, rp, v).value, LocOf(rp)) == if m == map[] then None else Some(Cplx(m))
  {
    hide Canonical, Declared, Stored, StoredElem, SetResolved, Coerce, SetInContainer;
    var held := Container(d, rp);
    SetSlot(lx, d, rp, v);
    SlotAt(rt, d, rp);
    CanonicalAt(rt, d, LocOf(rp));
    var x := Slot(d, LocOf(rp));
    if x.Some? { StoredSingle(rp.attr.value, x.value); }
    SetMember(lx, if held.None? then map[] else held.value, rp, v);
  }

  lemma EmptyStored(a: Attribute)
    ensures StoredElem(a, map[])
  {
  }

  lemma EmptyApart(m: Elem, n: Elem)
    ensures ElemEqual(m, n) ==> (m == map[]) == (n == map[])
  {
  }

  lemma {:induction false} MemberSimple(a: Attribute, m: Elem, key: string)
    requires StoredElem(a, m)
    ensures key in m ==> !m[key].Cplx? && !m[key].Multi? && !m[key].Nil?
  {
    hide StoredSimple;
    if key in m { SimpleShape(FindAttribute(a.subs, key).value, m[key]); }
  }

  /** Comparing what Get shows before and after a Set detects exactly the changes of the
      document: the comparison behind Result.Changed. */
  lemma {:induction false} ChangeSeen(lx: Lexicon, rt: ResourceType, d: Doc, rp: Resolved, v: Value)
    requires Canonical(rt, d) && Sound(rt, rp) && SetResolved(lx, d, rp, v).Ok?
    ensures var d' := SetResolved(lx, d, rp, v).value;
            SameDoc(d, d') <==> ValuesEqual(OrNil(GetResolved(rt, d, rp)), OrNil(GetResolved(rt, d', rp)))
  {
    hide Canonical, Declared, SetResolved, Slot, ValuesEqual, GetResolved, CanonicalSlot;
    if rp.sub.Some? { ChangeSeenMember(lx, rt, d, rp, v); } else { ChangeSeenWhole(lx, rt, d, rp, v); }
    SetFrame(lx, d, rp, v);
    var d' := SetResolved(lx, d, rp, v).value;
    forall l: Loc | l != LocOf(rp) ensures SameSlot(Slot(d, l), Slot(d', l)) {
      CanonicalAt(rt, d, l);
      SlotEqualSelf(rt, d, l);
    }
  }

  lemma {:induction false} SlotEqualSelf(rt: ResourceType, d: Doc, l: Loc)
    requires Slot(d, l).Some? ==> CanonicalSlot(rt, l, Slot(d, l).value)
    ensures SameSlot(Slot(d, l), Slot(d, l))
  {
    hide Stored, Declared, ValuesEqual, Slot;
    if Slot(d, l).Some? { EqualSelf(Declared(rt, l).value, Slot(d, l).value); }
  }

  lemma {:induction false} SameDocSelf(rt: ResourceType, d: Doc)
    requires Canonical(rt, d)
    ensures SameDoc(d, d)
  {
    hide Canonical, CanonicalSlot, Slot, SameSlot;
    forall l: Loc ensures SameSlot(Slot(d, l), Slot(d, l)) {
      CanonicalAt(rt, d, l);
      SlotEqualSelf(rt, d, l);
    }
  }

  lemma {:induction false} SameSlotTrans(a: Option<Value>, b: Option<Value>, c: Option<Value>)
    requires SameSlot(a, b) && SameSlot(b, c)
    ensures SameSlot(a, c)
  {
    hide ValuesEqual;
    if a.Some? { EqualTrans(a.value, b.value, c.value); }
  }

  lemma {:induction false} SameDocTrans(a: Doc, b: Doc, c: Doc)
    requires SameDoc(a, b) && SameDoc(b, c)
    ensures SameDoc(a, c)
  {
    hide Slot, SameSlot;
    forall l: Loc ensures SameSlot(Slot(a, l), Slot(c, l)) {
      SameSlotTrans(Slot(a, l), Slot(b, l), Slot(c, l));
    }
  }

  // ----- Reading what was written -----

  /** Set at a path that can be set succeeds exactly when the value coerces for the attribute or
      member named, and Get then shows the coerced value there, or nothing; at the derived
      attributes it is refused. */
  lemma {:induction false} SetGet(lx: Lexicon, rt: ResourceType, d: Doc, path: string, v: Value, rp: Resolved)
    requires Canonical(rt, d) && ResolvePath(rt, path) == Ok(rp) && Sound(rt, rp)
    ensures var (r, target) := (Set(lx, rt, d, path, v), if rp.sub.Some? then rp.sub.value else rp.attr.value);
            var cv := Coerce(lx, target, v);
            if !Settable(rp) then r == Err(Mutability)
            else if cv.Err? then r == Err(InvalidValue)
            else r.Ok? && Get(rt, r.value, path) == if cv.value.Nil? then None else Some(cv.value)
  {
    hide ResolvePath, Canonical, Coerce, Stored, StoredElem, Declared, GetResolved, Slot;
    var r := SetResolved(lx, d, rp, v);
    CoerceFails(lx, rp, v);
    if r.Ok? {
      SetOkSettable(lx, d, rp, v);
      GetSlot(rt, r.value, rp);
      if rp.sub.Some? {
        MemberSlot(lx, rt, d, rp, v);
        MemberHeld(HeldElem(Slot(d, LocOf(rp))), Fold(rp.sub.value.name), Coerce(lx, rp.sub.value, v).value);
      } else {
        var held := Container(d, rp);
        SetSlot(lx, d, rp, v);
        SetWhole(lx, if held.None? then map[] else held.value, rp, v);
      }
    }
  }

  lemma MemberHeld(m: Elem, key: string, cv: Value)
    ensures Lookup(WithMember(m, key, cv), key) == if cv.Nil? then None else Some(cv)
    ensures !cv.Nil? ==> WithMember(m, key, cv) != map[]
  {
    assert !cv.Nil? ==> key in WithMember(m, key, cv);
  }

  lemma {:induction false} CoerceFails(lx: Lexicon, rp: Resolved, v: Value)
    requires rp.attr.Some?
    ensures var target := if rp.sub.Some? then rp.sub.value else rp.attr.value;
            && (Coerce(lx, target, v).Err? ==> Coerce(lx, target, v).kind == InvalidValue)
            && forall c: Elem :: SetInContainer(lx, c, rp, v).Ok? == Coerce(lx, target, v).Ok?
  {
    hide Coerce;
  }
}
