/** The elements a value filter selects, and the ones it does not: what an accepted valuePath
    add, replace or sub-attribute remove may do to each. */
module PatchSelected {
  import opened Text
  import opened Schema
  import opened Values
  import opened Documents
  import opened DocumentFacts
  import opened Paths
  import opened PatchRules
  import opened PatchSpec
  import opened PatchFacts
  import opened PatchGuards
  import opened PatchElements
  import opened Ordering
  import opened PatchMerging
  import FilterMatch
  import F = FilterAst

  /** e' still carries, once coerced, the value e has for the immutable sub-attribute s. */
  predicate CarriesSub(lx: Lexicon, a: Attribute, s: Attribute, e: Elem, e': Elem) {
    var key := Fold(s.name);
    key in e ==>
      key in e' &&
      (CoerceMember(lx, a, key, e'[key]).Ok? ==> SimpleEqual(e[key], CoerceMember(lx, a, key, e'[key]).value))
  }

  /** s is the attribute's immutable sub-attribute of its name. */
  predicate ImmutableSub(a: Attribute, s: Attribute) {
    s.access == Immutable && s.typ != TComplex && FindAttribute(a.subs, s.name) == Some(s)
  }

  lemma {:induction false} SubByKey(a: Attribute, s: Attribute, key: string)
    requires ImmutableSub(a, s) && Fold(key) == Fold(s.name)
    ensures FindAttribute(a.subs, key) == Some(s)
  {
    FindByFold(a.subs, s.name, key);
  }

  /** An untouched member is carried. */
  lemma {:induction false} UntouchedCarries(lx: Lexicon, a: Attribute, s: Attribute, e: Elem, e': Elem)
    requires StoredElem(a, e) && ImmutableSub(a, s)
    requires var key := Fold(s.name); key in e ==> key in e' && e'[key] == e[key]
    ensures CarriesSub(lx, a, s, e, e')
  {
    hide StoredSimple, SimpleEqual, CoerceSimple, Recoercible;
    var key := Fold(s.name);
    if key in e {
      FoldIdempotent(s.name);
      SubByKey(a, s, key);
      CoerceSimpleFixed(lx, s, e[key]);
      StoredElemEqualSelf(a, e);
    }
  }

  /** What the guard's comparison establishes. */
  lemma {:induction false} GuardMeans(lx: Lexicon, s: Attribute, existing: Value, v: Value)
    requires s.typ != TComplex && StoredSimple(s, existing) && CheckImmutableSub(lx, Some(existing), s, v).None?
    ensures CoerceSimple(lx, s, v).Ok? && SimpleEqual(existing, CoerceSimple(lx, s, v).value)
  {
    hide SimpleEqual, CoerceScalars, MultiItems;
    StoredNotNil(s, existing);
    SimpleShape(s, existing);
    EqualNil(existing, Nil);
    SimpleIsValues(existing, CoerceSimple(lx, s, v).value);
  }

  lemma {:induction false} StoredMember(a: Attribute, s: Attribute, e: Elem)
    requires StoredElem(a, e) && ImmutableSub(a, s) && Fold(s.name) in e
    ensures StoredSimple(s, e[Fold(s.name)]) && FindAttribute(a.subs, Fold(s.name)) == Some(s)
  {
    hide StoredSimple;
    FoldIdempotent(s.name);
    SubByKey(a, s, Fold(s.name));
  }

  /** A member the guard let through is carried. */
  lemma {:induction false} GuardedCarries(lx: Lexicon, a: Attribute, s: Attribute, e: Elem, cur: Elem, e': Elem, v: Value)
    requires StoredElem(a, e) && ImmutableSub(a, s)
    requires var key := Fold(s.name); (key in e ==> key in cur && cur[key] == e[key]) && e' == cur[key := v]
    requires CheckElemImmutable(lx, s, cur, v).None?
    ensures CarriesSub(lx, a, s, e, e')
  {
    hide StoredSimple, StoredElem, SimpleEqual, CoerceSimple, CheckImmutableSub, Fold;
    var key := Fold(s.name);
    if key in e {
      StoredMember(a, s, e);
      GuardMeans(lx, s, e[key], v);
    }
  }

  lemma {:induction false} CheckFind(a: Attribute, s: Attribute, sub: Attribute)
    requires ImmutableSub(a, s) && FindAttribute(a.subs, sub.name) == Some(sub) && Fold(sub.name) == Fold(s.name)
    ensures sub == s
  {
    FindByFold(a.subs, s.name, sub.name);
  }

  lemma {:induction false} MergeCarries(lx: Lexicon, a: Attribute, s: Attribute, e: Elem, cur: Elem, obj: Elem, keys: seq<string>)
    requires StoredElem(a, e) && ImmutableSub(a, s) && (forall k <- keys :: k in obj) && InOrder(keys)
    requires var key := Fold(s.name);
             CarriesSub(lx, a, s, e, cur) && (key in keys && key in e ==> key in cur && cur[key] == e[key])
    ensures var r := MergeKeys(lx, a, cur, obj, keys); r.Ok? ==> CarriesSub(lx, a, s, e, r.value)
    decreases |keys|
  {
    hide StoredElem, CheckElemImmutable, CoerceMember, SimpleEqual, InOrder;
    if keys != [] {
      InOrderTail(keys);
      var sub := FindAttribute(a.subs, keys[0]);
      var next := cur[keys[0] := obj[keys[0]]];
      if sub.Some? && sub.value.access == ReadOnly {
        MergeCarries(lx, a, s, e, cur, obj, keys[1..]);
      } else if sub.None? || CheckElemImmutable(lx, sub.value, cur, obj[keys[0]]).None? {
        if keys[0] == Fold(s.name) {
          FoldIdempotent(s.name);
          SubByKey(a, s, keys[0]);
          GuardedCarries(lx, a, s, e, cur, next, obj[keys[0]]);
        }
        MergeCarries(lx, a, s, e, next, obj, keys[1..]);
      }
    }
  }

  lemma {:induction false} ReplacedCarries(lx: Lexicon, a: Attribute, s: Attribute, subs: seq<Attribute>, e: Elem, obj: Elem)
    requires StoredElem(a, e) && ImmutableSub(a, s) && s in subs && CheckReplaced(lx, subs, e, obj).None?
    ensures CarriesSub(lx, a, s, e, obj)
    decreases |subs|
  {
    hide StoredSimple, StoredElem, SimpleEqual, CoerceSimple, CheckImmutableSub, Fold, FindAttribute;
    var key := Fold(s.name);
    if key in e {
      StoredMember(a, s, e);
      StoredNotNil(s, e[key]);
      if subs[0] == s {
        GuardMeans(lx, s, e[key], obj[key]);
      } else {
        ReplacedCarries(lx, a, s, subs[1..], e, obj);
      }
    }
  }

  /** The edits an accepted operation can ask for name declared sub-attributes. */
  predicate DeclaredEdit(a: Attribute, edit: Edit) {
    match edit
    case WriteSub(sub, _) => FindAttribute(a.subs, sub.name) == Some(sub)
    case DropSub(sub) => FindAttribute(a.subs, sub.name) == Some(sub)
    case _ => true
  }

  /** Whatever the edit, an element that passes the guards keeps its immutable sub-attributes. */
  lemma {:induction false} EditCarries(lx: Lexicon, a: Attribute, s: Attribute, edit: Edit, e: Elem)
    requires StoredElem(a, e) && ImmutableSub(a, s) && DeclaredEdit(a, edit)
    ensures var r := EditElem(lx, a, edit, e); r.Ok? ==> CarriesSub(lx, a, s, e, r.value)
  {
    hide StoredElem, CarriesSub, CheckElemImmutable, ImmutableSub, MergeKeys, CheckReplaced, Fold;
    match edit
    case WriteSub(sub, v) =>
      if CheckElemImmutable(lx, sub, e, v).None? { WriteCarries(lx, a, s, sub, v, e); }
    case MergeIn(obj) =>
      SortedKeysInOrder(obj.Keys);
      UntouchedCarries(lx, a, s, e, e);
      MergeCarries(lx, a, s, e, e, obj, SortedKeys(obj.Keys));
    case Substitute(obj) =>
      if CheckReplaced(lx, a.subs, e, obj).None? {
        SubDeclared(a, s);
        ReplacedCarries(lx, a, s, a.subs, e, obj);
      }
    case DropSub(sub) =>
      if EditElem(lx, a, edit, e).Ok? { DropCarries(lx, a, s, sub, e); }
  }

  lemma SubDeclared(a: Attribute, s: Attribute)
    requires ImmutableSub(a, s)
    ensures s in a.subs
  {
  }

  lemma {:induction false} WriteCarries(lx: Lexicon, a: Attribute, s: Attribute, sub: Attribute, v: Value, e: Elem)
    requires StoredElem(a, e) && ImmutableSub(a, s) && FindAttribute(a.subs, sub.name) == Some(sub)
    requires CheckElemImmutable(lx, sub, e, v).None?
    ensures CarriesSub(lx, a, s, e, e[Fold(sub.name) := v])
  {
    hide StoredElem, CarriesSub, CheckElemImmutable, ImmutableSub, Fold;
    if Fold(sub.name) == Fold(s.name) {
      CheckFind(a, s, sub);
      GuardedCarries(lx, a, s, e, e, e[Fold(sub.name) := v], v);
    } else {
      UntouchedCarries(lx, a, s, e, e[Fold(sub.name) := v]);
    }
  }

  lemma {:induction false} DropCarries(lx: Lexicon, a: Attribute, s: Attribute, sub: Attribute, e: Elem)
    requires StoredElem(a, e) && ImmutableSub(a, s) && FindAttribute(a.subs, sub.name) == Some(sub)
    requires EditElem(lx, a, DropSub(sub), e).Ok?
    ensures CarriesSub(lx, a, s, e, e - {Fold(sub.name)})
  {
    hide StoredElem, CarriesSub, Fold;
    if Fold(sub.name) == Fold(s.name) && Fold(s.name) in e {
      CheckFind(a, s, sub);
      MemberNotNil(a, e, Fold(s.name));
    }
    UntouchedCarries(lx, a, s, e, e - {Fold(sub.name)});
  }

  lemma {:induction false} MemberNotNil(a: Attribute, e: Elem, key: string)
    requires StoredElem(a, e) && key in e
    ensures !e[key].Nil?
  {
    hide StoredSimple;
    StoredNotNil(FindAttribute(a.subs, key).value, e[key]);
  }

  // ----- The whole list -----

  lemma {:induction false} EditElemsAt(lx: Lexicon, a: Attribute, edit: Edit, list: seq<Elem>, selected: set<nat>, from: nat, i: nat)
    requires from <= i < |list| && EditElems(lx, a, edit, list, selected, from).Ok?
    ensures var out := EditElems(lx, a, edit, list, selected, from).value;
            if i in selected then EditElem(lx, a, edit, list[i]) == Ok(out[i - from]) else out[i - from] == list[i]
    decreases |list| - from
  {
    hide EditElem;
    if from < i { EditElemsAt(lx, a, edit, list, selected, from + 1, i); }
  }

  /** What coercion keeps of a list of elements: each in stored form, the empty ones dropped. */
  function Kept(lx: Lexicon, a: Attribute, elems: seq<Elem>): seq<Elem>
    requires forall i :: 0 <= i < |elems| ==> MembersCoerce(lx, a, elems[i])
  {
    if elems == [] then []
    else (if CoercedElem(lx, a, elems[0]) == map[] then [] else [CoercedElem(lx, a, elems[0])]) + Kept(lx, a, elems[1..])
  }

  lemma {:induction false} CoerceElemsKept(lx: Lexicon, a: Attribute, elems: seq<Elem>)
    ensures var r := CoerceElems(lx, a, Boxed(elems));
            r.Ok? ==> (forall i :: 0 <= i < |elems| ==> MembersCoerce(lx, a, elems[i])) && r.value == Kept(lx, a, elems)
  {
    hide MembersCoerce, CoercedElem;
    if elems != [] {
      assert Boxed(elems)[1..] == Boxed(elems[1..]);
      CoerceElemsKept(lx, a, elems[1..]);
      if CoerceElems(lx, a, Boxed(elems)).Ok? {
        assert Boxed(elems)[0] == Cplx(elems[0]);
        assert forall i :: 1 <= i < |elems| ==> elems[i] == elems[1..][i - 1];
      }
    }
  }

  /** out is what the operation wrote for list: selected elements as the edit makes them,
      unselected ones untouched but for a demoted primary flag, and every immutable
      sub-attribute carried. (A schema that makes primary itself immutable does not stop
      demotion, hence the exception.) */
  ghost predicate Respects(lx: Lexicon, a: Attribute, edit: Edit, list: seq<Elem>, selected: set<nat>, out: seq<Elem>) {
    && |out| == |list|
    && (forall i :: 0 <= i < |list| && i in selected ==> EditElem(lx, a, edit, list[i]) == Ok(out[i]))
    && (forall i :: 0 <= i < |list| && i !in selected ==> OnlyDemoted(list[i], out[i]))
    && (forall i, s :: 0 <= i < |list| && ImmutableSub(a, s) && (i in selected || Fold(s.name) != PRIMARY) ==>
          CarriesSub(lx, a, s, list[i], out[i]))
  }

  /** Some selected element is primary. */
  predicate TakesPrimary(out: seq<Elem>, selected: set<nat>) {
    exists i :: 0 <= i < |out| && i in selected && PrimaryTrue(out[i])
  }

  /** An unselected element, demoted if some selected one is primary. */
  function Yielded(e: Elem, taken: bool): Elem {
    if taken && PrimaryTrue(e) then e[PRIMARY := Bool(false)] else e
  }

  /** A write demotes the unselected elements exactly when a selected one is then primary; the
      removal of a member demotes nothing. */
  predicate Yields(edit: Edit, list: seq<Elem>, selected: set<nat>, out: seq<Elem>) {
    |out| == |list| &&
    forall i :: 0 <= i < |list| && i !in selected ==> out[i] == Yielded(list[i], !edit.DropSub? && TakesPrimary(out, selected))
  }

  lemma {:induction false} EditYields(lx: Lexicon, a: Attribute, edit: Edit, list: seq<Elem>, selected: set<nat>)
    requires EditElems(lx, a, edit, list, selected, 0).Ok?
    ensures var out := EditElems(lx, a, edit, list, selected, 0).value;
            Yields(edit, list, selected, if edit.DropSub? then out else Demoted(out, selected))
  {
    hide EditElem, EditElems, PrimaryTrue;
    var out := EditElems(lx, a, edit, list, selected, 0).value;
    forall i | 0 <= i < |list| ensures i !in selected ==> out[i] == list[i] {
      EditElemsAt(lx, a, edit, list, selected, 0, i);
    }
    assert TakesPrimary(out, selected) == TakesPrimary(Demoted(out, selected), selected);
  }

  lemma {:induction false} EditRespects(lx: Lexicon, a: Attribute, edit: Edit, list: seq<Elem>, selected: set<nat>)
    requires DeclaredEdit(a, edit) && EditElems(lx, a, edit, list, selected, 0).Ok?
    requires forall i :: 0 <= i < |list| ==> StoredElem(a, list[i]) && list[i] != map[]
    ensures var out := EditElems(lx, a, edit, list, selected, 0).value;
            Respects(lx, a, edit, list, selected, out) && Respects(lx, a, edit, list, selected, Demoted(out, selected))
  {
    hide EditElem, StoredElem, CarriesSub, ImmutableSub, EditElems, DeclaredEdit, OnlyDemoted, Demoted;
    var out := EditElems(lx, a, edit, list, selected, 0).value;
    var dem := Demoted(out, selected);
    forall i | 0 <= i < |list|
      ensures i !in selected ==> OnlyDemoted(list[i], out[i]) && OnlyDemoted(list[i], dem[i])
      ensures i in selected ==> dem[i] == out[i] && EditElem(lx, a, edit, list[i]) == Ok(out[i])
    {
      EditElemsAt(lx, a, edit, list, selected, 0, i);
      DemotedAt(out, selected, i);
      SelfDemoted(list[i]);
    }
    forall i, s | 0 <= i < |list| && ImmutableSub(a, s) && (i in selected || Fold(s.name) != PRIMARY)
      ensures CarriesSub(lx, a, s, list[i], out[i]) && CarriesSub(lx, a, s, list[i], dem[i])
    {
      if i in selected {
        EditCarries(lx, a, s, edit, list[i]);
      } else {
        DemotedCarries(lx, a, s, list[i], out[i]);
        DemotedCarries(lx, a, s, list[i], dem[i]);
      }
    }
  }

  lemma SelfDemoted(e: Elem)
    ensures OnlyDemoted(e, e)
  {
  }

  /** Demotion carries every immutable sub-attribute but an immutable primary. */
  lemma {:induction false} DemotedCarries(lx: Lexicon, a: Attribute, s: Attribute, e: Elem, e': Elem)
    requires StoredElem(a, e) && ImmutableSub(a, s) && OnlyDemoted(e, e') && Fold(s.name) != PRIMARY
    ensures CarriesSub(lx, a, s, e, e')
  {
    hide StoredElem, CarriesSub;
    UntouchedCarries(lx, a, s, e, e');
  }

  // ----- Accepted valuePath operations -----

  /** The slot content a list of elements coerces to. */
  function ElementsSlot(elems: seq<Elem>): Option<Value> {
    if elems == [] then None else Some(Multi(elems))
  }

  lemma {:induction false} CoerceBoxed(lx: Lexicon, a: Attribute, v: Value, elems: seq<Elem>)
    requires a.typ == TComplex && a.multi && (v == Multi(elems) || v == Arr(Boxed(elems)))
    ensures var r := Coerce(lx, a, v);
            r.Ok? ==>
              && (forall i :: 0 <= i < |elems| ==> MembersCoerce(lx, a, elems[i]))
              && (if r.value.Nil? then None else Some(r.value)) == ElementsSlot(Kept(lx, a, elems))
  {
    hide MembersCoerce, CoerceElems, Kept, PrimaryCount, Boxed;
    CoerceElemsKept(lx, a, elems);
  }

  /** The slot after an accepted write of a list of elements at the target's path. */
  lemma {:induction false} ListWritten(env: Env, w: Work, p: F.Path, v: Value, elems: seq<Elem>)
    requires Regular(env.rt) && ParsedPath(p) && ResolveTarget(env.rt, p).Some?
    requires var a := ResolveTarget(env.rt, p).value.0; a.typ == TComplex && a.multi
    requires v == Multi(elems) || v == Arr(Boxed(elems))
    ensures var r, a := SetTracked(env, w, AttrPathText(p), v), ResolveTarget(env.rt, p).value.0;
            r.Ok? ==>
              && (forall i :: 0 <= i < |elems| ==> MembersCoerce(env.lx, a, elems[i]))
              && Slot(r.value.doc, TargetLoc(env.rt, p)) == ElementsSlot(Kept(env.lx, a, elems))
  {
    hide Regular, ParsedPath, ResolvePath, ResolveTarget, SetTracked, Sound, AttrPathText, TargetLoc, LocOf, MembersCoerce, Kept, Coerce, Slot;
    ResolversAgreeAt(env.rt, p);
    var rp := ResolvePath(env.rt, AttrPathText(p)).value;
    SoundDeclared(env.rt, rp);
    TrackedSlot(env, w, AttrPathText(p), v, rp);
    CoerceBoxed(env.lx, rp.attr.value, v, elems);
  }

  /** The elements the engine reads at the target. */
  lemma {:induction false} ListRead(env: Env, d: Doc, p: F.Path)
    requires Regular(env.rt) && ParsedPath(p) && Canonical(env.rt, d) && ResolveTarget(env.rt, p).Some?
    requires var a := ResolveTarget(env.rt, p).value.0; a.typ == TComplex && a.multi
    ensures var (l, a) := (Elements(env, d, p), ResolveTarget(env.rt, p).value.0);
            && Slot(d, TargetLoc(env.rt, p)) == ElementsSlot(l)
            && (forall i :: 0 <= i < |l| ==> StoredElem(a, l[i]) && l[i] != map[])
            && PrimaryCount(l) <= 1
            && ListAt(env, d, p).Some? == (l != [])
  {
    hide Regular, ParsedPath, ResolvePath, ResolveTarget, AttrPathText, TargetLoc, LocOf, StoredElem, Slot, GetResolved, Declared, SchemasValue;
    ResolversAgreeAt(env.rt, p);
    var rp := ResolvePath(env.rt, AttrPathText(p)).value;
    CommonSchemas(env.rt, rp);
    GetSlot(env.rt, d, rp);
    CanonicalAt(env.rt, d, TargetLoc(env.rt, p));
  }

  lemma {:induction false} CommonSchemas(rt: ResourceType, rp: Resolved)
    requires Sound(rt, rp) && rp.attr.value.typ == TComplex && rp.attr.value.multi
    ensures Settable(rp)
  {
    if rp.common {
      FoldIdempotent(rp.attr.value.name);
      assert rp.attr == FindAttribute(COMMON, Fold(rp.attr.value.name));
      CommonSingle();
    }
  }

  lemma CommonSingle()
    ensures forall a <- COMMON :: !(a.typ == TComplex && a.multi)
  {
  }

  /** The outcome of an accepted operation whose filter selected these elements: the list read
      before, edited within the rules, with emptied elements dropped. */
  ghost predicate Outcome(env: Env, d: Doc, d': Doc, p: F.Path, a: Attribute, edit: Edit, selected: set<nat>, out: seq<Elem>) {
    && Respects(env.lx, a, edit, Elements(env, d, p), selected, out) && Yields(edit, Elements(env, d, p), selected, out)
    && (forall i :: 0 <= i < |out| ==> MembersCoerce(env.lx, a, out[i]))
    && Slot(d', TargetLoc(env.rt, p)) == ElementsSlot(Kept(env.lx, a, out))
  }

  lemma {:induction false} EditOutcome(env: Env, w: Work, p: F.Path, a: Attribute, edit: Edit, selected: set<nat>, demote: bool)
    requires Regular(env.rt) && ParsedPath(p) && Canonical(env.rt, w.doc)
    requires ResolveTarget(env.rt, p).Some? && ResolveTarget(env.rt, p).value.0 == a && a.typ == TComplex && a.multi
    requires DeclaredEdit(a, edit) && EditElems(env.lx, a, edit, Elements(env, w.doc, p), selected, 0).Ok? && demote == !edit.DropSub?
    ensures var edited := EditElems(env.lx, a, edit, Elements(env, w.doc, p), selected, 0).value;
            var out := if demote then Demoted(edited, selected) else edited;
            var r := SetTracked(env, w, AttrPathText(p), Multi(out));
            r.Ok? ==> Outcome(env, w.doc, r.value.doc, p, a, edit, selected, out)
  {
    hide Regular, ParsedPath, Canonical, ResolveTarget, SetTracked, AttrPathText, TargetLoc, MembersCoerce, Kept, Slot, EditElems, Demoted, Respects, Yields, Elements, DeclaredEdit;
    var list := Elements(env, w.doc, p);
    ListRead(env, w.doc, p);
    EditRespects(env.lx, a, edit, list, selected);
    EditYields(env.lx, a, edit, list, selected);
    var edited := EditElems(env.lx, a, edit, list, selected, 0).value;
    var out := if demote then Demoted(edited, selected) else edited;
    ListWritten(env, w, p, Multi(out), out);
  }

  /** The list an accepted edit of selected elements writes. */
  lemma {:induction false} SelectedWritten(env: Env, w: Work, op: Op, p: F.Path)
    requires Regular(env.rt) && ParsedPath(p) && Canonical(env.rt, w.doc)
    requires op.path == Some(p) && p.filter.Some? && ApplyOp(env, w, op).Ok?
    ensures ResolveTarget(env.rt, p).Some?
    ensures var (a, sub) := ResolveTarget(env.rt, p).value;
            var m := Matching(env.lx, a, p.filter.value, Elements(env, w.doc, p));
            var w' := ApplyOp(env, w, op).value;
            m.Ok? && m.value != {} && !(op.kind.Remove? && sub.None?) ==>
              && a.typ == TComplex && a.multi && EditOf(op, sub).Ok?
              && exists out: seq<Elem> :: Outcome(env, w.doc, w'.doc, p, a, EditOf(op, sub).value, m.value, out)
  {
    hide Regular, ParsedPath, Canonical, CheckMutable, SetTracked, AttrPathText, TargetLoc, EditElems, Demoted, Outcome, Elements, Matching, DeclaredEdit, ListAt;
    var (a, sub) := ResolveTarget(env.rt, p).value;
    var m := Matching(env.lx, a, p.filter.value, Elements(env, w.doc, p));
    if m.Ok? && m.value != {} && !(op.kind.Remove? && sub.None?) {
      NonemptyList(env, w.doc, p, a);
      var edit := EditOf(op, sub);
      TargetEdit(env.rt, p, op);
      var edited := EditElems(env.lx, a, edit.value, Elements(env, w.doc, p), m.value, 0).value;
      EditOutcome(env, w, p, a, edit.value, m.value, !op.kind.Remove?);
      if op.kind.Remove? {
        assert Outcome(env, w.doc, ApplyOp(env, w, op).value.doc, p, a, edit.value, m.value, edited);
      } else {
        assert Outcome(env, w.doc, ApplyOp(env, w, op).value.doc, p, a, edit.value, m.value, Demoted(edited, m.value));
      }
    }
  }

  lemma NonemptyList(env: Env, d: Doc, p: F.Path, a: Attribute)
    requires p.filter.Some?
    ensures var m := Matching(env.lx, a, p.filter.value, Elements(env, d, p));
            m.Ok? && m.value != {} ==> ListAt(env, d, p).Some?
  {
  }

  /** What an edit that its guards let pass makes of an element: the member set, the object's
      members that are not readOnly merged in, the object in its place, or the member gone. */
  function Made(a: Attribute, edit: Edit, e: Elem): Elem {
    match edit
    case WriteSub(sub, v) => e[Fold(sub.name) := v]
    case MergeIn(obj) => e + Overlay(a, obj, obj.Keys)
    case Substitute(obj) => obj
    case DropSub(sub) => e - {Fold(sub.name)}
  }

  lemma {:induction false} EditMakes(lx: Lexicon, a: Attribute, edit: Edit, e: Elem)
    ensures var r := EditElem(lx, a, edit, e); r.Ok? ==> r.value == Made(a, edit, e)
  {
    hide CheckElemImmutable, MergeKeys, Overlay, CheckReplaced;
    if edit.MergeIn? {
      var keys := SortedKeys(edit.obj.Keys);
      MergeOverlays(lx, a, e, edit.obj, keys);
      assert (set k <- keys) == edit.obj.Keys;
    }
  }

  /** The edit each kind of operation makes to the elements it selects. */
  function EditOf(op: Op, sub: Option<Attribute>): Result<Edit> {
    if op.kind.Remove? then (if sub.Some? then Ok(DropSub(sub.value)) else Err(InvalidPath))
    else if sub.Some? then Ok(WriteSub(sub.value, op.value))
    else if !op.value.Obj? then Err(InvalidValue)
    else Ok(if op.kind.Add? then MergeIn(op.value.members) else Substitute(op.value.members))
  }

  lemma {:induction false} TargetEdit(rt: ResourceType, p: F.Path, op: Op)
    requires ResolveTarget(rt, p).Some?
    ensures var (a, sub) := ResolveTarget(rt, p).value;
            EditOf(op, sub).Ok? ==> DeclaredEdit(a, EditOf(op, sub).value)
  {
    var (a, sub) := ResolveTarget(rt, p).value;
    if sub.Some? {
      FindByFold(a.subs, p.sub, sub.value.name);
      assert FindAttribute(a.subs, sub.value.name) == Some(sub.value);
    }
  }

  /** Every element is non-empty and in stored form. */
  predicate AllStored(a: Attribute, elems: seq<Elem>) {
    forall i :: 0 <= i < |elems| ==> StoredElem(a, elems[i]) && elems[i] != map[]
  }

  lemma {:induction false} SurvivorsStored(a: Attribute, list: seq<Elem>, selected: set<nat>, i: nat)
    requires i <= |list| && AllStored(a, list)
    ensures AllStored(a, Survivors(list, selected, i))
    decreases |list| - i
  {
    hide StoredElem;
    if i < |list| {
      SurvivorsStored(a, list, selected, i + 1);
    }
  }

  lemma {:induction false} KeptStored(lx: Lexicon, a: Attribute, elems: seq<Elem>)
    requires AllStored(a, elems) && forall i :: 0 <= i < |elems| ==> MembersCoerce(lx, a, elems[i])
    ensures Kept(lx, a, elems) == elems
  {
    hide StoredElem, MembersCoerce, CoercedElem;
    if elems != [] {
      CoerceElemFixed(lx, a, elems[0]);
      KeptStored(lx, a, elems[1..]);
      assert elems == [elems[0]] + elems[1..];
    }
  }

  // ----- What is then stored -----

  /** The elements that are not empty, in order. */
  function NonEmpty(elems: seq<Elem>): seq<Elem> {
    if elems == [] then [] else (if elems[0] == map[] then [] else [elems[0]]) + NonEmpty(elems[1..])
  }

  /** The elements in stored form, the empty ones included. */
  function AllCoerced(lx: Lexicon, a: Attribute, elems: seq<Elem>): (r: seq<Elem>)
    requires forall i :: 0 <= i < |elems| ==> MembersCoerce(lx, a, elems[i])
    ensures |r| == |elems| && forall i :: 0 <= i < |elems| ==> r[i] == CoercedElem(lx, a, elems[i])
  {
    seq(|elems|, i requires 0 <= i < |elems| => CoercedElem(lx, a, elems[i]))
  }

  lemma {:induction false} KeptNonEmpty(lx: Lexicon, a: Attribute, elems: seq<Elem>)
    requires forall i :: 0 <= i < |elems| ==> MembersCoerce(lx, a, elems[i])
    ensures Kept(lx, a, elems) == NonEmpty(AllCoerced(lx, a, elems))
  {
    hide MembersCoerce, CoercedElem;
    if elems != [] {
      KeptNonEmpty(lx, a, elems[1..]);
      assert AllCoerced(lx, a, elems)[1..] == AllCoerced(lx, a, elems[1..]);
    }
  }

  /** The stored element e' still has the value e had for the sub-attribute. */
  predicate Retains(s: Attribute, e: Elem, e': Elem) {
    var key := Fold(s.name);
    key in e ==> key in e' && SimpleEqual(e[key], e'[key])
  }

  lemma {:induction false} CarriedRetained(lx: Lexicon, a: Attribute, s: Attribute, e: Elem, e': Elem)
    requires StoredElem(a, e) && ImmutableSub(a, s) && CarriesSub(lx, a, s, e, e') && MembersCoerce(lx, a, e')
    ensures Retains(s, e, CoercedElem(lx, a, e'))
  {
    hide StoredElem, SimpleEqual, CoerceMember;
    var key := Fold(s.name);
    if key in e {
      MemberNotNil(a, e, key);
      var cv := CoerceMember(lx, a, key, e'[key]);
      NilUnequal(e[key], cv.value);
    }
  }

  /** What an accepted edit of the selected elements leaves, element by element: selected ones
      with the member set, the object merged in or put in their place, or the member gone, in
      stored form; the others as they were, demoted exactly when the write makes a selected
      element primary; and every immutable sub-attribute with the value it had, an immutable primary of an
      unselected element alone excepted. */
  ghost predicate Edited(lx: Lexicon, a: Attribute, edit: Edit, list: seq<Elem>, selected: set<nat>, after: seq<Elem>) {
    && |after| == |list|
    && (forall i :: 0 <= i < |list| && i !in selected ==>
          after[i] == Yielded(list[i], !edit.DropSub? && exists j :: 0 <= j < |list| && j in selected && PrimaryTrue(Made(a, edit, list[j]))))
    && (forall i :: 0 <= i < |list| && i in selected ==>
          MembersCoerce(lx, a, Made(a, edit, list[i])) && after[i] == CoercedElem(lx, a, Made(a, edit, list[i])))
    && (forall i, s :: 0 <= i < |list| && ImmutableSub(a, s) && (i in selected || Fold(s.name) != PRIMARY) ==>
          Retains(s, list[i], after[i]))
  }

  lemma {:induction false} OutcomeEdited(env: Env, d: Doc, d': Doc, p: F.Path, a: Attribute, edit: Edit, selected: set<nat>, out: seq<Elem>)
    requires Outcome(env, d, d', p, a, edit, selected, out) && AllStored(a, Elements(env, d, p))
    ensures Edited(env.lx, a, edit, Elements(env, d, p), selected, AllCoerced(env.lx, a, out))
    ensures Slot(d', TargetLoc(env.rt, p)) == ElementsSlot(NonEmpty(AllCoerced(env.lx, a, out)))
  {
    hide EditElem, Made, StoredElem, CarriesSub, ImmutableSub, MembersCoerce, CoercedElem, OnlyDemoted, Yielded, PrimaryTrue, Retains, Elements, Slot, TargetLoc, Kept, NonEmpty, Fold;
    var list, after := Elements(env, d, p), AllCoerced(env.lx, a, out);
    KeptNonEmpty(env.lx, a, out);
    forall i | 0 <= i < |list| && i !in selected ensures after[i] == out[i] {
      DemotedFixed(env.lx, a, list[i], out[i]);
    }
    forall i | 0 <= i < |list| && i in selected ensures out[i] == Made(a, edit, list[i]) {
      EditMakes(env.lx, a, edit, list[i]);
    }
    assert TakesPrimary(out, selected) <==> exists j :: 0 <= j < |list| && j in selected && PrimaryTrue(Made(a, edit, list[j]));
    forall i, s | 0 <= i < |list| && ImmutableSub(a, s) && (i in selected || Fold(s.name) != PRIMARY) ensures Retains(s, list[i], after[i]) {
      CarriedRetained(env.lx, a, s, list[i], out[i]);
    }
  }

  lemma {:induction false} DemotedFixed(lx: Lexicon, a: Attribute, e: Elem, e': Elem)
    requires StoredElem(a, e) && e != map[] && OnlyDemoted(e, e') && MembersCoerce(lx, a, e')
    ensures CoercedElem(lx, a, e') == e'
  {
    hide StoredElem, MembersCoerce, CoercedElem;
    DemoteStored(a, e);
    CoerceElemFixed(lx, a, e');
  }

  /** Every accepted operation that edits the elements its filter selects, be it an add, a
      replace or the removal of a sub-attribute, leaves stored exactly the edited list, element
      by element, with the elements that were emptied dropped. */
  lemma {:induction false} SelectedEdit(env: Env, w: Work, op: Op, p: F.Path)
    requires Regular(env.rt) && ParsedPath(p) && Canonical(env.rt, w.doc)
    requires op.path == Some(p) && p.filter.Some? && ApplyOp(env, w, op).Ok?
    ensures ResolveTarget(env.rt, p).Some?
    ensures var (a, sub) := ResolveTarget(env.rt, p).value;
            var list := Elements(env, w.doc, p);
            var m := Matching(env.lx, a, p.filter.value, list);
            m.Ok? && m.value != {} && !(op.kind.Remove? && sub.None?) ==>
              && EditOf(op, sub).Ok?
              && exists after: seq<Elem> ::
                   && Edited(env.lx, a, EditOf(op, sub).value, list, m.value, after)
                   && Slot(ApplyOp(env, w, op).value.doc, TargetLoc(env.rt, p)) == ElementsSlot(NonEmpty(after))
  {
    hide *;
    SelectedWritten(env, w, op, p);
    var (a, sub) := ResolveTarget(env.rt, p).value;
    var list := Elements(env, w.doc, p);
    var m := Matching(env.lx, a, p.filter.value, list);
    if m.Ok? && m.value != {} && !(op.kind.Remove? && sub.None?) {
      var d', edit := ApplyOp(env, w, op).value.doc, EditOf(op, sub).value;
      var out: seq<Elem> :| Outcome(env, w.doc, d', p, a, edit, m.value, out);
      ListRead(env, w.doc, p);
      StoredAll(a, list);
      OutcomeEdited(env, w.doc, d', p, a, edit, m.value, out);
    }
  }

  lemma StoredAll(a: Attribute, list: seq<Elem>)
    requires forall i :: 0 <= i < |list| ==> StoredElem(a, list[i]) && list[i] != map[]
    ensures AllStored(a, list)
  {
  }

  /** The elements among the first n that are not selected, in order. */
  function Unselected(list: seq<Elem>, selected: set<nat>, n: nat): seq<Elem>
    requires n <= |list|
  {
    if n == 0 then [] else Unselected(list, selected, n - 1) + if n - 1 in selected then [] else [list[n - 1]]
  }

  lemma {:induction false} SurvivorsAre(list: seq<Elem>, selected: set<nat>, i: nat)
    requires i <= |list|
    ensures Unselected(list, selected, i) + Survivors(list, selected, i) == Unselected(list, selected, |list|)
    ensures Unselected(list, selected, 0) == []
    ensures i == 0 ==> Survivors(list, selected, 0) == Unselected(list, selected, |list|)
    decreases |list| - i
  {
    if i < |list| {
      SurvivorsAre(list, selected, i + 1);
      var (before, after) := (Unselected(list, selected, i), Survivors(list, selected, i + 1));
      assert before + ([list[i]] + after) == before + [list[i]] + after;
      assert before + ([] + after) == before + [] + after;
      if i == 0 { assert [] + Survivors(list, selected, 0) == Survivors(list, selected, 0); }
    }
  }

  /** An accepted removal of whole elements leaves exactly the elements the filter did not
      select, in order and unchanged, and unassigns the attribute when none is left. */
  lemma {:induction false} SelectedRemoved(env: Env, w: Work, op: Op, p: F.Path)
    requires Regular(env.rt) && ParsedPath(p) && Canonical(env.rt, w.doc)
    requires op.path == Some(p) && p.filter.Some? && op.kind.Remove? && ApplyOp(env, w, op).Ok?
    ensures ResolveTarget(env.rt, p).Some?
    ensures var (a, sub) := ResolveTarget(env.rt, p).value;
            var list := Elements(env, w.doc, p);
            var m := Matching(env.lx, a, p.filter.value, list);
            sub.None? ==>
              && m.Ok?
              && Slot(ApplyOp(env, w, op).value.doc, TargetLoc(env.rt, p)) == ElementsSlot(Unselected(list, m.value, |list|))
              && (a.required && m.value != {} ==> |m.value| < |list|)
  {
    hide Regular, ParsedPath, Canonical, CheckMutable, SetTracked, AttrPathText, TargetLoc, EditElems, Slot, StoredElem, MembersCoerce, Kept, Survivors, PrimaryCount, Boxed, ListAt, Elements;
    var (a, sub) := ResolveTarget(env.rt, p).value;
    var list := Elements(env, w.doc, p);
    if sub.None? {
      ListRead(env, w.doc, p);
      var m := Matching(env.lx, a, p.filter.value, list);
      if m.Ok? { SurvivorsAre(list, m.value, 0); }
      if m.Ok? && m.value != {} {
        var rest := Survivors(list, m.value, 0);
        SurvivorsStored(a, list, m.value, 0);
        ListWritten(env, w, p, Arr(Boxed(rest)), rest);
        KeptStored(env.lx, a, rest);
        MatchedWithin(env.lx, a, p.filter.value, list);
      } else {
        AllSurvive(list, 0);
      }
    }
  }

  lemma {:induction false} AllSurvive(list: seq<Elem>, i: nat)
    requires i <= |list|
    ensures Survivors(list, {}, i) == list[i..]
    decreases |list| - i
  {
    if i < |list| { AllSurvive(list, i + 1); }
  }

  lemma {:induction false} MatchedWithin(lx: Lexicon, a: Attribute, f: F.Expr, list: seq<Elem>)
    ensures var m := Matching(lx, a, f, list); m.Ok? ==> |m.value| <= |list|
  {
    hide FilterMatch.EvalElement, FilterMatch.ElementValid;
    var m := Matching(lx, a, f, list);
    if m.Ok? {
      RangeSize(|list|);
      SubsetSize(m.value, IndexRange(0, |list|));
    }
  }

  lemma {:induction false} RangeSize(n: nat)
    ensures |IndexRange(0, n)| == n
  {
    RangeSizeFrom(0, n);
  }

  lemma {:induction false} RangeSizeFrom(lo: nat, hi: nat)
    requires lo <= hi
    ensures |IndexRange(lo, hi)| == hi - lo
    decreases hi - lo
  {
    if lo < hi { RangeSizeFrom(lo + 1, hi); }
  }
}
