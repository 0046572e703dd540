/** The decision tables of PATCH on whole attributes and members (sections 3.5.2.1 to 3.5.2.3
    of RFC 7644): what an accepted operation leaves at its target. */
module PatchTables {
  import opened Text
  import opened Schema
  import opened Values
  import opened Documents
  import opened DocumentFacts
  import opened Paths
  import opened PatchRules
  import opened PatchSpec
  import opened PatchFacts
  import opened PatchGuards
  import opened PatchElements
  import F = FilterAst
  import G = FilterGrammar

  /** A coerced value as slot content. */
  function Assigned(v: Value): Option<Value> {
    if v.Nil? then None else Some(v)
  }

  lemma {:induction false} NothingAppended(existing: Value, incoming: Value)
    ensures !AppendNew(existing, incoming).1 ==> AppendNew(existing, incoming).0 == existing
  {
    hide AppendElems, Demoted;
    if existing.Slice? && incoming.Slice? && existing.typ == incoming.typ {
      var out := AppendScalars(existing.scalars, incoming.scalars);
      assert |out| == |existing.scalars| ==> out == out[..|existing.scalars|];
    }
  }

  /** What Get shows at a settable whole attribute is the slot. */
  lemma {:induction false} WholeGet(env: Env, d: Doc, path: string, rp: Resolved)
    requires ResolvePath(env.rt, path) == Ok(rp) && Settable(rp) && rp.sub.None?
    ensures Get(env.rt, d, path) == Slot(d, LocOf(rp))
  {
    hide ResolvePath, Slot, GetResolved;
    GetSlot(env.rt, d, rp);
  }

  lemma {:induction false} TrackedSettable(env: Env, w: Work, path: string, v: Value, rp: Resolved)
    requires ResolvePath(env.rt, path) == Ok(rp) && rp.attr.Some?
    ensures SetTracked(env, w, path, v).Ok? ==> Settable(rp)
  {
    hide ResolvePath, SetResolved, ValuesEqual, GetOrNil;
    SetOkSettable(env.lx, w.doc, rp, v);
  }

  /** The slot of a multi-valued attribute after an accepted add. */
  lemma {:induction false} AddMultiTable(env: Env, w: Work, path: string, v: Value, rp: Resolved)
    requires Canonical(env.rt, w.doc) && ResolvePath(env.rt, path) == Ok(rp) && Sound(env.rt, rp) && Settable(rp)
    requires rp.sub.None? && rp.attr.value.multi
    ensures var (r, cv, x) := (AddMulti(env, w, path, rp.attr.value, v), Coerce(env.lx, rp.attr.value, Wrapped(v)), Slot(w.doc, LocOf(rp)));
            r.Ok? ==>
              && cv.Ok?
              && Slot(r.value.doc, LocOf(rp)) ==
                 if cv.value.Nil? then x else if x.None? then Some(cv.value) else Some(AppendNew(x.value, cv.value).0)
  {
    hide Canonical, ResolvePath, Sound, Coerce, Wrapped, AppendNew, SetTracked, Slot, Stored, Get, Settable;
    SoundDeclared(env.rt, rp);
    var attr := rp.attr.value;
    var cv, x := Coerce(env.lx, attr, Wrapped(v)), Slot(w.doc, LocOf(rp));
    WholeGet(env, w.doc, path, rp);
    if cv.Ok? && !cv.value.Nil? {
      CoerceStored(env.lx, attr, Wrapped(v));
      if x.None? {
        TrackedStored(env, w, path, cv.value, rp);
      } else {
        SlotStoredAt(env.rt, w.doc, rp);
        NothingAppended(x.value, cv.value);
        AppendNewStored(attr, x.value, cv.value);
        TrackedStored(env, w, path, AppendNew(x.value, cv.value).0, rp);
      }
    }
  }

  lemma {:induction false} SlotStoredAt(rt: ResourceType, d: Doc, rp: Resolved)
    requires Canonical(rt, d) && Sound(rt, rp) && Slot(d, LocOf(rp)).Some?
    ensures Stored(rp.attr.value, Slot(d, LocOf(rp)).value)
  {
    hide Canonical, Stored, Slot, Declared;
    CanonicalAt(rt, d, LocOf(rp));
  }

  /** The slot of a single-valued complex attribute after an accepted add or replace. */
  lemma {:induction false} MergeTable(env: Env, w: Work, path: string, v: Value, rp: Resolved)
    requires Canonical(env.rt, w.doc) && ResolvePath(env.rt, path) == Ok(rp) && Sound(env.rt, rp) && Settable(rp)
    requires rp.sub.None? && !rp.attr.value.multi && rp.attr.value.typ == TComplex
    ensures var (r, cv, x) := (MergeComplex(env, w, path, rp.attr.value, v), Coerce(env.lx, rp.attr.value, v), Slot(w.doc, LocOf(rp)));
            r.Ok? ==>
              && cv.Ok? && (cv.value.Nil? || cv.value.Cplx?)
              && Slot(r.value.doc, LocOf(rp)) == if cv.value.Nil? then x else Some(Cplx(HeldElem(x) + cv.value.elem))
  {
    hide Canonical, ResolvePath, Sound, Coerce, SetTracked, Slot, Stored, Get, Settable;
    SoundDeclared(env.rt, rp);
    var attr := rp.attr.value;
    var cv, x := Coerce(env.lx, attr, v), Slot(w.doc, LocOf(rp));
    WholeGet(env, w.doc, path, rp);
    if cv.Ok? && !cv.value.Nil? {
      CoerceStored(env.lx, attr, v);
      StoredSingle(attr, cv.value);
      if x.None? {
        assert map[] + cv.value.elem == cv.value.elem;
        TrackedStored(env, w, path, cv.value, rp);
      } else {
        SlotStoredAt(env.rt, w.doc, rp);
        StoredSingle(attr, x.value);
        MergedStored(attr, x.value.elem, cv.value.elem);
        TrackedStored(env, w, path, Cplx(x.value.elem + cv.value.elem), rp);
      }
    }
  }

  /** What an accepted operation on a whole attribute leaves there. */
  ghost predicate WholeTable(env: Env, op: Op, attr: Attribute, x: Option<Value>, y: Option<Value>) {
    var (cv, cw) := (Coerce(env.lx, attr, op.value), Coerce(env.lx, attr, Wrapped(op.value)));
    match op.kind
    case Remove => y == None
    case Replace =>
      if attr.multi then cw.Ok? && y == Assigned(cw.value)
      else if attr.typ == TComplex then cv.Ok? && (cv.value.Nil? || cv.value.Cplx?) && y == (if cv.value.Nil? then x else Some(Cplx(HeldElem(x) + cv.value.elem)))
      else cv.Ok? && y == Assigned(cv.value)
    case Add =>
      if attr.multi then cw.Ok? && y == (if cw.value.Nil? then x else if x.None? then Some(cw.value) else Some(AppendNew(x.value, cw.value).0))
      else if attr.typ == TComplex then cv.Ok? && (cv.value.Nil? || cv.value.Cplx?) && y == (if cv.value.Nil? then x else Some(Cplx(HeldElem(x) + cv.value.elem)))
      else cv.Ok? && y == Assigned(cv.value)
    case Unknown => false
  }

  lemma NilCoerces(lx: Lexicon, a: Attribute)
    ensures Coerce(lx, a, Nil) == Ok(Nil)
  {
  }

  /** The value an attribute-level replace sets, coerced once more by Set, stays as it is. */
  lemma {:induction false} ReplacedSlot(env: Env, w: Work, path: string, v: Value, rp: Resolved)
    requires ResolvePath(env.rt, path) == Ok(rp) && Sound(env.rt, rp) && rp.sub.None?
    requires v.Nil? || Stored(rp.attr.value, v)
    ensures var r := SetTracked(env, w, path, v); r.Ok? ==> Slot(r.value.doc, LocOf(rp)) == Assigned(v)
  {
    hide ResolvePath, Sound, Coerce, SetTracked, Slot, Stored;
    SoundDeclared(env.rt, rp);
    TrackedSlot(env, w, path, v, rp);
    NilCoerces(env.lx, rp.attr.value);
    if !v.Nil? { CoerceFixedIff(env.lx, rp.attr.value, v); }
  }

  lemma {:induction false} WholeWrite(env: Env, w: Work, op: Op, path: string, rp: Resolved)
    requires Canonical(env.rt, w.doc) && ResolvePath(env.rt, path) == Ok(rp) && Sound(env.rt, rp) && Settable(rp) && rp.sub.None?
    requires !op.kind.Unknown?
    ensures var attr := rp.attr.value;
            var r := if op.kind.Remove? then SetTracked(env, w, path, Nil)
                     else if op.kind.Add? then AddToAttribute(env, w, path, attr, op.value)
                     else ReplaceAttribute(env, w, path, attr, op.value);
            r.Ok? ==> WholeTable(env, op, attr, Slot(w.doc, LocOf(rp)), Slot(r.value.doc, LocOf(rp)))
  {
    hide Canonical, ResolvePath, Sound, Coerce, Wrapped, AppendNew, SetTracked, Slot, Stored, Get, Settable, AddMulti, MergeComplex, HeldElem;
    SoundDeclared(env.rt, rp);
    var attr := rp.attr.value;
    if op.kind.Remove? {
      ReplacedSlot(env, w, path, Nil, rp);
    } else if attr.multi {
      AddMultiTable(env, w, path, op.value, rp);
      CoerceStored(env.lx, attr, Wrapped(op.value));
      var cw := Coerce(env.lx, attr, Wrapped(op.value));
      if cw.Ok? { ReplacedSlot(env, w, path, cw.value, rp); }
    } else if attr.typ == TComplex {
      MergeTable(env, w, path, op.value, rp);
    } else {
      TrackedSlot(env, w, path, op.value, rp);
    }
  }

  /** What an accepted operation on one member of a single-valued complex attribute leaves. */
  ghost predicate MemberTable(env: Env, op: Op, sub: Attribute, x: Option<Value>, y: Option<Value>) {
    var cv := Coerce(env.lx, sub, if op.kind.Remove? then Nil else op.value);
    cv.Ok? &&
    var m := WithMember(HeldElem(x), Fold(sub.name), cv.value);
    y == if m == map[] then None else Some(Cplx(m))
  }

  lemma {:induction false} MemberWrite(env: Env, w: Work, op: Op, path: string, rp: Resolved)
    requires Canonical(env.rt, w.doc) && ResolvePath(env.rt, path) == Ok(rp) && Sound(env.rt, rp) && rp.sub.Some?
    ensures var r := SetTracked(env, w, path, if op.kind.Remove? then Nil else op.value);
            r.Ok? ==> MemberTable(env, op, rp.sub.value, Slot(w.doc, LocOf(rp)), Slot(r.value.doc, LocOf(rp)))
  {
    hide Canonical, ResolvePath, Sound, Coerce, SetResolved, Slot, ValuesEqual, GetOrNil, HeldElem, WithMember;
    SoundDeclared(env.rt, rp);
    var v := if op.kind.Remove? then Nil else op.value;
    if SetTracked(env, w, path, v).Ok? { MemberSlot(env.lx, env.rt, w.doc, rp, v); }
  }

  /** The path names schemas or meta, which are derived and not kept at any location. */
  predicate DerivedTarget(rt: ResourceType, p: F.Path) {
    p.urn == "" && FindAttribute(rt.core.attrs, p.attr).None? && (Fold(p.attr) == SCHEMAS || Fold(p.attr) == META)
  }

  lemma {:induction false} TargetSettable(rt: ResourceType, p: F.Path)
    requires Regular(rt) && ParsedPath(p) && p.filter.None? && ResolveTarget(rt, p).Some?
    requires var (attr, sub) := ResolveTarget(rt, p).value; !(attr.multi && sub.Some?)
    ensures var rp := ResolvePath(rt, WritePath(p, ResolveTarget(rt, p).value.1));
            rp.Ok? && rp.value.attr.Some? && (Settable(rp.value) <==> !DerivedTarget(rt, p))
  {
    hide ResolvePath, ResolveTarget, SeparateSchemas, FlatType, NamesValid, G.PlainPath, AttrPathText, SubPathText, Hidden;
    ResolversAgree(rt, p);
    NotHidden(rt, p);
    TargetName(rt, p);
  }

  /** An accepted operation whose path has no value filter leaves at its target what the tables
      of the RFC say: removed, replaced, merged member by member, or appended to. On the derived
      attributes it is accepted only when it does nothing. */
  lemma {:induction false} DecisionTable(env: Env, w: Work, op: Op, p: F.Path)
    requires Regular(env.rt) && ParsedPath(p) && Canonical(env.rt, w.doc)
    requires op.path == Some(p) && p.filter.None? && ApplyOp(env, w, op).Ok?
    ensures ResolveTarget(env.rt, p).Some?
    ensures var (attr, sub) := ResolveTarget(env.rt, p).value;
            var (x, y) := (Slot(w.doc, TargetLoc(env.rt, p)), Slot(ApplyOp(env, w, op).value.doc, TargetLoc(env.rt, p)));
            if DerivedTarget(env.rt, p) then ApplyOp(env, w, op) == Ok(w)
            else if sub.Some? then MemberTable(env, op, sub.value, x, y)
            else WholeTable(env, op, attr, x, y)
  {
    hide Regular, ParsedPath, Canonical, ResolvePath, ResolveTarget, WritePath, TargetLoc, LocOf, Sound, Slot, CheckMutable, SetTracked,
      AddToAttribute, ReplaceAttribute, AttrPathText, SubPathText, WholeTable, MemberTable, Settable, DerivedTarget;
    var (attr, sub) := ResolveTarget(env.rt, p).value;
    WritePathResolves(env.rt, p);
    WritePathIs(p, sub);
    TargetSettable(env.rt, p);
    var path := WritePath(p, sub);
    var rp := ResolvePath(env.rt, path).value;
    SoundDeclared(env.rt, rp);
    if DerivedTarget(env.rt, p) {
      PerformWrites(env, w, op, p, attr, sub);
      NoWrite(env, w, path, ApplyOp(env, w, op), rp);
    } else if sub.Some? {
      MemberWrite(env, w, op, path, rp);
    } else {
      WholeWrite(env, w, op, path, rp);
    }
  }

  /** A write that succeeds at a path that cannot be set is none. */
  lemma {:induction false} NoWrite(env: Env, w: Work, path: string, r: Result<Work>, rp: Resolved)
    requires ResolvePath(env.rt, path) == Ok(rp) && rp.attr.Some? && !Settable(rp) && Writes(env, w, path, r) && r.Ok?
    ensures r.value == w
  {
    hide ResolvePath, SetTracked, Settable;
    if r.value != w {
      var v: Value :| SetTracked(env, w, path, v) == r;
      TrackedSettable(env, w, path, v, rp);
    }
  }

  lemma WritePathIs(p: F.Path, sub: Option<Attribute>)
    requires p.filter.None?
    ensures WritePath(p, sub) == if sub.Some? then SubPathText(p) else AttrPathText(p)
  {
  }

  // ----- The mutability of members -----

  /** The member a complex value held is still there, and equal. */
  predicate Survives(key: string, x: Option<Value>, y: Option<Value>) {
    key in HeldElem(x) ==> key in HeldElem(y) && SimpleEqual(HeldElem(x)[key], HeldElem(y)[key])
  }

  /** The operation removes the whole attribute, or carries another value for the member. */
  predicate Overwrites(env: Env, op: Op, attr: Attribute, x: Option<Value>, key: string) {
    key in HeldElem(x) &&
    (op.kind.Remove? ||
     (var cv := Coerce(env.lx, attr, op.value);
      cv.Ok? && cv.value.Cplx? && key in cv.value.elem && !SimpleEqual(HeldElem(x)[key], cv.value.elem[key])))
  }

  lemma {:induction false} HeldEqualSelf(rt: ResourceType, d: Doc, rp: Resolved, key: string)
    requires Canonical(rt, d) && Sound(rt, rp) && rp.attr.value.typ == TComplex && !rp.attr.value.multi
    ensures var m := HeldElem(Slot(d, LocOf(rp))); StoredElem(rp.attr.value, m) && (key in m ==> SimpleEqual(m[key], m[key]) && !m[key].Nil?)
  {
    hide Canonical, Stored, StoredElem, SimpleEqual, Slot, Declared;
    SoundDeclared(rt, rp);
    EmptyStored(rp.attr.value);
    if Slot(d, LocOf(rp)).Some? {
      SlotStoredAt(rt, d, rp);
      StoredSingle(rp.attr.value, Slot(d, LocOf(rp)).value);
    }
    StoredElemEqualSelf(rp.attr.value, HeldElem(Slot(d, LocOf(rp))));
    MemberSimple(rp.attr.value, HeldElem(Slot(d, LocOf(rp))), key);
    ElemEqualAt(HeldElem(Slot(d, LocOf(rp))), key);
  }

  lemma ElemEqualAt(m: Elem, key: string)
    requires ElemEqual(m, m)
    ensures key in m ==> SimpleEqual(m[key], m[key])
  {
  }

  lemma {:induction false} WholeSurvives(env: Env, op: Op, attr: Attribute, x: Option<Value>, y: Option<Value>, key: string)
    requires WholeTable(env, op, attr, x, y) && attr.typ == TComplex && !attr.multi
    requires key in HeldElem(x) ==> SimpleEqual(HeldElem(x)[key], HeldElem(x)[key])
    ensures Survives(key, x, y) <==> !Overwrites(env, op, attr, x, key)
  {
    hide Coerce, SimpleEqual;
  }

  /** The guard on an operation that names the member itself. */
  lemma {:induction false} GuardedMember(env: Env, d: Doc, op: Op, p: F.Path, sub: Attribute, rp: Resolved)
    requires ResolvePath(env.rt, SubPathText(p)) == Ok(rp) && Settable(rp) && rp.sub == Some(sub)
    requires CheckImmutableSubPath(env, d, op, p, Some(sub)).None? && sub.access == Immutable && p.filter.None? && !op.kind.Unknown?
    ensures var m := HeldElem(Slot(d, LocOf(rp)));
            Fold(sub.name) in m ==>
              !op.kind.Remove? && Coerce(env.lx, sub, op.value).Ok? && ValuesEqual(m[Fold(sub.name)], Coerce(env.lx, sub, op.value).value)
  {
    hide ResolvePath, Coerce, ValuesEqual, SubPathText, GetResolved, Slot;
    GetSlot(env.rt, d, rp);
  }

  lemma {:induction false} MemberSurvives(env: Env, op: Op, sub: Attribute, x: Option<Value>, y: Option<Value>, key: string)
    requires MemberTable(env, op, sub, x, y)
    requires key in HeldElem(x) ==> SimpleEqual(HeldElem(x)[key], HeldElem(x)[key]) && !HeldElem(x)[key].Nil?
    requires Fold(sub.name) == key && key in HeldElem(x) ==>
               !op.kind.Remove? && Coerce(env.lx, sub, op.value).Ok? && SimpleEqual(HeldElem(x)[key], Coerce(env.lx, sub, op.value).value)
    ensures Survives(key, x, y)
  {
    hide Coerce, SimpleEqual;
    if key in HeldElem(x) && Fold(sub.name) == key {
      NilUnequal(HeldElem(x)[key], Coerce(env.lx, sub, op.value).value);
    }
  }

  /** A readOnly or immutable member of a single-valued complex attribute keeps its value through
      an accepted operation exactly unless the operation is on the whole attribute and removes
      it or carries another value for the member: writes to the whole attribute do not consult
      the mutability of its members. */
  lemma {:induction false} MemberKeptIff(env: Env, w: Work, op: Op, p: F.Path, s: Attribute)
    requires Regular(env.rt) && ParsedPath(p) && Canonical(env.rt, w.doc)
    requires op.path == Some(p) && p.filter.None? && ApplyOp(env, w, op).Ok? && !DerivedTarget(env.rt, p)
    requires ResolveTarget(env.rt, p).Some? ==>
               var attr := ResolveTarget(env.rt, p).value.0;
               attr.typ == TComplex && !attr.multi && FindAttribute(attr.subs, s.name) == Some(s) && (s.access == ReadOnly || s.access == Immutable)
    ensures ResolveTarget(env.rt, p).Some?
    ensures var (attr, sub) := ResolveTarget(env.rt, p).value;
            var (x, y) := (Slot(w.doc, TargetLoc(env.rt, p)), Slot(ApplyOp(env, w, op).value.doc, TargetLoc(env.rt, p)));
            Survives(Fold(s.name), x, y) <==> !(sub.None? && Overwrites(env, op, attr, x, Fold(s.name)))
  {
    hide Regular, ParsedPath, Canonical, ResolvePath, ResolveTarget, WritePath, TargetLoc, LocOf, Sound, Slot, SetTracked, Survives, Overwrites,
      AttrPathText, SubPathText, WholeTable, MemberTable, Settable, DerivedTarget, ApplyOp, Coerce, StoredElem, HeldElem, SimpleEqual, Fold;
    DecisionTable(env, w, op, p);
    var (attr, sub) := ResolveTarget(env.rt, p).value;
    var (x, y) := (Slot(w.doc, TargetLoc(env.rt, p)), Slot(ApplyOp(env, w, op).value.doc, TargetLoc(env.rt, p)));
    ResolversAgreeAt(env.rt, p);
    HeldEqualSelf(env.rt, w.doc, ResolvePath(env.rt, AttrPathText(p)).value, Fold(s.name));
    if sub.None? {
      WholeSurvives(env, op, attr, x, y, Fold(s.name));
    } else {
      TargetFound(env.rt, p, s);
      if Fold(sub.value.name) == Fold(s.name) {
        MemberGuard(env, w, op, p, s);
      }
      MemberSurvives(env, op, sub.value, x, y, Fold(s.name));
    }
  }

  lemma {:induction false} TargetFound(rt: ResourceType, p: F.Path, s: Attribute)
    requires ResolveTarget(rt, p).Some? && ResolveTarget(rt, p).value.1.Some?
    requires FindAttribute(ResolveTarget(rt, p).value.0.subs, s.name) == Some(s)
    ensures var sub := ResolveTarget(rt, p).value.1.value; Fold(sub.name) == Fold(s.name) ==> sub == s
  {
    var (attr, sub) := ResolveTarget(rt, p).value;
    if Fold(sub.value.name) == Fold(s.name) { FindByFold(attr.subs, p.sub, s.name); }
  }

  /** An accepted operation that names a readOnly or immutable member leaves it equal. */
  lemma {:induction false} MemberGuard(env: Env, w: Work, op: Op, p: F.Path, s: Attribute)
    requires Regular(env.rt) && ParsedPath(p) && Canonical(env.rt, w.doc)
    requires op.path == Some(p) && p.filter.None? && ApplyOp(env, w, op).Ok? && !DerivedTarget(env.rt, p)
    requires ResolveTarget(env.rt, p).Some? && ResolveTarget(env.rt, p).value.1 == Some(s)
    requires !ResolveTarget(env.rt, p).value.0.multi && (s.access == ReadOnly || s.access == Immutable)
    ensures var m := HeldElem(Slot(w.doc, TargetLoc(env.rt, p)));
            Fold(s.name) in m ==> !op.kind.Remove? && Coerce(env.lx, s, op.value).Ok? && SimpleEqual(m[Fold(s.name)], Coerce(env.lx, s, op.value).value)
  {
    hide Regular, ParsedPath, Canonical, ResolvePath, ResolveTarget, WritePath, TargetLoc, LocOf, Sound, Slot,
      AttrPathText, SubPathText, Settable, DerivedTarget, Coerce, HeldElem, SimpleEqual, Fold, CheckImmutablePathed, CheckImmutableSubPath, Perform, ValuesEqual;
    WritePathResolves(env.rt, p);
    WritePathIs(p, Some(s));
    TargetSettable(env.rt, p);
    var rp := ResolvePath(env.rt, SubPathText(p)).value;
    SoundDeclared(env.rt, rp);
    assert s.access == Immutable && CheckImmutableSubPath(env, w.doc, op, p, Some(s)).None?;
    GuardedMember(env, w.doc, op, p, s, rp);
    MemberPlain(env.rt, w.doc, rp, Fold(s.name), Coerce(env.lx, s, op.value));
  }

  lemma {:induction false} MemberPlain(rt: ResourceType, d: Doc, rp: Resolved, key: string, cv: Result<Value>)
    requires Canonical(rt, d) && Sound(rt, rp) && rp.sub.Some?
    ensures var m := HeldElem(Slot(d, LocOf(rp)));
            key in m && cv.Ok? && ValuesEqual(m[key], cv.value) ==> SimpleEqual(m[key], cv.value)
  {
    hide Canonical, Slot, SimpleEqual, ValuesEqual, StoredElem;
    HeldEqualSelf(rt, d, rp, key);
    var m := HeldElem(Slot(d, LocOf(rp)));
    MemberSimple(rp.attr.value, m, key);
    if key in m && cv.Ok? { SimpleIsValues(m[key], cv.value); }
  }
}
