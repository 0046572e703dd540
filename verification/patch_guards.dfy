/** The mutability guarantees of PATCH: readOnly attributes and the metadata never change, and
    an assigned immutable attribute changes only through a null member of a pathless add. */
module PatchGuards {
  import opened Text
  import opened Schema
  import opened Values
  import opened Documents
  import opened DocumentFacts
  import opened Paths
  import opened PatchRules
  import opened PatchSpec
  import opened PatchFacts
  import opened Ordering
  import F = FilterAst

  // ----- The immutable guard predicts the write -----

  /** A multi-value that coerces both bare and wrapped coerces to the same thing. */
  lemma {:induction false} WrappedAgrees(lx: Lexicon, attr: Attribute, v: Value)
    requires attr.multi && Coerce(lx, attr, v).Ok? && Coerce(lx, attr, Wrapped(v)).Ok?
    ensures Coerce(lx, attr, v) == Coerce(lx, attr, Wrapped(v))
  {
    hide CoerceScalar;
    if !v.Arr? {
      CoerceOne(lx, attr, v);
    }
  }

  /** The coercion of a single wrapped item. */
  lemma {:induction false} CoerceOne(lx: Lexicon, attr: Attribute, v: Value)
    ensures attr.typ != TComplex ==>
              CoerceScalars(lx, attr.typ, [v]) ==
              if v.Nil? then Ok([])
              else if CoerceScalar(lx, attr.typ, v).Ok? then Ok([CoerceScalar(lx, attr.typ, v).value]) else Err(InvalidValue)
    ensures Source(v).None? ==> CoerceElems(lx, attr, [v]) == Err(InvalidValue)
    ensures v.Slice? || v.Multi? ==> CoerceScalar(lx, attr.typ, v).Err?
  {
    assert [v][1..] == [];
    assert CoerceScalars(lx, attr.typ, []) == Ok([]);
    var c := CoerceScalar(lx, attr.typ, v);
    if c.Ok? { assert [c.value] + [] == [c.value]; }
  }

  /** What Set leaves in the slot of a whole attribute. */
  lemma {:induction false} TrackedSlot(env: Env, w: Work, path: string, v: Value, rp: Resolved)
    requires ResolvePath(env.rt, path) == Ok(rp) && Sound(env.rt, rp) && rp.sub.None?
    ensures var r, cv := SetTracked(env, w, path, v), Coerce(env.lx, rp.attr.value, v);
            r.Ok? ==> cv.Ok? && Slot(r.value.doc, LocOf(rp)) == if cv.value.Nil? then None else Some(cv.value)
  {
    hide Sound, Coerce, ResolvePath, SetResolved, SetInContainer, Slot, ValuesEqual, GetOrNil;
    assert rp.attr.Some? by { SoundNames(env.rt, rp); }
    var r := SetTracked(env, w, path, v);
    if r.Ok? {
      var held := Container(w.doc, rp);
      SetSlot(env.lx, w.doc, rp, v);
      SetWhole(env.lx, if held.None? then map[] else held.value, rp, v);
    }
  }

  lemma {:induction false} CommonNotImmutable(rt: ResourceType, rp: Resolved)
    requires Sound(rt, rp) && rp.common
    ensures rp.attr.value.access != Immutable
  {
    var name := rp.attr.value.name;
    FoldIdempotent(name);
    assert rp.attr == FindAttribute(COMMON, Fold(name));
    CommonAccess();
  }

  lemma CommonAccess()
    ensures forall a <- COMMON :: a.access != Immutable
  {
  }

  /** Get at the path of an immutable attribute reads its slot. */
  lemma {:induction false} ImmutableGet(env: Env, d: Doc, path: string, rp: Resolved)
    requires ResolvePath(env.rt, path) == Ok(rp) && Sound(env.rt, rp) && rp.sub.None? && rp.attr.value.access == Immutable
    ensures Get(env.rt, d, path) == Slot(d, LocOf(rp))
  {
    hide ResolvePath, Slot, GetResolved, Declared;
    if rp.common { CommonNotImmutable(env.rt, rp); }
    GetSlot(env.rt, d, rp);
  }

  /** A member of a pathless add, or a pathed add, that the guard misjudges: null, on a
      single-valued attribute that is not complex. */
  predicate NullScalar(attr: Attribute, kind: OpKind, v: Value) {
    kind.Add? && v.Nil? && !attr.multi && attr.typ != TComplex
  }

  lemma {:induction false} MergedStored(a: Attribute, x: Elem, y: Elem)
    requires a.typ == TComplex && !a.multi && Stored(a, Cplx(x)) && Stored(a, Cplx(y))
    ensures Stored(a, Cplx(x + y))
  {
    hide StoredSimple;
    var k :| k in x;
    assert k in x + y;
  }

  /** The attribute's write, add or replace. */
  function AttributeWrite(env: Env, w: Work, kind: OpKind, path: string, attr: Attribute, v: Value): Result<Work> {
    if kind.Replace? then ReplaceAttribute(env, w, path, attr, v) else AddToAttribute(env, w, path, attr, v)
  }

  lemma {:induction false} MergeKeeps(env: Env, w: Work, kind: OpKind, path: string, rp: Resolved, v: Value)
    requires Canonical(env.rt, w.doc) && ResolvePath(env.rt, path) == Ok(rp) && Sound(env.rt, rp)
    requires rp.sub.None? && rp.attr.value.access == Immutable && rp.attr.value.typ == TComplex && !rp.attr.value.multi
    requires Slot(w.doc, LocOf(rp)).Some?
    requires CheckImmutableAttr(env.lx, Slot(w.doc, LocOf(rp)), rp.attr.value, kind, v).None? && (kind.Add? || kind.Replace?)
    ensures var r := MergeComplex(env, w, path, rp.attr.value, v);
            r.Ok? ==> SameSlot(Slot(w.doc, LocOf(rp)), Slot(r.value.doc, LocOf(rp)))
  {
    hide Canonical, ResolvePath, Sound, Slot, Coerce, ValuesEqual, Stored, SetTracked, Get;
    assert rp.attr.Some? by { SoundNames(env.rt, rp); }
    var attr, l := rp.attr.value, LocOf(rp);
    ImmutableGet(env, w.doc, path, rp);
    SlotSelf(env.rt, w.doc, l);
    CanonicalAt(env.rt, w.doc, l);
    SoundDeclared(env.rt, rp);
    var existing := Slot(w.doc, l).value;
    var incoming := Coerce(env.lx, attr, v).value;
    CoerceStored(env.lx, attr, v);
    StoredSingle(attr, existing);
    if !incoming.Nil? {
      StoredSingle(attr, incoming);
      var merged := Cplx(existing.elem + incoming.elem);
      MergedStored(attr, existing.elem, incoming.elem);
      CoerceFixedIff(env.lx, attr, merged);
      TrackedSlot(env, w, path, merged, rp);
      StoredValueNotNil(attr, merged);
    }
  }

  lemma SoundDeclared(rt: ResourceType, rp: Resolved)
    requires Sound(rt, rp)
    ensures rp.attr.Some? && Declared(rt, LocOf(rp)) == rp.attr
  {
  }

  lemma ScalarNil(lx: Lexicon, a: Attribute, v: Value)
    requires !a.multi && a.typ != TComplex && Coerce(lx, a, v).Ok?
    ensures Coerce(lx, a, v).value.Nil? == v.Nil?
  {
  }

  lemma {:induction false} ScalarKeepsIff(env: Env, w: Work, kind: OpKind, path: string, rp: Resolved, v: Value)
    requires Canonical(env.rt, w.doc) && ResolvePath(env.rt, path) == Ok(rp) && Sound(env.rt, rp)
    requires rp.sub.None? && rp.attr.value.access == Immutable && rp.attr.value.typ != TComplex && !rp.attr.value.multi
    requires Slot(w.doc, LocOf(rp)).Some?
    requires CheckImmutableAttr(env.lx, Slot(w.doc, LocOf(rp)), rp.attr.value, kind, v).None? && (kind.Add? || kind.Replace?)
    ensures var r := SetTracked(env, w, path, v);
            r.Ok? ==> (SameSlot(Slot(w.doc, LocOf(rp)), Slot(r.value.doc, LocOf(rp))) <==> !NullScalar(rp.attr.value, kind, v))
  {
    hide Canonical, ResolvePath, Sound, Slot, Coerce, ValuesEqual, Stored, SetTracked, AppendNew;
    SoundDeclared(env.rt, rp);
    var attr, l := rp.attr.value, LocOf(rp);
    ScalarNil(env.lx, attr, v);
    TrackedSlot(env, w, path, v, rp);
    CanonicalAt(env.rt, w.doc, l);
    SoundDeclared(env.rt, rp);
    StoredValueNotNil(attr, Slot(w.doc, l).value);
  }

  lemma {:induction false} MultiKeeps(env: Env, w: Work, kind: OpKind, path: string, rp: Resolved, v: Value)
    requires Canonical(env.rt, w.doc) && ResolvePath(env.rt, path) == Ok(rp) && Sound(env.rt, rp)
    requires rp.sub.None? && rp.attr.value.access == Immutable && rp.attr.value.multi
    requires Slot(w.doc, LocOf(rp)).Some?
    requires CheckImmutableAttr(env.lx, Slot(w.doc, LocOf(rp)), rp.attr.value, kind, v).None? && (kind.Add? || kind.Replace?)
    ensures var r := AttributeWrite(env, w, kind, path, rp.attr.value, v);
            r.Ok? ==> SameSlot(Slot(w.doc, LocOf(rp)), Slot(r.value.doc, LocOf(rp)))
  {
    hide Canonical, ResolvePath, Sound, Slot, Coerce, ValuesEqual, Stored, SetTracked, AppendNew, Wrapped, Get;
    SoundDeclared(env.rt, rp);
    var attr, l := rp.attr.value, LocOf(rp);
    ImmutableGet(env, w.doc, path, rp);
    SlotSelf(env.rt, w.doc, l);
    if Coerce(env.lx, attr, Wrapped(v)).Ok? {
      WrappedAgrees(env.lx, attr, v);
      var incoming := Coerce(env.lx, attr, v).value;
      if kind.Replace? {
        CoerceStored(env.lx, attr, v);
        CoerceFixedIff(env.lx, attr, incoming);
        TrackedSlot(env, w, path, incoming, rp);
      }
    }
  }

  /** When the guard lets an add or replace through on an assigned immutable attribute and the
      write succeeds, the value is left as it was, unless the operation is an add of null to a
      single-valued attribute that is not complex: then it is gone. */
  lemma {:induction false} GuardedWriteIff(env: Env, w: Work, kind: OpKind, path: string, rp: Resolved, v: Value)
    requires Canonical(env.rt, w.doc) && ResolvePath(env.rt, path) == Ok(rp) && Sound(env.rt, rp)
    requires rp.sub.None? && rp.attr.value.access == Immutable && Slot(w.doc, LocOf(rp)).Some?
    requires CheckImmutableAttr(env.lx, Slot(w.doc, LocOf(rp)), rp.attr.value, kind, v).None? && (kind.Add? || kind.Replace?)
    ensures var r := AttributeWrite(env, w, kind, path, rp.attr.value, v);
            r.Ok? ==> (SameSlot(Slot(w.doc, LocOf(rp)), Slot(r.value.doc, LocOf(rp))) <==> !NullScalar(rp.attr.value, kind, v))
  {
    hide Canonical, ResolvePath, Sound, Slot, SameSlot, SetTracked, CheckImmutableAttr, MergeComplex, AddMulti, Coerce;
    assert rp.attr.Some? by { SoundNames(env.rt, rp); }
    if rp.attr.value.multi {
      MultiKeeps(env, w, kind, path, rp, v);
    } else if rp.attr.value.typ == TComplex {
      MergeKeeps(env, w, kind, path, rp, v);
    } else {
      ScalarKeepsIff(env, w, kind, path, rp, v);
    }
  }

  // ----- One operation -----

  /** The null members that undo an immutable value at l: a member of a pathless add, at the
      top or inside an extension object, or the value of a pathed add. */
  predicate NullMember(rt: ResourceType, kind: OpKind, urn: string, key: string, v: Value, l: Loc) {
    l == Loc(urn, Fold(key)) && Declared(rt, l).Some? && NullScalar(Declared(rt, l).value, kind, v)
  }

  predicate NullKey(rt: ResourceType, kind: OpKind, key: string, v: Value, l: Loc) {
    if Fold(key) == SCHEMAS || Fold(key) == META then false
    else if FindSchema(rt.exts, key).Some? then
      v.Obj? && exists k <- v.members.Keys :: NullMember(rt, kind, Fold(key), k, v.members[k], l)
    else NullMember(rt, kind, "", key, v, l)
  }

  predicate Nulls(rt: ResourceType, op: Op, l: Loc) {
    if op.path.Some? then
      var p := op.path.value;
      p.sub == "" && p.filter.None? && l == TargetLoc(rt, p) && Declared(rt, l).Some? && NullScalar(Declared(rt, l).value, op.kind, op.value)
    else op.value.Obj? && exists k <- op.value.members.Keys :: NullKey(rt, op.kind, k, op.value.members[k], l)
  }

  /** l holds an immutable attribute, now assigned. */
  predicate Frozen(rt: ResourceType, d: Doc, l: Loc) {
    Declared(rt, l).Some? && Declared(rt, l).value.access == Immutable && Slot(d, l).Some?
  }

  lemma {:induction false} PathedKeepsIff(env: Env, w: Work, op: Op, p: F.Path, l: Loc)
    requires Regular(env.rt) && ParsedPath(p) && Canonical(env.rt, w.doc) && Frozen(env.rt, w.doc, l)
    requires !op.kind.Unknown? && op.path == Some(p)
    ensures var r := Pathed(env, w, op, p);
            r.Ok? ==> (SameSlot(Slot(w.doc, l), Slot(r.value.doc, l)) <==> !Nulls(env.rt, op, l))
  {
    hide Regular, ParsedPath, Canonical, ResolvePath, TargetLoc, LocOf, Sound, Slot, SameSlot, CheckImmutableSubPath, CheckImmutableAttr,
      AddToAttribute, ReplaceAttribute, SetTracked, WritePath, ResolveTarget, Declared, Get;
    var r := Pathed(env, w, op, p);
    if r.Ok? {
      PathedEffect(env, w, op, p);
      SlotSelf(env.rt, w.doc, l);
      if l == TargetLoc(env.rt, p) {
        FrozenTarget(env, w, op, p);
        WritePathResolves(env.rt, p);
        var rp := ResolvePath(env.rt, WritePath(p, None)).value;
        SubShape(env.rt, p);
        SoundDeclared(env.rt, rp);
        BareWritePath(p);
        ImmutableGet(env, w.doc, AttrPathText(p), rp);
        GuardedWriteIff(env, w, op.kind, AttrPathText(p), rp, op.value);
      }
    }
  }

  lemma BareWritePath(p: F.Path)
    ensures WritePath(p, None) == AttrPathText(p)
  {
  }

  lemma SubShape(rt: ResourceType, p: F.Path)
    requires ResolveTarget(rt, p).Some?
    ensures p.sub == "" <==> ResolveTarget(rt, p).value.1.None?
  {
  }

  /** On an assigned immutable attribute only a whole-attribute add or replace gets past the
      guards. */
  lemma {:induction false} FrozenTarget(env: Env, w: Work, op: Op, p: F.Path)
    requires Regular(env.rt) && ParsedPath(p) && Canonical(env.rt, w.doc)
    requires OpTarget(env, w.doc, op, p).Ok? && Frozen(env.rt, w.doc, TargetLoc(env.rt, p)) && !op.kind.Unknown?
    ensures ResolveTarget(env.rt, p).Some? && ResolveTarget(env.rt, p).value.1.None? && p.filter.None?
    ensures op.kind.Add? || op.kind.Replace?
    ensures CheckImmutableAttr(env.lx, Slot(w.doc, TargetLoc(env.rt, p)), ResolveTarget(env.rt, p).value.0, op.kind, op.value).None?
  {
    hide Regular, ParsedPath, Canonical, ResolvePath, TargetLoc, LocOf, Sound, Slot, CheckImmutableSubPath, WritePath, ResolveTarget, Get,
      SeparateSchemas, FlatType, NamesValid, Coerce, AttrPathText, SubPathText, WouldChange;
    var (attr, sub) := ResolveTarget(env.rt, p).value;
    assert Regular(env.rt) ==> SeparateSchemas(env.rt) && FlatType(env.rt) by { RegularParts(env.rt); }
    ResolversAgreeAt(env.rt, p);
    var rp := ResolvePath(env.rt, AttrPathText(p)).value;
    SoundDeclared(env.rt, rp);
    ImmutableGet(env, w.doc, AttrPathText(p), rp);
  }

  lemma RegularParts(rt: ResourceType)
    requires Regular(rt)
    ensures SeparateSchemas(rt) && FlatType(rt) && NamesValid(rt)
  {
  }

  /** The attribute's own text resolves to the target location, whatever sub-attribute or
      filter follows. */
  lemma {:induction false} ResolversAgreeAt(rt: ResourceType, p: F.Path)
    requires Regular(rt) && ParsedPath(p) && ResolveTarget(rt, p).Some?
    ensures var rp := ResolvePath(rt, AttrPathText(p));
            && rp.Ok? && Sound(rt, rp.value) && rp.value.attr == Some(ResolveTarget(rt, p).value.0) && rp.value.sub.None?
            && LocOf(rp.value) == TargetLoc(rt, p)
  {
    hide ResolvePath, ResolveTarget, SeparateSchemas, FlatType, NamesValid, AttrPathText, SubPathText, Sound, Hidden;
    ResolversAgree(rt, p);
    NotHidden(rt, p);
    ResolvedSound(rt, AttrPathText(p));
    TargetName(rt, p);
  }

  // ----- Pathless members -----

  /** One member of a pathless value, at the location it writes. */
  lemma {:induction false} AttrKeepsIff(env: Env, w: Work, kind: OpKind, path: string, rp: Resolved, v: Value)
    requires Canonical(env.rt, w.doc) && ResolvePath(env.rt, path) == Ok(rp) && Sound(env.rt, rp) && rp.sub.None?
    requires kind.Add? || kind.Replace?
    ensures rp.attr.Some?
    ensures var r, l := PathlessAttr(env, w, kind, path, rp.attr.value, v), LocOf(rp);
            r.Ok? && Frozen(env.rt, w.doc, l) ==>
              (SameSlot(Slot(w.doc, l), Slot(r.value.doc, l)) <==> !NullScalar(rp.attr.value, kind, v))
  {
    hide Canonical, ResolvePath, Sound, Slot, SameSlot, CheckImmutableAttr, AddToAttribute, ReplaceAttribute, NullScalar, Declared, Get;
    SoundDeclared(env.rt, rp);
    var l := LocOf(rp);
    if Frozen(env.rt, w.doc, l) {
      ImmutableGet(env, w.doc, path, rp);
      if CheckImmutableAttr(env.lx, Slot(w.doc, l), rp.attr.value, kind, v).None? {
        GuardedWriteIff(env, w, kind, path, rp, v);
      }
    }
  }

  /** Some member of the extension object, among the keys to visit, nulls l. */
  predicate NullsIn(rt: ResourceType, kind: OpKind, urn: string, obj: Elem, keys: seq<string>, l: Loc)
    requires forall k <- keys :: k in obj
  {
    exists i :: 0 <= i < |keys| && NullMember(rt, kind, urn, keys[i], obj[keys[i]], l)
  }

  lemma {:induction false} NullsInStep(rt: ResourceType, kind: OpKind, urn: string, obj: Elem, keys: seq<string>, l: Loc)
    requires keys != [] && forall k <- keys :: k in obj
    ensures NullsIn(rt, kind, urn, obj, keys, l) <==>
            NullMember(rt, kind, urn, keys[0], obj[keys[0]], l) || NullsIn(rt, kind, urn, obj, keys[1..], l)
  {
    hide NullMember;
    if NullsIn(rt, kind, urn, obj, keys, l) {
      var i :| 0 <= i < |keys| && NullMember(rt, kind, urn, keys[i], obj[keys[i]], l);
      assert i > 0 ==> keys[1..][i - 1] == keys[i];
    } else {
      forall i | 0 <= i < |keys| - 1 ensures !NullMember(rt, kind, urn, keys[1..][i], obj[keys[1..][i]], l) {
        assert keys[1..][i] == keys[i + 1];
      }
    }
  }

  /** Members elsewhere do not null l. */
  lemma {:induction false} NullsElsewhere(rt: ResourceType, kind: OpKind, urn: string, obj: Elem, keys: seq<string>, l: Loc)
    requires forall k <- keys :: k in obj
    requires l.urn != urn || l.key !in FoldedNames(keys)
    ensures !NullsIn(rt, kind, urn, obj, keys, l)
  {
    hide FoldedNames;
    forall i | 0 <= i < |keys| ensures !NullMember(rt, kind, urn, keys[i], obj[keys[i]], l) {
      assert keys[i] in keys;
    }
  }

  lemma SameSlotVia(d: Doc, e: Doc, f: Doc, l: Loc)
    requires Slot(d, l) == Slot(e, l) || Slot(e, l) == Slot(f, l)
    ensures Slot(d, l) == Slot(e, l) ==> SameSlot(Slot(d, l), Slot(f, l)) == SameSlot(Slot(e, l), Slot(f, l))
    ensures Slot(e, l) == Slot(f, l) ==> SameSlot(Slot(d, l), Slot(f, l)) == SameSlot(Slot(d, l), Slot(e, l))
  {
  }

  lemma {:induction false} ExtensionKeepsIff(env: Env, w: Work, kind: OpKind, urn: string, ext: SchemaDef, obj: Elem, keys: seq<string>, l: Loc)
    requires Regular(env.rt) && Canonical(env.rt, w.doc) && FindSchema(env.rt.exts, urn) == Some(ext)
    requires (forall k <- keys :: k in obj) && DistinctFolds(keys) && Frozen(env.rt, w.doc, l) && l.urn == Fold(urn)
    requires kind.Add? || kind.Replace?
    ensures var r := PathlessExtension(env, w, kind, urn, ext.attrs, obj, keys);
            r.Ok? ==> (SameSlot(Slot(w.doc, l), Slot(r.value.doc, l)) <==> !NullsIn(env.rt, kind, Fold(urn), obj, keys, l))
    decreases |keys|
  {
    hide Regular, Canonical, Effect, PathlessAttr, DistinctFolds, FoldedNames, Sound, ResolvePath, LocOf, NullScalar, Slot, SameSlot, NullsIn, Declared, Get;
    SlotSelf(env.rt, w.doc, l);
    if keys == [] {
      NoneNulls(env.rt, kind, Fold(urn), obj, l);
    } else {
      DistinctTail(keys);
      NullsInStep(env.rt, kind, Fold(urn), obj, keys, l);
      var attr := FindAttribute(ext.attrs, keys[0]);
      var path := urn + ":" + keys[0];
      var r1 := if attr.None? then Ok(w) else PathlessAttr(env, w, kind, path, attr.value, obj[keys[0]]);
      if r1.Ok? {
        var rest := PathlessExtension(env, r1.value, kind, urn, ext.attrs, obj, keys[1..]);
        ExtensionStep(env, w, kind, urn, ext, keys[0], obj[keys[0]], l);
        if rest.Ok? {
          if l.key == Fold(keys[0]) {
            ExtensionEffect(env, r1.value, kind, urn, ext, obj, keys[1..]);
            NullsElsewhere(env.rt, kind, Fold(urn), obj, keys[1..], l);
            SlotOutside(env.rt, r1.value, rest.value, MemberLocs(Fold(urn), FoldedNames(keys[1..])), l);
            SameSlotVia(w.doc, r1.value.doc, rest.value.doc, l);
          } else {
            ExtensionKeepsIff(env, r1.value, kind, urn, ext, obj, keys[1..], l);
            SameSlotVia(w.doc, r1.value.doc, rest.value.doc, l);
          }
        }
      }
    }
  }

  lemma NoneNulls(rt: ResourceType, kind: OpKind, urn: string, obj: Elem, l: Loc)
    ensures !NullsIn(rt, kind, urn, obj, [], l)
  {
  }

  lemma SlotOutside(rt: ResourceType, w: Work, w': Work, ls: iset<Loc>, l: Loc)
    requires Effect(rt, w, w', ls) && l !in ls
    ensures Slot(w'.doc, l) == Slot(w.doc, l)
  {
  }

  /** One extension member: off l it leaves l alone, on l it keeps it unless it nulls it. */
  lemma {:induction false} ExtensionStep(env: Env, w: Work, kind: OpKind, urn: string, ext: SchemaDef, key: string, v: Value, l: Loc)
    requires Regular(env.rt) && Canonical(env.rt, w.doc) && FindSchema(env.rt.exts, urn) == Some(ext)
    requires Frozen(env.rt, w.doc, l) && l.urn == Fold(urn) && (kind.Add? || kind.Replace?)
    ensures var attr := FindAttribute(ext.attrs, key);
            var r := if attr.None? then Ok(w) else PathlessAttr(env, w, kind, urn + ":" + key, attr.value, v);
            r.Ok? ==>
              && Canonical(env.rt, r.value.doc)
              && (l.key != Fold(key) ==> Slot(r.value.doc, l) == Slot(w.doc, l) && !NullMember(env.rt, kind, Fold(urn), key, v, l))
              && (l.key == Fold(key) ==> (SameSlot(Slot(w.doc, l), Slot(r.value.doc, l)) <==> !NullMember(env.rt, kind, Fold(urn), key, v, l)))
  {
    hide Regular, Canonical, PathlessAttr, Sound, ResolvePath, NullScalar, Slot, SameSlot, Declared, Get;
    var attr := FindAttribute(ext.attrs, key);
    var path := urn + ":" + key;
    if attr.None? {
      UndeclaredMember(env.rt, urn, ext, key);
    } else {
      var r := PathlessAttr(env, w, kind, path, attr.value, v);
      if r.Ok? {
        ExtensionKeyResolves(env.rt, urn, ext, key);
        var rp := ResolvePath(env.rt, path).value;
        SoundDeclared(env.rt, rp);
        PathlessAttrWrites(env, w, kind, path, attr.value, v);
        WritesEffect(env, w, path, r, rp);
        AttrKeepsIff(env, w, kind, path, rp, v);
      }
    }
  }

  lemma {:induction false} UndeclaredMember(rt: ResourceType, urn: string, ext: SchemaDef, key: string)
    requires Regular(rt) && FindSchema(rt.exts, urn) == Some(ext) && FindAttribute(ext.attrs, key).None?
    ensures Declared(rt, Loc(Fold(urn), Fold(key))).None?
  {
    hide SeparateSchemas, NamesValid, FlatType;
    FoldIdempotent(key);
    FoldIdempotent(urn);
    FindByFold(ext.attrs, key, Fold(key));
    FindSchemaByFold(rt.exts, urn, Fold(urn));
    RegularParts(rt);
    UrnByFold(rt, ext, urn);
    assert |Fold(urn)| == |urn|;
  }

  /** NullsIn over the sorted keys of an object is NullMember of some member. */
  lemma {:induction false} NullsInAll(rt: ResourceType, kind: OpKind, urn: string, obj: Elem, l: Loc)
    ensures NullsIn(rt, kind, urn, obj, SortedKeys(obj.Keys), l) <==> exists k <- obj.Keys :: NullMember(rt, kind, urn, k, obj[k], l)
  {
    hide NullMember, SortedKeys;
    var keys := SortedKeys(obj.Keys);
    if NullsIn(rt, kind, urn, obj, keys, l) {
      var i :| 0 <= i < |keys| && NullMember(rt, kind, urn, keys[i], obj[keys[i]], l);
      assert keys[i] in keys;
    } else {
      forall k <- obj.Keys ensures !NullMember(rt, kind, urn, k, obj[k], l) {
        assert k in keys;
        var i :| 0 <= i < |keys| && keys[i] == k;
      }
    }
  }

  lemma {:induction false} KeyKeepsIff(env: Env, w: Work, kind: OpKind, key: string, v: Value, l: Loc)
    requires Regular(env.rt) && Canonical(env.rt, w.doc) && DistinctObject(v)
    requires Frozen(env.rt, w.doc, l) && (kind.Add? || kind.Replace?) && l in KeyLocs({Fold(key)})
    ensures var r := PathlessKey(env, w, kind, key, v);
            r.Ok? ==> (SameSlot(Slot(w.doc, l), Slot(r.value.doc, l)) <==> !NullKey(env.rt, kind, key, v, l))
  {
    hide Regular, Canonical, PathlessAttr, PathlessExtension, Sound, ResolvePath, NullMember, Slot, SameSlot, Declared, Get, DistinctFolds, FoldedNames, NullsIn, SortedKeys;
    SlotSelf(env.rt, w.doc, l);
    var r := PathlessKey(env, w, kind, key, v);
    if r.Ok? && Fold(key) != SCHEMAS && Fold(key) != META {
      if FindSchema(env.rt.exts, key).Some? {
        ExtensionKeyKeeps(env, w, kind, key, v, l);
      } else {
        PlainKeyKeeps(env, w, kind, key, v, l);
      }
    }
  }

  lemma {:induction false} ExtensionKeyKeeps(env: Env, w: Work, kind: OpKind, key: string, v: Value, l: Loc)
    requires Regular(env.rt) && Canonical(env.rt, w.doc) && v.Obj? && DistinctObject(v)
    requires Frozen(env.rt, w.doc, l) && (kind.Add? || kind.Replace?) && l in KeyLocs({Fold(key)})
    requires FindSchema(env.rt.exts, key).Some?
    ensures var r := PathlessExtension(env, w, kind, key, FindSchema(env.rt.exts, key).value.attrs, v.members, SortedKeys(v.members.Keys));
            r.Ok? ==> (SameSlot(Slot(w.doc, l), Slot(r.value.doc, l)) <==>
                       !exists k <- v.members.Keys :: NullMember(env.rt, kind, Fold(key), k, v.members[k], l))
  {
    hide Canonical, PathlessAttr, PathlessExtension, NullMember, Slot, SameSlot, Declared, DistinctFolds, FoldedNames, NullsIn, SortedKeys,
      SeparateSchemas, FlatType, NamesValid;
    var ext := FindSchema(env.rt.exts, key).value;
    var keys := SortedKeys(v.members.Keys);
    NullsInAll(env.rt, kind, Fold(key), v.members, l);
    var r := PathlessExtension(env, w, kind, key, ext.attrs, v.members, keys);
    if r.Ok? {
      if l.urn == Fold(key) {
        ExtensionKeepsIff(env, w, kind, key, ext, v.members, keys, l);
      } else {
        SlotSelf(env.rt, w.doc, l);
        ExtensionEffect(env, w, kind, key, ext, v.members, keys);
        SlotOutside(env.rt, w, r.value, MemberLocs(Fold(key), FoldedNames(keys)), l);
        NullsElsewhere(env.rt, kind, Fold(key), v.members, keys, l);
      }
    }
  }

  lemma {:induction false} PlainKeyKeeps(env: Env, w: Work, kind: OpKind, key: string, v: Value, l: Loc)
    requires Regular(env.rt) && Canonical(env.rt, w.doc)
    requires Frozen(env.rt, w.doc, l) && (kind.Add? || kind.Replace?) && l in KeyLocs({Fold(key)})
    requires FindSchema(env.rt.exts, key).None?
    ensures var attr := NamespaceAttr(env.rt, "", key);
            var r := if attr.None? then Ok(w) else PathlessAttr(env, w, kind, key, attr.value, v);
            r.Ok? ==> (SameSlot(Slot(w.doc, l), Slot(r.value.doc, l)) <==> !NullMember(env.rt, kind, "", key, v, l))
  {
    hide Canonical, Regular, PathlessAttr, Sound, ResolvePath, NullScalar, Slot, SameSlot, NamespaceAttr;
    SlotSelf(env.rt, w.doc, l);
    FrozenUrn(env.rt, w.doc, key, l);
    var attr := NamespaceAttr(env.rt, "", key);
    NamespaceByFold(env.rt, "", key, Fold(key));
    FoldIdempotent(key);
    NamespaceByFold(env.rt, "", key, Fold(Fold(key)));
    assert Fold("") == "";
    if attr.Some? && PathlessAttr(env, w, kind, key, attr.value, v).Ok? {
      var r := PathlessAttr(env, w, kind, key, attr.value, v);
      KeyResolves(env.rt, key);
      var rp := ResolvePath(env.rt, key).value;
      SoundDeclared(env.rt, rp);
      AttrKeepsIff(env, w, kind, key, rp, v);
    }
  }

  /** A location an undeclared URN would select holds nothing, so a frozen one under this key
      is the key's own attribute. */
  lemma {:induction false} FrozenUrn(rt: ResourceType, d: Doc, key: string, l: Loc)
    requires Frozen(rt, d, l) && l in KeyLocs({Fold(key)}) && FindSchema(rt.exts, key).None?
    ensures l == Loc("", Fold(key))
  {
    if l.urn != "" {
      FoldIdempotent(key);
      FindSchemaByFold(rt.exts, key, Fold(key));
    }
  }

  predicate NullsAt(rt: ResourceType, kind: OpKind, obj: Elem, keys: seq<string>, l: Loc)
    requires forall k <- keys :: k in obj
  {
    exists i :: 0 <= i < |keys| && NullKey(rt, kind, keys[i], obj[keys[i]], l)
  }

  lemma {:induction false} NullsAtStep(rt: ResourceType, kind: OpKind, obj: Elem, keys: seq<string>, l: Loc)
    requires keys != [] && forall k <- keys :: k in obj
    ensures NullsAt(rt, kind, obj, keys, l) <==>
            NullKey(rt, kind, keys[0], obj[keys[0]], l) || NullsAt(rt, kind, obj, keys[1..], l)
  {
    hide NullKey;
    if NullsAt(rt, kind, obj, keys, l) {
      var i :| 0 <= i < |keys| && NullKey(rt, kind, keys[i], obj[keys[i]], l);
      assert i > 0 ==> keys[1..][i - 1] == keys[i];
    } else {
      forall i | 0 <= i < |keys| - 1 ensures !NullKey(rt, kind, keys[1..][i], obj[keys[1..][i]], l) {
        assert keys[1..][i] == keys[i + 1];
      }
    }
  }

  lemma {:induction false} NullKeyHere(rt: ResourceType, kind: OpKind, key: string, v: Value, l: Loc)
    requires NullKey(rt, kind, key, v, l) && SeparateSchemas(rt)
    ensures l in KeyLocs({Fold(key)})
  {
    hide NullScalar, Declared, SeparateSchemas;
    if FindSchema(rt.exts, key).Some? {
      UrnByFold(rt, FindSchema(rt.exts, key).value, key);
      assert |Fold(key)| == |key|;
    }
  }

  lemma {:induction false} NullsAtElsewhere(rt: ResourceType, kind: OpKind, obj: Elem, keys: seq<string>, l: Loc)
    requires (forall k <- keys :: k in obj) && SeparateSchemas(rt) && l !in KeyLocs(FoldedNames(keys))
    ensures !NullsAt(rt, kind, obj, keys, l)
  {
    hide NullKey, SeparateSchemas, FoldedNames;
    forall i | 0 <= i < |keys| ensures !NullKey(rt, kind, keys[i], obj[keys[i]], l) {
      assert keys[i] in keys;
      if NullKey(rt, kind, keys[i], obj[keys[i]], l) {
        NullKeyHere(rt, kind, keys[i], obj[keys[i]], l);
      }
    }
  }

  lemma NoneNullsAt(rt: ResourceType, kind: OpKind, obj: Elem, l: Loc)
    ensures !NullsAt(rt, kind, obj, [], l)
  {
  }

  lemma {:induction false} KeysKeepIff(env: Env, w: Work, kind: OpKind, obj: Elem, keys: seq<string>, l: Loc)
    requires Regular(env.rt) && Canonical(env.rt, w.doc) && DistinctMembers(obj, keys)
    requires Frozen(env.rt, w.doc, l) && (kind.Add? || kind.Replace?)
    ensures var r := PathlessKeys(env, w, kind, obj, keys);
            r.Ok? ==> (SameSlot(Slot(w.doc, l), Slot(r.value.doc, l)) <==> !NullsAt(env.rt, kind, obj, keys, l))
    decreases |keys|
  {
    hide Regular, Canonical, Effect, PathlessKey, DistinctFolds, FoldedNames, DistinctObject, NullKey, NullsAt, Slot, SameSlot, Declared;
    SlotSelf(env.rt, w.doc, l);
    RegularParts(env.rt);
    if keys == [] {
      NoneNullsAt(env.rt, kind, obj, l);
    } else {
      DistinctTail(keys);
      NullsAtStep(env.rt, kind, obj, keys, l);
      var r1 := PathlessKey(env, w, kind, keys[0], obj[keys[0]]);
      var here, there := KeyLocs({Fold(keys[0])}), KeyLocs(FoldedNames(keys[1..]));
      KeyEffect(env, w, kind, keys[0], obj[keys[0]]);
      var r := PathlessKeys(env, w, kind, obj, keys);
      if r.Ok? {
        EffectCanonical(env.rt, w, r1.value, here);
        if l in here {
          KeyKeepsIff(env, w, kind, keys[0], obj[keys[0]], l);
          KeysEffect(env, r1.value, kind, obj, keys[1..]);
          SlotOutside(env.rt, r1.value, r.value, there, l);
          NullsAtElsewhere(env.rt, kind, obj, keys[1..], l);
        } else {
          SlotOutside(env.rt, w, r1.value, here, l);
          KeysKeepIff(env, r1.value, kind, obj, keys[1..], l);
          NullKeyElsewhere(env.rt, kind, keys[0], obj[keys[0]], l);
        }
        SameSlotVia(w.doc, r1.value.doc, r.value.doc, l);
      }
    }
  }

  lemma {:induction false} NullKeyElsewhere(rt: ResourceType, kind: OpKind, key: string, v: Value, l: Loc)
    requires SeparateSchemas(rt) && l !in KeyLocs({Fold(key)})
    ensures !NullKey(rt, kind, key, v, l)
  {
    hide NullKey, SeparateSchemas;
    if NullKey(rt, kind, key, v, l) { NullKeyHere(rt, kind, key, v, l); }
  }

  lemma {:induction false} NullsAtAll(rt: ResourceType, kind: OpKind, obj: Elem, l: Loc)
    ensures NullsAt(rt, kind, obj, SortedKeys(obj.Keys), l) <==> exists k <- obj.Keys :: NullKey(rt, kind, k, obj[k], l)
  {
    hide NullKey, SortedKeys;
    var keys := SortedKeys(obj.Keys);
    if NullsAt(rt, kind, obj, keys, l) {
      var i :| 0 <= i < |keys| && NullKey(rt, kind, keys[i], obj[keys[i]], l);
      assert keys[i] in keys;
    } else {
      forall k <- obj.Keys ensures !NullKey(rt, kind, k, obj[k], l) {
        assert k in keys;
        var i :| 0 <= i < |keys| && keys[i] == k;
      }
    }
  }

  // ----- The guarantees -----

  /** An accepted operation leaves an assigned immutable attribute equal exactly when it does
      not null it: the one modification the guards let through is the null member of a
      pathless add (or a null pathed add) on a single-valued attribute that is not complex. */
  lemma {:induction false} ImmutableKeptIff(env: Env, w: Work, op: Op, l: Loc)
    requires Regular(env.rt) && Canonical(env.rt, w.doc) && GoodOp(op) && Frozen(env.rt, w.doc, l)
    ensures var r := ApplyOp(env, w, op);
            r.Ok? ==> (SameSlot(Slot(w.doc, l), Slot(r.value.doc, l)) <==> !Nulls(env.rt, op, l))
  {
    hide Regular, Canonical, ParsedPath, Pathed, PathlessKeys, DistinctMembers, TargetLoc, Slot, SameSlot, Frozen, NullKey, NullScalar, NullsAt, SortedKeys, Declared;
    if op.kind.Unknown? {
    } else if op.path.Some? {
      PathedKeepsIff(env, w, op, op.path.value, l);
    } else if op.value.Obj? && !op.kind.Remove? {
      KeysKeepIff(env, w, op.kind, op.value.members, SortedKeys(op.value.members.Keys), l);
      NullsAtAll(env.rt, op.kind, op.value.members, l);
    }
  }

  lemma FrozenStays(rt: ResourceType, d: Doc, e: Doc, l: Loc)
    requires Frozen(rt, d, l) && SameSlot(Slot(d, l), Slot(e, l))
    ensures Frozen(rt, e, l)
  {
  }

  /** Once assigned, an immutable attribute stays equal through every accepted sequence of
      operations none of which nulls it. */
  lemma {:induction false} ImmutableKept(env: Env, w: Work, ops: seq<Op>, l: Loc)
    requires Regular(env.rt) && Canonical(env.rt, w.doc) && Frozen(env.rt, w.doc, l)
    requires forall op <- ops :: GoodOp(op) && !Nulls(env.rt, op, l)
    ensures var r := ApplyOps(env, w, ops);
            r.Ok? ==> SameSlot(Slot(w.doc, l), Slot(r.value.doc, l))
    decreases |ops|
  {
    hide Regular, Canonical, GoodOp, ApplyOp, Slot, SameSlot, Frozen, Nulls, SameDoc;
    if ops == [] {
      SlotSelf(env.rt, w.doc, l);
    } else {
      assert ops[0] in ops;
      var r1 := ApplyOp(env, w, ops[0]);
      if r1.Ok? {
        OpEffect(env, w, ops[0]);
        ImmutableKeptIff(env, w, ops[0], l);
        FrozenStays(env.rt, w.doc, r1.value.doc, l);
        ImmutableKept(env, r1.value, ops[1..], l);
        var r := ApplyOps(env, r1.value, ops[1..]);
        if r.Ok? { SameSlotTrans(Slot(w.doc, l), Slot(r1.value.doc, l), Slot(r.value.doc, l)); }
      }
    }
  }

  // ----- readOnly attributes and metadata -----

  predicate Shielded(rt: ResourceType, l: Loc) {
    Declared(rt, l).Some? && Declared(rt, l).value.access == ReadOnly
  }

  /** The document stays canonical, with the same metadata and, where l is readOnly, the same value at l. */
  predicate Keeps(rt: ResourceType, w: Work, w': Work, l: Loc) {
    Canonical(rt, w'.doc) && w'.doc.meta == w.doc.meta && (Shielded(rt, l) ==> Slot(w'.doc, l) == Slot(w.doc, l))
  }

  lemma {:induction false} AttrKeepsShielded(env: Env, w: Work, kind: OpKind, path: string, v: Value, l: Loc)
    requires Canonical(env.rt, w.doc)
    requires ResolvePath(env.rt, path).Ok? && Sound(env.rt, ResolvePath(env.rt, path).value)
    ensures var rp := ResolvePath(env.rt, path).value;
            rp.attr.Some? &&
            var r := PathlessAttr(env, w, kind, path, rp.attr.value, v);
            r.Ok? ==> Keeps(env.rt, w, r.value, l)
  {
    hide Canonical, PathlessAttr, Sound, ResolvePath, Slot, Declared, SameDoc, LocOf;
    var rp := ResolvePath(env.rt, path).value;
    SoundDeclared(env.rt, rp);
    var r := PathlessAttr(env, w, kind, path, rp.attr.value, v);
    if r.Ok? {
      PathlessAttrWrites(env, w, kind, path, rp.attr.value, v);
      WritesEffect(env, w, path, r, rp);
    }
  }

  lemma {:induction false} ExtensionKeepsShielded(env: Env, w: Work, kind: OpKind, urn: string, ext: SchemaDef, obj: Elem, keys: seq<string>, l: Loc)
    requires Regular(env.rt) && Canonical(env.rt, w.doc) && FindSchema(env.rt.exts, urn) == Some(ext)
    requires forall k <- keys :: k in obj
    ensures var r := PathlessExtension(env, w, kind, urn, ext.attrs, obj, keys);
            r.Ok? ==> Keeps(env.rt, w, r.value, l)
    decreases |keys|
  {
    hide Regular, Canonical, PathlessAttr, Sound, ResolvePath, Slot, Shielded;
    if keys != [] {
      var attr := FindAttribute(ext.attrs, keys[0]);
      var path := urn + ":" + keys[0];
      var r1 := if attr.None? then Ok(w) else PathlessAttr(env, w, kind, path, attr.value, obj[keys[0]]);
      if r1.Ok? {
        if attr.Some? {
          ExtensionKeyResolves(env.rt, urn, ext, keys[0]);
          AttrKeepsShielded(env, w, kind, path, obj[keys[0]], l);
        }
        ExtensionKeepsShielded(env, r1.value, kind, urn, ext, obj, keys[1..], l);
      }
    }
  }

  lemma {:induction false} KeyKeepsShielded(env: Env, w: Work, kind: OpKind, key: string, v: Value, l: Loc)
    requires Regular(env.rt) && Canonical(env.rt, w.doc)
    ensures var r := PathlessKey(env, w, kind, key, v); r.Ok? ==> Keeps(env.rt, w, r.value, l)
  {
    hide Regular, Canonical, PathlessAttr, PathlessExtension, Sound, ResolvePath, Slot, Shielded, NamespaceAttr, SortedKeys;
    var ext := FindSchema(env.rt.exts, key);
    if ext.Some? && v.Obj? {
      ExtensionKeepsShielded(env, w, kind, key, ext.value, v.members, SortedKeys(v.members.Keys), l);
    } else if ext.None? && NamespaceAttr(env.rt, "", key).Some? {
      KeyResolves(env.rt, key);
      AttrKeepsShielded(env, w, kind, key, v, l);
    }
  }

  lemma {:induction false} KeysKeepShielded(env: Env, w: Work, kind: OpKind, obj: Elem, keys: seq<string>, l: Loc)
    requires Regular(env.rt) && Canonical(env.rt, w.doc) && forall k <- keys :: k in obj
    ensures var r := PathlessKeys(env, w, kind, obj, keys); r.Ok? ==> Keeps(env.rt, w, r.value, l)
    decreases |keys|
  {
    hide Regular, Canonical, PathlessKey, Slot, Shielded;
    if keys != [] {
      KeyKeepsShielded(env, w, kind, keys[0], obj[keys[0]], l);
      var r1 := PathlessKey(env, w, kind, keys[0], obj[keys[0]]);
      if r1.Ok? { KeysKeepShielded(env, r1.value, kind, obj, keys[1..], l); }
    }
  }

  lemma {:induction false} OpKeepsShielded(env: Env, w: Work, op: Op, l: Loc)
    requires Regular(env.rt) && Canonical(env.rt, w.doc) && ParsedOp(op)
    ensures var r := ApplyOp(env, w, op); r.Ok? ==> Keeps(env.rt, w, r.value, l)
  {
    hide Regular, Canonical, ParsedPath, Pathed, PathlessKeys, Slot, TargetLoc, SameDoc, SortedKeys;
    if op.path.Some? {
      PathedEffect(env, w, op, op.path.value);
    } else if op.value.Obj? {
      KeysKeepShielded(env, w, op.kind, op.value.members, SortedKeys(op.value.members.Keys), l);
    }
  }

  /** No accepted sequence of operations, pathed, pathless or extension-keyed, under any
      profile, changes a readOnly attribute or the metadata; every value stays canonical. */
  lemma {:induction false} ReadOnlyKept(env: Env, w: Work, ops: seq<Op>, l: Loc)
    requires Regular(env.rt) && Canonical(env.rt, w.doc) && forall op <- ops :: ParsedOp(op)
    ensures var r := ApplyOps(env, w, ops); r.Ok? ==> Keeps(env.rt, w, r.value, l)
    decreases |ops|
  {
    hide Regular, Canonical, ParsedOp, ApplyOp, Slot, Shielded;
    if ops != [] {
      assert ops[0] in ops;
      OpKeepsShielded(env, w, ops[0], l);
      var r1 := ApplyOp(env, w, ops[0]);
      if r1.Ok? { ReadOnlyKept(env, r1.value, ops[1..], l); }
    }
  }

  /** Apply keeps canonical documents canonical, so in particular no attribute ever ends up
      with two primary elements, and the metadata is carried over. */
  lemma {:induction false} ApplyCanonical(env: Env, d: Doc, ops: seq<Op>)
    requires Regular(env.rt) && Canonical(env.rt, d) && forall op <- ops :: ParsedOp(op)
    ensures var r := Apply(env, d, ops); r.Ok? ==> Canonical(env.rt, r.value.doc) && r.value.doc.meta == d.meta
  {
    hide Regular, Canonical, ParsedOp, ApplyOps, Slot;
    ReadOnlyKept(env, Work(d, false), ops, Loc("", META));
  }
}
