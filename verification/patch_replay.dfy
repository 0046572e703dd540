/** Sending a pathless add again (addPathless in patch/apply_add.go). What an attribute holds once
    the add was accepted is something the same add leaves alone, so a whole object sent twice
    changes nothing the second time. */
module PatchReplay {
  import opened Text
  import opened Schema
  import opened Values
  import opened Documents
  import opened DocumentFacts
  import opened Paths
  import opened PatchRules
  import opened PatchSpec
  import opened PatchFacts
  import opened PatchGuards
  import opened PatchElements
  import opened PatchSelected
  import opened PatchSynthesis
  import opened PatchTables
  import opened Ordering

  // ----- One attribute -----

  /** The write an add makes leaves the attribute, which holds y, as it is. */
  predicate Rests(lx: Lexicon, attr: Attribute, v: Value, y: Option<Value>) {
    var c := Coerce(lx, attr, if attr.multi then Wrapped(v) else v);
    c.Ok? &&
    if attr.multi then c.value.Nil? || (y.Some? && !AppendNew(y.value, c.value).1)
    else if attr.typ == TComplex then
      c.value.Nil? || (c.value.Cplx? && y.Some? && y.value.Cplx? && y.value.elem + c.value.elem == y.value.elem && Coerce(lx, attr, y.value) == Ok(y.value))
    else y == if c.value.Nil? then None else Some(c.value)
  }

  /** The guard lets the same value through again: only bare elements of an immutable list are
      turned away. */
  predicate Again(lx: Lexicon, attr: Attribute, v: Value) {
    attr.multi && attr.access != ReadOnly ==> Repeatable(lx, attr, v)
  }

  /** Once the value was added, adding it again leaves what the attribute holds, or the guard
      refuses it. */
  predicate Settled(lx: Lexicon, attr: Attribute, v: Value, y: Option<Value>) {
    attr.access == ReadOnly ||
    (Rests(lx, attr, v, y) &&
     (attr.access == Immutable ==> CheckImmutableAttr(lx, y, attr, Add, v) == if Again(lx, attr, v) then None else Some(InvalidValue)))
  }

  /** The path of a member names the attribute it is for. */
  ghost predicate Names(rt: ResourceType, path: string, attr: Attribute, rp: Resolved) {
    ResolvePath(rt, path) == Ok(rp) && Sound(rt, rp) && rp.sub.None? && rp.attr == Some(attr) && Settable(rp)
  }

  /** The attribute rests with what an accepted add has left. */
  lemma {:induction false} AddRests(env: Env, w: Work, path: string, attr: Attribute, v: Value, rp: Resolved)
    requires Canonical(env.rt, w.doc) && Names(env.rt, path, attr, rp)
    ensures var r := AddToAttribute(env, w, path, attr, v);
            r.Ok? ==> Rests(env.lx, attr, v, Slot(r.value.doc, LocOf(rp)))
  {
    hide Canonical, ResolvePath, Sound, AddMulti, MergeComplex, SetTracked, Slot, LocOf, Coerce, Settable;
    if attr.multi {
      MultiRests(env, w, path, attr, v, rp);
    } else if attr.typ == TComplex {
      ComplexRests(env, w, path, attr, v, rp);
    } else if SetTracked(env, w, path, v).Ok? {
      TrackedSlot(env, w, path, v, rp);
    }
  }

  lemma {:induction false} MultiRests(env: Env, w: Work, path: string, attr: Attribute, v: Value, rp: Resolved)
    requires Canonical(env.rt, w.doc) && Names(env.rt, path, attr, rp) && attr.multi
    ensures var r := AddMulti(env, w, path, attr, v);
            r.Ok? ==> Rests(env.lx, attr, v, Slot(r.value.doc, LocOf(rp)))
  {
    hide Canonical, ResolvePath, Sound, SetTracked, Slot, LocOf, Coerce, Settable, Get, AppendNew, Stored, Wrapped, GetResolved;
    var r, c := AddMulti(env, w, path, attr, v), Coerce(env.lx, attr, Wrapped(v));
    if r.Ok? && !c.value.Nil? {
      CoerceStored(env.lx, attr, Wrapped(v));
      var existing := Get(env.rt, w.doc, path);
      ShownSlot(env.rt, w.doc, path, attr, rp);
      if existing.None? {
        TrackedStored(env, w, path, c.value, rp);
        AppendNewTwice(attr, c.value, c.value);
      } else if AppendNew(existing.value, c.value).1 {
        ExistingStored(env, w, path, rp, c.value);
        AppendNewStored(attr, existing.value, c.value);
        TrackedStored(env, w, path, AppendNew(existing.value, c.value).0, rp);
        AppendNewTwice(attr, existing.value, c.value);
      }
    }
  }

  /** Get shows what the location holds. */
  lemma {:induction false} ShownSlot(rt: ResourceType, d: Doc, path: string, attr: Attribute, rp: Resolved)
    requires Names(rt, path, attr, rp)
    ensures Get(rt, d, path) == Slot(d, LocOf(rp))
  {
    hide ResolvePath, Sound, Slot, LocOf, Settable, GetResolved;
    GetSlot(rt, d, rp);
  }

  lemma {:induction false} ComplexRests(env: Env, w: Work, path: string, attr: Attribute, v: Value, rp: Resolved)
    requires Canonical(env.rt, w.doc) && Names(env.rt, path, attr, rp) && !attr.multi && attr.typ == TComplex
    ensures var r := MergeComplex(env, w, path, attr, v);
            r.Ok? ==> Rests(env.lx, attr, v, Slot(r.value.doc, LocOf(rp)))
  {
    hide Canonical, ResolvePath, Sound, SetTracked, Slot, LocOf, Coerce, Settable, Get, Stored;
    var r, c := MergeComplex(env, w, path, attr, v), Coerce(env.lx, attr, v);
    if r.Ok? && !c.value.Nil? {
      CoerceStored(env.lx, attr, v);
      StoredSingle(attr, c.value);
      ShownSlot(env.rt, w.doc, path, attr, rp);
      var existing := Slot(w.doc, LocOf(rp));
      var next := c.value;
      if existing.Some? {
        SlotStoredAt(env.rt, w.doc, rp);
        StoredSingle(attr, existing.value);
        next := Cplx(existing.value.elem + c.value.elem);
        MergedStored(attr, existing.value.elem, c.value.elem);
      }
      assert r == SetTracked(env, w, path, next);
      TrackedSlot(env, w, path, next, rp);
      CoerceFixedIff(env.lx, attr, next);
      StoredValueNotNil(attr, next);
      assert next.elem + c.value.elem == next.elem;
    }
  }

  /** An attribute that rests is left alone. */
  lemma {:induction false} RestsKept(env: Env, w: Work, path: string, attr: Attribute, v: Value, rp: Resolved)
    requires Canonical(env.rt, w.doc) && Names(env.rt, path, attr, rp) && Rests(env.lx, attr, v, Slot(w.doc, LocOf(rp)))
    ensures AddToAttribute(env, w, path, attr, v) == Ok(w)
  {
    hide Canonical, ResolvePath, Sound, SetTracked, Slot, LocOf, Coerce, Settable, Get, AppendNew, Wrapped;
    ShownSlot(env.rt, w.doc, path, attr, rp);
    if !attr.multi {
      var y := Slot(w.doc, LocOf(rp));
      if attr.typ == TComplex {
        if !Coerce(env.lx, attr, v).value.Nil? { TrackedSame(env, w, path, y.value, rp); }
      } else if y.Some? {
        TrackedSame(env, w, path, v, rp);
      } else {
        TrackedNone(env, w, path, v, rp);
      }
    }
  }

  /** Writing nothing where nothing is. */
  lemma {:induction false} TrackedNone(env: Env, w: Work, path: string, v: Value, rp: Resolved)
    requires Canonical(env.rt, w.doc) && ResolvePath(env.rt, path) == Ok(rp) && Sound(env.rt, rp) && rp.sub.None? && Settable(rp)
    requires Slot(w.doc, LocOf(rp)).None? && Coerce(env.lx, rp.attr.value, v) == Ok(Nil)
    ensures SetTracked(env, w, path, v) == Ok(w)
  {
    hide ResolvePath, Coerce, Stored, Declared, ValuesEqual, GetOrNil, CanonicalSlot;
    SlotAt(env.rt, w.doc, rp);
    var key, held := Fold(rp.attr.value.name), Container(w.doc, rp);
    var c: Elem := if held.None? then map[] else held.value;
    assert key !in c && c - {key} == c;
    if rp.urn != "" { NoneCommitted(w.doc.exts, Fold(rp.urn), c); }
    assert SetResolved(env.lx, w.doc, rp, v) == Ok(w.doc);
    EqualSelfGot(env, w.doc, path, rp);
  }

  lemma {:induction false} NoneCommitted(exts: map<string, Elem>, u: string, c: Elem)
    requires if u in exts then exts[u] == c && c != map[] else c == map[]
    ensures Commit(exts, u, c) == exts
  {
    if u in exts { assert exts[u := c] == exts; } else { assert exts - {u} == exts; }
  }

  /** The guard on an immutable attribute, met again. */
  lemma {:induction false} GuardRests(env: Env, w: Work, path: string, attr: Attribute, v: Value, rp: Resolved)
    requires Canonical(env.rt, w.doc) && Names(env.rt, path, attr, rp) && attr.access == Immutable
    requires CheckImmutableAttr(env.lx, Get(env.rt, w.doc, path), attr, Add, v).None?
    ensures var r := AddToAttribute(env, w, path, attr, v);
            r.Ok? ==> CheckImmutableAttr(env.lx, Slot(r.value.doc, LocOf(rp)), attr, Add, v) == if Again(env.lx, attr, v) then None else Some(InvalidValue)
  {
    hide Canonical, ResolvePath, Sound, AddMulti, MergeComplex, SetTracked, Slot, LocOf, Coerce, Settable, Get, CheckImmutableAttr, Rests;
    var r := AddToAttribute(env, w, path, attr, v);
    if r.Ok? {
      ShownSlot(env.rt, r.value.doc, path, attr, rp);
      if attr.multi {
        GuardAgain(env, w, path, v, rp);
      } else {
        AddRests(env, w, path, attr, v, rp);
        AddCanonical(env, w, path, attr, v, rp);
        SlotSelf(env.rt, r.value.doc, LocOf(rp));
        SingleGuard(env.lx, attr, v, Slot(r.value.doc, LocOf(rp)));
      }
    }
  }

  lemma {:induction false} AddCanonical(env: Env, w: Work, path: string, attr: Attribute, v: Value, rp: Resolved)
    requires Canonical(env.rt, w.doc) && Names(env.rt, path, attr, rp)
    ensures var r := AddToAttribute(env, w, path, attr, v); r.Ok? ==> Canonical(env.rt, r.value.doc)
  {
    hide Canonical, ResolvePath, Sound, AddToAttribute, LocOf, Settable, SameDoc, Slot;
    AddWrites(env, w, path, attr, v);
    var r := AddToAttribute(env, w, path, attr, v);
    if r.Ok? { WritesEffect(env, w, path, r, rp); }
  }

  /** A single value that rests passes the guard. */
  lemma {:induction false} SingleGuard(lx: Lexicon, attr: Attribute, v: Value, y: Option<Value>)
    requires !attr.multi && Rests(lx, attr, v, y) && SameSlot(y, y)
    ensures CheckImmutableAttr(lx, y, attr, Add, v).None?
  {
    hide Coerce, ValuesEqual;
  }

  lemma {:induction false} SettledAfter(env: Env, w: Work, path: string, attr: Attribute, v: Value, rp: Resolved)
    requires Canonical(env.rt, w.doc) && Names(env.rt, path, attr, rp)
    ensures var r := PathlessAttr(env, w, Add, path, attr, v);
            r.Ok? ==> Settled(env.lx, attr, v, Slot(r.value.doc, LocOf(rp)))
  {
    hide Canonical, Names, AddToAttribute, LocOf, Slot, Rests, Again, Get, CheckImmutableAttr;
    if attr.access != ReadOnly && PathlessAttr(env, w, Add, path, attr, v).Ok? {
      AddRests(env, w, path, attr, v, rp);
      if attr.access == Immutable { GuardRests(env, w, path, attr, v, rp); }
    }
  }

  /** A settled attribute is left alone, or its guard refuses the value. */
  lemma {:induction false} SettledKept(env: Env, w: Work, path: string, attr: Attribute, v: Value, rp: Resolved)
    requires Canonical(env.rt, w.doc) && Names(env.rt, path, attr, rp) && Settled(env.lx, attr, v, Slot(w.doc, LocOf(rp)))
    ensures PathlessAttr(env, w, Add, path, attr, v) == if Again(env.lx, attr, v) then Ok(w) else Err(InvalidValue)
  {
    hide Canonical, Names, AddToAttribute, LocOf, Slot, Rests, Repeatable, Get, CheckImmutableAttr;
    if attr.access != ReadOnly {
      ShownSlot(env.rt, w.doc, path, attr, rp);
      RestsKept(env, w, path, attr, v, rp);
      RepeatableMutable(env.lx, attr, v);
    }
  }

  // ----- An extension object -----

  predicate MemberSettled(lx: Lexicon, d: Doc, urn: string, attrs: seq<Attribute>, k: string, v: Value) {
    var attr := FindAttribute(attrs, k);
    attr.Some? ==> Settled(lx, attr.value, v, Slot(d, Loc(urn, Fold(k))))
  }

  predicate MemberAgain(lx: Lexicon, attrs: seq<Attribute>, k: string, v: Value) {
    var attr := FindAttribute(attrs, k);
    attr.Some? ==> Again(lx, attr.value, v)
  }

  /** The path of a member of an extension object. */
  lemma {:induction false} ExtensionNames(rt: ResourceType, urn: string, ext: SchemaDef, key: string)
    requires Regular(rt) && FindSchema(rt.exts, urn) == Some(ext) && FindAttribute(ext.attrs, key).Some?
    ensures var rp := ResolvePath(rt, urn + ":" + key);
            rp.Ok? && Names(rt, urn + ":" + key, FindAttribute(ext.attrs, key).value, rp.value) && LocOf(rp.value) == Loc(Fold(urn), Fold(key))
  {
    hide ResolvePath, Sound, FlatType, NamesValid, SeparateSchemas, LocOf;
    ExtensionKeyResolves(rt, urn, ext, key);
    UrnByFold(rt, ext, urn);
    FoldNotEmpty(urn);
    CoreAt(rt, ResolvePath(rt, urn + ":" + key).value);
  }

  lemma FoldNotEmpty(s: string)
    ensures s != "" ==> Fold(s) != ""
  {
    assert |Fold(s)| == |s|;
  }

  lemma {:induction false} CoreAt(rt: ResourceType, rp: Resolved)
    requires Sound(rt, rp)
    ensures rp.attr.Some? && (LocOf(rp).urn != "" ==> Settable(rp))
  {
    assert Fold("") == "";
  }

  lemma {:induction false} ExtensionSettles(env: Env, w: Work, urn: string, ext: SchemaDef, obj: Elem, keys: seq<string>)
    requires Regular(env.rt) && Canonical(env.rt, w.doc) && FindSchema(env.rt.exts, urn) == Some(ext)
    requires (forall k <- keys :: k in obj) && DistinctFolds(keys)
    ensures var r := PathlessExtension(env, w, Add, urn, ext.attrs, obj, keys);
            r.Ok? ==> forall k <- keys :: MemberSettled(env.lx, r.value.doc, Fold(urn), ext.attrs, k, obj[k])
    decreases |keys|
  {
    hide Regular, Canonical, PathlessAttr, DistinctFolds, FoldedNames, Settled, Names, Slot, Effect;
    var r := PathlessExtension(env, w, Add, urn, ext.attrs, obj, keys);
    if keys != [] && r.Ok? {
      DistinctTail(keys);
      var k := keys[0];
      var attr := FindAttribute(ext.attrs, k);
      var r1 := if attr.None? then Ok(w) else PathlessAttr(env, w, Add, urn + ":" + k, attr.value, obj[k]);
      FirstMember(env, w, urn, ext, k, obj[k]);
      ExtensionSettles(env, r1.value, urn, ext, obj, keys[1..]);
      ExtensionEffect(env, r1.value, Add, urn, ext, obj, keys[1..]);
      EffectSlot(env.rt, r1.value, r.value, MemberLocs(Fold(urn), FoldedNames(keys[1..])), Loc(Fold(urn), Fold(k)));
      assert forall x <- keys :: x == k || x in keys[1..];
    }
  }

  lemma EffectSlot(rt: ResourceType, w: Work, w': Work, ls: iset<Loc>, l: Loc)
    requires Effect(rt, w, w', ls) && l !in ls
    ensures Slot(w'.doc, l) == Slot(w.doc, l)
  {
  }

  /** One member of an extension object. */
  lemma {:induction false} FirstMember(env: Env, w: Work, urn: string, ext: SchemaDef, k: string, v: Value)
    requires Regular(env.rt) && Canonical(env.rt, w.doc) && FindSchema(env.rt.exts, urn) == Some(ext)
    ensures var attr := FindAttribute(ext.attrs, k);
            var r := if attr.None? then Ok(w) else PathlessAttr(env, w, Add, urn + ":" + k, attr.value, v);
            r.Ok? ==> Canonical(env.rt, r.value.doc) && MemberSettled(env.lx, r.value.doc, Fold(urn), ext.attrs, k, v)
  {
    hide Regular, Canonical, PathlessAttr, Settled, Slot, LocOf, ResolvePath, Sound, Settable, Effect;
    var attr := FindAttribute(ext.attrs, k);
    if attr.Some? && PathlessAttr(env, w, Add, urn + ":" + k, attr.value, v).Ok? {
      ExtensionNames(env.rt, urn, ext, k);
      var rp := ResolvePath(env.rt, urn + ":" + k).value;
      SettledAfter(env, w, urn + ":" + k, attr.value, v, rp);
      AttrCanonical(env, w, Add, urn + ":" + k, attr.value, v, rp);
    }
  }

  lemma {:induction false} AttrCanonical(env: Env, w: Work, kind: OpKind, path: string, attr: Attribute, v: Value, rp: Resolved)
    requires Canonical(env.rt, w.doc) && Names(env.rt, path, attr, rp)
    ensures var r := PathlessAttr(env, w, kind, path, attr, v); r.Ok? ==> Canonical(env.rt, r.value.doc)
  {
    hide Canonical, ResolvePath, Sound, PathlessAttr, LocOf, Settable, SameDoc, Slot;
    PathlessAttrWrites(env, w, kind, path, attr, v);
    var r := PathlessAttr(env, w, kind, path, attr, v);
    if r.Ok? { WritesEffect(env, w, path, r, rp); }
  }

  lemma {:induction false} ExtensionKept(env: Env, w: Work, urn: string, ext: SchemaDef, obj: Elem, keys: seq<string>)
    requires Regular(env.rt) && Canonical(env.rt, w.doc) && FindSchema(env.rt.exts, urn) == Some(ext)
    requires forall k <- keys :: k in obj && MemberSettled(env.lx, w.doc, Fold(urn), ext.attrs, k, obj[k])
    ensures PathlessExtension(env, w, Add, urn, ext.attrs, obj, keys) ==
            if forall k <- keys :: MemberAgain(env.lx, ext.attrs, k, obj[k]) then Ok(w) else Err(InvalidValue)
    decreases |keys|
  {
    hide Regular, Canonical, PathlessAttr, Settled, Names, Slot, Again, LocOf;
    if keys != [] {
      var k := keys[0];
      var attr := FindAttribute(ext.attrs, k);
      if attr.Some? {
        ExtensionNames(env.rt, urn, ext, k);
        SettledKept(env, w, urn + ":" + k, attr.value, obj[k], ResolvePath(env.rt, urn + ":" + k).value);
      }
      ExtensionKept(env, w, urn, ext, obj, keys[1..]);
      assert forall x <- keys :: x == k || x in keys[1..];
    }
  }

  // ----- A whole object -----

  /** The member of a pathless value is settled. */
  predicate KeySettled(env: Env, d: Doc, key: string, v: Value) {
    Fold(key) == SCHEMAS || Fold(key) == META ||
    var ext := FindSchema(env.rt.exts, key);
    if ext.Some? then v.Obj? && forall k <- v.members.Keys :: MemberSettled(env.lx, d, Fold(key), ext.value.attrs, k, v.members[k])
    else
      var attr := NamespaceAttr(env.rt, "", key);
      attr.Some? ==> Settled(env.lx, attr.value, v, Slot(d, Loc("", Fold(key))))
  }

  /** No member asks an immutable list for a bare element again. */
  predicate KeyAgain(env: Env, key: string, v: Value) {
    Fold(key) == SCHEMAS || Fold(key) == META ||
    var ext := FindSchema(env.rt.exts, key);
    if ext.Some? then v.Obj? ==> forall k <- v.members.Keys :: MemberAgain(env.lx, ext.value.attrs, k, v.members[k])
    else
      var attr := NamespaceAttr(env.rt, "", key);
      attr.Some? ==> Again(env.lx, attr.value, v)
  }

  lemma {:induction false} CoreNames(rt: ResourceType, key: string)
    requires Regular(rt) && NamespaceAttr(rt, "", key).Some? && Fold(key) != SCHEMAS && Fold(key) != META
    ensures var rp := ResolvePath(rt, key);
            rp.Ok? && Names(rt, key, NamespaceAttr(rt, "", key).value, rp.value) && LocOf(rp.value) == Loc("", Fold(key))
  {
    hide Regular, ResolvePath, Sound;
    KeyResolves(rt, key);
    SoundParts(rt, ResolvePath(rt, key).value);
  }

  lemma SoundParts(rt: ResourceType, rp: Resolved)
    requires Sound(rt, rp)
    ensures rp.attr.Some?
  {
  }

  lemma {:induction false} KeySettles(env: Env, w: Work, key: string, v: Value)
    requires Regular(env.rt) && Canonical(env.rt, w.doc) && DistinctObject(v)
    ensures var r := PathlessKey(env, w, Add, key, v); r.Ok? ==> KeySettled(env, r.value.doc, key, v)
  {
    hide Regular, Canonical, PathlessAttr, DistinctFolds, Settled, Slot, Names, LocOf, NamespaceAttr, MemberSettled;
    var r := PathlessKey(env, w, Add, key, v);
    if r.Ok? && Fold(key) != SCHEMAS && Fold(key) != META {
      var ext := FindSchema(env.rt.exts, key);
      if ext.Some? {
        ExtensionSettles(env, w, key, ext.value, v.members, SortedKeys(v.members.Keys));
      } else if NamespaceAttr(env.rt, "", key).Some? {
        CoreNames(env.rt, key);
        SettledAfter(env, w, key, NamespaceAttr(env.rt, "", key).value, v, ResolvePath(env.rt, key).value);
      }
    }
  }

  /** Whether a member is settled depends on what the locations it may write hold. */
  lemma {:induction false} KeyFrame(env: Env, d: Doc, d': Doc, key: string, v: Value)
    requires Regular(env.rt) && KeySettled(env, d, key, v) && forall l: Loc :: l in KeyLocs({Fold(key)}) ==> Slot(d', l) == Slot(d, l)
    ensures KeySettled(env, d', key, v)
  {
    hide FlatType, NamesValid, SeparateSchemas, Settled, Slot, NamespaceAttr;
    if Fold(key) != SCHEMAS && Fold(key) != META {
      var ext := FindSchema(env.rt.exts, key);
      if ext.Some? {
        UrnByFold(env.rt, ext.value, key);
        FoldNotEmpty(key);
        forall k: string ensures Slot(d', Loc(Fold(key), Fold(k))) == Slot(d, Loc(Fold(key), Fold(k))) {
          assert Loc(Fold(key), Fold(k)) in KeyLocs({Fold(key)});
        }
      } else {
        assert Loc("", Fold(key)) in KeyLocs({Fold(key)});
      }
    }
  }

  lemma {:induction false} KeyKept(env: Env, w: Work, key: string, v: Value)
    requires Regular(env.rt) && Canonical(env.rt, w.doc) && KeySettled(env, w.doc, key, v)
    ensures PathlessKey(env, w, Add, key, v) == if KeyAgain(env, key, v) then Ok(w) else Err(InvalidValue)
  {
    hide Regular, Canonical, PathlessAttr, Settled, Slot, Names, LocOf, NamespaceAttr, MemberSettled, MemberAgain, Again;
    if Fold(key) != SCHEMAS && Fold(key) != META {
      var ext := FindSchema(env.rt.exts, key);
      if ext.Some? {
        ExtensionKept(env, w, key, ext.value, v.members, SortedKeys(v.members.Keys));
      } else if NamespaceAttr(env.rt, "", key).Some? {
        CoreNames(env.rt, key);
        SettledKept(env, w, key, NamespaceAttr(env.rt, "", key).value, v, ResolvePath(env.rt, key).value);
      }
    }
  }

  lemma {:induction false} KeysSettle(env: Env, w: Work, obj: Elem, keys: seq<string>)
    requires Regular(env.rt) && Canonical(env.rt, w.doc) && DistinctMembers(obj, keys)
    ensures var r := PathlessKeys(env, w, Add, obj, keys);
            r.Ok? ==> forall k <- keys :: KeySettled(env, r.value.doc, k, obj[k])
    decreases |keys|
  {
    hide Regular, Canonical, PathlessKey, DistinctFolds, FoldedNames, KeySettled, DistinctObject, Effect;
    var r := PathlessKeys(env, w, Add, obj, keys);
    if keys != [] && r.Ok? {
      DistinctTail(keys);
      var k := keys[0];
      var w1 := PathlessKey(env, w, Add, k, obj[k]).value;
      KeySettles(env, w, k, obj[k]);
      KeyEffect(env, w, Add, k, obj[k]);
      EffectCanonical(env.rt, w, w1, KeyLocs({Fold(k)}));
      KeysSettle(env, w1, obj, keys[1..]);
      KeysEffect(env, w1, Add, obj, keys[1..]);
      forall l: Loc | l in KeyLocs({Fold(k)}) ensures Slot(r.value.doc, l) == Slot(w1.doc, l) {
        EffectSlot(env.rt, w1, r.value, KeyLocs(FoldedNames(keys[1..])), l);
      }
      KeyFrame(env, w1.doc, r.value.doc, k, obj[k]);
      assert forall x <- keys :: x == k || x in keys[1..];
    }
  }

  lemma {:induction false} KeysKept(env: Env, w: Work, obj: Elem, keys: seq<string>)
    requires Regular(env.rt) && Canonical(env.rt, w.doc)
    requires forall k <- keys :: k in obj && KeySettled(env, w.doc, k, obj[k])
    ensures PathlessKeys(env, w, Add, obj, keys) == if forall k <- keys :: KeyAgain(env, k, obj[k]) then Ok(w) else Err(InvalidValue)
    decreases |keys|
  {
    hide Regular, Canonical, PathlessKey, KeySettled, KeyAgain;
    if keys != [] {
      KeyKept(env, w, keys[0], obj[keys[0]]);
      KeysKept(env, w, obj, keys[1..]);
      assert forall x <- keys :: x == keys[0] || x in keys[1..];
    }
  }

  /** No member of the value asks an immutable list for a bare element again. */
  predicate AllAgain(env: Env, obj: Elem) {
    forall k <- obj.Keys :: KeyAgain(env, k, obj[k])
  }

  /** An accepted pathless add, sent again, leaves the resource as it is, alone or after the
      first, and on its own reports that nothing changed; unless some member adds a bare element
      to an immutable list: then it is refused. Scalars, complex values, lists, extensions and
      nulls alike. */
  lemma {:induction false} PathlessTwice(env: Env, w: Work, op: Op)
    requires Regular(env.rt) && Canonical(env.rt, w.doc) && DistinctOp(op)
    requires op.kind.Add? && op.path.None? && ApplyOp(env, w, op).Ok?
    ensures op.value.Obj?
    ensures var w' := ApplyOp(env, w, op).value;
            var again := AllAgain(env, op.value.members);
            && ApplyOp(env, w', op) == (if again then Ok(w') else Err(InvalidValue))
            && PatchSpec.Apply(env, w'.doc, [op]) == (if again then Ok(Work(w'.doc, false)) else Err(InvalidValue))
  {
    hide Regular, Canonical, PathlessKeys, KeySettled, KeyAgain, DistinctMembers, Effect, FoldedNames;
    var obj := op.value.members;
    var keys := SortedKeys(obj.Keys);
    var w' := ApplyOp(env, w, op).value;
    KeysSettle(env, w, obj, keys);
    KeysEffect(env, w, Add, obj, keys);
    EffectCanonical(env.rt, w, w', KeyLocs(FoldedNames(keys)));
    KeysKept(env, w', obj, keys);
    KeysKept(env, Work(w'.doc, false), obj, keys);
    OneOp(env, Work(w'.doc, false), op);
  }
}
