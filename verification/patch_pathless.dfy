/** The decision table of a pathless add or replace (addPathless in patch/apply_add.go): which
    objects are accepted, judged on the resource as it was, and what each member leaves at the
    location it names. */
module PatchPathless {
  import opened Text
  import opened Schema
  import opened Values
  import opened Documents
  import opened DocumentFacts
  import opened Paths
  import opened PatchRules
  import opened PatchSpec
  import opened PatchFacts
  import opened PatchGuards
  import opened PatchElements
  import opened PatchTables
  import opened PatchReplay
  import opened Ordering
  import S = FilterScanner
  import L = FilterLexing

  // ----- One attribute -----

  /** What is to be stored can be written back: Set coerces lists and complex values again. */
  predicate Storable(kind: OpKind, attr: Attribute, cv: Value, x: Option<Value>) {
    if attr.multi then
      cv.Nil? ||
      (if kind.Replace? || x.None? then Writable(cv)
       else AppendNew(x.value, cv).1 ==> Writable(AppendNew(x.value, cv).0))
    else if attr.typ == TComplex then cv.Nil? || (cv.Cplx? && Writable(Cplx(HeldElem(x) + cv.elem)))
    else true
  }

  /** Why an add or replace of v is refused at a whole attribute that holds x; None when it is
      accepted. A readOnly attribute is passed over. */
  function Ruling(lx: Lexicon, kind: OpKind, attr: Attribute, v: Value, x: Option<Value>): Verdict {
    var cv := Coerce(lx, attr, if attr.multi then Wrapped(v) else v);
    var guard := CheckImmutableAttr(lx, x, attr, kind, v);
    if attr.access == ReadOnly then None
    else if attr.access == Immutable && guard.Some? then guard
    else if cv.Err? || !Storable(kind, attr, cv.value, x) then Some(InvalidValue)
    else None
  }

  /** What an accepted member leaves at its location. */
  ghost predicate Tabled(env: Env, kind: OpKind, attr: Attribute, v: Value, x: Option<Value>, y: Option<Value>) {
    if attr.access == ReadOnly then y == x else WholeTable(env, Op(kind, None, v), attr, x, y)
  }

  /** Writing a stored value or nothing. */
  lemma {:induction false} WriteIff(env: Env, w: Work, path: string, v: Value, rp: Resolved)
    requires ResolvePath(env.rt, path) == Ok(rp) && Settable(rp) && rp.sub.None? && (v.Nil? || Stored(rp.attr.value, v))
    ensures var r := SetTracked(env, w, path, v); if v.Nil? || Writable(v) then r.Ok? else r == Err(InvalidValue)
  {
    hide ResolvePath, Coerce, Stored, ValuesEqual, GetOrNil, Writable;
    NilCoerces(env.lx, rp.attr.value);
    if !v.Nil? { CoerceFixedIff(env.lx, rp.attr.value, v); }
    CoercedWrite(env, w, path, v, rp);
  }

  lemma {:induction false} CoercedWrite(env: Env, w: Work, path: string, v: Value, rp: Resolved)
    requires ResolvePath(env.rt, path) == Ok(rp) && Settable(rp) && rp.sub.None?
    ensures var (r, cv) := (SetTracked(env, w, path, v), Coerce(env.lx, rp.attr.value, v)); if cv.Ok? then r.Ok? else r == Err(InvalidValue)
  {
    hide ResolvePath, Coerce, ValuesEqual, GetOrNil;
    var held := Container(w.doc, rp);
    SetWhole(env.lx, if held.None? then map[] else held.value, rp, v);
    SetWhole(env.lx, w.doc.attrs, rp, v);
  }

  lemma {:induction false} MultiRuled(env: Env, w: Work, kind: OpKind, path: string, attr: Attribute, v: Value, rp: Resolved)
    requires Canonical(env.rt, w.doc) && Names(env.rt, path, attr, rp) && attr.multi && (kind.Add? || kind.Replace?)
    ensures var r := if kind.Replace? then ReplaceAttribute(env, w, path, attr, v) else AddToAttribute(env, w, path, attr, v);
            var cv := Coerce(env.lx, attr, Wrapped(v));
            if cv.Ok? && Storable(kind, attr, cv.value, Slot(w.doc, LocOf(rp))) then r.Ok? else r == Err(InvalidValue)
  {
    hide Canonical, ResolvePath, Sound, SetTracked, Slot, LocOf, Coerce, Settable, Get, AppendNew, Stored, Wrapped, Writable;
    ShownSlot(env.rt, w.doc, path, attr, rp);
    var (cv, x) := (Coerce(env.lx, attr, Wrapped(v)), Slot(w.doc, LocOf(rp)));
    if cv.Ok? {
      CoerceStored(env.lx, attr, Wrapped(v));
      WriteIff(env, w, path, cv.value, rp);
      if kind.Add? && !cv.value.Nil? && x.Some? {
        SlotStoredAt(env.rt, w.doc, rp);
        AppendNewStored(attr, x.value, cv.value);
        StoredValueNotNil(attr, AppendNew(x.value, cv.value).0);
        WriteIff(env, w, path, AppendNew(x.value, cv.value).0, rp);
      }
    }
  }

  lemma {:induction false} ComplexRuled(env: Env, w: Work, path: string, attr: Attribute, v: Value, rp: Resolved)
    requires Canonical(env.rt, w.doc) && Names(env.rt, path, attr, rp) && !attr.multi && attr.typ == TComplex
    ensures var (r, cv) := (MergeComplex(env, w, path, attr, v), Coerce(env.lx, attr, v));
            if cv.Ok? && Storable(Add, attr, cv.value, Slot(w.doc, LocOf(rp))) then r.Ok? else r == Err(InvalidValue)
  {
    hide Canonical, ResolvePath, Sound, SetTracked, Slot, LocOf, Coerce, Settable, Get, Stored, Writable;
    ShownSlot(env.rt, w.doc, path, attr, rp);
    var (cv, x) := (Coerce(env.lx, attr, v), Slot(w.doc, LocOf(rp)));
    if cv.Ok? && !cv.value.Nil? {
      CoerceStored(env.lx, attr, v);
      StoredSingle(attr, cv.value);
      if x.None? {
        assert map[] + cv.value.elem == cv.value.elem;
        WriteIff(env, w, path, cv.value, rp);
      } else {
        SlotStoredAt(env.rt, w.doc, rp);
        StoredSingle(attr, x.value);
        MergedStored(attr, x.value.elem, cv.value.elem);
        WriteIff(env, w, path, Cplx(x.value.elem + cv.value.elem), rp);
      }
    }
  }

  /** One member, at the path that names its attribute. */
  lemma {:induction false} AttrRuled(env: Env, w: Work, kind: OpKind, path: string, attr: Attribute, v: Value, rp: Resolved)
    requires Canonical(env.rt, w.doc) && Names(env.rt, path, attr, rp) && (kind.Add? || kind.Replace?)
    ensures var (r, x) := (PathlessAttr(env, w, kind, path, attr, v), Slot(w.doc, LocOf(rp)));
            var ruling := Ruling(env.lx, kind, attr, v, x);
            if ruling.Some? then r == Err(ruling.value)
            else r.Ok? && Canonical(env.rt, r.value.doc) && Tabled(env, kind, attr, v, x, Slot(r.value.doc, LocOf(rp)))
  {
    hide Canonical, ResolvePath, Sound, SetTracked, Slot, LocOf, Coerce, Settable, Get, Storable, Wrapped, CheckImmutableAttr, WholeTable, AddMulti, MergeComplex;
    ShownSlot(env.rt, w.doc, path, attr, rp);
    if attr.access != ReadOnly {
      var r := if kind.Replace? then ReplaceAttribute(env, w, path, attr, v) else AddToAttribute(env, w, path, attr, v);
      if attr.multi {
        MultiRuled(env, w, kind, path, attr, v, rp);
      } else if attr.typ == TComplex {
        ComplexRuled(env, w, path, attr, v, rp);
        StorableSingle(kind, attr);
      } else {
        CoercedWrite(env, w, path, v, rp);
        StorableSingle(kind, attr);
      }
      WholeWrite(env, w, Op(kind, None, v), path, rp);
      AttrCanonical(env, w, kind, path, attr, v, rp);
    }
  }

  lemma StorableSingle(kind: OpKind, attr: Attribute)
    requires !attr.multi
    ensures forall cv, x :: Storable(kind, attr, cv, x) == Storable(Add, attr, cv, x)
    ensures attr.typ != TComplex ==> forall cv, x :: Storable(kind, attr, cv, x)
  {
  }

  // ----- An extension object -----

  function MemberRuling(lx: Lexicon, d: Doc, kind: OpKind, urn: string, attrs: seq<Attribute>, k: string, v: Value): Verdict {
    var attr := FindAttribute(attrs, k);
    if attr.None? then None else Ruling(lx, kind, attr.value, v, Slot(d, Loc(urn, Fold(k))))
  }

  /** The first refusal among the members of an extension object. */
  function MembersRuling(lx: Lexicon, d: Doc, kind: OpKind, urn: string, attrs: seq<Attribute>, obj: Elem, keys: seq<string>): Verdict
    requires forall k <- keys :: k in obj
    decreases |keys|
  {
    if keys == [] then None
    else
      var first := MemberRuling(lx, d, kind, urn, attrs, keys[0], obj[keys[0]]);
      if first.Some? then first else MembersRuling(lx, d, kind, urn, attrs, obj, keys[1..])
  }

  lemma {:induction false} MembersFrame(lx: Lexicon, d: Doc, e: Doc, kind: OpKind, urn: string, attrs: seq<Attribute>, obj: Elem, keys: seq<string>)
    requires forall k <- keys :: k in obj && Slot(e, Loc(urn, Fold(k))) == Slot(d, Loc(urn, Fold(k)))
    ensures MembersRuling(lx, e, kind, urn, attrs, obj, keys) == MembersRuling(lx, d, kind, urn, attrs, obj, keys)
    decreases |keys|
  {
    hide Ruling, Slot, Fold;
    if keys != [] { MembersFrame(lx, d, e, kind, urn, attrs, obj, keys[1..]); }
  }

  ghost predicate MemberTabled(env: Env, d: Doc, d': Doc, kind: OpKind, urn: string, attrs: seq<Attribute>, k: string, v: Value) {
    var (attr, l) := (FindAttribute(attrs, k), Loc(urn, Fold(k)));
    if attr.None? then Slot(d', l) == Slot(d, l) else Tabled(env, kind, attr.value, v, Slot(d, l), Slot(d', l))
  }

  lemma {:induction false} FirstRuled(env: Env, w: Work, kind: OpKind, urn: string, ext: SchemaDef, k: string, v: Value)
    requires Regular(env.rt) && Canonical(env.rt, w.doc) && FindSchema(env.rt.exts, urn) == Some(ext) && (kind.Add? || kind.Replace?)
    ensures var attr := FindAttribute(ext.attrs, k);
            var r := if attr.None? then Ok(w) else PathlessAttr(env, w, kind, urn + ":" + k, attr.value, v);
            var ruling := MemberRuling(env.lx, w.doc, kind, Fold(urn), ext.attrs, k, v);
            if ruling.Some? then r == Err(ruling.value)
            else
              && r.Ok? && Effect(env.rt, w, r.value, iset{Loc(Fold(urn), Fold(k))})
              && MemberTabled(env, w.doc, r.value.doc, kind, Fold(urn), ext.attrs, k, v)
  {
    hide Regular, Canonical, PathlessAttr, Tabled, Ruling, Slot, LocOf, ResolvePath, Sound, Settable, Effect;
    var attr := FindAttribute(ext.attrs, k);
    if attr.None? {
      NoEffect(env.rt, w, iset{Loc(Fold(urn), Fold(k))});
    } else {
      ExtensionNames(env.rt, urn, ext, k);
      var rp := ResolvePath(env.rt, urn + ":" + k).value;
      AttrRuled(env, w, kind, urn + ":" + k, attr.value, v, rp);
      PathlessAttrWrites(env, w, kind, urn + ":" + k, attr.value, v);
      var r := PathlessAttr(env, w, kind, urn + ":" + k, attr.value, v);
      if r.Ok? { WritesEffect(env, w, urn + ":" + k, r, rp); }
    }
  }

  lemma EffectElsewhere(rt: ResourceType, w: Work, w': Work, here: Loc)
    requires Effect(rt, w, w', iset{here})
    ensures Canonical(rt, w'.doc) && forall l: Loc :: l != here ==> Slot(w'.doc, l) == Slot(w.doc, l)
  {
  }

  lemma {:induction false} ExtensionRuled(env: Env, w: Work, kind: OpKind, urn: string, ext: SchemaDef, obj: Elem, keys: seq<string>)
    requires Regular(env.rt) && Canonical(env.rt, w.doc) && FindSchema(env.rt.exts, urn) == Some(ext) && (kind.Add? || kind.Replace?)
    requires (forall k <- keys :: k in obj) && DistinctFolds(keys)
    ensures var r := PathlessExtension(env, w, kind, urn, ext.attrs, obj, keys);
            var ruling := MembersRuling(env.lx, w.doc, kind, Fold(urn), ext.attrs, obj, keys);
            if ruling.Some? then r == Err(ruling.value)
            else r.Ok? && forall k <- keys :: MemberTabled(env, w.doc, r.value.doc, kind, Fold(urn), ext.attrs, k, obj[k])
    decreases |keys|
  {
    hide Regular, Canonical, PathlessAttr, DistinctFolds, FoldedNames, Tabled, Slot, Effect, MemberRuling;
    if keys != [] {
      DistinctTail(keys);
      var k := keys[0];
      var attr := FindAttribute(ext.attrs, k);
      var r1 := if attr.None? then Ok(w) else PathlessAttr(env, w, kind, urn + ":" + k, attr.value, obj[k]);
      FirstRuled(env, w, kind, urn, ext, k, obj[k]);
      if MemberRuling(env.lx, w.doc, kind, Fold(urn), ext.attrs, k, obj[k]).None? {
        var here := Loc(Fold(urn), Fold(k));
        EffectElsewhere(env.rt, w, r1.value, here);
        ExtensionRuled(env, r1.value, kind, urn, ext, obj, keys[1..]);
        MembersFrame(env.lx, w.doc, r1.value.doc, kind, Fold(urn), ext.attrs, obj, keys[1..]);
        ExtensionEffect(env, r1.value, kind, urn, ext, obj, keys[1..]);
        var r := PathlessExtension(env, r1.value, kind, urn, ext.attrs, obj, keys[1..]);
        if r.Ok? { EffectSlot(env.rt, r1.value, r.value, MemberLocs(Fold(urn), FoldedNames(keys[1..])), here); }
        assert forall x <- keys :: x == k || x in keys[1..];
      }
    }
  }

  // ----- A whole object -----

  /** Why a member of a pathless value is refused on the resource as it is. */
  function KeyRuling(env: Env, d: Doc, kind: OpKind, key: string, v: Value): Verdict {
    if Fold(key) == SCHEMAS || Fold(key) == META then None
    else
      var ext := FindSchema(env.rt.exts, key);
      if ext.Some? then
        if !v.Obj? then Some(InvalidValue)
        else MembersRuling(env.lx, d, kind, Fold(key), ext.value.attrs, v.members, SortedKeys(v.members.Keys))
      else
        var attr := NamespaceAttr(env.rt, "", key);
        if attr.None? then None else Ruling(env.lx, kind, attr.value, v, Slot(d, Loc("", Fold(key))))
  }

  /** The first refusal among the members, in the order of their folded names. */
  function KeysRuling(env: Env, d: Doc, kind: OpKind, obj: Elem, keys: seq<string>): Verdict
    requires forall k <- keys :: k in obj
    decreases |keys|
  {
    if keys == [] then None
    else
      var first := KeyRuling(env, d, kind, keys[0], obj[keys[0]]);
      if first.Some? then first else KeysRuling(env, d, kind, obj, keys[1..])
  }

  /** The attributes of an extension that are not named stay as they were. */
  ghost predicate OthersKept(d: Doc, d': Doc, urn: string, names: set<string>) {
    forall k: string :: k !in names ==> Slot(d', Loc(urn, k)) == Slot(d, Loc(urn, k))
  }

  lemma {:induction false} ExtensionKeeps(env: Env, w: Work, kind: OpKind, urn: string, ext: SchemaDef, obj: Elem, keys: seq<string>)
    requires Regular(env.rt) && Canonical(env.rt, w.doc) && FindSchema(env.rt.exts, urn) == Some(ext)
    requires (forall k <- keys :: k in obj) && DistinctFolds(keys)
    ensures var r := PathlessExtension(env, w, kind, urn, ext.attrs, obj, keys);
            r.Ok? ==> OthersKept(w.doc, r.value.doc, Fold(urn), FoldedNames(keys))
  {
    hide Regular, Canonical, PathlessExtension, DistinctFolds, FoldedNames, Slot, SameDoc;
    ExtensionEffect(env, w, kind, urn, ext, obj, keys);
  }

  ghost predicate KeyTabled(env: Env, d: Doc, d': Doc, kind: OpKind, key: string, v: Value) {
    if Fold(key) == SCHEMAS || Fold(key) == META then Slot(d', Loc("", Fold(key))) == Slot(d, Loc("", Fold(key)))
    else
      var ext := FindSchema(env.rt.exts, key);
      if ext.Some? then
        && v.Obj? && OthersKept(d, d', Fold(key), FoldedNames(SortedKeys(v.members.Keys)))
        && forall k <- v.members.Keys :: MemberTabled(env, d, d', kind, Fold(key), ext.value.attrs, k, v.members[k])
      else
        var (attr, l) := (NamespaceAttr(env.rt, "", key), Loc("", Fold(key)));
        if attr.None? then Slot(d', l) == Slot(d, l) else Tabled(env, kind, attr.value, v, Slot(d, l), Slot(d', l))
  }

  lemma {:induction false} KeyRuled(env: Env, w: Work, kind: OpKind, key: string, v: Value)
    requires Regular(env.rt) && Canonical(env.rt, w.doc) && DistinctObject(v) && (kind.Add? || kind.Replace?)
    ensures var (r, ruling) := (PathlessKey(env, w, kind, key, v), KeyRuling(env, w.doc, kind, key, v));
            if ruling.Some? then r == Err(ruling.value) else r.Ok? && KeyTabled(env, w.doc, r.value.doc, kind, key, v)
  {
    hide Regular, Canonical, PathlessAttr, DistinctFolds, FoldedNames, Tabled, Ruling, Slot, Names, LocOf, NamespaceAttr, MemberTabled, OthersKept, MembersRuling;
    if Fold(key) != SCHEMAS && Fold(key) != META {
      var ext := FindSchema(env.rt.exts, key);
      if ext.Some? {
        if v.Obj? {
          ExtensionRuled(env, w, kind, key, ext.value, v.members, SortedKeys(v.members.Keys));
          ExtensionKeeps(env, w, kind, key, ext.value, v.members, SortedKeys(v.members.Keys));
        }
      } else if NamespaceAttr(env.rt, "", key).Some? {
        CoreNames(env.rt, key);
        AttrRuled(env, w, kind, key, NamespaceAttr(env.rt, "", key).value, v, ResolvePath(env.rt, key).value);
      }
    }
  }

  lemma KeyLocsOf(rt: ResourceType, key: string)
    requires Regular(rt)
    ensures Loc("", Fold(key)) in KeyLocs({Fold(key)})
    ensures FindSchema(rt.exts, key).Some? ==> forall k: string :: Loc(Fold(key), k) in KeyLocs({Fold(key)})
  {
    hide FlatType, NamesValid, SeparateSchemas;
    if FindSchema(rt.exts, key).Some? {
      UrnByFold(rt, FindSchema(rt.exts, key).value, key);
      FoldNotEmpty(key);
    }
  }

  /** A member's ruling and table depend on what the locations it may write hold. */
  lemma {:induction false} KeyRulingFrame(env: Env, d: Doc, e: Doc, kind: OpKind, key: string, v: Value)
    requires Regular(env.rt) && forall l: Loc :: l in KeyLocs({Fold(key)}) ==> Slot(e, l) == Slot(d, l)
    ensures KeyRuling(env, e, kind, key, v) == KeyRuling(env, d, kind, key, v)
  {
    hide Regular, Ruling, Slot, NamespaceAttr, Fold, KeyLocs, MembersRuling;
    KeyLocsOf(env.rt, key);
    if FindSchema(env.rt.exts, key).Some? && v.Obj? {
      forall k: string ensures Slot(e, Loc(Fold(key), k)) == Slot(d, Loc(Fold(key), k)) {
        assert Loc(Fold(key), k) in KeyLocs({Fold(key)});
      }
      MembersFrame(env.lx, d, e, kind, Fold(key), FindSchema(env.rt.exts, key).value.attrs, v.members, SortedKeys(v.members.Keys));
    }
  }

  lemma {:induction false} KeyTableFrame(env: Env, d: Doc, d': Doc, e: Doc, e': Doc, kind: OpKind, key: string, v: Value)
    requires Regular(env.rt) && KeyTabled(env, d, d', kind, key, v)
    requires forall l: Loc :: l in KeyLocs({Fold(key)}) ==> Slot(e, l) == Slot(d, l) && Slot(e', l) == Slot(d', l)
    ensures KeyTabled(env, e, e', kind, key, v)
  {
    hide Regular, Tabled, Slot, NamespaceAttr, Fold, KeyLocs, FoldedNames;
    KeyLocsOf(env.rt, key);
  }

  lemma {:induction false} KeysRulingFrame(env: Env, d: Doc, e: Doc, kind: OpKind, obj: Elem, keys: seq<string>)
    requires Regular(env.rt) && (forall k <- keys :: k in obj) && forall l: Loc :: l in KeyLocs(FoldedNames(keys)) ==> Slot(e, l) == Slot(d, l)
    ensures KeysRuling(env, e, kind, obj, keys) == KeysRuling(env, d, kind, obj, keys)
    decreases |keys|
  {
    hide Regular, KeyRuling, Slot, Fold;
    if keys != [] {
      KeyRulingFrame(env, d, e, kind, keys[0], obj[keys[0]]);
      KeysRulingFrame(env, d, e, kind, obj, keys[1..]);
    }
  }

  lemma KeysApart(keys: seq<string>, key: string, l: Loc)
    requires key in keys && l in KeyLocs({Fold(key)})
    ensures l in KeyLocs(FoldedNames(keys))
  {
  }

  lemma {:induction false} KeysRuled(env: Env, w: Work, kind: OpKind, obj: Elem, keys: seq<string>)
    requires Regular(env.rt) && Canonical(env.rt, w.doc) && DistinctMembers(obj, keys) && (kind.Add? || kind.Replace?)
    ensures var (r, ruling) := (PathlessKeys(env, w, kind, obj, keys), KeysRuling(env, w.doc, kind, obj, keys));
            if ruling.Some? then r == Err(ruling.value)
            else r.Ok? && forall k <- keys :: KeyTabled(env, w.doc, r.value.doc, kind, k, obj[k])
    decreases |keys|
  {
    hide Regular, Canonical, PathlessKey, DistinctFolds, FoldedNames, KeyTabled, KeyRuling, DistinctObject, Effect, KeyLocs;
    if keys != [] {
      DistinctTail(keys);
      var k := keys[0];
      KeyRuled(env, w, kind, k, obj[k]);
      if KeyRuling(env, w.doc, kind, k, obj[k]).None? {
        var w1 := PathlessKey(env, w, kind, k, obj[k]).value;
        KeyEffect(env, w, kind, k, obj[k]);
        EffectCanonical(env.rt, w, w1, KeyLocs({Fold(k)}));
        KeysRuled(env, w1, kind, obj, keys[1..]);
        RestUntouched(env.rt, w, w1, keys);
        KeysRulingFrame(env, w.doc, w1.doc, kind, obj, keys[1..]);
        if KeysRuling(env, w.doc, kind, obj, keys[1..]).None? {
          TablesJoin(env, w, w1, PathlessKeys(env, w1, kind, obj, keys[1..]).value, kind, obj, keys);
        }
      }
    }
  }

  /** What the first member may write, the others may not. */
  lemma {:induction false} RestUntouched(rt: ResourceType, w: Work, w1: Work, keys: seq<string>)
    requires keys != [] && DistinctFolds(keys) && Effect(rt, w, w1, KeyLocs({Fold(keys[0])}))
    ensures forall l: Loc :: l in KeyLocs(FoldedNames(keys[1..])) ==> Slot(w1.doc, l) == Slot(w.doc, l)
  {
    hide Canonical, SameDoc, Slot, DistinctFolds, FoldedNames;
    DistinctTail(keys);
  }

  lemma {:induction false} TablesJoin(env: Env, w: Work, w1: Work, w': Work, kind: OpKind, obj: Elem, keys: seq<string>)
    requires Regular(env.rt) && Canonical(env.rt, w1.doc) && keys != [] && DistinctMembers(obj, keys)
    requires KeyTabled(env, w.doc, w1.doc, kind, keys[0], obj[keys[0]]) && PathlessKeys(env, w1, kind, obj, keys[1..]) == Ok(w')
    requires forall l: Loc :: l in KeyLocs(FoldedNames(keys[1..])) ==> Slot(w1.doc, l) == Slot(w.doc, l)
    requires forall k <- keys[1..] :: KeyTabled(env, w1.doc, w'.doc, kind, k, obj[k])
    ensures forall k <- keys :: KeyTabled(env, w.doc, w'.doc, kind, k, obj[k])
  {
    hide Regular, Canonical, PathlessKey, PathlessKeys, DistinctFolds, FoldedNames, KeyTabled, DistinctObject, Effect, KeyLocs, Slot;
    DistinctTail(keys);
    KeysEffect(env, w1, kind, obj, keys[1..]);
    FirstUntouched(env.rt, w1, w', keys);
    KeyTableFrame(env, w.doc, w1.doc, w.doc, w'.doc, kind, keys[0], obj[keys[0]]);
    forall k <- keys[1..] ensures KeyTabled(env, w.doc, w'.doc, kind, k, obj[k]) {
      forall l: Loc | l in KeyLocs({Fold(k)}) ensures Slot(w.doc, l) == Slot(w1.doc, l) {
        KeysApart(keys[1..], k, l);
      }
      KeyTableFrame(env, w1.doc, w'.doc, w.doc, w'.doc, kind, k, obj[k]);
    }
    assert forall x <- keys :: x == keys[0] || x in keys[1..];
  }

  lemma {:induction false} FirstUntouched(rt: ResourceType, w1: Work, w': Work, keys: seq<string>)
    requires keys != [] && DistinctFolds(keys) && Effect(rt, w1, w', KeyLocs(FoldedNames(keys[1..])))
    ensures forall l: Loc :: l in KeyLocs({Fold(keys[0])}) ==> Slot(w'.doc, l) == Slot(w1.doc, l)
  {
    hide Canonical, SameDoc, Slot, DistinctFolds, FoldedNames;
    DistinctTail(keys);
  }

  // ----- The table -----

  /** The pathless value carries v for the location: as a member of its own, or as a member of
      the object under the extension's URN. */
  predicate Carries(rt: ResourceType, obj: Elem, l: Loc, v: Value) {
    if l.urn == "" then
      l.key != SCHEMAS && l.key != META && exists k <- obj.Keys :: Fold(k) == l.key && FindSchema(rt.exts, k).None? && v == obj[k]
    else
      FindSchema(rt.exts, l.urn).Some? &&
      exists u <- obj.Keys :: Fold(u) == l.urn && obj[u].Obj? && exists k <- obj[u].members.Keys :: Fold(k) == l.key && v == obj[u].members[k]
  }

  /** Under an extension's URN stands an object. */
  predicate ObjectsUnderUrns(rt: ResourceType, obj: Elem) {
    forall u <- obj.Keys :: FindSchema(rt.exts, u).Some? ==> obj[u].Obj?
  }

  lemma {:induction false} CarriedTable(env: Env, d: Doc, d': Doc, kind: OpKind, obj: Elem, l: Loc, v: Value)
    requires Regular(env.rt) && (forall k <- obj.Keys :: KeyTabled(env, d, d', kind, k, obj[k])) && Carries(env.rt, obj, l, v)
    ensures var attr := Declared(env.rt, l);
            if attr.None? then Slot(d', l) == Slot(d, l) else Tabled(env, kind, attr.value, v, Slot(d, l), Slot(d', l))
  {
    hide Regular, Tabled, Slot, Fold, Ruling;
    if l.urn == "" {
      var k :| k in obj.Keys && Fold(k) == l.key && FindSchema(env.rt.exts, k).None? && v == obj[k];
      FoldIdempotent(k);
      NamespaceByFold(env.rt, "", k, l.key);
    } else {
      var u :| u in obj.Keys && Fold(u) == l.urn && obj[u].Obj? && exists k <- obj[u].members.Keys :: Fold(k) == l.key && v == obj[u].members[k];
      var k :| k in obj[u].members.Keys && Fold(k) == l.key && v == obj[u].members[k];
      FoldIdempotent(u);
      FoldIdempotent(k);
      FindSchemaByFold(env.rt.exts, u, l.urn);
      FindByFold(FindSchema(env.rt.exts, u).value.attrs, k, l.key);
      UrnNotMeta(env.rt, u);
      assert KeyTabled(env, d, d', kind, u, obj[u]);
    }
  }

  lemma {:induction false} UrnNotMeta(rt: ResourceType, u: string)
    requires Regular(rt) && FindSchema(rt.exts, u).Some?
    ensures Fold(u) != SCHEMAS && Fold(u) != META
  {
    hide FlatType, NamesValid, SeparateSchemas;
    UrnByFold(rt, FindSchema(rt.exts, u).value, u);
    UrnFolds(u);
  }

  lemma {:induction false} UrnFolds(u: string)
    requires UrnShaped(u)
    ensures Fold(u) != SCHEMAS && Fold(u) != META
  {
    var f := Fold(u);
    assert f[..4][0] == f[0] && "urn:"[0] == 'u';
  }

  /** The pathless value carries nothing for the location. */
  ghost predicate Uncarried(rt: ResourceType, obj: Elem, l: Loc) {
    forall v :: !Carries(rt, obj, l, v)
  }

  lemma {:induction false} TabledObjects(env: Env, d: Doc, d': Doc, kind: OpKind, obj: Elem)
    requires Regular(env.rt) && forall k <- obj.Keys :: KeyTabled(env, d, d', kind, k, obj[k])
    ensures ObjectsUnderUrns(env.rt, obj)
  {
    hide Regular, Tabled, Slot, Fold, FindSchema;
    forall u <- obj.Keys | FindSchema(env.rt.exts, u).Some? ensures obj[u].Obj? {
      UrnNotMeta(env.rt, u);
      assert KeyTabled(env, d, d', kind, u, obj[u]);
    }
  }

  lemma {:induction false} UndeclaredEmpty(rt: ResourceType, d: Doc, l: Loc)
    requires Canonical(rt, d) && Declared(rt, l).None?
    ensures Slot(d, l).None?
  {
    hide Canonical, Stored, Declared, Slot;
    CanonicalAt(rt, d, l);
  }

  lemma {:induction false} UncarriedKept(env: Env, w: Work, w': Work, kind: OpKind, obj: Elem, l: Loc)
    requires Regular(env.rt) && Canonical(env.rt, w.doc) && Canonical(env.rt, w'.doc)
    requires Effect(env.rt, w, w', KeyLocs(FoldedNames(SortedKeys(obj.Keys))))
    requires forall k <- obj.Keys :: KeyTabled(env, w.doc, w'.doc, kind, k, obj[k])
    requires Declared(env.rt, l).None? || Uncarried(env.rt, obj, l)
    ensures Slot(w'.doc, l) == Slot(w.doc, l)
  {
    hide Regular, Canonical, Tabled, Slot, Declared, SameDoc, MemberTabled, Fold;
    if Declared(env.rt, l).None? {
      UndeclaredEmpty(env.rt, w.doc, l);
      UndeclaredEmpty(env.rt, w'.doc, l);
    } else if l in KeyLocs(FoldedNames(SortedKeys(obj.Keys))) {
      if l.urn == "" {
        var k :| k in obj.Keys && Fold(k) == l.key;
        UncarriedCore(env, w.doc, w'.doc, kind, obj, k, l);
      } else {
        var u :| u in obj.Keys && Fold(u) == l.urn;
        UncarriedExt(env, w.doc, w'.doc, kind, obj, u, l);
      }
    }
  }

  lemma CarriedCore(rt: ResourceType, obj: Elem, k: string, l: Loc)
    requires k in obj && l == Loc("", Fold(k)) && l.key != SCHEMAS && l.key != META && FindSchema(rt.exts, k).None?
    ensures !Uncarried(rt, obj, l)
  {
    assert Carries(rt, obj, l, obj[k]);
  }

  lemma CarriedExt(rt: ResourceType, obj: Elem, u: string, k: string, l: Loc)
    requires u in obj && obj[u].Obj? && k in obj[u].members && l == Loc(Fold(u), Fold(k)) && l.urn != "" && FindSchema(rt.exts, l.urn).Some?
    ensures !Uncarried(rt, obj, l)
  {
    assert Carries(rt, obj, l, obj[u].members[k]);
  }

  lemma {:induction false} UncarriedCore(env: Env, d: Doc, d': Doc, kind: OpKind, obj: Elem, k: string, l: Loc)
    requires Regular(env.rt) && k in obj && l == Loc("", Fold(k)) && Declared(env.rt, l).Some? && Uncarried(env.rt, obj, l)
    requires KeyTabled(env, d, d', kind, k, obj[k])
    ensures Slot(d', l) == Slot(d, l)
  {
    hide Regular, Tabled, Slot, MemberTabled, Fold, Uncarried;
    if l.key != SCHEMAS && l.key != META {
      NoUrnDeclared(env.rt, k);
      CarriedCore(env.rt, obj, k, l);
    }
  }

  /** No extension's URN is the name of a core attribute. */
  lemma {:induction false} NoUrnDeclared(rt: ResourceType, k: string)
    requires Regular(rt) && Declared(rt, Loc("", Fold(k))).Some?
    ensures FindSchema(rt.exts, k).None?
  {
    hide FlatType, SeparateSchemas, S.ValidAttrName;
    var a := Declared(rt, Loc("", Fold(k))).value;
    CommonNamesValid();
    L.ValidNameChars(a.name);
    NoUrnWithoutColon(a.name);
    FoldIdempotent(k);
    if FindSchema(rt.exts, k).Some? { UrnByFold(rt, FindSchema(rt.exts, k).value, k); }
  }

  lemma {:induction false} UncarriedExt(env: Env, d: Doc, d': Doc, kind: OpKind, obj: Elem, u: string, l: Loc)
    requires Regular(env.rt) && u in obj && l.urn == Fold(u) && l.urn != "" && Declared(env.rt, l).Some? && Uncarried(env.rt, obj, l)
    requires KeyTabled(env, d, d', kind, u, obj[u])
    ensures Slot(d', l) == Slot(d, l)
  {
    hide Regular, Tabled, Slot, MemberTabled, Fold, Uncarried;
    FoldIdempotent(u);
    FindSchemaByFold(env.rt.exts, u, l.urn);
    UrnNotMeta(env.rt, u);
    if l.key in FoldedNames(SortedKeys(obj[u].members.Keys)) {
      var k :| k in obj[u].members.Keys && Fold(k) == l.key;
      CarriedExt(env.rt, obj, u, k, l);
    }
  }

  /** A pathless add or replace is accepted exactly when its value is an object and no member is
      refused on the resource as it was; otherwise the first refusal, in the order of the folded
      names, is the failure. Accepted, it leaves at every location a member names what the
      tables of the RFC say for the operation's kind and that member's value, readOnly ones
      apart, and everything else as it was. */
  lemma {:induction false} PathlessTable(env: Env, w: Work, op: Op)
    requires Regular(env.rt) && Canonical(env.rt, w.doc) && DistinctOp(op) && op.path.None? && (op.kind.Add? || op.kind.Replace?)
    ensures !op.value.Obj? ==> ApplyOp(env, w, op) == Err(InvalidValue)
    ensures op.value.Obj? ==>
              var (r, obj) := (ApplyOp(env, w, op), op.value.members);
              var ruling := KeysRuling(env, w.doc, op.kind, obj, SortedKeys(obj.Keys));
              if ruling.Some? then r == Err(ruling.value)
              else
                && r.Ok? && ObjectsUnderUrns(env.rt, obj)
                && (forall l: Loc, v :: Carries(env.rt, obj, l, v) && Declared(env.rt, l).Some? ==>
                      Tabled(env, op.kind, Declared(env.rt, l).value, v, Slot(w.doc, l), Slot(r.value.doc, l)))
                && (forall l: Loc :: Declared(env.rt, l).None? || Uncarried(env.rt, obj, l) ==> Slot(r.value.doc, l) == Slot(w.doc, l))
  {
    hide Regular, Canonical, PathlessKeys, KeysRuling, KeyTabled, DistinctMembers, Effect, FoldedNames, Tabled, Carries, Uncarried, Slot, Declared, KeyLocs;
    if op.value.Obj? {
      var obj := op.value.members;
      var keys := SortedKeys(obj.Keys);
      KeysRuled(env, w, op.kind, obj, keys);
      if KeysRuling(env, w.doc, op.kind, obj, keys).None? {
        var w' := ApplyOp(env, w, op).value;
        KeysEffect(env, w, op.kind, obj, keys);
        EffectCanonical(env.rt, w, w', KeyLocs(FoldedNames(keys)));
        TabledObjects(env, w.doc, w'.doc, op.kind, obj);
        forall l: Loc, v | Carries(env.rt, obj, l, v) && Declared(env.rt, l).Some?
          ensures Tabled(env, op.kind, Declared(env.rt, l).value, v, Slot(w.doc, l), Slot(w'.doc, l))
        {
          CarriedTable(env, w.doc, w'.doc, op.kind, obj, l, v);
        }
        forall l: Loc | Declared(env.rt, l).None? || Uncarried(env.rt, obj, l) ensures Slot(w'.doc, l) == Slot(w.doc, l) {
          UncarriedKept(env, w, w', op.kind, obj, l);
        }
      }
    }
  }
}
