/** What one PATCH operation can touch: every accepted write lands on the location its path
    resolves to, and the Changed flag records exactly whether the document changed. */
module PatchFacts {
  import opened Text
  import opened Schema
  import opened Values
  import opened Documents
  import opened DocumentFacts
  import opened Paths
  import opened PatchRules
  import opened PatchSpec
  import opened Ordering
  import F = FilterAst
  import S = FilterScanner
  import G = FilterGrammar
  import L = FilterLexing

  /** Attribute names follow the ATTRNAME production. */
  predicate NamesValid(rt: ResourceType) {
    && (forall a <- rt.core.attrs :: S.ValidAttrName(a.name))
    && (forall x <- rt.exts, a <- x.attrs :: S.ValidAttrName(a.name))
  }

  /** The resource types the results speak of: no schema identifier that is an attribute's text,
      one level of complex values, grammatical names. */
  predicate Regular(rt: ResourceType) {
    SeparateSchemas(rt) && FlatType(rt) && NamesValid(rt)
  }

  /** A path as ParsePath delivers it, its value filter aside. */
  predicate ParsedPath(p: F.Path) {
    G.PlainPath(p.(filter := None))
  }

  predicate ParsedOp(op: Op) {
    op.path.Some? ==> ParsedPath(op.path.value)
  }

  /** What a step that may write the locations in ls does. */
  ghost predicate Effect(rt: ResourceType, w: Work, w': Work, ls: iset<Loc>) {
    && Canonical(rt, w'.doc)
    && w'.doc.meta == w.doc.meta
    && (forall l: Loc :: l !in ls ==> Slot(w'.doc, l) == Slot(w.doc, l))
    && (w'.changed <==> w.changed || !SameDoc(w.doc, w'.doc))
  }

  lemma {:induction false} NoEffect(rt: ResourceType, w: Work, ls: iset<Loc>)
    requires Canonical(rt, w.doc)
    ensures Effect(rt, w, w, ls)
  {
    hide Canonical, SameDoc, Slot;
    SameDocSelf(rt, w.doc);
  }

  lemma {:induction false} EffectWiden(rt: ResourceType, w: Work, w': Work, ls: iset<Loc>, ms: iset<Loc>)
    requires Effect(rt, w, w', ls) && ls <= ms
    ensures Effect(rt, w, w', ms)
  {
    hide Canonical, SameDoc, Slot;
  }

  /** Steps on disjoint locations compose, Changed flag included. */
  lemma {:induction false} EffectThen(rt: ResourceType, a: Work, b: Work, c: Work, ls: iset<Loc>, ms: iset<Loc>)
    requires Canonical(rt, a.doc) && Effect(rt, a, b, ls) && Effect(rt, b, c, ms) && ls !! ms
    ensures Effect(rt, a, c, ls + ms)
  {
    hide Canonical, Slot, SameSlot;
    if SameDoc(a.doc, b.doc) && SameDoc(b.doc, c.doc) {
      SameDocTrans(a.doc, b.doc, c.doc);
    } else if SameDoc(a.doc, c.doc) {
      forall l: Loc ensures SameSlot(Slot(a.doc, l), Slot(b.doc, l)) && SameSlot(Slot(b.doc, l), Slot(c.doc, l)) {
        SlotSelf(rt, a.doc, l);
        SlotSelf(rt, c.doc, l);
        if l in ms {
          assert l !in ls;
        }
      }
    }
  }

  lemma {:induction false} SlotSelf(rt: ResourceType, d: Doc, l: Loc)
    requires Canonical(rt, d)
    ensures SameSlot(Slot(d, l), Slot(d, l))
  {
    CanonicalAt(rt, d, l);
    SlotEqualSelf(rt, d, l);
  }

  /** A tracked write touches the location of its path and reports exactly whether it changed
      the document. */
  lemma {:induction false} TrackedEffect(env: Env, w: Work, path: string, v: Value, rp: Resolved)
    requires Canonical(env.rt, w.doc) && ResolvePath(env.rt, path) == Ok(rp) && Sound(env.rt, rp)
    ensures var r := SetTracked(env, w, path, v);
            r.Ok? ==> Effect(env.rt, w, r.value, iset{LocOf(rp)})
  {
    hide Canonical, SameDoc, Slot, Sound, ResolvePath, SetResolved, GetResolved, ValuesEqual;
    var r := SetTracked(env, w, path, v);
    if r.Ok? {
      assert rp.attr.Some? by { SoundNames(env.rt, rp); }
      SetCanonical(env.lx, env.rt, w.doc, rp, v);
      SetFrame(env.lx, w.doc, rp, v);
      ChangeSeen(env.lx, env.rt, w.doc, rp, v);
    }
  }

  lemma SoundNames(rt: ResourceType, rp: Resolved)
    requires Sound(rt, rp)
    ensures rp.attr.Some?
  {
  }

  /** r is w itself or one tracked write at path. */
  ghost predicate Writes(env: Env, w: Work, path: string, r: Result<Work>) {
    r.Ok? ==> r.value == w || exists v: Value :: SetTracked(env, w, path, v) == r
  }

  lemma {:induction false} WritesEffect(env: Env, w: Work, path: string, r: Result<Work>, rp: Resolved)
    requires Canonical(env.rt, w.doc) && ResolvePath(env.rt, path) == Ok(rp) && Sound(env.rt, rp)
    requires Writes(env, w, path, r) && r.Ok?
    ensures rp.attr.Some? && Effect(env.rt, w, r.value, iset{LocOf(rp)})
  {
    hide Canonical, Effect, ResolvePath, SetTracked, LocOf;
    if r.value == w {
      NoEffect(env.rt, w, iset{LocOf(rp)});
    } else {
      var v: Value :| SetTracked(env, w, path, v) == r;
      TrackedEffect(env, w, path, v, rp);
    }
  }

  // ----- Pathed operations -----

  lemma {:induction false} AddMultiWrites(env: Env, w: Work, path: string, attr: Attribute, v: Value)
    ensures Writes(env, w, path, AddMulti(env, w, path, attr, v))
  {
    hide SetTracked, Coerce, AppendNew, Get;
    var incoming, existing := Coerce(env.lx, attr, Wrapped(v)), Get(env.rt, w.doc, path);
    if incoming.Ok? && !incoming.value.Nil? && existing.Some? {
      var (merged, added) := AppendNew(existing.value, incoming.value);
      assert added ==> AddMulti(env, w, path, attr, v) == SetTracked(env, w, path, merged);
    }
  }

  lemma {:induction false} MergeWrites(env: Env, w: Work, path: string, attr: Attribute, v: Value)
    ensures Writes(env, w, path, MergeComplex(env, w, path, attr, v))
  {
    hide SetTracked, Coerce, Get;
  }

  lemma {:induction false} AddWrites(env: Env, w: Work, path: string, attr: Attribute, v: Value)
    ensures Writes(env, w, path, AddToAttribute(env, w, path, attr, v))
  {
    hide SetTracked, AddMulti, MergeComplex;
    AddMultiWrites(env, w, path, attr, v);
    MergeWrites(env, w, path, attr, v);
  }

  lemma {:induction false} ReplaceWrites(env: Env, w: Work, path: string, attr: Attribute, v: Value)
    ensures Writes(env, w, path, ReplaceAttribute(env, w, path, attr, v))
  {
    hide SetTracked, Coerce, Get, MergeComplex;
    MergeWrites(env, w, path, attr, v);
  }

  lemma {:induction false} ValuePathWrites(env: Env, w: Work, op: Op, p: F.Path, attr: Attribute, sub: Option<Attribute>)
    requires p.filter.Some?
    ensures Writes(env, w, AttrPathText(p), ValuePathWrite(env, w, op, p, attr, sub))
    ensures Writes(env, w, AttrPathText(p), ValuePathRemove(env, w, p, attr, sub))
  {
    hide SetTracked, Coerce, Get, Matching, EditElems, Demoted, CollectEq, Elements, ListAt, AttrPathText;
  }

  /** The text an accepted pathed operation writes at. */
  function WritePath(p: F.Path, sub: Option<Attribute>): string {
    if p.filter.None? && sub.Some? then SubPathText(p) else AttrPathText(p)
  }

  lemma {:induction false} PerformWrites(env: Env, w: Work, op: Op, p: F.Path, attr: Attribute, sub: Option<Attribute>)
    ensures Writes(env, w, WritePath(p, sub), Perform(env, w, op, p, attr, sub))
  {
    hide SetTracked, ValuePathWrite, ValuePathRemove, AddToAttribute, ReplaceAttribute, AttrPathText, SubPathText;
    if p.filter.Some? {
      ValuePathWrites(env, w, op, p, attr, sub);
    } else {
      AddWrites(env, w, AttrPathText(p), attr, op.value);
      ReplaceWrites(env, w, AttrPathText(p), attr, op.value);
    }
  }

  /** Where an accepted pathed operation writes. */
  function TargetLoc(rt: ResourceType, p: F.Path): Loc {
    Loc(if p.urn == "" || Fold(p.urn) == Fold(rt.core.id) then "" else Fold(p.urn), Fold(p.attr))
  }

  /** The write path resolves, soundly, to the operation's own target. */
  lemma {:induction false} WritePathResolves(rt: ResourceType, p: F.Path)
    requires Regular(rt) && ParsedPath(p) && ResolveTarget(rt, p).Some?
    requires var (attr, sub) := ResolveTarget(rt, p).value; !(attr.multi && sub.Some? && p.filter.None?)
    ensures var (attr, sub) := ResolveTarget(rt, p).value;
            var rp := ResolvePath(rt, WritePath(p, sub));
            && rp.Ok? && Sound(rt, rp.value) && rp.value.attr == Some(attr)
            && rp.value.sub == (if p.filter.None? then sub else None)
            && LocOf(rp.value) == TargetLoc(rt, p)
  {
    hide ResolvePath, ResolveTarget, SeparateSchemas, FlatType, NamesValid, G.PlainPath, AttrPathText, SubPathText, Sound, Hidden;
    var (attr, sub) := ResolveTarget(rt, p).value;
    ResolversAgree(rt, p);
    NotHidden(rt, p);
    ResolvedSound(rt, WritePath(p, sub));
    TargetName(rt, p);
  }

  lemma {:induction false} TargetName(rt: ResourceType, p: F.Path)
    requires ResolveTarget(rt, p).Some? && (p.urn != "" ==> HomeId(rt, p.urn).Some?)
    ensures Fold(ResolveTarget(rt, p).value.0.name) == Fold(p.attr)
    ensures Fold(HomeUrn(rt, p.urn)) == TargetLoc(rt, p).urn
  {
    assert Fold("") == "";
  }

  /** An accepted pathed operation writes its target location only, which is writable. */
  lemma {:induction false} PathedEffect(env: Env, w: Work, op: Op, p: F.Path)
    requires Regular(env.rt) && ParsedPath(p) && Canonical(env.rt, w.doc)
    ensures var r := Pathed(env, w, op, p);
            r.Ok? ==>
              && Effect(env.rt, w, r.value, iset{TargetLoc(env.rt, p)})
              && Declared(env.rt, TargetLoc(env.rt, p)).Some?
              && Declared(env.rt, TargetLoc(env.rt, p)).value.access != ReadOnly
  {
    hide Regular, ParsedPath, Canonical, Effect, Perform, ResolveTarget, ResolvePath, WritePath, TargetLoc, LocOf, Declared,
      CheckImmutablePathed, CheckImmutableSubPath;
    var r := Pathed(env, w, op, p);
    if r.Ok? {
      var (attr, sub) := ResolveTarget(env.rt, p).value;
      WritePathResolves(env.rt, p);
      PerformWrites(env, w, op, p, attr, sub);
      WritesEffect(env, w, WritePath(p, sub), r, ResolvePath(env.rt, WritePath(p, sub)).value);
    }
  }

  // ----- Pathless operations -----

  lemma FoldKeepsClass(c: char, d: char)
    requires FoldChar(c) == FoldChar(d)
    ensures S.IsNameStart(c) == S.IsNameStart(d) && S.IsNameChar(c) == S.IsNameChar(d)
  {
  }

  lemma {:induction false} ValidByFold(a: string, b: string)
    requires Fold(a) == Fold(b) && S.ValidAttrName(a)
    ensures S.ValidAttrName(b)
  {
    hide S.IsNameStart, S.IsNameChar;
    assert |a| == |Fold(a)| == |b|;
    forall i | 0 <= i < |b|
      ensures S.IsNameStart(a[i]) == S.IsNameStart(b[i]) && S.IsNameChar(a[i]) == S.IsNameChar(b[i])
    {
      assert FoldChar(a[i]) == Fold(a)[i] == Fold(b)[i] == FoldChar(b[i]);
      FoldKeepsClass(a[i], b[i]);
    }
  }

  lemma CommonNamesValid()
    ensures forall a <- COMMON :: S.ValidAttrName(a.name)
  {
  }

  /** A plain member name resolves, as a path, to the attribute the merge found for it. */
  lemma {:induction false} KeyResolves(rt: ResourceType, key: string)
    requires Regular(rt) && NamespaceAttr(rt, "", key).Some?
    ensures var rp := ResolvePath(rt, key);
            && rp.Ok? && Sound(rt, rp.value) && rp.value.attr == NamespaceAttr(rt, "", key)
            && rp.value.sub.None? && LocOf(rp.value) == Loc("", Fold(key))
  {
    hide S.ValidAttrName, ResolvePath, SeparateSchemas, Sound, SplitAttrExpr;
    var attr := NamespaceAttr(rt, "", key).value;
    CommonNamesValid();
    ValidByFold(attr.name, key);
    assert "" + (key + "") == key;
    ResolveText(rt, "", key, "");
    SplitExprNames(key, "");
    ResolvedSound(rt, key);
    assert Fold("") == "";
  }

  /** A member of an extension object resolves, under the extension's URN, to the attribute
      the merge found for it. */
  lemma {:induction false} ExtensionKeyResolves(rt: ResourceType, urn: string, ext: SchemaDef, key: string)
    requires Regular(rt) && FindSchema(rt.exts, urn) == Some(ext) && FindAttribute(ext.attrs, key).Some?
    ensures var rp := ResolvePath(rt, urn + ":" + key);
            && rp.Ok? && Sound(rt, rp.value) && rp.value.attr == FindAttribute(ext.attrs, key)
            && rp.value.sub.None? && LocOf(rp.value) == Loc(Fold(urn), Fold(key))
  {
    hide S.ValidAttrName, ResolvePath, Sound, SplitAttrExpr, UrnShaped, Shadowed;
    var name := FindAttribute(ext.attrs, key).value.name;
    ValidByFold(name, key);
    assert key + "" == key;
    UrnByFold(rt, ext, urn);
    TextFold(ext.id, name, urn, key);
    ShadowedByFold(rt, ext.id + ":" + name, urn + ":" + key);
    ResolveText(rt, urn, key, "");
    SplitExprNames(key, "");
    FindSchemaByFold(rt.exts, urn, ext.id);
    ResolvedSound(rt, urn + ":" + key);
  }

  lemma {:induction false} UrnByFold(rt: ResourceType, ext: SchemaDef, urn: string)
    requires SeparateSchemas(rt) && ext in rt.exts && Fold(ext.id) == Fold(urn)
    ensures UrnShaped(urn) && ext.id != "" && urn != ""
  {
    hide TextsFree;
    assert |urn| == |Fold(urn)| == |ext.id|;
  }

  lemma {:induction false} PathlessAttrWrites(env: Env, w: Work, kind: OpKind, path: string, attr: Attribute, v: Value)
    ensures Writes(env, w, path, PathlessAttr(env, w, kind, path, attr, v))
    ensures attr.access == ReadOnly ==> PathlessAttr(env, w, kind, path, attr, v) == Ok(w)
  {
    hide SetTracked, AddToAttribute, ReplaceAttribute, Get, CheckImmutableAttr;
    AddWrites(env, w, path, attr, v);
    ReplaceWrites(env, w, path, attr, v);
  }

  /** The locations members with these folded names may write. */
  ghost function MemberLocs(urn: string, names: set<string>): iset<Loc> {
    iset l: Loc | l.urn == urn && l.key in names
  }

  /** The locations the top-level members with these folded names may write. */
  ghost function KeyLocs(names: set<string>): iset<Loc> {
    iset l: Loc | if l.urn == "" then l.key in names else l.urn in names
  }

  function FoldedNames(keys: seq<string>): (r: set<string>)
    ensures forall k <- keys :: Fold(k) in r
    ensures forall f <- r :: exists k <- keys :: Fold(k) == f
  {
    set k <- keys :: Fold(k)
  }

  /** No two member names fold alike. */
  predicate DistinctFolds(keys: seq<string>) {
    forall i, j :: 0 <= i < j < |keys| ==> Fold(keys[i]) != Fold(keys[j])
  }

  lemma {:induction false} DistinctTail(keys: seq<string>)
    requires keys != [] && DistinctFolds(keys)
    ensures DistinctFolds(keys[1..]) && Fold(keys[0]) !in FoldedNames(keys[1..])
    ensures FoldedNames(keys) == {Fold(keys[0])} + FoldedNames(keys[1..])
  {
    hide Fold;
    var names := FoldedNames(keys[1..]);
    forall k <- keys[1..] ensures Fold(k) != Fold(keys[0]) {
      var i :| 0 <= i < |keys[1..]| && keys[1..][i] == k;
      assert keys[i + 1] == k;
    }
    forall f ensures f in FoldedNames(keys) <==> f in {Fold(keys[0])} + names {
      if f in FoldedNames(keys) {
        var k :| k in keys && Fold(k) == f;
        assert k == keys[0] || k in keys[1..];
      }
    }
  }

  lemma {:induction false} ExtensionEffect(env: Env, w: Work, kind: OpKind, urn: string, ext: SchemaDef, obj: Elem, keys: seq<string>)
    requires Regular(env.rt) && Canonical(env.rt, w.doc) && FindSchema(env.rt.exts, urn) == Some(ext)
    requires (forall k <- keys :: k in obj) && DistinctFolds(keys)
    ensures var r := PathlessExtension(env, w, kind, urn, ext.attrs, obj, keys);
            r.Ok? ==> Effect(env.rt, w, r.value, MemberLocs(Fold(urn), FoldedNames(keys)))
    decreases |keys|
  {
    hide Regular, Canonical, Effect, PathlessAttr, DistinctFolds, FoldedNames, Sound, ResolvePath, LocOf;
    if keys == [] {
      NoEffect(env.rt, w, MemberLocs(Fold(urn), FoldedNames(keys)));
    } else {
      DistinctTail(keys);
      var attr := FindAttribute(ext.attrs, keys[0]);
      var path := urn + ":" + keys[0];
      var r1 := if attr.None? then Ok(w) else PathlessAttr(env, w, kind, path, attr.value, obj[keys[0]]);
      if r1.Ok? {
        var here := iset{Loc(Fold(urn), Fold(keys[0]))};
        if attr.None? {
          NoEffect(env.rt, w, here);
        } else {
          PathlessAttrWrites(env, w, kind, path, attr.value, obj[keys[0]]);
          ExtensionKeyResolves(env.rt, urn, ext, keys[0]);
          WritesEffect(env, w, path, r1, ResolvePath(env.rt, path).value);
        }
        EffectCanonical(env.rt, w, r1.value, here);
        ExtensionEffect(env, r1.value, kind, urn, ext, obj, keys[1..]);
        var rest := PathlessExtension(env, r1.value, kind, urn, ext.attrs, obj, keys[1..]);
        if rest.Ok? {
          EffectThen(env.rt, w, r1.value, rest.value, here, MemberLocs(Fold(urn), FoldedNames(keys[1..])));
          assert here + MemberLocs(Fold(urn), FoldedNames(keys[1..])) == MemberLocs(Fold(urn), FoldedNames(keys));
        }
      }
    }
  }

  lemma EffectCanonical(rt: ResourceType, w: Work, w': Work, ls: iset<Loc>)
    requires Effect(rt, w, w', ls)
    ensures Canonical(rt, w'.doc)
  {
  }

  /** The members of a pathless value that are extension objects also have distinct names. */
  predicate DistinctObject(v: Value) {
    v.Obj? ==> DistinctFolds(SortedKeys(v.members.Keys))
  }

  lemma {:induction false} KeyEffect(env: Env, w: Work, kind: OpKind, key: string, v: Value)
    requires Regular(env.rt) && Canonical(env.rt, w.doc) && DistinctObject(v)
    ensures var r := PathlessKey(env, w, kind, key, v);
            r.Ok? ==> Effect(env.rt, w, r.value, KeyLocs({Fold(key)}))
  {
    hide Canonical, Effect, PathlessAttr, DistinctFolds, FoldedNames, Sound, ResolvePath, LocOf, NamespaceAttr, SeparateSchemas, FlatType, NamesValid;
    var r := PathlessKey(env, w, kind, key, v);
    var ls := KeyLocs({Fold(key)});
    if r.Ok? {
      if r.value == w {
        NoEffect(env.rt, w, ls);
      } else if FindSchema(env.rt.exts, key).Some? {
        var ext := FindSchema(env.rt.exts, key).value;
        var keys := SortedKeys(v.members.Keys);
        ExtensionEffect(env, w, kind, key, ext, v.members, keys);
        UrnByFold(env.rt, ext, key);
        assert Fold(key) != "" by { assert |Fold(key)| == |key|; }
        assert MemberLocs(Fold(key), FoldedNames(keys)) <= ls;
        EffectWiden(env.rt, w, r.value, MemberLocs(Fold(key), FoldedNames(keys)), ls);
      } else {
        var attr := NamespaceAttr(env.rt, "", key).value;
        PathlessAttrWrites(env, w, kind, key, attr, v);
        KeyResolves(env.rt, key);
        WritesEffect(env, w, key, r, ResolvePath(env.rt, key).value);
        EffectWiden(env.rt, w, r.value, iset{Loc("", Fold(key))}, ls);
      }
    }
  }

  predicate DistinctMembers(obj: Elem, keys: seq<string>) {
    DistinctFolds(keys) && forall k <- keys :: k in obj && DistinctObject(obj[k])
  }

  lemma {:induction false} KeysEffect(env: Env, w: Work, kind: OpKind, obj: Elem, keys: seq<string>)
    requires Regular(env.rt) && Canonical(env.rt, w.doc) && DistinctMembers(obj, keys)
    ensures var r := PathlessKeys(env, w, kind, obj, keys);
            r.Ok? ==> Effect(env.rt, w, r.value, KeyLocs(FoldedNames(keys)))
    decreases |keys|
  {
    hide Regular, Canonical, Effect, PathlessKey, DistinctFolds, FoldedNames, DistinctObject;
    if keys == [] {
      NoEffect(env.rt, w, KeyLocs(FoldedNames(keys)));
    } else {
      DistinctTail(keys);
      var r1 := PathlessKey(env, w, kind, keys[0], obj[keys[0]]);
      KeyEffect(env, w, kind, keys[0], obj[keys[0]]);
      if r1.Ok? {
        var here, there := KeyLocs({Fold(keys[0])}), KeyLocs(FoldedNames(keys[1..]));
        EffectCanonical(env.rt, w, r1.value, here);
        KeysEffect(env, r1.value, kind, obj, keys[1..]);
        var rest := PathlessKeys(env, r1.value, kind, obj, keys[1..]);
        if rest.Ok? {
          EffectThen(env.rt, w, r1.value, rest.value, here, there);
          assert here + there == KeyLocs(FoldedNames(keys));
        }
      }
    }
  }

  // ----- Whole runs -----

  /** Within every object a pathless operation carries, no two member names fold alike. */
  predicate DistinctOp(op: Op) {
    op.path.None? && op.value.Obj? ==> DistinctMembers(op.value.members, SortedKeys(op.value.members.Keys))
  }

  predicate GoodOp(op: Op) {
    ParsedOp(op) && DistinctOp(op)
  }

  /** Every accepted operation keeps the document canonical and the metadata untouched, and
      raises Changed exactly when it changed the document. */
  lemma {:induction false} OpEffect(env: Env, w: Work, op: Op)
    requires Regular(env.rt) && Canonical(env.rt, w.doc) && GoodOp(op)
    ensures var r := ApplyOp(env, w, op);
            r.Ok? ==>
              && Canonical(env.rt, r.value.doc)
              && r.value.doc.meta == w.doc.meta
              && (r.value.changed <==> w.changed || !SameDoc(w.doc, r.value.doc))
  {
    hide Regular, Canonical, ParsedPath, Pathed, PathlessKeys, DistinctMembers, SameDoc, TargetLoc;
    if op.path.Some? {
      PathedEffect(env, w, op, op.path.value);
    } else if op.value.Obj? {
      KeysEffect(env, w, op.kind, op.value.members, SortedKeys(op.value.members.Keys));
    }
  }

  /** The states an accepted run passes through, the first and the last included. */
  function Trace(env: Env, w: Work, ops: seq<Op>): (t: seq<Work>)
    requires ApplyOps(env, w, ops).Ok?
    ensures |t| == |ops| + 1 && t[0] == w && t[|ops|] == ApplyOps(env, w, ops).value
    ensures forall i :: 0 <= i < |ops| ==> ApplyOp(env, t[i], ops[i]) == Ok(t[i + 1])
    decreases |ops|
  {
    hide ApplyOp;
    if ops == [] then [w]
    else
      var w1 := ApplyOp(env, w, ops[0]).value;
      var rest := Trace(env, w1, ops[1..]);
      assert forall i :: 1 <= i < |ops| ==> ops[i] == ops[1..][i - 1];
      [w] + rest
  }

  ghost predicate Moved(t: seq<Work>, i: nat)
    requires i + 1 < |t|
  {
    !SameDoc(t[i].doc, t[i + 1].doc)
  }

  /** Some step among the first n altered the document. */
  ghost predicate SomeMoved(t: seq<Work>, n: nat)
    requires n < |t|
  {
    exists i: nat :: i < n && Moved(t, i)
  }

  /** Result.Changed is true exactly when some operation of the sequence altered the working
      copy; when it is false the result equals the input, up to the offsets of dateTimes. */
  lemma {:induction false} ChangedIff(env: Env, d: Doc, ops: seq<Op>)
    requires Regular(env.rt) && Canonical(env.rt, d) && forall op <- ops :: GoodOp(op)
    ensures var r := Apply(env, d, ops);
            r.Ok? ==>
              var t := Trace(env, Work(d, false), ops);
              && (r.value.changed <==> SomeMoved(t, |ops|))
              && (!r.value.changed ==> SameDoc(d, r.value.doc))
  {
    hide Regular, Canonical, GoodOp, ApplyOps, ApplyOp, SameDoc, SomeMoved;
    var r := Apply(env, d, ops);
    if r.Ok? {
      var t := Trace(env, Work(d, false), ops);
      RunChanged(env, t, ops, |ops|);
      assert t[|ops|] == r.value;
    }
  }

  lemma {:induction false} SomeMovedStep(t: seq<Work>, n: nat)
    requires 0 < n < |t|
    ensures SomeMoved(t, n) <==> SomeMoved(t, n - 1) || Moved(t, n - 1)
  {
    hide Moved;
    if SomeMoved(t, n) {
      var i: nat :| i < n && Moved(t, i);
      assert i < n - 1 ==> SomeMoved(t, n - 1);
    }
  }

  lemma {:induction false} RunChanged(env: Env, t: seq<Work>, ops: seq<Op>, n: nat)
    requires Regular(env.rt) && n <= |ops| && |t| == |ops| + 1
    requires Canonical(env.rt, t[0].doc) && !t[0].changed
    requires forall op <- ops :: GoodOp(op)
    requires forall i :: 0 <= i < |ops| ==> ApplyOp(env, t[i], ops[i]) == Ok(t[i + 1])
    ensures Canonical(env.rt, t[n].doc) && t[n].doc.meta == t[0].doc.meta
    ensures t[n].changed <==> SomeMoved(t, n)
    ensures !t[n].changed ==> SameDoc(t[0].doc, t[n].doc)
  {
    hide Regular, Canonical, GoodOp, ApplyOp, SameDoc;
    if n == 0 {
      SameDocSelf(env.rt, t[0].doc);
    } else {
      RunChanged(env, t, ops, n - 1);
      assert ops[n - 1] in ops;
      OpEffect(env, t[n - 1], ops[n - 1]);
      assert t[n].changed <==> t[n - 1].changed || Moved(t, n - 1);
      SomeMovedStep(t, n);
      if !t[n].changed {
        SameDocTrans(t[0].doc, t[n - 1].doc, t[n].doc);
      }
    }
  }

  // ----- An operation that leaves the resource as it is -----

  /** The Changed flag a pathed operation starts from has no say in what it does. */
  lemma {:induction false} FlagPathed(env: Env, d: Doc, x: bool, y: bool, op: Op, p: F.Path)
    requires op.path == Some(p)
    ensures var r, s := ApplyOp(env, Work(d, x), op), ApplyOp(env, Work(d, y), op);
            if r.Ok? then s.Ok? && s.value.doc == r.value.doc else s == r
  {
    hide OpTarget, Coerce, AppendNew, Get, Set, ValuesEqual, Matching, EditElems, Demoted, CollectEq, AttrPathText, SubPathText;
  }

  /** Applied on its own, an accepted pathed operation that leaves the document as it is reports
      that nothing changed. */
  lemma {:induction false} ReportsNothing(env: Env, w: Work, op: Op, p: F.Path)
    requires Regular(env.rt) && ParsedPath(p) && Canonical(env.rt, w.doc) && op.path == Some(p)
    requires ApplyOp(env, w, op).Ok? ==> ApplyOp(env, w, op).value.doc == w.doc
    ensures PatchSpec.Apply(env, w.doc, [op]) == if ApplyOp(env, w, op).Ok? then Ok(Work(w.doc, false)) else ApplyOp(env, w, op)
  {
    hide Regular, ParsedPath, Canonical, Pathed, SameDoc, TargetLoc;
    FlagPathed(env, w.doc, w.changed, false, op, p);
    PathedEffect(env, Work(w.doc, false), op, p);
    SameDocSelf(env.rt, w.doc);
    OneOp(env, Work(w.doc, false), op);
  }

  lemma {:induction false} AppliedCanonical(env: Env, w: Work, op: Op, p: F.Path)
    requires Regular(env.rt) && ParsedPath(p) && Canonical(env.rt, w.doc) && op.path == Some(p)
    ensures var r := ApplyOp(env, w, op); r.Ok? ==> Canonical(env.rt, r.value.doc)
  {
    hide Regular, ParsedPath, Canonical, Pathed, SameDoc, TargetLoc;
    PathedEffect(env, w, op, p);
  }

  lemma {:induction false} OneOp(env: Env, w: Work, op: Op)
    ensures ApplyOps(env, w, [op]) == ApplyOp(env, w, op)
  {
    hide ApplyOp;
    assert [op][1..] == [];
    var r := ApplyOp(env, w, op);
    if r.Ok? { assert ApplyOps(env, r.value, []) == r; }
  }
}
