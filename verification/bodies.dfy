/** Which JSON bodies decode to resources, and to which ones: member by member, what a declared
    attribute takes of what the body gives for it (scim/codec.go). */
module Bodies {
  import opened Text
  import opened Schema
  import opened Values
  import opened Paths
  import opened Documents
  import opened DocumentFacts
  import opened PatchFacts
  import opened StoreState
  import opened Codec

  /** The attribute a member of the body is for, if the client may supply it. */
  function Taker(rt: ResourceType, drop: bool, l: Loc): Option<Attribute> {
    var a := Declared(rt, l);
    if a.None? || DerivedLoc(rt, l) || (drop && a.value.access == ReadOnly) then None else a
  }

  /** A member no attribute takes always fits. */
  predicate Fits(lx: Lexicon, a: Option<Attribute>, v: Value) {
    a.Some? ==> Coerce(lx, a.value, v).Ok?
  }

  /** What the attribute stores for the member. */
  function Taken(lx: Lexicon, a: Option<Attribute>, v: Value): Option<Value> {
    if a.None? || Coerce(lx, a.value, v).Err? || Coerce(lx, a.value, v).value.Nil? then None else Some(Coerce(lx, a.value, v).value)
  }

  predicate TextFits(m: Elem, k: string) {
    k in m ==> m[k].Nil? || m[k].Str?
  }

  predicate TimeFits(lx: Lexicon, m: Elem, k: string) {
    k in m ==> m[k].Nil? || CoerceScalar(lx, TDateTime, m[k]).Ok?
  }

  /** The metadata a client supplies: null, or an object whose fields are texts and times or null. */
  predicate MetaFits(lx: Lexicon, v: Value) {
    v.Nil? || (v.Obj? && TextFits(v.members, "resourcetype") && TextFits(v.members, "location") && TextFits(v.members, "version")
               && TimeFits(lx, v.members, "created") && TimeFits(lx, v.members, "lastmodified"))
  }

  /** An extension's object, whose members go to the attributes the extension declares. */
  predicate ExtensionFits(lx: Lexicon, rt: ResourceType, drop: bool, u: string, v: Value) {
    v.Nil? || (v.Obj? && forall k <- v.members.Keys :: Fits(lx, Taker(rt, drop, Loc(u, k)), v.members[k]))
  }

  /** The body is one the resource type takes. */
  predicate BodyFits(lx: Lexicon, rt: ResourceType, drop: bool, m: Elem) {
    && (forall k <- m.Keys :: Fits(lx, Taker(rt, drop, Loc("", k)), m[k]))
    && (forall x <- rt.exts :: Fold(x.id) in m ==> ExtensionFits(lx, rt, drop, Fold(x.id), m[Fold(x.id)]))
    && (drop || "meta" !in m || MetaFits(lx, m["meta"]))
  }

  lemma {:induction false} CoreMember(lx: Lexicon, rt: ResourceType, drop: bool, k: string, v: Value)
    requires StoreType(rt) && Fold(k) == k
    ensures var (r, a) := (AttrPart(lx, rt, drop, k, v), Taker(rt, drop, Loc("", k)));
            && (r.Ok? <==> Fits(lx, a, v))
            && (r.Ok? ==> Taken(lx, a, v) == if r.value.Nil? then None else Some(r.value))
  {
    hide StoreType, AttrPart, Coerce, Declared;
    AttrLookup(lx, rt, drop, k, v);
    DerivedIs(rt, k);
  }

  lemma {:induction false} DerivedIs(rt: ResourceType, k: string)
    requires StoreType(rt)
    ensures DerivedLoc(rt, Loc("", k)) <==> k == SCHEMAS || k == META
  {
    hide Regular;
    SchemasAndMeta();
    FindByFold(rt.core.attrs, COMMON[2].name, META);
    FindByFold(rt.core.attrs, COMMON[3].name, SCHEMAS);
  }

  lemma {:induction false} SchemasAndMeta()
    ensures COMMON[2] in COMMON && COMMON[3] in COMMON
    ensures Fold(COMMON[2].name) == Fold(META) && Fold(COMMON[3].name) == Fold(SCHEMAS)
  {
  }

  lemma {:induction false} EntryMember(lx: Lexicon, rt: ResourceType, drop: bool, x: SchemaDef, k: string, v: Value)
    requires StoreType(rt) && x in rt.exts
    ensures var (r, a) := (DecodeEntry(lx, drop, x.attrs, k, v), Taker(rt, drop, Loc(Fold(x.id), k)));
            && (r.Ok? <==> Fits(lx, a, v)) && (r.Ok? ==> Taken(lx, a, v) == if r.value.Nil? then None else Some(r.value))
  {
    hide Coerce, FlatType, NamesValid, TextsFree;
    OwnSchema(rt, x);
    FoldIdempotent(x.id);
    FindSchemaByFold(rt.exts, x.id, Fold(x.id));
    UrnByFold(rt, x, x.id);
    assert |Fold(x.id)| == |x.id|;
  }

  lemma {:induction false} ExtensionMember(lx: Lexicon, rt: ResourceType, drop: bool, x: SchemaDef, v: Value)
    requires StoreType(rt) && x in rt.exts
    ensures var (r, u) := (ExtPart(lx, rt, drop, Fold(x.id), v), Fold(x.id));
            && (r.Ok? <==> ExtensionFits(lx, rt, drop, u, v))
            && (r.Ok? ==> forall k: string :: Lookup(r.value, k) == if v.Obj? && k in v.members then Taken(lx, Taker(rt, drop, Loc(u, k)), v.members[k]) else None)
  {
    hide StoreType, DecodeEntry, Fits, Taken, Taker;
    KeyOfExtension(rt, x);
    if v.Obj? {
      forall k <- v.members.Keys
        ensures var (e, a) := (DecodeEntry(lx, drop, x.attrs, k, v.members[k]), Taker(rt, drop, Loc(Fold(x.id), k)));
                && (e.Ok? <==> Fits(lx, a, v.members[k])) && (e.Ok? ==> Taken(lx, a, v.members[k]) == if e.value.Nil? then None else Some(e.value))
      {
        EntryMember(lx, rt, drop, x, k, v.members[k]);
      }
    }
  }

  lemma {:induction false} KeyOfExtension(rt: ResourceType, x: SchemaDef)
    requires StoreType(rt) && x in rt.exts
    ensures UrnKey(Fold(x.id)) && FindSchema(rt.exts, Fold(x.id)) == Some(x)
  {
    hide FlatType, NamesValid, TextsFree;
    OwnSchema(rt, x);
    FoldIdempotent(x.id);
    FindSchemaByFold(rt.exts, x.id, Fold(x.id));
  }

  /** A key that names no extension adds none. */
  lemma {:induction false} OtherMember(lx: Lexicon, rt: ResourceType, drop: bool, k: string, v: Value)
    requires Fold(k) == k && forall x <- rt.exts :: Fold(x.id) != k
    ensures ExtPart(lx, rt, drop, k, v) == Ok(map[])
  {
  }

  lemma {:induction false} MetaIff(lx: Lexicon, v: Value)
    ensures MetaPart(lx, v).Ok? <==> MetaFits(lx, v)
  {
    hide CoerceScalar;
    TimesOnly(lx);
  }

  lemma {:induction false} TimesOnly(lx: Lexicon)
    ensures forall v: Value :: CoerceScalar(lx, TDateTime, v).Ok? ==> CoerceScalar(lx, TDateTime, v).value.Time?
    ensures CoerceScalar(lx, TDateTime, Nil).Err?
  {
  }

  lemma {:induction false} EntriesFit(lx: Lexicon, rt: ResourceType, drop: bool, k: string, v: Value)
    requires StoreType(rt) && Fold(k) == k
    ensures EntryOk(lx, rt, drop, k, v) <==>
            && Fits(lx, Taker(rt, drop, Loc("", k)), v)
            && (forall x <- rt.exts :: Fold(x.id) == k ==> ExtensionFits(lx, rt, drop, k, v))
            && (k == "meta" && !drop ==> MetaFits(lx, v))
  {
    hide StoreType, AttrPart, ExtPart, MetaPart, MetaFits, Fits, Taker, ExtensionFits;
    CoreMember(lx, rt, drop, k, v);
    MetaIff(lx, v);
    if x :| x in rt.exts && Fold(x.id) == k {
      ExtensionMember(lx, rt, drop, x, v);
    } else {
      OtherMember(lx, rt, drop, k, v);
    }
  }

  /** A body decodes exactly when each member fits the attribute, extension or metadata it is for;
      members nothing takes are ignored. */
  lemma {:induction false} BodyIff(lx: Lexicon, rt: ResourceType, drop: bool, m: Elem)
    requires StoreType(rt) && FoldedBody(m)
    ensures Decodes(lx, rt, drop, m) <==> BodyFits(lx, rt, drop, m)
  {
    hide StoreType, EntryOk, MetaFits, Fits, Taker, ExtensionFits;
    forall k <- m.Keys
      ensures EntryOk(lx, rt, drop, k, m[k]) <==>
              && Fits(lx, Taker(rt, drop, Loc("", k)), m[k])
              && (forall x <- rt.exts :: Fold(x.id) == k ==> ExtensionFits(lx, rt, drop, k, m[k]))
              && (k == "meta" && !drop ==> MetaFits(lx, m[k]))
    {
      EntriesFit(lx, rt, drop, k, m[k]);
    }
  }

  /** The fields of the metadata read. */
  predicate MetaTaken(lx: Lexicon, v: Value, t: Meta) {
    if !v.Obj? then t == NO_META
    else
      && t.resourceType == TextIn(v.members, "resourcetype") && t.location == TextIn(v.members, "location") && t.version == TextIn(v.members, "version")
      && t.created == TimeIn(lx, v.members, "created") && t.lastModified == TimeIn(lx, v.members, "lastmodified")
  }

  function TextIn(m: Elem, k: string): string {
    if k in m && m[k].Str? then m[k].s else ""
  }

  function TimeIn(lx: Lexicon, m: Elem, k: string): Option<Moment> {
    if k !in m then None
    else
      var t := CoerceScalar(lx, TDateTime, m[k]);
      if t.Ok? && t.value.Time? then Some(t.value.t) else None
  }

  lemma {:induction false} MetaIs(lx: Lexicon, v: Value)
    requires MetaPart(lx, v).Ok?
    ensures MetaTaken(lx, v, MetaPart(lx, v).value)
  {
    hide CoerceScalar;
    TimesOnly(lx);
  }

  /** The resource a body decodes to: at every location what its attribute takes of the member the
      body has for it, and the metadata unless readOnly attributes are dropped. */
  lemma {:induction false} BodyGives(lx: Lexicon, rt: ResourceType, drop: bool, m: Elem)
    requires StoreType(rt) && FoldedBody(m) && BodyFits(lx, rt, drop, m)
    ensures var d := DecodedDoc(lx, rt, drop, m);
            && Decodes(lx, rt, drop, m)
            && (forall k: string :: Slot(d, Loc("", k)) == if k in m then Taken(lx, Taker(rt, drop, Loc("", k)), m[k]) else None)
            && (forall x <- rt.exts, k: string :: Slot(d, Loc(Fold(x.id), k)) ==
                  if Fold(x.id) in m && m[Fold(x.id)].Obj? && k in m[Fold(x.id)].members then Taken(lx, Taker(rt, drop, Loc(Fold(x.id), k)), m[Fold(x.id)].members[k]) else None)
            && (forall u <- d.exts.Keys :: exists x <- rt.exts :: Fold(x.id) == u)
            && (if drop || "meta" !in m then d.meta == NO_META else MetaTaken(lx, m["meta"], d.meta))
  {
    hide StoreType, Decodes, DecodedDoc, FoldedBody, BodyFits, Taker, Taken, Slot, MetaTaken;
    BodyIff(lx, rt, drop, m);
    var d := DecodedDoc(lx, rt, drop, m);
    forall k: string ensures Slot(d, Loc("", k)) == if k in m then Taken(lx, Taker(rt, drop, Loc("", k)), m[k]) else None {
      CoreGives(lx, rt, drop, m, k);
    }
    forall x <- rt.exts, k: string
      ensures Slot(d, Loc(Fold(x.id), k)) ==
              if Fold(x.id) in m && m[Fold(x.id)].Obj? && k in m[Fold(x.id)].members then Taken(lx, Taker(rt, drop, Loc(Fold(x.id), k)), m[Fold(x.id)].members[k]) else None
    {
      ExtensionGives(lx, rt, drop, m, x, k);
    }
    DeclaredOnly(lx, rt, drop, m);
    MetaGives(lx, rt, drop, m);
  }

  lemma {:induction false} CoreGives(lx: Lexicon, rt: ResourceType, drop: bool, m: Elem, k: string)
    requires StoreType(rt) && FoldedBody(m) && Decodes(lx, rt, drop, m)
    ensures Slot(DecodedDoc(lx, rt, drop, m), Loc("", k)) == if k in m then Taken(lx, Taker(rt, drop, Loc("", k)), m[k]) else None
  {
    hide StoreType, DecodedDoc, Slot, Taken, Taker, AttrPart, Fits;
    DecodedSlot(lx, rt, drop, m, Loc("", k));
    if k in m {
      assert EntryOk(lx, rt, drop, k, m[k]);
      CoreMember(lx, rt, drop, k, m[k]);
    }
  }

  lemma {:induction false} ExtensionGives(lx: Lexicon, rt: ResourceType, drop: bool, m: Elem, x: SchemaDef, k: string)
    requires StoreType(rt) && FoldedBody(m) && Decodes(lx, rt, drop, m) && x in rt.exts
    ensures var u := Fold(x.id);
            Slot(DecodedDoc(lx, rt, drop, m), Loc(u, k)) == if u in m && m[u].Obj? && k in m[u].members then Taken(lx, Taker(rt, drop, Loc(u, k)), m[u].members[k]) else None
  {
    hide StoreType, DecodedDoc, Slot, Taken, Taker, ExtPart, ExtensionFits;
    var u := Fold(x.id);
    KeyOfExtension(rt, x);
    DecodedSlot(lx, rt, drop, m, Loc(u, k));
    if u in m {
      assert EntryOk(lx, rt, drop, u, m[u]);
      ExtensionMember(lx, rt, drop, x, m[u]);
    }
  }

  lemma {:induction false} DeclaredOnly(lx: Lexicon, rt: ResourceType, drop: bool, m: Elem)
    requires FoldedBody(m)
    ensures forall u <- DecodedDoc(lx, rt, drop, m).exts.Keys :: exists x <- rt.exts :: Fold(x.id) == u
  {
    hide Attrs, MetaEntry, ExtPart;
    forall u <- DecodedDoc(lx, rt, drop, m).exts.Keys ensures exists x <- rt.exts :: Fold(x.id) == u {
      if forall x <- rt.exts :: Fold(x.id) != u { OtherMember(lx, rt, drop, u, m[u]); }
    }
  }

  lemma {:induction false} MetaGives(lx: Lexicon, rt: ResourceType, drop: bool, m: Elem)
    requires Decodes(lx, rt, drop, m)
    ensures var d := DecodedDoc(lx, rt, drop, m);
            if drop || "meta" !in m then d.meta == NO_META else MetaTaken(lx, m["meta"], d.meta)
  {
    hide Attrs, Exts, AttrPart, ExtPart, MetaPart, MetaTaken;
    NoMeta(lx);
    if !drop && META in m {
      assert EntryOk(lx, rt, drop, META, m[META]);
      MetaIs(lx, m[META]);
    }
  }
}
