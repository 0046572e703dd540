/** What Get and Set reach, stated on the declarations: which value a qualified name reads, what the
    derived attributes show, and what writing a whole extension leaves (scim/resource.go). */
module Reading {
  import opened Text
  import opened Schema
  import opened Values
  import opened Paths
  import opened Documents
  import opened DocumentFacts
  import opened PatchFacts
  import opened StoreState
  import F = FilterAst
  import S = FilterScanner
  import G = FilterGrammar
  import L = FilterLexing

  // ----- Names -----

  /** The member a name selects of a value, or the value itself. */
  function Part(v: Option<Value>, sub: string): Option<Value> {
    if sub == "" || v.None? then v else if v.value.Cplx? && Fold(sub) in v.value.elem then Some(v.value.elem[Fold(sub)]) else None
  }

  /** Nothing, or a member of the single-valued complex attribute. */
  predicate SubOf(a: Attribute, sub: string) {
    sub == "" || (a.typ == TComplex && !a.multi && FindAttribute(a.subs, sub).Some?)
  }

  /** The text of a core attribute or of its member, in any case and with or without the schema's
      own identifier, reads the core map; qualified by an extension's identifier it reads that
      extension's map. */
  lemma {:induction false} DeclaredReads(rt: ResourceType, d: Doc, p: F.Path, a: Attribute)
    requires StoreType(rt) && ParsedPath(p) && SubOf(a, p.sub)
    ensures FindAttribute(rt.core.attrs, p.attr) == Some(a) && (p.urn == "" || Fold(p.urn) == Fold(rt.core.id)) ==>
              Get(rt, d, SubPathText(p)) == Part(Lookup(d.attrs, Fold(p.attr)), p.sub)
    ensures forall x <- rt.exts :: Fold(p.urn) == Fold(x.id) && FindAttribute(x.attrs, p.attr) == Some(a) ==>
              Get(rt, d, SubPathText(p)) == if Fold(p.urn) in d.exts then Part(Lookup(d.exts[Fold(p.urn)], Fold(p.attr)), p.sub) else None
  {
    hide StoreType, ResolveTarget, ResolvePath, SubPathText, Regular, ParsedPath, SubOf;
    if FindAttribute(rt.core.attrs, p.attr) == Some(a) && (p.urn == "" || Fold(p.urn) == Fold(rt.core.id)) {
      CoreTarget(rt, p, a);
      TargetReads(rt, d, p, a, "");
    }
    forall x <- rt.exts | Fold(p.urn) == Fold(x.id) && FindAttribute(x.attrs, p.attr) == Some(a)
      ensures Get(rt, d, SubPathText(p)) == if Fold(p.urn) in d.exts then Part(Lookup(d.exts[Fold(p.urn)], Fold(p.attr)), p.sub) else None
    {
      ExtensionTarget(rt, p, a, x);
      TargetReads(rt, d, p, a, x.id);
    }
  }

  lemma {:induction false} CoreTarget(rt: ResourceType, p: F.Path, a: Attribute)
    requires StoreType(rt) && FindAttribute(rt.core.attrs, p.attr) == Some(a) && SubOf(a, p.sub)
    requires p.urn == "" || Fold(p.urn) == Fold(rt.core.id)
    ensures ResolveTarget(rt, p) == Some((a, if p.sub == "" then None else FindAttribute(a.subs, p.sub)))
    ensures HomeUrn(rt, p.urn) == "" && (p.urn != "" ==> HomeId(rt, p.urn).Some?)
  {
    hide StoreType;
  }

  lemma {:induction false} ExtensionTarget(rt: ResourceType, p: F.Path, a: Attribute, x: SchemaDef)
    requires StoreType(rt) && x in rt.exts && Fold(p.urn) == Fold(x.id) && FindAttribute(x.attrs, p.attr) == Some(a) && SubOf(a, p.sub)
    ensures ResolveTarget(rt, p) == Some((a, if p.sub == "" then None else FindAttribute(a.subs, p.sub)))
    ensures HomeId(rt, p.urn).Some? && HomeUrn(rt, p.urn) == x.id && x.id != ""
  {
    hide FlatType, NamesValid, TextsFree;
    OwnSchema(rt, x);
    FindSchemaByFold(rt.exts, p.urn, x.id);
    UrnByFold(rt, x, p.urn);
  }

  /** Both resolvers reach the attribute, and reading follows. */
  lemma {:induction false} TargetReads(rt: ResourceType, d: Doc, p: F.Path, a: Attribute, home: string)
    requires StoreType(rt) && ParsedPath(p) && SubOf(a, p.sub)
    requires ResolveTarget(rt, p) == Some((a, if p.sub == "" then None else FindAttribute(a.subs, p.sub)))
    requires (p.urn != "" ==> HomeId(rt, p.urn).Some?) && HomeUrn(rt, p.urn) == home
    requires Fold(a.name) == Fold(p.attr) && (home == "" ==> FindAttribute(rt.core.attrs, p.attr).Some?) && (home != "" ==> Fold(home) == Fold(p.urn))
    ensures var held := if home == "" then Some(d.attrs) else if Fold(p.urn) in d.exts then Some(d.exts[Fold(p.urn)]) else None;
            Get(rt, d, SubPathText(p)) == if held.None? then None else Part(Lookup(held.value, Fold(p.attr)), p.sub)
  {
    hide ResolvePath, ResolveTarget, SubPathText, StoreType, HomeId, HomeUrn, ParsedPath;
    TargetResolves(rt, p, a, home);
  }

  lemma {:induction false} TargetResolves(rt: ResourceType, p: F.Path, a: Attribute, home: string)
    requires StoreType(rt) && ParsedPath(p) && SubOf(a, p.sub)
    requires ResolveTarget(rt, p) == Some((a, if p.sub == "" then None else FindAttribute(a.subs, p.sub)))
    requires (p.urn != "" ==> HomeId(rt, p.urn).Some?) && HomeUrn(rt, p.urn) == home
    requires (home == "" ==> FindAttribute(rt.core.attrs, p.attr).Some?) && (home != "" ==> Fold(home) == Fold(p.urn))
    ensures ResolvePath(rt, SubPathText(p)) == Ok(Resolved(home, Some(a), if p.sub == "" then None else FindAttribute(a.subs, p.sub), false))
  {
    hide ResolvePath, ResolveTarget, SubPathText, AttrPathText, SeparateSchemas, HomeId, HomeUrn, FlatType, NamesValid, G.PlainPath, Hidden, FindAttribute;
    ResolversAgree(rt, p);
    NotHidden(rt, p);
    assert |Fold(p.urn)| == |p.urn| && |Fold(home)| == |home|;
  }

  // ----- The derived attributes -----

  /** The extensions that hold data, by their places in the declaration. */
  predicate Holding(rt: ResourceType, d: Doc, at: seq<nat>) {
    && (forall i :: 0 <= i < |at| ==> at[i] < |rt.exts| && Fold(rt.exts[at[i]].id) in d.exts)
    && (forall i, j :: 0 <= i < j < |at| ==> at[i] < at[j])
    && forall k :: 0 <= k < |rt.exts| && Fold(rt.exts[k].id) in d.exts ==> k in at
  }

  function IdsAt(exts: seq<SchemaDef>, at: seq<nat>): seq<Value>
    requires forall i :: 0 <= i < |at| ==> at[i] < |exts|
  {
    seq(|at|, i requires 0 <= i < |at| => Str(exts[at[i]].id))
  }

  lemma {:induction false} HeldAt(rt: ResourceType, d: Doc, n: nat) returns (at: seq<nat>)
    requires n <= |rt.exts|
    ensures forall i :: 0 <= i < |at| ==> n <= at[i] < |rt.exts| && Fold(rt.exts[at[i]].id) in d.exts
    ensures forall i, j :: 0 <= i < j < |at| ==> at[i] < at[j]
    ensures forall k :: n <= k < |rt.exts| && Fold(rt.exts[k].id) in d.exts ==> k in at
    ensures ExtensionsHeld(rt.exts[n..], d) == IdsAt(rt.exts, at)
    decreases |rt.exts| - n
  {
    at := [];
    if n < |rt.exts| {
      at := HeldAt(rt, d, n + 1);
      assert rt.exts[n..][1..] == rt.exts[n + 1..];
      if Fold(rt.exts[n].id) in d.exts {
        assert IdsAt(rt.exts, [n] + at) == [Str(rt.exts[n].id)] + IdsAt(rt.exts, at);
        at := [n] + at;
      }
    }
  }

  /** schemas shows the core identifier, then those of the extensions that hold data, in the order
      of their declaration. */
  lemma {:induction false} SchemasShown(rt: ResourceType, d: Doc)
    requires StoreType(rt)
    ensures exists at :: Holding(rt, d, at) && Get(rt, d, "schemas") == Some(Slice(TString, [Str(rt.core.id)] + IdsAt(rt.exts, at)))
  {
    hide StoreType, ResolvePath, Sound;
    var at := HeldAt(rt, d, 0);
    assert rt.exts[0..] == rt.exts;
    assert Holding(rt, d, at);
    assert COMMON[3] in COMMON;
    CommonResolves(rt, COMMON[3]);
    SchemasNamed();
  }

  lemma SchemasNamed()
    ensures COMMON[3].name == "schemas" && FindAttribute(COMMON, "schemas").Some? && Fold("schemas") == "schemas"
  {
    assert COMMON[3] in COMMON;
  }

  /** The metadata fields show one by one under meta. */
  lemma {:induction false} MetaShown(rt: ResourceType, d: Doc)
    requires StoreType(rt)
    ensures Get(rt, d, "meta.resourceType") == if d.meta.resourceType == "" then None else Some(Str(d.meta.resourceType))
    ensures Get(rt, d, "meta.created") == if d.meta.created.None? then None else Some(Time(d.meta.created.value))
    ensures Get(rt, d, "meta.lastModified") == if d.meta.lastModified.None? then None else Some(Time(d.meta.lastModified.value))
    ensures Get(rt, d, "meta.location") == if d.meta.location == "" then None else Some(Str(d.meta.location))
    ensures Get(rt, d, "meta.version") == if d.meta.version == "" then None else Some(Str(d.meta.version))
  {
    hide *;
    FieldsNamed();
    MetaMember(rt, d, "resourceType", "resourcetype");
    MetaMember(rt, d, "created", "created");
    MetaMember(rt, d, "lastModified", "lastmodified");
    MetaMember(rt, d, "location", "location");
    MetaMember(rt, d, "version", "version");
    assert "meta." + "resourceType" == "meta.resourceType" && "meta." + "created" == "meta.created" && "meta." + "lastModified" == "meta.lastModified";
    assert "meta." + "location" == "meta.location" && "meta." + "version" == "meta.version";
    FieldsApart(d.meta);
  }

  predicate FieldName(name: string, key: string) {
    FindAttribute(COMMON[2].subs, name).Some? && Fold(name) == key && S.ValidAttrName(name)
  }

  lemma {:induction false} FieldNamed(i: nat, key: string)
    requires i < 5
    ensures var name := COMMON[2].subs[i].name;
            |name| == |key| && (forall j :: 0 <= j < |key| ==> FoldChar(name[j]) == key[j] && S.IsLetter(name[j])) && name != "" ==> FieldName(name, key)
  {
    hide FindAttribute, FoldChar;
    assert COMMON[2].subs[i] in COMMON[2].subs;
  }

  lemma {:induction false} FieldsNamed()
    ensures FieldName("resourceType", "resourcetype") && FieldName("created", "created") && FieldName("lastModified", "lastmodified")
    ensures FieldName("location", "location") && FieldName("version", "version")
  {
    hide FieldName;
    FieldNamed(0, "resourcetype");
    FieldNamed(1, "created");
    FieldNamed(2, "lastmodified");
    FieldNamed(3, "location");
    FieldNamed(4, "version");
  }

  lemma {:induction false} FieldsApart(m: Meta)
    ensures Lookup(MetaElem(m), "resourcetype") == if m.resourceType == "" then None else Some(Str(m.resourceType))
    ensures Lookup(MetaElem(m), "created") == if m.created.None? then None else Some(Time(m.created.value))
    ensures Lookup(MetaElem(m), "lastmodified") == if m.lastModified.None? then None else Some(Time(m.lastModified.value))
    ensures Lookup(MetaElem(m), "location") == if m.location == "" then None else Some(Str(m.location))
    ensures Lookup(MetaElem(m), "version") == if m.version == "" then None else Some(Str(m.version))
  {
    var (a, b, c, d, e) := ("resourcetype", "created", "lastmodified", "location", "version");
    assert |a| == 12 && |b| == 7 && |c| == 12 && |d| == 8 && |e| == 7 && a[0] != c[0] && b[0] != e[0];
  }

  lemma {:induction false} MetaMember(rt: ResourceType, d: Doc, name: string, key: string)
    requires StoreType(rt) && FieldName(name, key)
    ensures Get(rt, d, "meta." + name) == Lookup(MetaElem(d.meta), key)
  {
    hide S.ValidAttrName, ResolvePath, StoreType, MetaElem, FindAttribute;
    MetaNamed();
    MetaResolves(rt, name, key);
    assert FindAttribute(COMMON[2].subs, name).value in COMMON[2].subs;
    if MetaElem(d.meta) == map[] { assert key !in MetaElem(d.meta); }
  }

  lemma {:induction false} MetaResolves(rt: ResourceType, name: string, key: string)
    requires StoreType(rt) && FieldName(name, key)
    ensures ResolvePath(rt, "meta." + name) == Ok(Resolved("", Some(COMMON[2]), FindAttribute(COMMON[2].subs, name), true))
  {
    hide S.ValidAttrName, ResolvePath, ResolveAttrExpr, Regular, FindAttribute, Shadowed;
    MetaNamed();
    assert COMMON[2] in COMMON;
    ResolveText(rt, "", "meta", name);
    MetaExpr(rt, name);
    assert "" + ("meta" + ("." + name)) == "meta." + name;
  }

  lemma {:induction false} MetaNamed()
    ensures COMMON[2].name == "meta" && Fold("meta") == META && META != SCHEMAS && S.ValidAttrName("meta")
    ensures FindAttribute(COMMON, "meta") == Some(COMMON[2]) && COMMON[2].typ == TComplex && !COMMON[2].multi
  {
    assert Fold("meta") == "meta" && |Fold(COMMON[0].name)| == 2 && |Fold(COMMON[1].name)| == 10;
    assert FindAttribute(COMMON, "meta") == FindAttribute(COMMON[1..], "meta") == FindAttribute(COMMON[2..], "meta");
  }

  lemma {:induction false} MetaExpr(rt: ResourceType, name: string)
    requires FindAttribute(rt.core.attrs, "meta").None? && S.ValidAttrName(name) && FindAttribute(COMMON[2].subs, name).Some?
    ensures ResolveAttrExpr(rt, "", "meta" + ("." + name)) == Ok(Resolved("", Some(COMMON[2]), FindAttribute(COMMON[2].subs, name), true))
  {
    hide S.ValidAttrName, SplitAttrExpr, FindAttribute;
    MetaNamed();
    SplitExprNames("meta", name);
    L.ValidNameChars(name);
  }

  // ----- Writing a whole extension -----

  /** What the members of an object leave at a key of the extension. */
  function Written(lx: Lexicon, x: SchemaDef, m: Elem, key: string): Option<Value> {
    var a := FindAttribute(x.attrs, key);
    if key !in m || a.None? then None
    else
      var cv := Coerce(lx, a.value, m[key]);
      if cv.Err? || cv.value.Nil? then None else Some(cv.value)
  }

  /** Every member that names an attribute coerces for it. */
  predicate MembersFit(lx: Lexicon, x: SchemaDef, m: Elem) {
    forall k <- m.Keys :: FindAttribute(x.attrs, k).Some? ==> Coerce(lx, FindAttribute(x.attrs, k).value, m[k]).Ok?
  }

  /** No identifier but x's own is the whole text, so the longest that fits is x's. */
  lemma {:induction false} WholeWins(best: string, folded: string, exts: seq<SchemaDef>, x: SchemaDef)
    requires folded == Fold(x.id) && x in exts && forall y <- exts :: y != x ==> Fold(y.id) != folded
    requires |best| < |folded| || best == x.id
    ensures BestUrn(best, folded, exts) == x.id
    decreases |exts|
  {
    hide Prefixes, UrnCandidate, Fold;
    var y := exts[0];
    CandidateIs(best, folded, y.id);
    if Prefixes(y.id, folded) { PrefixLength(y.id, folded, x.id); }
    WholePrefixes(x.id, x.id);
    var next := UrnCandidate(best, folded, y.id);
    if x in exts[1..] {
      WholeWins(next, folded, exts[1..], x);
    } else {
      assert y == x;
      NothingLonger(next, folded, exts[1..]);
    }
  }

  lemma PrefixLength(id: string, folded: string, own: string)
    requires Prefixes(id, folded) && folded == Fold(own)
    ensures |id| <= |folded| && (|id| == |folded| ==> Fold(id) == folded)
  {
    FoldIdempotent(own);
    assert |id| == |folded| ==> folded[..|id|] == folded;
  }

  lemma {:induction false} NothingLonger(best: string, folded: string, exts: seq<SchemaDef>)
    requires |best| == |folded|
    ensures BestUrn(best, folded, exts) == best
    decreases |exts|
  {
    if exts != [] { NothingLonger(best, folded, exts[1..]); }
  }

  /** An extension's identifier alone names the extension. */
  lemma {:induction false} IdentifierResolves(rt: ResourceType, x: SchemaDef)
    requires StoreType(rt) && x in rt.exts
    ensures ResolvePath(rt, x.id) == Ok(Resolved(x.id, None, None, false))
  {
    hide Prefixes, UrnCandidate, FlatType, NamesValid, TextsFree, BestUrn;
    var folded := Fold(x.id);
    CandidateIs("", folded, rt.core.id);
    if Prefixes(rt.core.id, folded) { PrefixLength(rt.core.id, folded, x.id); }
    OwnIdentifier(rt, x);
    WholeWins(UrnCandidate("", folded, rt.core.id), folded, rt.exts, x);
  }

  lemma {:induction false} OwnIdentifier(rt: ResourceType, x: SchemaDef)
    requires StoreType(rt) && x in rt.exts
    ensures HasPrefix(Fold(x.id), "urn:") && x.id != "" && |Fold(x.id)| == |x.id| && Fold(x.id) != Fold(rt.core.id)
    ensures forall y <- rt.exts :: y != x ==> Fold(y.id) != Fold(x.id)
  {
    hide FlatType, NamesValid, TextsFree, Fold;
  }

  lemma {:induction false} EntryIs(lx: Lexicon, x: SchemaDef, m: Elem, key: string)
    requires key in m
    ensures var r := CoerceEntry(lx, x.attrs, key, m[key]);
            && (r.Ok? <==> (FindAttribute(x.attrs, key).Some? ==> Coerce(lx, FindAttribute(x.attrs, key).value, m[key]).Ok?))
            && (r.Ok? ==> Written(lx, x, m, key) == if r.value.Nil? then None else Some(r.value))
  {
    hide Coerce, FindAttribute;
  }

  lemma {:induction false} ContainerWritten(lx: Lexicon, x: SchemaDef, m: Elem)
    ensures var r := CoerceContainer(lx, x.attrs, m);
            && (r.Ok? <==> MembersFit(lx, x, m)) && (r.Err? ==> r == Err(InvalidValue))
            && (r.Ok? ==> forall key: string :: Lookup(r.value, key) == Written(lx, x, m, key))
  {
    hide Coerce, FindAttribute, CoerceEntry, Written;
    forall key <- m.Keys
      ensures var r := CoerceEntry(lx, x.attrs, key, m[key]);
              && (r.Ok? <==> (FindAttribute(x.attrs, key).Some? ==> Coerce(lx, FindAttribute(x.attrs, key).value, m[key]).Ok?))
              && (r.Ok? ==> Written(lx, x, m, key) == if r.value.Nil? then None else Some(r.value))
    {
      EntryIs(lx, x, m, key);
    }
    forall key: string | key !in m ensures Written(lx, x, m, key) == None { NotWritten(lx, x, m, key); }
  }

  lemma NotWritten(lx: Lexicon, x: SchemaDef, m: Elem, key: string)
    requires key !in m
    ensures Written(lx, x, m, key) == None
  {
  }

  /** Setting an extension by its identifier replaces all it held by the members of the object:
      null removes it, what is no object is refused, and so is one with a member that does not
      coerce; nothing of the old map survives and nothing outside it changes. */
  lemma {:induction false} ExtensionWritten(lx: Lexicon, rt: ResourceType, d: Doc, x: SchemaDef, v: Value)
    requires StoreType(rt) && x in rt.exts
    ensures var r := Set(lx, rt, d, x.id, v);
            && (r.Ok? <==> v.Nil? || (Source(v).Some? && MembersFit(lx, x, Source(v).value)))
            && (r.Err? ==> r == Err(InvalidValue))
            && (r.Ok? ==>
                  && r.value.meta == d.meta && r.value.attrs == d.attrs
                  && (forall u <- r.value.exts.Keys + d.exts.Keys :: u != Fold(x.id) ==> u in r.value.exts && u in d.exts && r.value.exts[u] == d.exts[u])
                  && forall key: string :: Slot(r.value, Loc(Fold(x.id), key)) == if v.Nil? then None else Written(lx, x, Source(v).value, key))
  {
    hide ResolvePath, StoreType, CoerceContainer, FindSchema, MembersFit, Written;
    IdentifierResolves(rt, x);
    OwnIdentifier(rt, x);
    FoundByIdentifier(rt, x);
    if Source(v).Some? { ContainerWritten(lx, x, Source(v).value); }
  }

  lemma FoundByIdentifier(rt: ResourceType, x: SchemaDef)
    requires StoreType(rt) && x in rt.exts
    ensures FindSchema(rt.exts, x.id) == Some(x)
  {
    OwnSchema(rt, x);
  }
}
