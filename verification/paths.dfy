/** Attribute notation: resolving a path text against a resource type (scim/path.go) and a
    parsed PATCH path against its schemas (patch/resolve.go). The two work differently, by the
    longest matching schema URN and by the last colon, and are shown to agree. */
module Paths {
  import opened Text
  import opened Schema
  import F = FilterAst
  import S = FilterScanner
  import G = FilterGrammar
  import L = FilterLexing

  /** What a path text denotes. urn is "" for the core namespace; attr is None only for a bare
      extension URN; common marks an attribute of COMMON. */
  datatype Resolved = Resolved(urn: string, attr: Option<Attribute>, sub: Option<Attribute>, common: bool)

  /** urnCandidate: the longer of best and the candidate, if the candidate prefixes the path. */
  function UrnCandidate(best: string, folded: string, candidate: string): string {
    if |candidate| <= |best| then best
    else if |folded| < |candidate| || Fold(folded[..|candidate|]) != Fold(candidate) then best
    else if |candidate| < |folded| && folded[|candidate|] != ':' then best
    else candidate
  }

  function BestUrn(best: string, folded: string, exts: seq<SchemaDef>): string
    decreases exts
  {
    if exts == [] then best else BestUrn(UrnCandidate(best, folded, exts[0].id), folded, exts[1..])
  }

  /** splitURNPrefix: the extension URN, the attribute expression, and whether the core URN
      was spelled out. */
  function SplitUrnPrefix(rt: ResourceType, path: string): (string, string, bool) {
    var folded := Fold(path);
    if !HasPrefix(folded, "urn:") then ("", path, false)
    else
      var best := BestUrn(UrnCandidate("", folded, rt.core.id), folded, rt.exts);
      if best == "" then ("", path, false)
      else
        var expr := if |best| < |path| then path[|best| + 1..] else "";
        if Fold(best) == Fold(rt.core.id) then ("", expr, true) else (best, expr, false)
  }

  /** splitAttrExpr: "attr" or "attr.sub". */
  function SplitAttrExpr(expr: string): Option<(string, string)> {
    var dot := FirstIndex(expr, '.');
    if dot.None? then (if expr == "" then None else Some((expr, "")))
    else
      var attr, sub := expr[..dot.value], expr[dot.value + 1..];
      if attr == "" || sub == "" || '.' in sub then None else Some((attr, sub))
  }

  function NamespaceAttr(rt: ResourceType, urn: string, name: string): Option<Attribute> {
    if urn == "" then
      var a := FindAttribute(rt.core.attrs, name);
      if a.Some? then a else FindAttribute(COMMON, name)
    else
      var s := FindSchema(rt.exts, urn);
      if s.None? then None else FindAttribute(s.value.attrs, name)
  }

  function ResolveAttrExpr(rt: ResourceType, urn: string, expr: string): (r: Result<Resolved>)
    ensures r.Err? ==> r.kind == InvalidPath
  {
    var parts := SplitAttrExpr(expr);
    if parts.None? then Err(InvalidPath)
    else
      var (name, subName) := parts.value;
      var attr := NamespaceAttr(rt, urn, name);
      if attr.None? then Err(InvalidPath)
      else
        var common := urn == "" && FindAttribute(rt.core.attrs, name).None?;
        if subName == "" then Ok(Resolved(urn, attr, None, common))
        else if attr.value.typ != TComplex || attr.value.multi then Err(InvalidPath)
        else
          var sub := FindAttribute(attr.value.subs, subName);
          if sub.None? then Err(InvalidPath) else Ok(Resolved(urn, attr, sub, common))
  }

  /** resolvePath. */
  function ResolvePath(rt: ResourceType, path: string): (r: Result<Resolved>)
    ensures r.Err? ==> r.kind == InvalidPath
  {
    if path == "" then Err(InvalidPath)
    else
      var (urn, expr, isCore) := SplitUrnPrefix(rt, path);
      if urn == "" && !isCore && HasPrefix(Fold(path), "urn:") then Err(InvalidPath)
      else if expr == "" then
        if urn == "" then Err(InvalidPath) else Ok(Resolved(urn, None, None, false))
      else ResolveAttrExpr(rt, urn, expr)
  }

  // ----- The PATCH engine's resolver -----

  /** namespaceAttrs. */
  function PatchNamespace(rt: ResourceType, urn: string): Option<seq<Attribute>> {
    if urn == "" || Fold(urn) == Fold(rt.core.id) then Some(rt.core.attrs)
    else
      var s := FindSchema(rt.exts, urn);
      if s.None? then None else Some(s.value.attrs)
  }

  /** resolveTarget: the attribute a parsed path names and its sub-attribute, if it has one. */
  function ResolveTarget(rt: ResourceType, p: F.Path): Option<(Attribute, Option<Attribute>)> {
    var attrs := PatchNamespace(rt, p.urn);
    if attrs.None? then None
    else
      var own := FindAttribute(attrs.value, p.attr);
      var attr := if own.None? && p.urn == "" then FindAttribute(COMMON, p.attr) else own;
      if attr.None? then None
      else if p.sub == "" then Some((attr.value, None))
      else if attr.value.typ != TComplex then None
      else
        var sub := FindAttribute(attr.value.subs, p.sub);
        if sub.None? then None else Some((attr.value, sub))
  }

  /** attrPathText and subPathText: the texts the engine hands to the resource. */
  function AttrPathText(p: F.Path): string { F.AttrText(p) }

  function SubPathText(p: F.Path): string { F.AttrText(p) + F.SubText(p) }

  // ----- Agreement -----

  predicate UrnShaped(id: string) {
    HasPrefix(Fold(id), "urn:")
  }

  /** The whole text is the identifier of a declared schema. */
  predicate Shadowed(rt: ResourceType, text: string) {
    Fold(text) == Fold(rt.core.id) || FindSchema(rt.exts, text).Some?
  }

  /** No qualified text of these attributes or of their members is itself a schema identifier. */
  predicate TextsFree(rt: ResourceType, id: string, attrs: seq<Attribute>) {
    forall a <- attrs ::
      !Shadowed(rt, id + ":" + a.name) && forall b <- a.subs :: !Shadowed(rt, id + ":" + a.name + "." + b.name)
  }

  /** Extensions are identified by URNs, no schema is declared twice, and no schema's identifier
      is the qualified text of a declared attribute. One identifier may well extend another. */
  predicate SeparateSchemas(rt: ResourceType) {
    && (forall x <- rt.exts :: UrnShaped(x.id) && Fold(x.id) != Fold(rt.core.id))
    && (forall i, j :: 0 <= i < j < |rt.exts| ==> Fold(rt.exts[i].id) != Fold(rt.exts[j].id))
    && TextsFree(rt, rt.core.id, rt.core.attrs)
    && (forall x <- rt.exts :: TextsFree(rt, x.id, x.attrs))
  }

  /** The identifier stands in front of the text, or is all of it. */
  predicate Prefixes(id: string, folded: string) {
    |id| <= |folded| && Fold(folded[..|id|]) == Fold(id) && (|id| < |folded| ==> folded[|id|] == ':')
  }

  lemma CandidateIs(best: string, folded: string, id: string)
    ensures UrnCandidate(best, folded, id) == if |best| < |id| && Prefixes(id, folded) then id else best
  {
  }

  /** An attribute expression holds no colon, so an identifier that stands in front of a
      qualified text reaches no further than the qualifier, or is the whole text. */
  lemma {:induction false} PrefixReach(id: string, urn: string, expr: string)
    requires Prefixes(id, Fold(urn + ":" + expr)) && ':' !in expr
    ensures |id| <= |urn| || Fold(id) == Fold(urn + ":" + expr)
    ensures |id| == |urn| ==> Fold(id) == Fold(urn)
  {
    var folded := Fold(urn + ":" + expr);
    FoldConcat(urn + ":", expr);
    FoldConcat(urn, ":");
    FoldIdempotent(urn);
    FoldIdempotent(urn + ":" + expr);
    assert forall i :: |urn| < i < |folded| ==> folded[i] == FoldChar(expr[i - |urn| - 1]) && folded[i] != ':';
    if |id| == |urn| { assert folded[..|id|] == Fold(urn); }
    if |id| == |folded| { assert folded[..|id|] == folded; }
  }

  lemma {:induction false} HomePrefixes(want: string, urn: string, expr: string)
    requires Fold(want) == Fold(urn)
    ensures Prefixes(want, Fold(urn + ":" + expr)) && |want| == |urn|
  {
    FoldConcat(urn + ":", expr);
    FoldConcat(urn, ":");
    FoldIdempotent(urn);
    assert |want| == |Fold(want)| == |urn|;
    assert Fold(urn + ":" + expr)[..|want|] == Fold(urn);
  }

  /** When no extension's identifier is the whole text, the search ends at the extension the
      qualifier names, unless something as long was found before. */
  lemma {:induction false} BestUrnIs(best: string, urn: string, expr: string, exts: seq<SchemaDef>)
    requires ':' !in expr && |best| <= |urn| && FindSchema(exts, urn + ":" + expr).None?
    ensures var r := BestUrn(best, Fold(urn + ":" + expr), exts);
            if |best| == |urn| then r == best else FindSchema(exts, urn).Some? ==> r == FindSchema(exts, urn).value.id
    decreases exts
  {
    hide Prefixes, UrnCandidate;
    if exts != [] {
      var folded, id := Fold(urn + ":" + expr), exts[0].id;
      CandidateIs(best, folded, id);
      if Prefixes(id, folded) { PrefixReach(id, urn, expr); }
      if Fold(id) == Fold(urn) { HomePrefixes(id, urn, expr); }
      BestUrnIs(UrnCandidate(best, folded, id), urn, expr, exts[1..]);
    }
  }

  /** The search never ends short of an identifier that prefixes the text. */
  lemma {:induction false} BestUrnReach(best: string, folded: string, exts: seq<SchemaDef>)
    requires |best| <= |folded|
    ensures var r := BestUrn(best, folded, exts);
            |best| <= |r| <= |folded| && forall s <- exts :: Prefixes(s.id, folded) ==> |s.id| <= |r|
    decreases exts
  {
    hide Prefixes, UrnCandidate;
    if exts != [] {
      CandidateIs(best, folded, exts[0].id);
      assert Prefixes(exts[0].id, folded) ==> |exts[0].id| <= |folded| by { PrefixesShort(exts[0].id, folded); }
      BestUrnReach(UrnCandidate(best, folded, exts[0].id), folded, exts[1..]);
    }
  }

  lemma PrefixesShort(id: string, folded: string)
    ensures Prefixes(id, folded) ==> |id| <= |folded|
  {
  }

  /** The schema identifier a URN qualifier selects, as declared. */
  function HomeId(rt: ResourceType, urn: string): Option<string> {
    if Fold(urn) == Fold(rt.core.id) then Some(rt.core.id)
    else
      var s := FindSchema(rt.exts, urn);
      if s.None? then None else Some(s.value.id)
  }

  /** The urn field resolvePath reports for it: "" in the core namespace. */
  function HomeUrn(rt: ResourceType, urn: string): string
    requires urn != "" ==> HomeId(rt, urn).Some?
  {
    if urn == "" || Fold(urn) == Fold(rt.core.id) then "" else HomeId(rt, urn).value
  }

  /** splitURNPrefix takes a qualified text apart at the identifier the qualifier selects, unless
      the whole text is an identifier. */
  lemma {:induction false} SplitsAtHome(rt: ResourceType, urn: string, expr: string)
    requires UrnShaped(urn) && HomeId(rt, urn).Some? && ':' !in expr && !Shadowed(rt, urn + ":" + expr)
    ensures SplitUrnPrefix(rt, urn + ":" + expr) == (HomeUrn(rt, urn), expr, Fold(urn) == Fold(rt.core.id))
  {
    hide Prefixes, UrnCandidate;
    var path := urn + ":" + expr;
    var folded, want := Fold(path), HomeId(rt, urn).value;
    TextShape(urn, expr);
    HomePrefixes(want, urn, expr);
    CandidateIs("", folded, rt.core.id);
    if Prefixes(rt.core.id, folded) { PrefixReach(rt.core.id, urn, expr); }
    BestUrnIs(UrnCandidate("", folded, rt.core.id), urn, expr, rt.exts);
    assert path[|want| + 1..] == expr;
  }

  lemma {:induction false} TextShape(urn: string, expr: string)
    requires UrnShaped(urn)
    ensures urn != "" && HasPrefix(Fold(urn + ":" + expr), "urn:")
  {
    FoldConcat(urn + ":", expr);
    FoldConcat(urn, ":");
    assert Fold(urn + ":" + expr)[..4] == Fold(urn)[..4];
  }

  lemma {:induction false} WholePrefixes(id: string, text: string)
    requires Fold(id) == Fold(text)
    ensures Prefixes(id, Fold(text)) && |id| == |text|
  {
    assert |id| == |Fold(id)| == |text|;
    FoldIdempotent(text);
    assert Fold(text)[..|id|] == Fold(text);
  }

  /** When it is one, nothing is left to name an attribute. */
  lemma {:induction false} ShadowedSplit(rt: ResourceType, urn: string, expr: string)
    requires UrnShaped(urn) && Shadowed(rt, urn + ":" + expr)
    ensures var rp := ResolvePath(rt, urn + ":" + expr); rp.Err? || rp.value.attr.None?
  {
    hide Prefixes, UrnCandidate, ResolveAttrExpr;
    var path := urn + ":" + expr;
    var folded := Fold(path);
    TextShape(urn, expr);
    CandidateIs("", folded, rt.core.id);
    PrefixesShort(rt.core.id, folded);
    BestUrnReach(UrnCandidate("", folded, rt.core.id), folded, rt.exts);
    if Fold(path) == Fold(rt.core.id) {
      WholePrefixes(rt.core.id, path);
    } else {
      WholePrefixes(FindSchema(rt.exts, path).value.id, path);
    }
  }

  lemma {:induction false} SplitExprNames(attr: string, sub: string)
    requires S.ValidAttrName(attr) && (sub != "" ==> S.ValidAttrName(sub))
    ensures var expr := attr + if sub == "" then "" else "." + sub;
            expr != "" && ':' !in expr && SplitAttrExpr(expr) == Some((attr, sub))
  {
    hide S.ValidAttrName;
    L.ValidNameChars(attr);
    if sub == "" {
      assert attr + "" == attr;
      L.FirstIndexAbsent(attr, '.');
    } else {
      L.ValidNameChars(sub);
      var expr := attr + ("." + sub);
      FirstIndexUnique(expr, '.', |attr|);
      assert expr[..|attr|] == attr && expr[|attr| + 1..] == sub;
    }
  }

  /** The resource's reading of the text of an attribute in the namespace urn selects. */
  lemma {:induction false} ResolveText(rt: ResourceType, urn: string, attr: string, sub: string)
    requires S.ValidAttrName(attr) && (sub != "" ==> S.ValidAttrName(sub))
    requires urn != "" ==> UrnShaped(urn) && HomeId(rt, urn).Some?
    ensures var expr := attr + if sub == "" then "" else "." + sub;
            var rp := ResolvePath(rt, (if urn == "" then "" else urn + ":") + expr);
            if urn != "" && Shadowed(rt, urn + ":" + expr) then rp.Err? || rp.value.attr.None?
            else rp == ResolveAttrExpr(rt, HomeUrn(rt, urn), expr)
  {
    hide S.ValidAttrName, ResolveAttrExpr, BestUrn, SplitAttrExpr, Shadowed;
    var expr := attr + if sub == "" then "" else "." + sub;
    SplitExprNames(attr, sub);
    if urn == "" {
      assert "" + expr == expr;
      NoUrnWithoutColon(expr);
    } else {
      TextShape(urn, expr);
      if Shadowed(rt, urn + ":" + expr) { ShadowedSplit(rt, urn, expr); } else { SplitsAtHome(rt, urn, expr); }
    }
  }

  lemma {:induction false} NoUrnWithoutColon(s: string)
    requires ':' !in s
    ensures !HasPrefix(Fold(s), "urn:")
  {
    if 4 <= |s| {
      assert Fold(s)[..4][3] == Fold(s)[3] == FoldChar(s[3]);
    }
  }

  /** What agreement with PATCH resolution means for a text: the namespace, the attribute and the
      sub-attribute are those of the target. */
  ghost predicate Agrees(rt: ResourceType, p: F.Path, text: string, attr: Attribute, sub: Option<Attribute>) {
    && (p.urn != "" ==> HomeId(rt, p.urn).Some?)
    && var common := p.urn == "" && FindAttribute(rt.core.attrs, p.attr).None?;
    ResolvePath(rt, text) == Ok(Resolved(HomeUrn(rt, p.urn), Some(attr), sub, common))
  }

  /** The path is qualified and its text is itself the identifier of a declared schema. */
  predicate Hidden(rt: ResourceType, p: F.Path, text: string) {
    p.urn != "" && Shadowed(rt, text)
  }

  /** Whatever the schema identifiers, a path PATCH accepts is resolved by Get and Set, from its
      rendered text, to the same namespace, attribute and sub-attribute if and only if the text
      is not itself a schema identifier. */
  lemma {:induction false} ResolversAgree(rt: ResourceType, p: F.Path)
    requires G.PlainPath(p.(filter := None)) && ResolveTarget(rt, p).Some?
    ensures var (attr, sub) := ResolveTarget(rt, p).value;
            && (Agrees(rt, p, AttrPathText(p), attr, None) <==> !Hidden(rt, p, AttrPathText(p)))
            && (!(attr.multi && sub.Some?) ==> (Agrees(rt, p, SubPathText(p), attr, sub) <==> !Hidden(rt, p, SubPathText(p))))
  {
    hide S.ValidAttrName, ResolvePath, ResolveAttrExpr, ResolveTarget, Shadowed;
    TargetHome(rt, p);
    PathTexts(p);
    ResolveText(rt, p.urn, p.attr, "");
    ResolveText(rt, p.urn, p.attr, p.sub);
    HomeExpr(rt, p);
  }

  /** In a type with separate schemas no declared attribute's path is hidden. */
  lemma {:induction false} NotHidden(rt: ResourceType, p: F.Path)
    requires SeparateSchemas(rt) && ResolveTarget(rt, p).Some?
    ensures !Hidden(rt, p, AttrPathText(p)) && !Hidden(rt, p, SubPathText(p))
  {
    hide Shadowed, UrnShaped;
    var (attr, sub) := ResolveTarget(rt, p).value;
    if p.urn != "" {
      if Fold(p.urn) == Fold(rt.core.id) {
        FreeText(rt, rt.core.id, rt.core.attrs, p, attr, sub);
      } else {
        var x := FindSchema(rt.exts, p.urn).value;
        FreeText(rt, x.id, x.attrs, p, attr, sub);
      }
    }
  }

  lemma {:induction false} FreeText(rt: ResourceType, id: string, attrs: seq<Attribute>, p: F.Path, attr: Attribute, sub: Option<Attribute>)
    requires TextsFree(rt, id, attrs) && p.urn != "" && Fold(id) == Fold(p.urn) && FindAttribute(attrs, p.attr) == Some(attr)
    requires if p.sub == "" then sub.None? else sub.Some? && FindAttribute(attr.subs, p.sub) == sub
    ensures !Shadowed(rt, AttrPathText(p)) && !Shadowed(rt, SubPathText(p))
  {
    hide Shadowed;
    PathTexts(p);
    TextFold(id, attr.name, p.urn, p.attr);
    ShadowedByFold(rt, id + ":" + attr.name, AttrPathText(p));
    if p.sub != "" {
      var (long, short) := (id + ":" + attr.name + "." + sub.value.name, p.urn + ":" + p.attr + "." + p.sub);
      assert SubPathText(p) == short;
      assert Fold(long) == Fold(short) by { LongFold(id + ":" + attr.name, sub.value.name, p.urn + ":" + p.attr, p.sub); }
      ShadowedByFold(rt, long, SubPathText(p));
    } else {
      assert SubPathText(p) == AttrPathText(p);
    }
  }

  lemma {:induction false} TextFold(a: string, b: string, c: string, d: string)
    requires Fold(a) == Fold(c) && Fold(b) == Fold(d)
    ensures Fold(a + ":" + b) == Fold(c + ":" + d)
  {
    FoldConcat(a + ":", b);
    FoldConcat(a, ":");
    FoldConcat(c + ":", d);
    FoldConcat(c, ":");
  }

  lemma {:induction false} LongFold(a: string, b: string, c: string, d: string)
    requires Fold(a) == Fold(c) && Fold(b) == Fold(d)
    ensures Fold(a + "." + b) == Fold(c + "." + d)
  {
    FoldConcat(a + ".", b);
    FoldConcat(a, ".");
    FoldConcat(c + ".", d);
    FoldConcat(c, ".");
  }

  lemma {:induction false} ShadowedByFold(rt: ResourceType, a: string, b: string)
    requires Fold(a) == Fold(b)
    ensures Shadowed(rt, a) == Shadowed(rt, b)
  {
    FindSchemaByFold(rt.exts, a, b);
  }

  lemma {:induction false} PathTexts(p: F.Path)
    ensures AttrPathText(p) == (if p.urn == "" then "" else p.urn + ":") + (p.attr + "")
    ensures SubPathText(p) == (if p.urn == "" then "" else p.urn + ":") + (p.attr + if p.sub == "" then "" else "." + p.sub)
  {
    assert p.attr + "" == p.attr;
  }

  /** resolveAttrExpr in the selected namespace. */
  lemma {:induction false} HomeExpr(rt: ResourceType, p: F.Path)
    requires G.PlainPath(p.(filter := None)) && ResolveTarget(rt, p).Some?
    requires p.urn != "" ==> HomeId(rt, p.urn).Some?
    ensures var (attr, sub) := ResolveTarget(rt, p).value;
            var home, common := HomeUrn(rt, p.urn), p.urn == "" && FindAttribute(rt.core.attrs, p.attr).None?;
            && ResolveAttrExpr(rt, home, p.attr + "") == Ok(Resolved(home, Some(attr), None, common))
            && (!(attr.multi && sub.Some?) ==>
                  ResolveAttrExpr(rt, home, p.attr + if p.sub == "" then "" else "." + p.sub) == Ok(Resolved(home, Some(attr), sub, common)))
  {
    hide S.ValidAttrName, SplitAttrExpr, NamespaceAttr;
    SplitExprNames(p.attr, "");
    SplitExprNames(p.attr, p.sub);
    TargetHome(rt, p);
    CoreOrExt(rt, p);
  }

  /** In the core namespace an explicit URN never reaches the common attributes. */
  lemma {:induction false} CoreOrExt(rt: ResourceType, p: F.Path)
    requires ResolveTarget(rt, p).Some?
    requires p.urn != "" ==> HomeId(rt, p.urn).Some?
    ensures (HomeUrn(rt, p.urn) == "" && FindAttribute(rt.core.attrs, p.attr).None?) ==
            (p.urn == "" && FindAttribute(rt.core.attrs, p.attr).None?)
  {
    if p.urn != "" && Fold(p.urn) != Fold(rt.core.id) {
      assert |Fold(FindSchema(rt.exts, p.urn).value.id)| == |p.urn|;
    }
  }

  lemma {:induction false} TargetHome(rt: ResourceType, p: F.Path)
    requires ResolveTarget(rt, p).Some?
    ensures p.urn != "" ==> HomeId(rt, p.urn).Some?
    ensures NamespaceAttr(rt, HomeUrn(rt, p.urn), p.attr) == Some(ResolveTarget(rt, p).value.0)
  {
    if p.urn != "" && Fold(p.urn) != Fold(rt.core.id) {
      var s := FindSchema(rt.exts, p.urn).value;
      FindSchemaByFold(rt.exts, p.urn, s.id);
      assert |Fold(s.id)| == |p.urn|;
    }
  }

  lemma {:induction false} FindSchemaByFold(exts: seq<SchemaDef>, a: string, b: string)
    requires Fold(a) == Fold(b)
    ensures FindSchema(exts, a) == FindSchema(exts, b)
    decreases exts
  {
    if exts != [] { FindSchemaByFold(exts[1..], a, b); }
  }

  /** A declared extension is found under its own URN. */
  lemma {:induction false} OwnSchema(rt: ResourceType, x: SchemaDef)
    requires SeparateSchemas(rt) && x in rt.exts
    ensures FindSchema(rt.exts, x.id) == Some(x)
  {
    hide UrnShaped, TextsFree;
    OwnSchemaIn(rt.exts, x);
  }

  lemma {:induction false} OwnSchemaIn(exts: seq<SchemaDef>, x: SchemaDef)
    requires x in exts && forall i, j :: 0 <= i < j < |exts| ==> Fold(exts[i].id) != Fold(exts[j].id)
    ensures FindSchema(exts, x.id) == Some(x)
    decreases |exts|
  {
    var k :| 0 <= k < |exts| && exts[k] == x;
    if k > 0 {
      assert Fold(exts[0].id) != Fold(exts[k].id);
      assert exts[1..][k - 1] == x;
      OwnSchemaIn(exts[1..], x);
    }
  }
}
