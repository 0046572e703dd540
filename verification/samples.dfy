/** Concrete inputs: a resource type and a resource that meet the conditions the results are
    stated under, and inputs on which the stronger claims one might expect fail. */
module Samples {
  import opened Text
  import opened Schema
  import opened Values
  import opened Paths
  import opened Documents
  import opened DocumentFacts
  import opened PatchRules
  import opened PatchSpec
  import opened PatchFacts
  import opened PatchGuards
  import opened Ordering
  import opened StoreState
  import opened PatchElements
  import opened PatchSynthesis
  import opened PatchMerging
  import opened FilterMatch
  import opened Sorting
  import F = FilterAst
  import L = FilterLaws
  import G = FilterGrammar
  import S = FilterScanner
  import R = FilterRoundTrip
  import C = PatchCodec
  import V = Versions
  import W = Codec

  /** An immutable text, and a list of numbers. */
  const CODE := Attribute("code", TString, false, false, true, Immutable, false, [])
  const SIZES := Attribute("sizes", TInteger, true, false, false, ReadWrite, false, [])

  /** An immutable list of texts, and an immutable list of complex values. */
  const LABELS := Attribute("labels", TString, true, false, true, Immutable, false, [])
  const NAME := Attribute("value", TString, false, false, true, ReadWrite, false, [])
  const BADGES := Attribute("badges", TComplex, true, false, false, Immutable, false, [NAME, SIZES])

  /** The extension's identifier extends the core one. */
  const SAMPLE := ResourceType(SchemaDef("urn:a", [CODE, SIZES, LABELS, BADGES]), [SchemaDef("urn:a:x", [SIZES])])

  const CODED := Doc(map["code" := Str("x")], map[], NO_META)
  const EMPTY := Doc(map[], map[], NO_META)

  lemma FoldLower(s: string)
    requires forall i :: 0 <= i < |s| ==> !('A' <= s[i] <= 'Z')
    ensures Fold(s) == s
  {
  }

  const NAMES: set<string> := {"code", "sizes", "labels", "badges", "value"}

  lemma {:induction false} LowerNames()
    ensures forall n <- NAMES :: Fold(n) == n && S.ValidAttrName(n) && |n| >= 4
  {
    forall n <- NAMES ensures Fold(n) == n && S.ValidAttrName(n) && |n| >= 4 {
      FoldLower(n);
    }
  }

  lemma NamesApart()
    ensures "code" != "sizes" && "code" != "labels" && "code" != "badges" && "sizes" != "labels" && "sizes" != "badges" && "labels" != "badges"
  {
    assert "sizes"[0] == 's' && "labels"[0] == 'l' && "badges"[0] == 'b' && "code"[0] == 'c';
  }

  lemma {:induction false} SampleNames()
    ensures Fold("code") == "code" && Fold("sizes") == "sizes" && Fold("labels") == "labels" && Fold("badges") == "badges" && Fold("value") == "value"
    ensures FindAttribute(SAMPLE.core.attrs, "code") == Some(CODE) && FindAttribute(SAMPLE.core.attrs, "sizes") == Some(SIZES)
    ensures FindAttribute(SAMPLE.core.attrs, "labels") == Some(LABELS) && FindAttribute(SAMPLE.core.attrs, "badges") == Some(BADGES)
    ensures FindAttribute(BADGES.subs, "value") == Some(NAME)
  {
    hide Fold, S.ValidAttrName;
    LowerNames();
    NamesApart();
    var (core, rest, last) := (SAMPLE.core.attrs, [SIZES, LABELS, BADGES], [LABELS, BADGES]);
    assert core[1..] == rest && rest[1..] == last && last[1..] == [BADGES];
    assert FindAttribute(last, "labels") == Some(LABELS) && FindAttribute(last, "badges") == Some(BADGES);
  }

  lemma {:induction false} LongFree(text: string)
    requires |text| > 7
    ensures !Shadowed(SAMPLE, text)
  {
    assert |Fold(text)| == |text|;
    assert SAMPLE.exts[1..] == [];
  }

  lemma {:induction false} SampleTexts(id: string, attrs: seq<Attribute>)
    requires |id| >= 5 && forall a <- attrs :: |a.name| >= 4
    ensures TextsFree(SAMPLE, id, attrs)
  {
    hide Shadowed;
    forall a <- attrs
      ensures !Shadowed(SAMPLE, id + ":" + a.name) && forall b <- a.subs :: !Shadowed(SAMPLE, id + ":" + a.name + "." + b.name)
    {
      LongFree(id + ":" + a.name);
      forall b <- a.subs ensures !Shadowed(SAMPLE, id + ":" + a.name + "." + b.name) {
        LongFree(id + ":" + a.name + "." + b.name);
      }
    }
  }

  lemma {:induction false} SampleSchemas()
    ensures SeparateSchemas(SAMPLE)
  {
    hide TextsFree;
    var x := SAMPLE.exts[0];
    FoldLower("urn:a:x");
    assert x.id[..4] == "urn:" && UrnShaped(x.id);
    assert |Fold(x.id)| == 7 && |Fold(SAMPLE.core.id)| == 5;
    SampleTexts("urn:a", SAMPLE.core.attrs);
    SampleTexts("urn:a:x", [SIZES]);
  }

  lemma {:induction false} SampleRegular()
    ensures Regular(SAMPLE)
  {
    hide SeparateSchemas, S.ValidAttrName;
    SampleSchemas();
    LowerNames();
    forall a <- SAMPLE.core.attrs ensures a.name in NAMES {
    }
    assert FlatType(SAMPLE);
  }

  /** The sample type is one the store accepts, although one schema identifier extends the
      other, and the sample resources are canonical. */
  lemma {:induction false} SampleFits()
    ensures StoreType(SAMPLE) && Canonical(SAMPLE, CODED) && Canonical(SAMPLE, EMPTY)
  {
    hide Regular, FindAttribute;
    SampleRegular();
    SampleNames();
    forall a <- COMMON ensures FindAttribute(SAMPLE.core.attrs, a.name).None? {
      NotCommon(a);
    }
    assert CanonicalSlot(SAMPLE, Loc("", "code"), Str("x"));
  }

  lemma {:induction false} NotCommon(a: Attribute)
    requires a in COMMON
    ensures FindAttribute(SAMPLE.core.attrs, a.name).None?
  {
    hide S.ValidAttrName, Fold;
    CommonFolds(a);
    LowerNames();
    assert forall x <- SAMPLE.core.attrs :: x.name in NAMES && Fold(x.name) != Fold(a.name);
  }

  lemma {:induction false} CommonFolds(a: Attribute)
    requires a in COMMON
    ensures Fold(a.name) !in NAMES
  {
    var f := Fold(a.name);
    assert |f| == |a.name|;
    assert a.name == "meta" ==> f[0] == 'm';
  }

  // ----- Immutable attributes and null -----

  function NullAdd(): Op {
    Op(Add, None, Obj(map["code" := Nil]))
  }

  lemma {:induction false} CodePath()
    ensures ResolvePath(SAMPLE, "code") == Ok(Resolved("", Some(CODE), None, false))
  {
    hide ResolvePath, Regular;
    SampleNames();
    SampleRegular();
    KeyResolves(SAMPLE, "code");
    CoreFlags(SAMPLE, ResolvePath(SAMPLE, "code").value, "code");
  }

  lemma {:induction false} NullWrite(env: Env)
    requires env.rt == SAMPLE
    ensures PathlessAttr(env, Work(CODED, false), Add, "code", CODE, Nil) == Ok(Work(EMPTY, true))
  {
    hide ResolvePath, FindAttribute, AppendNew;
    SampleNames();
    CodePath();
    assert CODED.attrs - {"code"} == map[];
    assert SetTracked(env, Work(CODED, false), "code", Nil) == Ok(Work(EMPTY, true));
  }

  lemma {:induction false} NullMemberWrites(env: Env)
    requires env.rt == SAMPLE
    ensures PathlessKey(env, Work(CODED, false), Add, "code", Nil) == Ok(Work(EMPTY, true))
  {
    hide PathlessAttr, FindAttribute;
    SampleNames();
    NullWrite(env);
  }

  /** A pathless add of null passes the guard on the assigned immutable attribute, unassigns
      it, and reports a change. */
  lemma {:induction false} NullAddUnassigns(lx: Lexicon, profile: Profile)
    ensures Apply(Env(lx, SAMPLE, profile), CODED, [NullAdd()]) == Ok(Work(EMPTY, true))
  {
    hide PathlessKey;
    var env, w, op := Env(lx, SAMPLE, profile), Work(CODED, false), NullAdd();
    NullMemberWrites(env);
    OneKey("code");
    assert op.value.members.Keys == {"code"};
    assert ["code"][1..] == [];
    assert PathlessKeys(env, Work(EMPTY, true), Add, op.value.members, []) == Ok(Work(EMPTY, true));
    assert ApplyOp(env, w, op) == Ok(Work(EMPTY, true));
    assert [op][1..] == [];
    assert ApplyOps(env, Work(EMPTY, true), []) == Ok(Work(EMPTY, true));
  }

  lemma {:induction false} OneKey(k: string)
    ensures SortedKeys({k}) == [k]
  {
    assert {k} - {k} == {};
    assert SortedKeys({}) == [];
  }

  // ----- Adding a bare element again -----

  function LabelsPath(): F.Path {
    F.Path("", "labels", "", None)
  }

  /** A plain path to an attribute of the sample type reaches it, in both resolvers. */
  lemma {:induction false} SampleTarget(p: F.Path, attr: Attribute)
    requires p.urn == "" && p.sub == "" && p.attr in NAMES && attr.name == p.attr && FindAttribute(SAMPLE.core.attrs, p.attr) == Some(attr)
    ensures ResolveTarget(SAMPLE, p) == Some((attr, None)) && AttrPathText(p) == p.attr && ParsedPath(p)
    ensures ResolvePath(SAMPLE, p.attr) == Ok(Resolved("", Some(attr), None, false))
  {
    hide ResolvePath, Regular, FindAttribute, S.ValidAttrName, Fold;
    LowerNames();
    assert "" + p.attr == p.attr;
    SampleResolves(p.attr, attr);
  }

  lemma {:induction false} SampleResolves(name: string, attr: Attribute)
    requires FindAttribute(SAMPLE.core.attrs, name) == Some(attr)
    ensures ResolvePath(SAMPLE, name) == Ok(Resolved("", Some(attr), None, false))
  {
    hide ResolvePath, Regular, FindAttribute, Fold, Sound;
    SampleRegular();
    KeyResolves(SAMPLE, name);
    CoreFlags(SAMPLE, ResolvePath(SAMPLE, name).value, name);
  }

  lemma {:induction false} LabelsTarget()
    ensures ResolveTarget(SAMPLE, LabelsPath()) == Some((LABELS, None)) && AttrPathText(LabelsPath()) == "labels" && ParsedPath(LabelsPath())
    ensures ResolvePath(SAMPLE, "labels") == Ok(Resolved("", Some(LABELS), None, false))
  {
    hide ResolvePath, ResolveTarget, FindAttribute, ParsedPath, AttrPathText;
    SampleNames();
    SampleTarget(LabelsPath(), LABELS);
  }

  /** Setting a stored value on the empty resource works when Set takes the value. */
  lemma {:induction false} SetOnEmpty(env: Env, name: string, attr: Attribute, v: Value)
    requires env.rt == SAMPLE && ResolvePath(SAMPLE, name) == Ok(Resolved("", Some(attr), None, false)) && Coerce(env.lx, attr, v).Ok?
    ensures SetTracked(env, Work(EMPTY, false), name, v).Ok?
    ensures Get(SAMPLE, EMPTY, name).None?
  {
    hide ResolvePath, ValuesEqual, GetOrNil, Coerce;
  }

  /** The first bare element is taken, on a resource without any. */
  lemma {:induction false} LabelTaken(env: Env)
    requires env.rt == SAMPLE
    ensures AddMulti(env, Work(EMPTY, false), "labels", LABELS, Str("x")).Ok?
    ensures Coerce(env.lx, LABELS, Wrapped(Str("x"))) == Ok(Slice(TString, [Str("x")]))
    ensures Get(SAMPLE, EMPTY, "labels").None?
  {
    hide ResolvePath, SetTracked, Get, Coerce, AppendNew, Wrapped, Fold;
    LabelsTarget();
    LabelCoerces(env.lx);
    SetOnEmpty(env, "labels", LABELS, Slice(TString, [Str("x")]));
  }

  lemma {:induction false} LabelCoerces(lx: Lexicon)
    ensures var v := Slice(TString, [Str("x")]);
            Coerce(lx, LABELS, Wrapped(Str("x"))) == Ok(v) && Coerce(lx, LABELS, v) == Ok(v)
  {
    CoerceScalarsFixed(lx, TString, [Str("x")]);
  }

  /** Re-adding the very same bare element to an immutable multi-valued attribute, which would
      change nothing, is refused; wrapped in an array it is not. */
  lemma {:induction false} BareAddRefused(lx: Lexicon, profile: Profile)
    ensures var env := Env(lx, SAMPLE, profile);
            var (bare, boxed) := (Op(Add, Some(LabelsPath()), Str("x")), Op(Add, Some(LabelsPath()), Arr([Str("x")])));
            var first := ApplyOp(env, Work(EMPTY, false), bare);
            && first.Ok?
            && ApplyOp(env, first.value, bare) == Err(InvalidValue)
            && ApplyOp(env, Work(EMPTY, false), boxed) == first && ApplyOp(env, first.value, boxed) == first
  {
    hide AddMulti, Coerce, ResolvePath, Get, ResolveTarget, AttrPathText, Regular, Canonical, SubPathText, ParsedPath;
    var env, w := Env(lx, SAMPLE, profile), Work(EMPTY, false);
    var (bare, boxed) := (Op(Add, Some(LabelsPath()), Str("x")), Op(Add, Some(LabelsPath()), Arr([Str("x")])));
    LabelsTarget();
    LabelTaken(env);
    SampleRegular();
    SampleFits();
    assert ApplyOp(env, w, bare) == AddMulti(env, w, "labels", LABELS, Str("x"));
    SameAdd(env, w);
    assert ApplyOp(env, w, boxed) == AddMulti(env, w, "labels", LABELS, Arr([Str("x")]));
    AddOpTwice(env, w, bare, LabelsPath());
    AddOpTwice(env, w, boxed, LabelsPath());
  }

  lemma {:induction false} SameAdd(env: Env, w: Work)
    ensures AddMulti(env, w, "labels", LABELS, Str("x")) == AddMulti(env, w, "labels", LABELS, Arr([Str("x")]))
  {
    assert Wrapped(Str("x")) == Wrapped(Arr([Str("x")]));
  }

  // ----- Replaying a synthesizing add -----

  function BadgesPath(): F.Path {
    F.Path("", "badges", "", Some(F.Compare(F.Path("", "value", "", None), F.Eq, F.Str("x"))))
  }

  const BADGE: Elem := map["value" := Str("x")]

  lemma {:induction false} BadgesTarget()
    ensures ResolveTarget(SAMPLE, BadgesPath()) == Some((BADGES, None)) && AttrPathText(BadgesPath()) == "badges" && ParsedPath(BadgesPath())
    ensures ResolvePath(SAMPLE, "badges") == Ok(Resolved("", Some(BADGES), None, false))
  {
    hide ResolvePath, ResolveTarget, FindAttribute, ParsedPath, AttrPathText;
    SampleNames();
    SampleTarget(BadgesPath(), BADGES);
  }

  lemma {:induction false} BadgeStored()
    ensures Stored(BADGES, Multi([BADGE])) && Writable(Multi([BADGE]))
  {
    hide Fold, FindAttribute;
    SampleNames();
    assert StoredElem(BADGES, BADGE) && "value" in BADGE;
    assert !PrimaryTrue(BADGE) by { assert PRIMARY !in BADGE; }
    assert [BADGE][1..] == [] && PrimaryCount([]) == 0;
  }

  lemma {:induction false} BadgeCoerces(lx: Lexicon)
    ensures Coerce(lx, BADGES, Multi([BADGE])) == Ok(Multi([BADGE]))
  {
    hide Coerce;
    BadgeStored();
    CoerceFixedIff(lx, BADGES, Multi([BADGE]));
  }

  lemma {:induction false} BadgeSeed()
    ensures CollectEq(BadgesPath().filter.value, map[]) == Some(BADGE)
    ensures BADGE + map[] == BADGE && Demoted([] + [BADGE], {0}) == [BADGE]
  {
    SampleNames();
    assert !PrimaryTrue(BADGE) by { assert PRIMARY !in BADGE; }
    assert [] + [BADGE] == [BADGE];
  }

  lemma {:induction false} BadgeMade(env: Env, op: Op)
    requires env.rt == SAMPLE && op.value == Obj(map[])
    ensures Synthesize(env, Work(EMPTY, false), op, BadgesPath(), None).Ok?
    ensures Elements(env, EMPTY, BadgesPath()) == [] && Get(SAMPLE, EMPTY, "badges").None?
  {
    hide ResolvePath, Coerce, CollectEq, Demoted, SetTracked, Get, AttrPathText;
    BadgesTarget();
    BadgeCoerces(env.lx);
    BadgeSeed();
    SetOnEmpty(env, "badges", BADGES, Multi([BADGE]));
  }

  lemma {:induction false} BadgeAdded(env: Env, op: Op)
    requires env.rt == SAMPLE && env.profile.synthesizeAddValuePath && op == Op(Add, Some(BadgesPath()), Obj(map[]))
    ensures ApplyOp(env, Work(EMPTY, false), op) == Synthesize(env, Work(EMPTY, false), op, BadgesPath(), None)
    ensures Synthesizes(env, Work(EMPTY, false), op, BadgesPath())
  {
    hide Synthesize, ResolvePath, Get, ResolveTarget, AttrPathText, SubPathText, CollectEq, Elements, Matching, Described, FindAttribute;
    BadgesTarget();
    BadgeMade(env, op);
    BadgeFilter(env.lx);
    assert op.value.members.Keys == {};
  }

  /** On an immutable attribute a synthesizing add is accepted while nothing is assigned, and its
      replay, which would change nothing, is refused. */
  lemma {:induction false} SynthesisRefused(lx: Lexicon)
    ensures var env := Env(lx, SAMPLE, Profile(true, false));
            var op := Op(Add, Some(BadgesPath()), Obj(map[]));
            var first := ApplyOp(env, Work(EMPTY, false), op);
            first.Ok? && ApplyOp(env, first.value, op) == Err(Mutability)
  {
    hide *;
    var env := Env(lx, SAMPLE, Profile(true, false));
    var op := Op(Add, Some(BadgesPath()), Obj(map[]));
    BadgesTarget();
    BadgeMade(env, op);
    BadgeAdded(env, op);
    BadgeSeed();
    BadgeFilter(lx);
    NothingWritten(op);
    SampleRegular();
    SampleFits();
    BadgeShape();
    BadgeLasts(env, op);
    SynthesisReplays(env, Work(EMPTY, false), op, BadgesPath());
  }

  lemma {:induction false} BadgeLasts(env: Env, op: Op)
    requires env.rt == SAMPLE && op.value == Obj(map[])
    ensures Lasting(env, op, BadgesPath())
  {
    hide ResolveTarget, CollectEq, CoercedElem, MembersCoerce, NullClash, FindAttribute, Fold;
    BadgesTarget();
    BadgeSeed();
    BadgeFilter(env.lx);
    BadgeCoerced(env.lx);
  }

  lemma {:induction false} BadgeCoerced(lx: Lexicon)
    ensures MembersCoerce(lx, BADGES, BADGE) && CoercedElem(lx, BADGES, BADGE) != map[]
  {
    hide Fold, FindAttribute;
    BadgeStored();
    SampleNames();
    CoerceElemFixed(lx, BADGES, BADGE);
  }

  lemma NothingWritten(op: Op)
    requires op.value == Obj(map[])
    ensures FoldedKeys(Written(op, None))
  {
  }

  lemma {:induction false} BadgeShape()
    ensures BadgesPath().filter.Some? && BADGE != map[] && BADGES.access == Immutable
  {
    assert "value" in BADGE;
  }

  lemma {:induction false} BadgeFilter(lx: Lexicon)
    ensures Matching(lx, BADGES, BadgesPath().filter.value, []) == Ok({})
    ensures Described(BADGES, BadgesPath().filter.value, {}) && !NullClash(BadgesPath().filter.value, BADGE)
  {
    SampleNames();
    assert SingleScalar(BADGES, "value");
    assert !NullClash(BadgesPath().filter.value, BADGE);
    assert Matching(lx, BADGES, BadgesPath().filter.value, []).value == {};
  }

  // ----- A protected member of a single complex value -----

  const SEAL := Attribute("seal", TString, false, false, true, Immutable, false, [])
  const BOSS := Attribute("boss", TComplex, false, false, false, ReadWrite, false, [SEAL])
  const OWNED := ResourceType(SchemaDef("urn:o", [BOSS]), [])

  function Boss(seal: string): Doc {
    Doc(map["boss" := Cplx(map["seal" := Str(seal)])], map[], NO_META)
  }

  function BossPath(): F.Path {
    F.Path("", "boss", "", None)
  }

  lemma {:induction false} BossNames()
    ensures Fold("boss") == "boss" && Fold("seal") == "seal" && !HasPrefix("boss", "urn:")
    ensures FindAttribute(BOSS.subs, "seal") == Some(SEAL) && FindAttribute(OWNED.core.attrs, "boss") == Some(BOSS)
  {
    FoldLower("boss");
    FoldLower("seal");
    assert "boss"[..4][0] == 'b' && "urn:"[0] == 'u';
  }

  lemma {:induction false} BossTarget()
    ensures ResolveTarget(OWNED, BossPath()) == Some((BOSS, None)) && AttrPathText(BossPath()) == "boss"
    ensures ResolvePath(OWNED, "boss") == Ok(Resolved("", Some(BOSS), None, false))
  {
    hide ResolvePath, Fold, FindAttribute, HasPrefix;
    BossNames();
    BossResolves();
    assert "" + "boss" == "boss";
  }

  lemma {:induction false} BossResolves()
    ensures ResolvePath(OWNED, "boss") == Ok(Resolved("", Some(BOSS), None, false))
  {
    hide Fold, FindAttribute, HasPrefix, SplitAttrExpr;
    BossNames();
    BossSplits();
  }

  lemma BossSplits()
    ensures SplitAttrExpr("boss") == Some(("boss", ""))
  {
    assert '.' !in "boss";
  }

  lemma {:induction false} SealCoerces(lx: Lexicon, seal: string, v: Value)
    requires Source(v) == Some(map["seal" := Str(seal)])
    ensures Coerce(lx, BOSS, v) == Ok(Cplx(map["seal" := Str(seal)]))
  {
    hide Fold, FindAttribute, CoerceMember;
    var m: Elem := map["seal" := Str(seal)];
    SealMember(lx, seal);
    assert m.Keys == {"seal"};
    assert CoercedElem(lx, BOSS, m) == m;
  }

  lemma {:induction false} SealMember(lx: Lexicon, seal: string)
    ensures CoerceMember(lx, BOSS, "seal", Str(seal)) == Ok(Str(seal))
  {
    hide Fold, FindAttribute;
    BossNames();
  }

  /** A replace of the whole attribute overwrites its immutable member, which a replace of the
      member itself may not. */
  lemma {:induction false} MemberOverwritten(lx: Lexicon, profile: Profile)
    ensures var env := Env(lx, OWNED, profile);
            var whole := Op(Replace, Some(BossPath()), Obj(map["seal" := Str("y")]));
            var member := Op(Replace, Some(BossPath().(sub := "seal")), Str("y"));
            && ApplyOp(env, Work(Boss("x"), false), whole).Ok? && ApplyOp(env, Work(Boss("x"), false), whole).value.doc == Boss("y")
            && ApplyOp(env, Work(Boss("x"), false), member) == Err(Mutability)
  {
    var env := Env(lx, OWNED, profile);
    WholeWrite(env);
    MemberRefused(env);
  }

  lemma {:induction false} WholeWrite(env: Env)
    requires env.rt == OWNED
    ensures var r := ApplyOp(env, Work(Boss("x"), false), Op(Replace, Some(BossPath()), Obj(map["seal" := Str("y")])));
            r.Ok? && r.value.doc == Boss("y")
  {
    hide ResolvePath, ResolveTarget, Coerce, ValuesEqual, AttrPathText, Fold;
    BossNames();
    BossTarget();
    var x: Elem, y: Elem := map["seal" := Str("x")], map["seal" := Str("y")];
    SealCoerces(env.lx, "y", Obj(y));
    SealCoerces(env.lx, "y", Cplx(y));
    assert x + y == y;
    assert Boss("x").attrs["boss" := Cplx(y)] == Boss("y").attrs;
    assert SetTracked(env, Work(Boss("x"), false), "boss", Cplx(y)).Ok?;
  }

  lemma {:induction false} MemberSplits()
    ensures SplitAttrExpr("boss.seal") == Some(("boss", "seal")) && !HasPrefix(Fold("boss.seal"), "urn:")
  {
    hide Fold, FirstIndex;
    var path := "boss.seal";
    FoldLower(path);
    assert path[..4] == "boss" && path[5..] == "seal" && '.' !in "boss" && '.' !in "seal";
    FirstDot(path, 4);
    BossNames();
  }

  lemma {:induction false} FirstDot(s: string, i: nat)
    requires i < |s| && s[i] == '.' && '.' !in s[..i]
    ensures FirstIndex(s, '.') == Some(i)
  {
    hide FirstIndex;
    assert forall j :: 0 <= j < i ==> s[j] == s[..i][j];
  }

  lemma {:induction false} MemberPath()
    ensures var p := BossPath().(sub := "seal");
            ResolveTarget(OWNED, p) == Some((BOSS, Some(SEAL))) && SubPathText(p) == "boss.seal"
    ensures ResolvePath(OWNED, "boss.seal") == Ok(Resolved("", Some(BOSS), Some(SEAL), false))
  {
    hide Fold, SplitAttrExpr, HasPrefix, FindAttribute;
    BossNames();
    MemberSplits();
    assert "" + "boss" + ("." + "seal") == "boss.seal";
  }

  lemma {:induction false} MemberRefused(env: Env)
    requires env.rt == OWNED
    ensures ApplyOp(env, Work(Boss("x"), false), Op(Replace, Some(BossPath().(sub := "seal")), Str("y"))) == Err(Mutability)
  {
    hide ResolvePath, ResolveTarget, Fold, SubPathText, AttrPathText;
    BossNames();
    BossTarget();
    MemberPath();
  }

  // ----- A remove without a path -----

  /** Decode accepts a message that holds a remove without a path, and EncodeOps refuses to write
      what it decoded to. */
  lemma {:induction false} RemoveNotSent(pr: W.Printer)
    ensures var body := C.Message([BARE_REMOVE]);
            var ops := [Op(Remove, None, Nil)];
            C.IsJson(body) && C.DecodeMessage(body) == Ok(ops) && C.Sent(pr, ops).Err?
  {
    hide C.Operations, C.ParseRaw, C.BuildOp;
    var raw := C.RawOp("remove", None, None);
    C.SchemasPass([BARE_REMOVE]);
    BareRemove();
    assert [BARE_REMOVE][1..] == [] && [raw][1..] == [];
    assert C.ParseRaws([]) == Ok([]) && [raw] + [] == [raw];
    assert C.ParseRaws([BARE_REMOVE]) == Ok([raw]);
    var op := Op(Remove, None, Nil);
    assert C.BuildAll([]) == Ok([]) && [op] + [] == [op];
    assert C.BuildAll([raw]) == Ok([op]);
  }

  const BARE_REMOVE: Value := Obj(map[C.OP := Str("remove")])

  lemma {:induction false} BareRemove()
    ensures var raw := C.RawOp("remove", None, None);
            C.ParseRaw(BARE_REMOVE) == Ok(raw) && C.BuildOp(raw) == Ok(Op(Remove, None, Nil)) && C.IsJson(C.Message([BARE_REMOVE]))
  {
    assert |C.OP| == 2 && |C.PATH| == 4 && |C.VALUE| == 5 && |"add"| == 3;
    assert C.KindOf("remove") == Ok(Remove);
    assert C.IsJson(BARE_REMOVE.members[C.OP]) && C.IsJson(BARE_REMOVE);
    assert C.IsJson(Arr([BARE_REMOVE])) && C.IsJson(Arr([Str(C.MESSAGE_URN)]));
  }

  // ----- Messages and bodies as they are written -----

  /** An add as a PATCH message, every name spelled out. */
  lemma {:induction false} AddWritten(pr: W.Printer)
    ensures var ops := [Op(Add, Some(F.Path("", "code", "", None)), Str("x"))];
            var list := [Obj(map["op" := Str("add"), "path" := Str("code"), "value" := Str("x")])];
            && C.EncodeAll(pr, ops) == Ok(list)
            && C.Message(list) == Obj(map["schemas" := Arr([Str("urn:ietf:params:scim:api:messages:2.0:PatchOp")]), "operations" := Arr(list)])
  {
    var op := Op(Add, Some(F.Path("", "code", "", None)), Str("x"));
    assert F.PathText(op.path.value) == "code";
    var json := Obj(map["op" := Str("add"), "path" := Str("code"), "value" := Str("x")]);
    AddEncoded(pr, op);
    AloneEncoded(pr, op, json);
  }

  lemma AloneEncoded(pr: W.Printer, op: Op, json: Value)
    requires C.EncodeOp(pr, op) == Ok(json)
    ensures C.EncodeAll(pr, [op]) == Ok([json])
  {
    hide C.EncodeOp;
    var ops := [op];
    assert ops[1..] == [] && C.EncodeAll(pr, ops[1..]) == Ok([]);
    assert [json] + [] == [json];
  }

  lemma {:induction false} AddEncoded(pr: W.Printer, op: Op)
    requires op == Op(Add, Some(F.Path("", "code", "", None)), Str("x")) && F.PathText(op.path.value) == "code"
    ensures C.EncodeOp(pr, op) == Ok(Obj(map["op" := Str("add"), "path" := Str("code"), "value" := Str("x")]))
  {
    hide F.PathText;
    C.NamesApart();
    var (k, p, v) := (Str("add"), Str("code"), Str("x"));
    assert W.EncodeValue(pr, v) == v && C.Marshal(pr, v) == v;
    assert map[C.OP := k] + map[C.PATH := p] + map[C.VALUE := v] == map["op" := k, "path" := p, "value" := v];
    assert C.EncodeOp(pr, op) == Ok(Obj(map[C.OP := k] + map[C.PATH := p] + map[C.VALUE := v]));
  }

  /** The sample resource as a body. */
  lemma {:induction false} BodyWritten(pr: W.Printer)
    ensures W.Encoded(pr, SAMPLE, CODED) == map["schemas" := Arr([Str("urn:a")]), "code" := Str("x")]
  {
    assert SAMPLE.exts[1..] == [] && ExtensionsHeld(SAMPLE.exts[1..], CODED) == [];
    assert ExtensionsHeld(SAMPLE.exts, CODED) == [];
    assert SchemasValue(SAMPLE, CODED).scalars == [Str("urn:a")];
    assert W.SchemasJson(SAMPLE, CODED).items == [Str("urn:a")];
    assert W.EncodeContainer(pr, CODED.attrs) == map["code" := Str("x")];
    assert W.ExtsJson(pr, CODED) == map[] && W.MetaJson(pr, CODED) == map[];
  }

  // ----- What 64-bit converters read back -----

  /** strconv.FormatInt in base ten. */
  function IntText(i: int): string {
    if i < 0 then "-" + V.Decimal(-i) else V.Decimal(i)
  }

  predicate Digits(s: string) {
    forall i :: 0 <= i < |s| ==> '0' <= s[i] <= '9'
  }

  function NatOf(s: string): nat
    requires Digits(s)
  {
    if s == "" then 0 else 10 * NatOf(s[..|s| - 1]) + (s[|s| - 1] as int - '0' as int)
  }

  /** json.Number's Int64: a sign, digits, and a value of 64 bits. */
  function Int64(s: string): Option<int> {
    var body := if s != "" && s[0] == '-' then s[1..] else s;
    if body == "" || !Digits(body) then None
    else
      var size: int := NatOf(body);
      var n := if s[0] == '-' then -size else size;
      if MIN_INT64 <= n <= MAX_INT64 then Some(n) else None
  }

  lemma {:induction false} DecimalRead(n: nat)
    ensures Digits(V.Decimal(n)) && NatOf(V.Decimal(n)) == n
  {
    V.DecimalDigits(n);
    var s := V.Decimal(n);
    if n >= 10 {
      DecimalRead(n / 10);
      assert s[..|s| - 1] == V.Decimal(n / 10);
    } else {
      assert s[..|s| - 1] == "" && NatOf("") == 0;
    }
  }

  /** An integer reads back from its text exactly when it has 64 bits. */
  lemma {:induction false} Int64Back(i: int)
    ensures Int64(IntText(i)) == if MIN_INT64 <= i <= MAX_INT64 then Some(i) else None
  {
    hide NatOf;
    DecimalRead(if i < 0 then -i else i);
    if i < 0 {
      assert IntText(i)[1..] == V.Decimal(-i);
    } else {
      assert IntText(i)[0] != '-';
    }
  }

  /** Converters of whole numbers, whole decimals, instants at offset zero, and no bytes. */
  const PRINTER := W.Printer((t: Moment) => IntText(t.instant), _ => "", IntText, (r: real) => IntText(r.Floor))
  const READER := Lexicon(Int64, s => if Int64(s).Some? then Some(Int64(s).value as real) else None,
                          s => if Int64(s).Some? then Some(Moment(Int64(s).value, 0)) else None,
                          s => if s == "" then Some([]) else None)

  function Sized(n: int): Doc {
    Doc(map["code" := Str("x"), "sizes" := Slice(TInteger, [Int(0), Int(n)])],
        map["urn:a:x" := map["sizes" := Slice(TInteger, [Int(n)])]],
        NO_META.(created := Some(Moment(7, 0))))
  }

  lemma {:induction false} SizedCanonical(n: int)
    ensures Canonical(SAMPLE, Sized(n))
  {
    hide Fold, FindAttribute;
    SampleNames();
    FoldLower("urn:a:x");
    assert FindSchema(SAMPLE.exts, "urn:a:x") == Some(SAMPLE.exts[0]);
    ListOfSizes();
    assert CanonicalSlot(SAMPLE, Loc("", "code"), Str("x"));
    assert CanonicalSlot(SAMPLE, Loc("", "sizes"), Slice(TInteger, [Int(0), Int(n)]));
    assert CanonicalSlot(SAMPLE, Loc("urn:a:x", "sizes"), Slice(TInteger, [Int(n)]));
    assert "sizes" in Sized(n).exts["urn:a:x"];
  }

  lemma {:induction false} ListOfSizes()
    ensures FindAttribute([SIZES], "sizes") == Some(SIZES)
  {
    hide Fold;
    SampleNames();
  }

  lemma {:induction false} SizedReads(n: int)
    ensures W.ReadsDoc(PRINTER, READER, Sized(n)) <==> MIN_INT64 <= n <= MAX_INT64
  {
    hide Int64, IntText;
    Int64Back(n);
    Int64Back(0);
    Int64Back(7);
    var (core, ext) := (Sized(n).attrs, Sized(n).exts["urn:a:x"]);
    assert core["sizes"].scalars == [Int(0), Int(n)] && ext["sizes"].scalars == [Int(n)];
    assert W.ReadScalars(PRINTER, READER, [Int(n)]) <==> W.ReadsScalar(PRINTER, READER, [Int(n)][0]);
    assert "sizes" in ext;
  }

  /** With converters of 64 bits, a canonical resource of texts, numbers and an instant comes back
      from its encoding exactly when its number has 64 bits. */
  lemma {:induction false} SizedReturns(n: int)
    ensures W.Returns(PRINTER, READER, SAMPLE, Sized(n)) <==> MIN_INT64 <= n <= MAX_INT64
  {
    hide W.Returns, W.ReadsDoc, StoreType, Canonical;
    SampleFits();
    SizedCanonical(n);
    SizedReads(n);
    W.CodecRoundTrip(PRINTER, READER, SAMPLE, Sized(n));
  }

  // ----- Stored values Set does not take back -----

  /** The stored form of a list of numbers is not one Coerce accepts. */
  lemma NumbersRefused(lx: Lexicon)
    ensures Stored(SIZES, Slice(TInteger, [Int(1)])) && Coerce(lx, SIZES, Slice(TInteger, [Int(1)])) == Err(InvalidValue)
  {
  }

  // ----- A sort key that gives up -----

  const NUMBERED: Elem := map["value" := Str("y"), "sizes" := Slice(TInteger, [Int(1)])]

  lemma {:induction false} NumberedStored()
    ensures StoredElem(BADGES, NUMBERED) && NUMBERED != map[] && !RecoercibleElem(NUMBERED)
  {
    hide Fold, FindAttribute;
    SampleNames();
    SizesMember();
    assert !Recoercible(NUMBERED["sizes"]) && "value" in NUMBERED;
  }

  lemma {:induction false} SizesMember()
    ensures FindAttribute(BADGES.subs, "sizes") == Some(SIZES)
  {
    hide Fold;
    SampleNames();
    NamesApart();
    ListOfSizes();
    assert BADGES.subs[1..] == [SIZES];
  }

  lemma {:induction false} BadgeJudged(lx: Lexicon)
    ensures ElementValid(BADGES, BadgesPath().filter.value)
    ensures EvalElement(lx, BADGES, BADGE, BadgesPath().filter.value) && !EvalElement(lx, BADGES, NUMBERED, BadgesPath().filter.value)
  {
    hide Fold, FindAttribute;
    SampleNames();
    assert CompareText("x", "x") == 0 && CompareText("y", "x") == 1;
  }

  lemma {:induction false} SecondSelected(lx: Lexicon)
    ensures Matching(lx, BADGES, BadgesPath().filter.value, [NUMBERED, BADGE]) == Ok({1})
    ensures Matching(lx, BADGES, BadgesPath().filter.value, []) == Ok({})
  {
    hide EvalElement, ElementValid;
    BadgeJudged(lx);
    var f := BadgesPath().filter.value;
    assert Matching(lx, BADGES, f, [NUMBERED, BADGE]).value == {1};
    assert Matching(lx, BADGES, f, []).value == {};
  }

  /** The PATCH engine selects the second element; the sort key stops at the first, which no
      resource takes alone. */
  lemma {:induction false} ProbingStops(lx: Lexicon)
    ensures var (p, list) := (BadgesPath(), [NUMBERED, BADGE]);
            Matching(lx, BADGES, p.filter.value, list) == Ok({1}) && MatchIndex(lx, SAMPLE, p, p.filter.value, list) == None
  {
    hide MatchIndex, ResolveTarget, ParsedPath, Regular, StoredElem, RecoercibleElem, Matching;
    SampleRegular();
    BadgesTarget();
    BadgeElem();
    NumberedStored();
    SecondSelected(lx);
    var (p, list) := (BadgesPath(), [NUMBERED, BADGE]);
    L.MatchIndexIs(lx, SAMPLE, p, p.filter.value, list);
    assert L.Probed(list) == [];
  }

  lemma {:induction false} BadgeElem()
    ensures StoredElem(BADGES, BADGE) && BADGE != map[]
  {
    hide Fold, FindAttribute;
    SampleNames();
    assert "value" in BADGE;
  }

  // ----- The syntax of filters -----

  function Name(name: string): F.Path {
    F.Path("", name, "", None)
  }

  /** The operators and literals as they are written. */
  lemma OperatorsWritten(op: F.CompareOp)
    ensures var text := match op case Eq => "eq" case Ne => "ne" case Co => "co" case Sw => "sw" case Ew => "ew" case Gt => "gt" case Ge => "ge" case Lt => "lt" case Le => "le";
            F.ExprText(F.Compare(Name("code"), op, F.Str("x"))) == "code " + text + " \"x\""
    ensures F.LiteralText(F.Null) == "null" && F.LiteralText(F.Bool(true)) == "true" && F.LiteralText(F.Bool(false)) == "false"
  {
    assert F.Escape("x") == "x";
    assert F.PathText(Name("code")) == "code";
  }

  // ----- An attribute named not -----

  /** A filter on an attribute named not prints to a text that does not parse back. */
  lemma {:induction false} NotReparsed()
    ensures var e := F.Present(F.Path("", "not", "", None));
            G.PlainPath(e.path) && G.ParseFilter(F.ExprText(e)) != Ok(e)
  {
    hide G.ParseFilter, F.ExprText;
    FoldLower("not");
    assert S.ValidAttrName("not");
    R.ParsePrintedIff(F.Present(F.Path("", "not", "", None)));
  }

  // ----- Schema identifiers that extend one another -----

  const LONG := Attribute("b", TString, false, false, true, ReadWrite, false, [])
  const OVERLAP := ResourceType(SchemaDef("urn:a", [LONG]), [SchemaDef("urn:a:b", [])])

  /** When one schema URN is another and a colon-separated suffix, the two resolvers part: PATCH
      finds an attribute where Get and Set see the bare longer URN. */
  lemma {:induction false} OverlapDisagrees()
    ensures var p := F.Path("urn:a", "b", "", None);
            ResolveTarget(OVERLAP, p) == Some((LONG, None)) && ResolvePath(OVERLAP, AttrPathText(p)) == Ok(Resolved("urn:a:b", None, None, false))
  {
    var p := F.Path("urn:a", "b", "", None);
    var path := "urn:a:b";
    assert AttrPathText(p) == path;
    FoldLower(path);
    FoldLower("urn:a");
    FoldLower("b");
    assert path[..4] == "urn:" && path[..5] == "urn:a" && path[..7] == path;
    assert UrnCandidate("", path, "urn:a") == "urn:a";
    assert UrnCandidate("urn:a", path, "urn:a:b") == "urn:a:b";
    assert OVERLAP.exts[1..] == [];
    assert BestUrn("urn:a:b", path, []) == "urn:a:b";
    assert BestUrn("urn:a", path, OVERLAP.exts) == "urn:a:b";
    assert |Fold("urn:a:b")| != |Fold("urn:a")|;
    assert SplitUrnPrefix(OVERLAP, path) == ("urn:a:b", "", false);
  }
}
