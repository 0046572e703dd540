/** Synthesis: the element an add manufactures when its value filter selects none. It is the
    element the filter describes, so that replaying the operation finds it and changes
    nothing. */
module PatchSynthesis {
  import opened Text
  import opened Schema
  import opened Values
  import opened Documents
  import opened DocumentFacts
  import opened Paths
  import opened PatchRules
  import opened PatchSpec
  import opened PatchFacts
  import opened PatchGuards
  import opened PatchElements
  import opened PatchSelected
  import opened FilterMatch
  import opened PatchMerging
  import F = FilterAst

  // ----- The seed and the filter -----

  /** A sub-attribute of one scalar value. */
  predicate SingleScalar(a: Attribute, key: string) {
    var s := FindAttribute(a.subs, key);
    s.Some? && !s.value.multi && s.value.typ != TComplex
  }

  /** Every clause of an eq-only conjunction compares a single-valued sub-attribute, and none
      that the operation writes. */
  predicate Described(a: Attribute, f: F.Expr, written: set<string>) {
    match f
    case Compare(p, _, _) => SingleScalar(a, p.attr) && Fold(p.attr) !in written
    case And(l, r) => Described(a, l, written) && Described(a, r, written)
    case _ => true
  }

  /** A clause demands the absence of a sub-attribute for which another gives a value. */
  predicate NullClash(f: F.Expr, seed: Elem) {
    match f
    case Compare(p, _, v) => v.Null? && Fold(p.attr) in seed
    case And(l, r) => NullClash(l, seed) || NullClash(r, seed)
    case _ => false
  }

  /** seed holds the literal of every clause of f that has one, and every clause is an eq. */
  predicate Seeds(f: F.Expr, seed: Elem) {
    match f
    case Compare(p, op, v) =>
      && op.Eq? && p.urn == "" && p.sub == ""
      && (v.Null? || (Fold(p.attr) in seed && seed[Fold(p.attr)] == LiteralValue(v)))
    case And(l, r) => Seeds(l, seed) && Seeds(r, seed)
    case _ => false
  }

  lemma {:induction false} SeedsMore(f: F.Expr, seed: Elem, more: Elem)
    requires Seeds(f, seed) && seed.Keys <= more.Keys && forall k <- seed.Keys :: more[k] == seed[k]
    ensures Seeds(f, more)
  {
    if f.And? {
      SeedsMore(f.l, seed, more);
      SeedsMore(f.r, seed, more);
    }
  }

  /** Collecting only adds, and what it yields seeds the filter. */
  lemma {:induction false} CollectSeeds(f: F.Expr, seed: Elem)
    ensures var r := CollectEq(f, seed);
            r.Some? ==>
              && Seeds(f, r.value)
              && seed.Keys <= r.value.Keys && (forall k <- seed.Keys :: r.value[k] == seed[k])
  {
    if f.And? {
      CollectSeeds(f.l, seed);
      var left := CollectEq(f.l, seed);
      if left.Some? {
        CollectSeeds(f.r, left.value);
        var right := CollectEq(f.r, left.value);
        if right.Some? { SeedsMore(f.l, left.value, right.value); }
      }
    }
  }

  /** A seed gives scalars to single-valued sub-attributes outside the written ones. */
  predicate ProperSeed(a: Attribute, written: set<string>, seed: Elem) {
    forall k <- seed.Keys :: SingleScalar(a, k) && k !in written && !seed[k].Nil? && Fold(k) == k
  }

  lemma {:induction false} SeedKeys(a: Attribute, f: F.Expr, written: set<string>, seed: Elem)
    requires Described(a, f, written) && ProperSeed(a, written, seed)
    ensures var r := CollectEq(f, seed); r.Some? ==> ProperSeed(a, written, r.value)
  {
    if f.Compare? {
      FindByFoldKey(a, f.path.attr);
      FoldIdempotent(f.path.attr);
    } else if f.And? {
      SeedKeys(a, f.l, written, seed);
      if CollectEq(f.l, seed).Some? { SeedKeys(a, f.r, written, CollectEq(f.l, seed).value); }
    }
  }

  lemma {:induction false} FindByFoldKey(a: Attribute, name: string)
    ensures FindAttribute(a.subs, Fold(name)) == FindAttribute(a.subs, name)
  {
    FoldIdempotent(name);
    FindByFold(a.subs, Fold(name), name);
  }

  // ----- A coerced literal satisfies its comparison -----

  lemma {:induction false} TextSelf(s: string)
    ensures CompareText(s, s) == 0
  {
    if s != "" { TextSelf(s[1..]); }
  }

  lemma {:induction false} LiteralMatches(lx: Lexicon, s: Attribute, v: F.Literal)
    requires !s.multi && s.typ != TComplex && !v.Null? && CoerceSimple(lx, s, LiteralValue(v)).Ok?
    ensures CompareValue(lx, s, CoerceSimple(lx, s, LiteralValue(v)).value, F.Eq, v)
    ensures !CoerceSimple(lx, s, LiteralValue(v)).value.Nil?
  {
    if v.Str? {
      TextSelf(v.s);
      TextSelf(Fold(v.s));
    }
  }

  /** The members an element has once coerced, one by one. */
  lemma {:induction false} CoercedAt(lx: Lexicon, a: Attribute, raw: Elem, k: string)
    requires MembersCoerce(lx, a, raw)
    ensures var e := CoercedElem(lx, a, raw);
            Lookup(e, k) ==
            if k !in raw || CoerceMember(lx, a, k, raw[k]).value.Nil? then None else Some(CoerceMember(lx, a, k, raw[k]).value)
  {
    hide CoerceMember;
  }

  /** The manufactured element satisfies the filter exactly when no clause asks for the absence
      of a sub-attribute another clause seeds. */
  lemma {:induction false} SeededMatches(lx: Lexicon, a: Attribute, f: F.Expr, seed: Elem, written: Elem)
    requires Seeds(f, seed) && Described(a, f, written.Keys) && ProperSeed(a, written.Keys, seed)
    requires MembersCoerce(lx, a, seed + written)
    ensures var e := CoercedElem(lx, a, seed + written);
            && ElementValid(a, f)
            && (EvalElement(lx, a, e, f) <==> !NullClash(f, seed))
  {
    hide MembersCoerce, CoercedElem, CoerceSimple, CompareValue, ProperSeed;
    if f.And? {
      SeededMatches(lx, a, f.l, seed, written);
      SeededMatches(lx, a, f.r, seed, written);
    } else {
      ClauseMatches(lx, a, f, seed, written);
    }
  }

  lemma {:induction false} ClauseMatches(lx: Lexicon, a: Attribute, f: F.Expr, seed: Elem, written: Elem)
    requires f.Compare? && Seeds(f, seed) && Described(a, f, written.Keys) && ProperSeed(a, written.Keys, seed)
    requires MembersCoerce(lx, a, seed + written)
    ensures var e := CoercedElem(lx, a, seed + written);
            EvalElement(lx, a, e, f) <==> !NullClash(f, seed)
  {
    hide CoercedElem, CoerceSimple, CompareValue;
    var raw, key := seed + written, Fold(f.path.attr);
    var s := FindAttribute(a.subs, f.path.attr).value;
    FindByFoldKey(a, f.path.attr);
    CoercedAt(lx, a, raw, key);
    if f.lit.Null? {
      NullMatches(lx, s, Member(CoercedElem(lx, a, raw), s));
      if key in seed { ScalarNil(lx, s, seed[key]); }
    } else {
      LiteralMatches(lx, s, f.lit);
    }
  }

  lemma NullMatches(lx: Lexicon, s: Attribute, got: Value)
    ensures CompareValue(lx, s, got, F.Eq, F.Null) == got.Nil?
  {
  }

  // ----- The elements that were there before -----

  /** Losing the primary flag to the manufactured element makes no old element match. */
  lemma {:induction false} DemotedUnmatched(lx: Lexicon, a: Attribute, f: F.Expr, seed: Elem, written: Elem, x: Elem, x': Elem)
    requires Seeds(f, seed) && Described(a, f, written.Keys) && OnlyDemoted(x, x')
    requires x' != x ==> PrimaryTrue(seed + written)
    ensures EvalElement(lx, a, x', f) ==> EvalElement(lx, a, x, f)
  {
    if f.And? {
      DemotedUnmatched(lx, a, f.l, seed, written, x, x');
      DemotedUnmatched(lx, a, f.r, seed, written, x, x');
    } else if x' != x {
      var s := FindAttribute(a.subs, f.path.attr).value;
      if Fold(s.name) == PRIMARY {
        FalseUnmatched(lx, s, f.lit);
        if f.lit.Null? { NullMatches(lx, s, Bool(false)); }
      }
    }
  }

  lemma FalseUnmatched(lx: Lexicon, s: Attribute, v: F.Literal)
    requires v.Null? || LiteralValue(v) == Bool(true)
    ensures !CompareValue(lx, s, Bool(false), F.Eq, v)
  {
  }

  // ----- Replaying the write -----

  /** What a valuePath add writes into an element. */
  function Written(op: Op, sub: Option<Attribute>): Elem {
    if sub.Some? then map[Fold(sub.value.name) := op.value]
    else if op.value.Obj? then op.value.members
    else map[]
  }

  /** The written members an existing element takes: a merge passes over readOnly ones. */
  function Merged(a: Attribute, written: Elem): Elem {
    Overlay(a, written, written.Keys)
  }

  /** Every readOnly member, which the manufactured element takes but a merge does not, coerces to
      something Set takes back. */
  predicate Rewritable(lx: Lexicon, a: Attribute, written: Elem) {
    forall k <- written.Keys ::
      SkippedKey(a, k) && CoerceMember(lx, a, k, written[k]).Ok? ==> Recoercible(CoerceMember(lx, a, k, written[k]).value)
  }

  lemma {:induction false} CoerceKept(lx: Lexicon, a: Attribute, k: string, v: Value)
    requires CoerceMember(lx, a, k, v).Ok? && !CoerceMember(lx, a, k, v).value.Nil?
    ensures var cv := CoerceMember(lx, a, k, v).value;
            && CoerceMember(lx, a, k, cv) == (if Recoercible(cv) then Ok(cv) else Err(InvalidValue))
            && (SingleScalar(a, k) ==> Recoercible(cv))
  {
    hide CoerceSimple, StoredSimple;
    var s := FindAttribute(a.subs, k).value;
    var cv := CoerceMember(lx, a, k, v).value;
    CoerceSimpleFixed(lx, s, cv);
    StoredSlice(s, cv);
  }

  lemma StoredSlice(s: Attribute, v: Value)
    requires s.typ != TComplex && StoredSimple(s, v)
    ensures !s.multi ==> Recoercible(v)
  {
  }

  /** Written into again, the manufactured element coerces to itself, unless it holds a readOnly
      member that Set does not take back. */
  lemma {:induction false} Recoerced(lx: Lexicon, a: Attribute, seed: Elem, written: Elem)
    requires ProperSeed(a, written.Keys, seed) && MembersCoerce(lx, a, seed + written)
    ensures var e := CoercedElem(lx, a, seed + written);
            var e2 := e + Merged(a, written);
            && (MembersCoerce(lx, a, e2) <==> Rewritable(lx, a, written))
            && (MembersCoerce(lx, a, e2) ==> CoercedElem(lx, a, e2) == e)
  {
    hide CoerceMember, ProperSeed, Overlay, SkippedKey, Recoercible;
    var raw := seed + written;
    var e := CoercedElem(lx, a, raw);
    var e2 := e + Merged(a, written);
    MergedWithin(a, seed, written);
    forall k <- e2.Keys
      ensures k in raw && (CoerceMember(lx, a, k, e2[k]).Ok? <==> Taken(lx, a, written, k))
      ensures CoerceMember(lx, a, k, e2[k]).Ok? ==> CoerceMember(lx, a, k, e2[k]) == CoerceMember(lx, a, k, raw[k])
    {
      RecoercedAt(lx, a, seed, written, k);
    }
    forall k <- written.Keys | !Taken(lx, a, written, k) ensures k in e2 {
      Untaken(lx, a, seed, written, k);
    }
    TakenAll(lx, a, written);
  }

  /** The member under k, if it is a readOnly one, is taken back. */
  predicate Taken(lx: Lexicon, a: Attribute, written: Elem, k: string) {
    k in written && SkippedKey(a, k) && CoerceMember(lx, a, k, written[k]).Ok? ==> Recoercible(CoerceMember(lx, a, k, written[k]).value)
  }

  lemma {:induction false} TakenAll(lx: Lexicon, a: Attribute, written: Elem)
    ensures Rewritable(lx, a, written) <==> forall k <- written.Keys :: Taken(lx, a, written, k)
  {
    hide CoerceMember, SkippedKey, Recoercible;
  }

  lemma {:induction false} Untaken(lx: Lexicon, a: Attribute, seed: Elem, written: Elem, k: string)
    requires MembersCoerce(lx, a, seed + written) && k in written && !Taken(lx, a, written, k)
    ensures k in CoercedElem(lx, a, seed + written)
  {
    hide CoerceMember, CoercedElem;
    assert (seed + written)[k] == written[k];
    CoercedAt(lx, a, seed + written, k);
  }

  lemma MergedWithin(a: Attribute, seed: Elem, written: Elem)
    ensures forall k <- Merged(a, written).Keys :: k in seed + written && Merged(a, written)[k] == (seed + written)[k]
  {
  }

  lemma {:induction false} RecoercedAt(lx: Lexicon, a: Attribute, seed: Elem, written: Elem, k: string)
    requires ProperSeed(a, written.Keys, seed) && MembersCoerce(lx, a, seed + written)
    requires k in CoercedElem(lx, a, seed + written) + Merged(a, written)
    ensures var (raw, e2) := (seed + written, CoercedElem(lx, a, seed + written) + Merged(a, written));
            && k in raw
            && (CoerceMember(lx, a, k, e2[k]).Ok? <==> Taken(lx, a, written, k))
            && (CoerceMember(lx, a, k, e2[k]).Ok? ==> CoerceMember(lx, a, k, e2[k]) == CoerceMember(lx, a, k, raw[k]))
  {
    hide CoerceMember;
    var raw := seed + written;
    if k in Merged(a, written) {
      assert Merged(a, written)[k] == raw[k];
      RawCoerces(lx, a, raw, k);
    } else {
      FoundMember(lx, a, k, raw[k]);
      CoerceKept(lx, a, k, raw[k]);
    }
  }

  lemma FoundMember(lx: Lexicon, a: Attribute, k: string, v: Value)
    requires CoerceMember(lx, a, k, v).Ok? && !CoerceMember(lx, a, k, v).value.Nil?
    ensures FindAttribute(a.subs, k).Some?
  {
  }

  /** The guard on an immutable member passes when the element already holds the coerced value. */
  lemma {:induction false} GuardPasses(lx: Lexicon, a: Attribute, e: Elem, k: string, v: Value)
    requires FindAttribute(a.subs, k).Some? && Fold(k) == k && CoerceMember(lx, a, k, v).Ok?
    requires Lookup(e, k) == var cv := CoerceMember(lx, a, k, v).value; if cv.Nil? then None else Some(cv)
    ensures CheckElemImmutable(lx, FindAttribute(a.subs, k).value, e, v).None?
  {
    hide ValuesEqual, Stored, CoerceScalar, CoerceScalars;
    var s := FindAttribute(a.subs, k).value;
    var cv := CoerceMember(lx, a, k, v).value;
    if !cv.Nil? {
      assert Coerce(lx, s, v) == Ok(cv);
      CoerceStored(lx, s, v);
      EqualSelf(s, cv);
    }
  }

  /** A sub-attribute an accepted add may write. */
  predicate WritableSub(a: Attribute, sub: Option<Attribute>) {
    sub.Some? ==> FindAttribute(a.subs, sub.value.name) == sub && sub.value.access != ReadOnly && sub.value.typ != TComplex
  }

  predicate CheckWritten(lx: Lexicon, a: Attribute, e: Elem, k: string, v: Value) {
    var s := FindAttribute(a.subs, k);
    s.Some? ==> CheckElemImmutable(lx, s.value, e, v).None?
  }

  /** The add's edit, applied to the element it manufactured, writes the merged members. */
  lemma {:induction false} EditReplays(lx: Lexicon, a: Attribute, op: Op, sub: Option<Attribute>, seed: Elem)
    requires WritableSub(a, sub) && (sub.None? ==> op.value.Obj?)
    requires MembersCoerce(lx, a, seed + Written(op, sub)) && FoldedKeys(Written(op, sub))
    ensures var e := CoercedElem(lx, a, seed + Written(op, sub));
            WriteEdit(op, sub).Ok? && EditElem(lx, a, WriteEdit(op, sub).value, e) == Ok(e + Merged(a, Written(op, sub)))
  {
    hide CheckElemImmutable, CoerceMember, Fold, CoercedElem, MergeKeys;
    var written := Written(op, sub);
    var raw := seed + written;
    var e := CoercedElem(lx, a, raw);
    forall k <- written.Keys ensures Admits(lx, a, e, written, k) && CheckWritten(lx, a, e, k, written[k]) {
      CoercedAt(lx, a, raw, k);
      assert raw[k] == written[k];
      RawCoerces(lx, a, raw, k);
      if FindAttribute(a.subs, k).Some? { GuardPasses(lx, a, e, k, written[k]); }
    }
    if sub.Some? {
      var k := Fold(sub.value.name);
      assert k in written;
      FindByFoldKey(a, sub.value.name);
      assert e[k := op.value] == e + Merged(a, written);
    } else {
      MergeAllIff(lx, a, e, written);
    }
  }

  lemma RawCoerces(lx: Lexicon, a: Attribute, raw: Elem, k: string)
    requires MembersCoerce(lx, a, raw) && k in raw
    ensures CoerceMember(lx, a, k, raw[k]).Ok?
  {
  }

  // ----- The list that results -----

  /** An element as a list tail; the empty one is not stored. */
  function Tail(e: Elem): seq<Elem> {
    if e == map[] then [] else [e]
  }

  lemma {:induction false} KeptSnoc(lx: Lexicon, a: Attribute, elems: seq<Elem>, raw: Elem)
    requires MembersCoerce(lx, a, raw) && forall i :: 0 <= i < |elems| ==> MembersCoerce(lx, a, elems[i])
    ensures Kept(lx, a, elems + [raw]) == Kept(lx, a, elems) + Tail(CoercedElem(lx, a, raw))
  {
    hide MembersCoerce, CoercedElem;
    if elems == [] {
      assert elems + [raw] == [raw];
      assert [raw][1..] == [];
    } else {
      KeptSnoc(lx, a, elems[1..], raw);
      assert (elems + [raw])[1..] == elems[1..] + [raw];
    }
  }

  lemma {:induction false} OnlyDemotedStored(a: Attribute, e: Elem, e': Elem)
    requires StoredElem(a, e) && e != map[] && OnlyDemoted(e, e')
    ensures StoredElem(a, e') && e' != map[]
  {
    hide StoredElem;
    DemoteStored(a, e);
  }

  /** What the list is written as: the old elements, demoted if the new one is primary. */
  lemma {:induction false} SynthesizedList(list: seq<Elem>, raw: Elem)
    ensures var out, n := Demoted(list + [raw], {|list|}), |list|;
            && out == out[..n] + [raw]
            && (forall i :: 0 <= i < n ==> OnlyDemoted(list[i], out[i]) && (out[i] != list[i] ==> PrimaryTrue(raw)))
  {
    hide PrimaryTrue;
    var whole := list + [raw];
    var n := |list|;
    var out := Demoted(whole, {n});
    forall i | 0 <= i <= n
      ensures OnlyDemoted(whole[i], out[i])
      ensures i == n ==> out[i] == raw
    {
      DemotedAt(whole, {n}, i);
    }
  }

  lemma SlotElements(x: seq<Elem>, y: seq<Elem>)
    requires ElementsSlot(x) == ElementsSlot(y)
    ensures x == y
  {
  }

  /** The elements the attribute holds after synthesis, given those before and the raw new one. */
  ghost predicate Grown(lx: Lexicon, a: Attribute, list: seq<Elem>, raw: Elem, list': seq<Elem>) {
    && MembersCoerce(lx, a, raw)
    && list' == Demoted(list + [raw], {|list|})[..|list|] + Tail(CoercedElem(lx, a, raw))
    && |list| <= |list'| && AllStored(a, list') && PrimaryCount(list') <= 1
    && forall i :: 0 <= i < |list| ==> MembersCoerce(lx, a, list'[i])
  }

  lemma {:induction false} SynthesizeGrows(env: Env, w: Work, op: Op, p: F.Path)
    requires Regular(env.rt) && ParsedPath(p) && Canonical(env.rt, w.doc)
    requires p.filter.Some? && ResolveTarget(env.rt, p).Some?
    requires var (a, sub) := ResolveTarget(env.rt, p).value;
             a.typ == TComplex && a.multi && Synthesize(env, w, op, p, sub).Ok? &&
             Canonical(env.rt, Synthesize(env, w, op, p, sub).value.doc)
    ensures var (a, sub) := ResolveTarget(env.rt, p).value;
            var seed := CollectEq(p.filter.value, map[]);
            && seed.Some? && (sub.None? ==> op.value.Obj?)
            && Grown(env.lx, a, Elements(env, w.doc, p), seed.value + Written(op, sub), Elements(env, Synthesize(env, w, op, p, sub).value.doc, p))
  {
    hide Regular, ParsedPath, Canonical, ResolveTarget, SetTracked, AttrPathText, TargetLoc, MembersCoerce, Kept, Slot, Demoted, Elements, StoredElem, CoercedElem, CollectEq, PrimaryCount, OnlyDemoted;
    var (a, sub) := ResolveTarget(env.rt, p).value;
    var seed := CollectEq(p.filter.value, map[]).value;
    var raw, list, w' := seed + Written(op, sub), Elements(env, w.doc, p), Synthesize(env, w, op, p, sub).value;
    var out, n := Demoted(list + [raw], {|list|}), |list|;
    assert sub.Some? ==> seed[Fold(sub.value.name) := op.value] == raw;
    SynthesizedList(list, raw);
    assert |list + [raw]| - 1 == n;
    ListRead(env, w.doc, p);
    ListWritten(env, w, p, Multi(out), out);
    forall i | 0 <= i < n ensures StoredElem(a, out[..n][i]) && out[..n][i] != map[] && MembersCoerce(env.lx, a, out[..n][i]) {
      OnlyDemotedStored(a, list[i], out[i]);
    }
    assert out[n] == raw;
    KeptSnoc(env.lx, a, out[..n], raw);
    KeptStored(env.lx, a, out[..n]);
    ListRead(env, w'.doc, p);
    SlotElements(Elements(env, w'.doc, p), out[..n] + Tail(CoercedElem(env.lx, a, raw)));
  }

  // ----- The new element is the one the filter describes -----

  lemma {:induction false} GrownMatches(lx: Lexicon, a: Attribute, f: F.Expr, list: seq<Elem>, written: Elem, list': seq<Elem>)
    requires CollectEq(f, map[]).Some? && Described(a, f, written.Keys)
    requires Matching(lx, a, f, list) == Ok({})
    requires Grown(lx, a, list, CollectEq(f, map[]).value + written, list')
    ensures var seed := CollectEq(f, map[]).value;
            var e := CoercedElem(lx, a, seed + written);
            && (forall i :: 0 <= i < |list| ==> OnlyDemoted(list[i], list'[i]))
            && list'[|list|..] == Tail(e)
            && (seed != map[] ==> e != map[])
            && MatchElement(lx, a, e, f) == Ok(!NullClash(f, seed))
            && Matching(lx, a, f, list') == Ok(if e != map[] && !NullClash(f, seed) then {|list|} else {})
  {
    hide Described, Demoted, MembersCoerce, CoercedElem, EvalElement, CollectEq, Seeds, NullClash, ProperSeed, ElementValid, OnlyDemoted, AllStored, PrimaryCount, PrimaryTrue;
    var seed := CollectEq(f, map[]).value;
    var raw, n := seed + written, |list|;
    var e := CoercedElem(lx, a, raw);
    EmptySeed(a, written.Keys);
    CollectSeeds(f, map[]);
    SeedKeys(a, f, written.Keys, map[]);
    SeededMatches(lx, a, f, seed, written);
    SynthesizedList(list, raw);
    forall i | 0 <= i < n ensures OnlyDemoted(list[i], list'[i]) && !EvalElement(lx, a, list'[i], f) {
      assert i !in Matching(lx, a, f, list).value;
      DemotedUnmatched(lx, a, f, seed, written, list[i], list'[i]);
    }
    if seed != map[] { SeedShows(lx, a, seed, written); }
    assert list'[n..] == Tail(e);
    var want: set<nat> := if e != map[] && !NullClash(f, seed) then {n} else {};
    forall i: nat ensures i in want <==> i < |list'| && EvalElement(lx, a, list'[i], f) {
      if n <= i < |list'| { assert list'[i] == list'[n..][i - n]; }
    }
    assert Matching(lx, a, f, list').value == want;
  }

  lemma EmptySeed(a: Attribute, written: set<string>)
    ensures ProperSeed(a, written, map[])
  {
  }

  /** A seeded member survives coercion. */
  lemma {:induction false} SeedShows(lx: Lexicon, a: Attribute, seed: Elem, written: Elem)
    requires seed != map[] && ProperSeed(a, written.Keys, seed) && MembersCoerce(lx, a, seed + written)
    ensures CoercedElem(lx, a, seed + written) != map[]
  {
    hide CoercedElem, CoerceSimple;
    var k :| k in seed;
    CoercedAt(lx, a, seed + written, k);
    RawCoerces(lx, a, seed + written, k);
    ScalarNil(lx, FindAttribute(a.subs, k).value, seed[k]);
  }

  /** The add has a value filter that selects nothing and whose clauses speak of single-valued
      sub-attributes the operation does not write. */
  predicate Synthesizes(env: Env, w: Work, op: Op, p: F.Path) {
    && op.kind.Add? && op.path == Some(p) && p.filter.Some? && ResolveTarget(env.rt, p).Some?
    && var (a, sub) := ResolveTarget(env.rt, p).value;
    && Matching(env.lx, a, p.filter.value, Elements(env, w.doc, p)) == Ok({})
    && Described(a, p.filter.value, Written(op, sub).Keys)
  }

  /** The element the accepted synthesis builds, in stored form; empty when nothing is left of it. */
  function Manufactured(env: Env, op: Op, p: F.Path): Elem
    requires p.filter.Some? && ResolveTarget(env.rt, p).Some? && CollectEq(p.filter.value, map[]).Some?
    requires var (a, sub) := ResolveTarget(env.rt, p).value;
             MembersCoerce(env.lx, a, CollectEq(p.filter.value, map[]).value + Written(op, sub))
  {
    var (a, sub) := ResolveTarget(env.rt, p).value;
    CoercedElem(env.lx, a, CollectEq(p.filter.value, map[]).value + Written(op, sub))
  }

  /** Something is left of the element the filter and the value describe, and no null clause of
      the filter asks for the absence of a sub-attribute that another clause gives a value. */
  predicate Lasting(env: Env, op: Op, p: F.Path)
    requires p.filter.Some? && ResolveTarget(env.rt, p).Some?
  {
    var ((a, sub), seed) := (ResolveTarget(env.rt, p).value, CollectEq(p.filter.value, map[]));
    seed.Some? && MembersCoerce(env.lx, a, seed.value + Written(op, sub)) ==>
      Manufactured(env, op, p) != map[] && !NullClash(p.filter.value, seed.value)
  }

  lemma {:induction false} AddSynthesizes(env: Env, w: Work, op: Op, p: F.Path)
    requires Regular(env.rt) && ParsedPath(p) && Canonical(env.rt, w.doc)
    requires Synthesizes(env, w, op, p) && ApplyOp(env, w, op).Ok?
    ensures var (a, sub) := ResolveTarget(env.rt, p).value;
            && a.typ == TComplex && a.multi && WritableSub(a, sub)
            && ApplyOp(env, w, op) == Synthesize(env, w, op, p, sub)
            && Canonical(env.rt, ApplyOp(env, w, op).value.doc)
            && (a.access == Immutable ==> Get(env.rt, w.doc, AttrPathText(p)).None?)
  {
    hide Regular, ParsedPath, Canonical, SetTracked, AttrPathText, TargetLoc, Matching, Described, Synthesize, CheckImmutableSubPath, CheckImmutableAttr, Get, Elements, Declared, Slot, SameDoc, Regular;
    PathedEffect(env, w, op, p);
    var (a, sub) := ResolveTarget(env.rt, p).value;
    TargetSub(env.rt, p);
  }

  lemma {:induction false} TargetSub(rt: ResourceType, p: F.Path)
    requires Regular(rt) && ResolveTarget(rt, p).Some?
    ensures var (a, sub) := ResolveTarget(rt, p).value;
            sub.Some? ==> FindAttribute(a.subs, sub.value.name) == sub && sub.value.typ != TComplex
  {
    hide SeparateSchemas, NamesValid, NamespaceAttr, FlatType;
    var (a, sub) := ResolveTarget(rt, p).value;
    TargetHome(rt, p);
    NamespaceFlat(rt, HomeUrn(rt, p.urn), p.attr);
    if sub.Some? { FindByFold(a.subs, p.sub, sub.value.name); }
  }

  /** An accepted synthesizing add keeps every old element, demoted at most, and adds the
      element it manufactures, which satisfies the filter, and is then the only one to do so,
      exactly when no clause of the filter asks for the absence of a sub-attribute that another
      clause gives a value. */
  lemma {:induction false} SynthesizedMatches(env: Env, w: Work, op: Op, p: F.Path)
    requires Regular(env.rt) && ParsedPath(p) && Canonical(env.rt, w.doc)
    requires Synthesizes(env, w, op, p) && ApplyOp(env, w, op).Ok?
    ensures var (a, sub) := ResolveTarget(env.rt, p).value;
            var seed := CollectEq(p.filter.value, map[]);
            && seed.Some? && MembersCoerce(env.lx, a, seed.value + Written(op, sub))
            && var (list, list', e) := (Elements(env, w.doc, p), Elements(env, ApplyOp(env, w, op).value.doc, p), Manufactured(env, op, p));
            && |list| <= |list'| && list'[|list|..] == Tail(e)
            && (forall i :: 0 <= i < |list| ==> OnlyDemoted(list[i], list'[i]))
            && (seed.value != map[] ==> e != map[])
            && MatchElement(env.lx, a, e, p.filter.value) == Ok(!NullClash(p.filter.value, seed.value))
            && Matching(env.lx, a, p.filter.value, list') == Ok(if e != map[] && !NullClash(p.filter.value, seed.value) then {|list|} else {})
  {
    hide Regular, ParsedPath, Canonical, ResolveTarget, ApplyOp, Synthesize, Elements, Matching, MatchElement, Described, CollectEq, OnlyDemoted, CoercedElem, MembersCoerce, AllStored, PrimaryCount, Get, Demoted, NullClash;
    AddSynthesizes(env, w, op, p);
    SynthesizeGrows(env, w, op, p);
    var (a, sub) := ResolveTarget(env.rt, p).value;
    GrownMatches(env.lx, a, p.filter.value, Elements(env, w.doc, p), Written(op, sub), Elements(env, ApplyOp(env, w, op).value.doc, p));
  }

  // ----- Replaying the whole operation -----

  lemma {:induction false} EditElemsOne(lx: Lexicon, a: Attribute, edit: Edit, list: seq<Elem>, n: nat, i: nat)
    requires i <= n < |list| && EditElem(lx, a, edit, list[n]).Ok?
    ensures EditElems(lx, a, edit, list, {n}, i) == Ok(list[i..][n - i := EditElem(lx, a, edit, list[n]).value])
    decreases n - i
  {
    hide EditElem;
    if i < n {
      EditElemsOne(lx, a, edit, list, n, i + 1);
      assert list[i..][n - i := EditElem(lx, a, edit, list[n]).value] == [list[i]] + list[i + 1..][n - i - 1 := EditElem(lx, a, edit, list[n]).value];
    } else {
      EditElemsNone(lx, a, edit, list, {n}, n + 1);
      assert list[n..][0 := EditElem(lx, a, edit, list[n]).value] == [EditElem(lx, a, edit, list[n]).value] + list[n + 1..];
    }
  }

  lemma {:induction false} EditElemsNone(lx: Lexicon, a: Attribute, edit: Edit, list: seq<Elem>, selected: set<nat>, i: nat)
    requires i <= |list| && forall j: nat :: i <= j < |list| ==> j !in selected
    ensures EditElems(lx, a, edit, list, selected, i) == Ok(list[i..])
    decreases |list| - i
  {
    hide EditElem;
    if i < |list| {
      EditElemsNone(lx, a, edit, list, selected, i + 1);
      assert list[i..] == [list[i]] + list[i + 1..];
    }
  }

  /** A primary flag an element keeps through coercion was there before it. */
  lemma {:induction false} PrimaryCoerced(lx: Lexicon, a: Attribute, e2: Elem)
    requires MembersCoerce(lx, a, e2) && PrimaryTrue(e2)
    ensures PrimaryTrue(CoercedElem(lx, a, e2)) || FindAttribute(a.subs, PRIMARY).None?
  {
    hide CoercedElem;
    CoercedAt(lx, a, e2, PRIMARY);
    RawCoerces(lx, a, e2, PRIMARY);
    if FindAttribute(a.subs, PRIMARY).Some? {
      TrueCoerced(lx, FindAttribute(a.subs, PRIMARY).value);
    }
  }

  lemma TrueCoerced(lx: Lexicon, s: Attribute)
    requires s.typ != TComplex
    ensures CoerceSimple(lx, s, Bool(true)).Ok? ==> CoerceSimple(lx, s, Bool(true)).value == Bool(true)
  {
  }

  lemma UndeclaredPrimary(a: Attribute, e: Elem)
    requires StoredElem(a, e) && FindAttribute(a.subs, PRIMARY).None?
    ensures !PrimaryTrue(e)
  {
  }

  /** Once one element coerces to the list's only primary, demoting the others moves nothing. */
  lemma {:induction false} DemotedAgain(lx: Lexicon, a: Attribute, list: seq<Elem>, e2: Elem)
    requires list != [] && AllStored(a, list) && PrimaryCount(list) <= 1
    requires MembersCoerce(lx, a, e2) && CoercedElem(lx, a, e2) == list[|list| - 1]
    ensures var n := |list| - 1; Demoted(list[n := e2], {n}) == list[n := e2]
  {
    hide MembersCoerce, CoercedElem, PrimaryTrue, StoredElem;
    var n := |list| - 1;
    var out := list[n := e2];
    if PrimaryTrue(e2) {
      PrimaryCoerced(lx, a, e2);
      forall i: nat | i < n ensures !PrimaryTrue(list[i]) {
        if FindAttribute(a.subs, PRIMARY).None? {
          UndeclaredPrimary(a, list[i]);
        } else if PrimaryTrue(list[i]) {
          TwoPrimaries(list, i, n);
        }
      }
      assert Demoted(out, {n}) == out;
    }
  }

  /** Setting what coerces to the value already there changes nothing, not even Changed. */
  lemma {:induction false} TrackedSame(env: Env, w: Work, path: string, v: Value, rp: Resolved)
    requires Canonical(env.rt, w.doc) && ResolvePath(env.rt, path) == Ok(rp) && Sound(env.rt, rp) && rp.sub.None? && Settable(rp)
    requires Slot(w.doc, LocOf(rp)).Some? && Coerce(env.lx, rp.attr.value, v) == Ok(Slot(w.doc, LocOf(rp)).value)
    ensures SetTracked(env, w, path, v) == Ok(w)
  {
    hide Canonical, ResolvePath, Coerce, Stored, Declared, ValuesEqual, GetOrNil, CanonicalSlot;
    CanonicalAt(env.rt, w.doc, LocOf(rp));
    SlotStored(env.rt, LocOf(rp), Slot(w.doc, LocOf(rp)).value, rp.attr.value);
    SlotAt(env.rt, w.doc, rp);
    StoredValueNotNil(rp.attr.value, Slot(w.doc, LocOf(rp)).value);
    var c := Container(w.doc, rp).value;
    assert c[Fold(rp.attr.value.name) := Slot(w.doc, LocOf(rp)).value] == c;
    if rp.urn != "" {
      assert Fold(rp.attr.value.name) in c;
      assert w.doc.exts[Fold(rp.urn) := c] == w.doc.exts;
    }
    assert SetResolved(env.lx, w.doc, rp, v) == Ok(w.doc);
    EqualSelfGot(env, w.doc, path, rp);
  }

  lemma SlotStored(rt: ResourceType, l: Loc, v: Value, a: Attribute)
    requires CanonicalSlot(rt, l, v) && Declared(rt, l) == Some(a)
    ensures Stored(a, v)
  {
  }

  lemma {:induction false} EqualSelfGot(env: Env, d: Doc, path: string, rp: Resolved)
    requires Canonical(env.rt, d) && ResolvePath(env.rt, path) == Ok(rp) && Sound(env.rt, rp) && rp.sub.None? && Settable(rp)
    ensures var v := GetOrNil(env.rt, d, path); ValuesEqual(v, v)
  {
    hide Canonical, ResolvePath, Stored, Declared, ValuesEqual, GetResolved, CanonicalSlot, Slot;
    GetSlot(env.rt, d, rp);
    CanonicalAt(env.rt, d, LocOf(rp));
    if Slot(d, LocOf(rp)).Some? { SlotStored(env.rt, LocOf(rp), Slot(d, LocOf(rp)).value, rp.attr.value); }
    EqualSelf(rp.attr.value, GetOrNil(env.rt, d, path));
  }

  lemma {:induction false} CoerceKeptOk(lx: Lexicon, a: Attribute, elems: seq<Elem>)
    requires forall i :: 0 <= i < |elems| ==> MembersCoerce(lx, a, elems[i])
    ensures CoerceElems(lx, a, Boxed(elems)) == Ok(Kept(lx, a, elems))
  {
    hide MembersCoerce, CoercedElem;
    if elems == [] {
      assert Boxed(elems) == [];
    } else {
      assert Boxed(elems)[1..] == Boxed(elems[1..]);
      CoerceKeptOk(lx, a, elems[1..]);
      assert Boxed(elems)[0] == Cplx(elems[0]);
      var tail := Kept(lx, a, elems[1..]);
      assert [] + tail == tail;
      assert Boxed(elems) != [] && CoerceComplex(lx, a, Boxed(elems)[0]).Ok?;
      assert CoerceElems(lx, a, Boxed(elems)) == Ok(Tail(CoercedElem(lx, a, elems[0])) + tail);
    }
  }

  /** The edited list coerces back to the list it came from. */
  lemma {:induction false} CoercesBack(lx: Lexicon, a: Attribute, list: seq<Elem>, e2: Elem)
    requires a.typ == TComplex && a.multi
    requires list != [] && AllStored(a, list) && PrimaryCount(list) <= 1
    requires MembersCoerce(lx, a, e2) && CoercedElem(lx, a, e2) == list[|list| - 1]
    requires forall i :: 0 <= i < |list| - 1 ==> MembersCoerce(lx, a, list[i])
    ensures Coerce(lx, a, Multi(list[|list| - 1 := e2])) == Ok(Multi(list))
  {
    hide MembersCoerce, CoercedElem, StoredElem, PrimaryCount, Kept, CoerceElems, Boxed;
    var n := |list| - 1;
    var out := list[n := e2];
    assert out == list[..n] + [e2];
    CoerceKeptOk(lx, a, out);
    KeptSnoc(lx, a, list[..n], e2);
    KeptStored(lx, a, list[..n]);
    assert list == list[..n] + [list[n]];
  }

  /** An element that does not coerce keeps its list from being written. */
  lemma {:induction false} ListRefused(lx: Lexicon, a: Attribute, elems: seq<Elem>, i: nat)
    requires a.typ == TComplex && a.multi && i < |elems| && !MembersCoerce(lx, a, elems[i])
    ensures Coerce(lx, a, Multi(elems)) == Err(InvalidValue)
  {
    hide MembersCoerce, PrimaryCount, Boxed, CoerceElems;
    CoerceElemsKept(lx, a, elems);
  }

  /** The replayed edit of the last element, coerced as a list. */
  ghost predicate EditsTo(lx: Lexicon, a: Attribute, edit: Edit, list: seq<Elem>, outcome: Result<Value>) {
    list != [] &&
    var out := EditElems(lx, a, edit, list, {|list| - 1}, 0);
    out.Ok? && Coerce(lx, a, Multi(Demoted(out.value, {|list| - 1}))) == outcome
  }

  lemma {:induction false} ReplayWrites(lx: Lexicon, a: Attribute, op: Op, sub: Option<Attribute>, seed: Elem, list: seq<Elem>)
    requires a.typ == TComplex && a.multi && WritableSub(a, sub) && (sub.None? ==> op.value.Obj?)
    requires ProperSeed(a, Written(op, sub).Keys, seed) && FoldedKeys(Written(op, sub))
    requires MembersCoerce(lx, a, seed + Written(op, sub))
    requires list != [] && list[|list| - 1] == CoercedElem(lx, a, seed + Written(op, sub))
    requires AllStored(a, list) && PrimaryCount(list) <= 1
    requires forall i :: 0 <= i < |list| - 1 ==> MembersCoerce(lx, a, list[i])
    ensures WriteEdit(op, sub).Ok?
    ensures EditsTo(lx, a, WriteEdit(op, sub).value, list, if Rewritable(lx, a, Written(op, sub)) then Ok(Multi(list)) else Err(InvalidValue))
  {
    hide MembersCoerce, CoercedElem, StoredElem, PrimaryCount, Coerce, Demoted, ProperSeed, Rewritable, EditElem, EditElems, WritableSub, AllStored;
    var n := |list| - 1;
    var e2 := list[n] + Merged(a, Written(op, sub));
    EditReplays(lx, a, op, sub, seed);
    Recoerced(lx, a, seed, Written(op, sub));
    EditElemsOne(lx, a, WriteEdit(op, sub).value, list, n, 0);
    assert list[0..] == list;
    if MembersCoerce(lx, a, e2) {
      DemotedAgain(lx, a, list, e2);
      CoercesBack(lx, a, list, e2);
    } else {
      DemotedAt(list[n := e2], {n}, n);
      ListRefused(lx, a, Demoted(list[n := e2], {n}), n);
    }
  }

  lemma {:induction false} ReplayTail(env: Env, w: Work, op: Op, p: F.Path, a: Attribute, sub: Option<Attribute>, edit: Edit, selected: set<nat>)
    requires op.kind.Add? && p.filter.Some? && a.typ == TComplex && a.multi && WriteEdit(op, sub) == Ok(edit)
    requires Matching(env.lx, a, p.filter.value, Elements(env, w.doc, p)) == Ok(selected) && selected != {}
    ensures ValuePathWrite(env, w, op, p, a, sub) == WriteElements(env, w, p, a, edit, selected)
  {
    hide WriteElements, Elements, Matching, Synthesize, WriteEdit;
  }

  lemma {:induction false} AddTail(env: Env, w: Work, op: Op, p: F.Path)
    requires op.kind.Add? && op.path == Some(p) && p.filter.Some? && ResolveTarget(env.rt, p).Some?
    requires OpTarget(env, w.doc, op, p) == Ok(ResolveTarget(env.rt, p).value)
    ensures var (a, sub) := ResolveTarget(env.rt, p).value; ApplyOp(env, w, op) == ValuePathWrite(env, w, op, p, a, sub)
  {
    hide ResolveTarget, OpTarget, ValuePathWrite;
  }

  /** Writing back a list that coerces to the one already held changes nothing. */
  lemma {:induction false} SameList(env: Env, w: Work, p: F.Path, out: seq<Elem>)
    requires Regular(env.rt) && ParsedPath(p) && Canonical(env.rt, w.doc) && ResolveTarget(env.rt, p).Some?
    requires var a := ResolveTarget(env.rt, p).value.0;
             a.typ == TComplex && a.multi && Elements(env, w.doc, p) != [] && Coerce(env.lx, a, Multi(out)) == Ok(Multi(Elements(env, w.doc, p)))
    ensures SetTracked(env, w, AttrPathText(p), Multi(out)) == Ok(w)
  {
    hide Regular, ParsedPath, Canonical, ResolveTarget, SetTracked, AttrPathText, TargetLoc, LocOf, Elements, Coerce, ResolvePath, Sound, Slot, Settable,
      StoredElem, PrimaryCount, Declared, ListAt;
    ResolversAgreeAt(env.rt, p);
    ListRead(env, w.doc, p);
    var rp := ResolvePath(env.rt, AttrPathText(p)).value;
    SoundDeclared(env.rt, rp);
    CommonSchemas(env.rt, rp);
    TrackedSame(env, w, AttrPathText(p), Multi(out), rp);
  }

  /** Writing a list that does not coerce is refused. */
  lemma {:induction false} RefusedList(env: Env, w: Work, p: F.Path, out: seq<Elem>)
    requires Regular(env.rt) && ParsedPath(p) && ResolveTarget(env.rt, p).Some?
    requires var a := ResolveTarget(env.rt, p).value.0;
             a.typ == TComplex && a.multi && Coerce(env.lx, a, Multi(out)) == Err(InvalidValue)
    ensures SetTracked(env, w, AttrPathText(p), Multi(out)) == Err(InvalidValue)
  {
    hide Regular, ParsedPath, ResolveTarget, AttrPathText, Coerce, ResolvePath, Sound, Settable;
    ResolversAgreeAt(env.rt, p);
    var rp := ResolvePath(env.rt, AttrPathText(p)).value;
    SoundDeclared(env.rt, rp);
    CommonSchemas(env.rt, rp);
    SettableRefused(env.lx, w.doc, rp, Multi(out));
  }

  lemma {:induction false} ReplayStep(env: Env, w: Work, op: Op, p: F.Path, edit: Edit, same: bool)
    requires Regular(env.rt) && ParsedPath(p) && Canonical(env.rt, w.doc)
    requires op.kind.Add? && op.path == Some(p) && p.filter.Some? && ResolveTarget(env.rt, p).Some?
    requires var (a, sub) := ResolveTarget(env.rt, p).value;
             var list := Elements(env, w.doc, p);
             && a.typ == TComplex && a.multi && WritableSub(a, sub) && a.access != ReadOnly && a.access != Immutable
             && WriteEdit(op, sub) == Ok(edit) && EditsTo(env.lx, a, edit, list, if same then Ok(Multi(list)) else Err(InvalidValue))
             && Matching(env.lx, a, p.filter.value, list) == Ok({|list| - 1})
    ensures ApplyOp(env, w, op) == if same then Ok(w) else Err(InvalidValue)
  {
    hide Regular, ParsedPath, Canonical, ResolveTarget, SetTracked, AttrPathText, Elements, Matching, EditElems, Demoted, Coerce, OpTarget,
      WritableSub, WriteEdit, ApplyOp, ValuePathWrite;
    var (a, sub) := ResolveTarget(env.rt, p).value;
    var list := Elements(env, w.doc, p);
    OpAllowed(env, w.doc, op, p);
    AddTail(env, w, op, p);
    ReplayTail(env, w, op, p, a, sub, edit, {|list| - 1});
    var out := Demoted(EditElems(env.lx, a, edit, list, {|list| - 1}, 0).value, {|list| - 1});
    if same { SameList(env, w, p, out); } else { RefusedList(env, w, p, out); }
  }

  /** The guards let a valuePath add through on an attribute that is neither readOnly nor
      immutable. */
  lemma {:induction false} OpAllowed(env: Env, d: Doc, op: Op, p: F.Path)
    requires op.kind.Add? && p.filter.Some? && ResolveTarget(env.rt, p).Some?
    requires var (a, sub) := ResolveTarget(env.rt, p).value; WritableSub(a, sub) && a.access != ReadOnly && a.access != Immutable
    ensures OpTarget(env, d, op, p) == Ok(ResolveTarget(env.rt, p).value)
  {
    hide ResolveTarget, AttrPathText, SubPathText;
  }

  /** On an immutable attribute that holds something they refuse it. */
  lemma {:induction false} OpRefused(env: Env, d: Doc, op: Op, p: F.Path)
    requires op.kind.Add? && op.path == Some(p) && p.filter.Some? && ResolveTarget(env.rt, p).Some?
    requires var (a, sub) := ResolveTarget(env.rt, p).value;
             WritableSub(a, sub) && a.typ == TComplex && a.access == Immutable && Elements(env, d, p) != []
    ensures OpTarget(env, d, op, p) == Err(Mutability)
  {
    hide ResolveTarget, AttrPathText, SubPathText, Get;
  }

  lemma {:induction false} SynthesisRepeats(env: Env, w: Work, op: Op, p: F.Path)
    requires Regular(env.rt) && ParsedPath(p) && Canonical(env.rt, w.doc)
    requires Synthesizes(env, w, op, p) && ApplyOp(env, w, op).Ok?
    requires FoldedKeys(Written(op, ResolveTarget(env.rt, p).value.1))
    requires Lasting(env, op, p)
    ensures var w' := ApplyOp(env, w, op).value;
            var (a, sub) := ResolveTarget(env.rt, p).value;
            && Matching(env.lx, a, p.filter.value, Elements(env, w'.doc, p)) == Ok({|Elements(env, w.doc, p)|})
            && ApplyOp(env, w', op) ==
               if a.access == Immutable then Err(Mutability)
               else if Rewritable(env.lx, a, Written(op, sub)) then Ok(w')
               else Err(InvalidValue)
  {
    hide Regular, ParsedPath, Canonical, ResolveTarget, ApplyOp, Synthesize, Elements, Matching, MatchElement, Described, CollectEq, OnlyDemoted, CoercedElem, MembersCoerce, AllStored, PrimaryCount, Get, Demoted, NullClash, Rewritable, WriteEdit, ProperSeed, Seeds, EditsTo, WritableSub, OpTarget;
    AddSynthesizes(env, w, op, p);
    SynthesizeGrows(env, w, op, p);
    SynthesizedMatches(env, w, op, p);
    var (a, sub) := ResolveTarget(env.rt, p).value;
    var w', seed := ApplyOp(env, w, op).value, CollectEq(p.filter.value, map[]).value;
    if a.access == Immutable {
      OpRefused(env, w'.doc, op, p);
      TargetRefused(env, w', op, p);
    } else {
      EmptySeed(a, Written(op, sub).Keys);
      SeedKeys(a, p.filter.value, Written(op, sub).Keys, map[]);
      ReplayWrites(env.lx, a, op, sub, seed, Elements(env, w'.doc, p));
      NotReadOnly(env, w, op, p);
      ReplayStep(env, w', op, p, WriteEdit(op, sub).value, Rewritable(env.lx, a, Written(op, sub)));
    }
  }

  /** An accepted synthesizing add that builds a lasting element, sent again: it selects exactly the element it added, leaves the resource as it is, alone or
      after the first, and on its own reports that nothing changed, if and only if the attribute
      is not immutable and every readOnly member it named can be written back; otherwise it is
      refused. */
  lemma {:induction false} SynthesisReplays(env: Env, w: Work, op: Op, p: F.Path)
    requires Regular(env.rt) && ParsedPath(p) && Canonical(env.rt, w.doc)
    requires Synthesizes(env, w, op, p) && ApplyOp(env, w, op).Ok?
    requires FoldedKeys(Written(op, ResolveTarget(env.rt, p).value.1))
    requires Lasting(env, op, p)
    ensures var w' := ApplyOp(env, w, op).value;
            var (a, sub) := ResolveTarget(env.rt, p).value;
            var again := a.access != Immutable && Rewritable(env.lx, a, Written(op, sub));
            var refusal := Err(if a.access == Immutable then Mutability else InvalidValue);
            && Matching(env.lx, a, p.filter.value, Elements(env, w'.doc, p)) == Ok({|Elements(env, w.doc, p)|})
            && ApplyOp(env, w', op) == (if again then Ok(w') else refusal)
            && PatchSpec.Apply(env, w'.doc, [op]) == (if again then Ok(Work(w'.doc, false)) else refusal)
  {
    hide *;
    SynthesisRepeats(env, w, op, p);
    SynthesizesAt(env, w, op, p);
    AppliedCanonical(env, w, op, p);
    ReportsNothing(env, ApplyOp(env, w, op).value, op, p);
  }

  lemma SynthesizesAt(env: Env, w: Work, op: Op, p: F.Path)
    requires Synthesizes(env, w, op, p)
    ensures op.path == Some(p) && ResolveTarget(env.rt, p).Some?
  {
  }

  lemma {:induction false} TargetRefused(env: Env, w: Work, op: Op, p: F.Path)
    requires op.kind.Add? && op.path == Some(p) && OpTarget(env, w.doc, op, p) == Err(Mutability)
    ensures ApplyOp(env, w, op) == Err(Mutability)
  {
    hide OpTarget, Perform;
  }

  lemma {:induction false} NotReadOnly(env: Env, w: Work, op: Op, p: F.Path)
    requires op.path == Some(p) && ApplyOp(env, w, op).Ok?
    ensures ResolveTarget(env.rt, p).Some? && ResolveTarget(env.rt, p).value.0.access != ReadOnly
  {
    hide Perform, CheckImmutablePathed, CheckImmutableSubPath;
  }

  /** The clash is real: a null clause before a value clause on the same name goes unnoticed,
      and what is built then cannot satisfy the filter; the other way round the filter is
      refused. */
  lemma {:induction false} NullBeforeValue(name: string, text: string)
    ensures var p := F.Path("", name, "", None);
            var (absent, given) := (F.Compare(p, F.Eq, F.Null), F.Compare(p, F.Eq, F.Str(text)));
            && CollectEq(F.And(absent, given), map[]) == Some(map[Fold(name) := Str(text)])
            && NullClash(F.And(absent, given), map[Fold(name) := Str(text)])
            && CollectEq(F.And(given, absent), map[]) == None
  {
    var p := F.Path("", name, "", None);
    var (absent, given) := (F.Compare(p, F.Eq, F.Null), F.Compare(p, F.Eq, F.Str(text)));
    assert CollectEq(absent, map[]) == Some(map[]);
    assert CollectEq(given, map[]) == Some(map[Fold(name) := Str(text)]);
  }
}
