/** What and, or, not and value paths mean for the resources a list query returns and for the
    elements a PATCH value filter selects (section 3.4.2.2 of RFC 7644, filter/match.go). */
module FilterAnswers {
  import opened Text
  import opened Schema
  import opened Values
  import opened Paths
  import opened Documents
  import opened FilterMatch
  import opened PatchRules
  import opened PatchSpec
  import opened Listing
  import F = FilterAst

  // ----- The resources of a list query -----

  /** The resources of the list that are in s, in their order. */
  function Restrict(docs: seq<Doc>, s: set<Doc>): seq<Doc> {
    if docs == [] then [] else (if docs[0] in s then [docs[0]] else []) + Restrict(docs[1..], s)
  }

  /** The resources the filter keeps. */
  function Answer(env: Env, docs: seq<Doc>, f: F.Expr): set<Doc> {
    var kept := Keep(env, docs, Some(f));
    if kept.Ok? then (set d <- kept.value) else {}
  }

  /** A valid filter keeps the resources that match it, in their order. */
  lemma {:induction false} KeepIs(env: Env, docs: seq<Doc>, f: F.Expr)
    requires FilterValid(env.rt, f)
    ensures Keep(env, docs, Some(f)).Ok?
    ensures forall d :: d in Keep(env, docs, Some(f)).value <==> d in docs && Eval(env.lx, env.rt, d, f)
  {
    hide FilterValid, Eval;
    if docs != [] { KeepIs(env, docs[1..], f); }
  }

  lemma {:induction false} KeepRestricts(env: Env, docs: seq<Doc>, f: F.Expr, s: set<Doc>)
    requires FilterValid(env.rt, f) && forall d <- docs :: d in s <==> Eval(env.lx, env.rt, d, f)
    ensures Keep(env, docs, Some(f)) == Ok(Restrict(docs, s))
  {
    hide FilterValid, Eval;
    if docs != [] { KeepRestricts(env, docs[1..], f, s); }
  }

  /** A filter keeps of a list exactly its answer, in the list's order. */
  lemma {:induction false} KeepAnswer(env: Env, docs: seq<Doc>, f: F.Expr)
    requires FilterValid(env.rt, f)
    ensures Keep(env, docs, Some(f)) == Ok(Restrict(docs, Answer(env, docs, f)))
  {
    hide FilterValid, Eval, Keep;
    KeepIs(env, docs, f);
    KeepRestricts(env, docs, f, Answer(env, docs, f));
  }

  /** Over any list of resources, or keeps what either filter keeps, and keeps what both keep,
      and not keeps what the filter does not, all in the order of the list. */
  lemma {:induction false} Connectives(env: Env, docs: seq<Doc>, e: F.Expr, f: F.Expr)
    requires FilterValid(env.rt, e) && FilterValid(env.rt, f)
    ensures var (es, fs) := (Answer(env, docs, e), Answer(env, docs, f));
            && Keep(env, docs, Some(F.Or(e, f))) == Ok(Restrict(docs, es + fs))
            && Keep(env, docs, Some(F.And(e, f))) == Ok(Restrict(docs, es * fs))
            && Keep(env, docs, Some(F.Not(e))) == Ok(Restrict(docs, (set d <- docs) - es))
  {
    hide FilterValid, Eval, Keep, Restrict;
    var (es, fs) := (Answer(env, docs, e), Answer(env, docs, f));
    KeepIs(env, docs, e);
    KeepIs(env, docs, f);
    forall d <- docs
      ensures d in es + fs <==> Eval(env.lx, env.rt, d, F.Or(e, f))
      ensures d in es * fs <==> Eval(env.lx, env.rt, d, F.And(e, f))
      ensures d in (set x <- docs) - es <==> Eval(env.lx, env.rt, d, F.Not(e))
    {
      EvalConnectives(env, d, e, f);
    }
    ValidConnectives(env.rt, e, f);
    KeepRestricts(env, docs, F.Or(e, f), es + fs);
    KeepRestricts(env, docs, F.And(e, f), es * fs);
    KeepRestricts(env, docs, F.Not(e), (set d <- docs) - es);
  }

  lemma EvalConnectives(env: Env, d: Doc, e: F.Expr, f: F.Expr)
    ensures Eval(env.lx, env.rt, d, F.Or(e, f)) <==> Eval(env.lx, env.rt, d, e) || Eval(env.lx, env.rt, d, f)
    ensures Eval(env.lx, env.rt, d, F.And(e, f)) <==> Eval(env.lx, env.rt, d, e) && Eval(env.lx, env.rt, d, f)
    ensures Eval(env.lx, env.rt, d, F.Not(e)) <==> !Eval(env.lx, env.rt, d, e)
  {
  }

  /** A compound filter is valid exactly when its parts are; an invalid one is refused for every
      list that is not empty. */
  lemma {:induction false} ValidConnectives(rt: ResourceType, e: F.Expr, f: F.Expr)
    ensures FilterValid(rt, F.And(e, f)) <==> FilterValid(rt, e) && FilterValid(rt, f)
    ensures FilterValid(rt, F.Or(e, f)) <==> FilterValid(rt, e) && FilterValid(rt, f)
    ensures FilterValid(rt, F.Not(e)) <==> FilterValid(rt, e)
  {
  }

  lemma {:induction false} InvalidRefused(env: Env, docs: seq<Doc>, f: F.Expr)
    requires !FilterValid(env.rt, f) && docs != []
    ensures Keep(env, docs, Some(f)) == Err(InvalidFilter)
  {
    hide FilterValid, Eval;
  }

  // ----- The elements of a value filter -----

  /** On the elements of a list, or selects the union, and the intersection, and not the rest. */
  lemma {:induction false} Selections(lx: Lexicon, a: Attribute, e: F.Expr, f: F.Expr, list: seq<Elem>)
    requires ElementValid(a, e) && ElementValid(a, f)
    ensures var (es, fs) := (Matching(lx, a, e, list), Matching(lx, a, f, list));
            && es.Ok? && fs.Ok?
            && Matching(lx, a, F.Or(e, f), list) == Ok(es.value + fs.value)
            && Matching(lx, a, F.And(e, f), list) == Ok(es.value * fs.value)
            && Matching(lx, a, F.Not(e), list) == Ok(IndexRange(0, |list|) - es.value)
  {
    assert ElementValid(a, F.Or(e, f)) && ElementValid(a, F.And(e, f)) && ElementValid(a, F.Not(e));
    assert Matching(lx, a, F.Or(e, f), list).value == Matching(lx, a, e, list).value + Matching(lx, a, f, list).value;
    assert Matching(lx, a, F.And(e, f), list).value == Matching(lx, a, e, list).value * Matching(lx, a, f, list).value;
    assert Matching(lx, a, F.Not(e), list).value == IndexRange(0, |list|) - Matching(lx, a, e, list).value;
  }

  /** A value path holds of a resource exactly when its filter selects an element of the list:
      its clauses are about one and the same element. */
  lemma {:induction false} ValuePathSelects(env: Env, d: Doc, p: F.Path, f: F.Expr)
    requires ResolveTarget(env.rt, p).Some? && p.sub == "" && ElementValid(ResolveTarget(env.rt, p).value.0, f)
    requires GetOrNil(env.rt, d, AttrPathText(p)).Multi?
    ensures var (a, list) := (ResolveTarget(env.rt, p).value.0, Elements(env, d, p));
            && GetOrNil(env.rt, d, AttrPathText(p)) == Multi(list)
            && Matching(env.lx, a, f, list).Ok?
            && (Eval(env.lx, env.rt, d, F.ValuePath(p, f)) <==> Matching(env.lx, a, f, list).value != {})
  {
    hide ElementValid, EvalElement, ResolveTarget, Get, AttrPathText;
    BareTarget(env.rt, p);
    var (a, list) := (ResolveTarget(env.rt, p).value.0, Elements(env, d, p));
    var m := Matching(env.lx, a, f, list).value;
    if m != {} {
      var i :| i in m;
      assert EvalElement(env.lx, a, list[i], f);
    }
    if Eval(env.lx, env.rt, d, F.ValuePath(p, f)) {
      var i :| 0 <= i < |list| && EvalElement(env.lx, a, list[i], f);
      assert i in m;
    }
  }

  lemma BareTarget(rt: ResourceType, p: F.Path)
    requires ResolveTarget(rt, p).Some? && p.sub == ""
    ensures ResolveTarget(rt, p).value.1.None? && SubPathText(p) == AttrPathText(p)
  {
    assert AttrPathText(p) + "" == AttrPathText(p);
  }

  /** Some element of the list satisfies the filter. */
  predicate SomeSatisfies(lx: Lexicon, a: Attribute, list: seq<Elem>, f: F.Expr) {
    exists e <- list :: EvalElement(lx, a, e, f)
  }

  /** A comparison or presence test on a member of a multi-valued complex attribute holds exactly
      when some element alone satisfies it. */
  lemma {:induction false} MemberOfSome(env: Env, d: Doc, p: F.Path, op: F.CompareOp, v: F.Literal)
    requires ResolveTarget(env.rt, p).Some? && p.filter.None?
    requires var (a, sub) := ResolveTarget(env.rt, p).value; sub.Some? && a.multi && a.typ == TComplex
    requires GetOrNil(env.rt, d, AttrPathText(p)).Multi?
    ensures var (a, list, member) := (ResolveTarget(env.rt, p).value.0, Elements(env, d, p), F.Path("", p.sub, "", None));
            && (Eval(env.lx, env.rt, d, F.Compare(p, op, v)) <==> SomeSatisfies(env.lx, a, list, F.Compare(member, op, v)))
            && (Eval(env.lx, env.rt, d, F.Present(p)) <==> SomeSatisfies(env.lx, a, list, F.Present(member)))
  {
    hide ResolveTarget, CompareValue, Member, Get, AttrPathText, EvalElement, SomeSatisfies;
    MemberTarget(env.rt, p);
    var member := F.Path("", p.sub, "", None);
    var (a, sub) := ResolveTarget(env.rt, p).value;
    var list := Elements(env, d, p);
    var got := SubCandidates(env.rt, d, p, sub.value);
    assert |got| == |list| && forall i :: 0 <= i < |list| ==> got[i] == Member(list[i], sub.value);
    SomeCandidate(env.lx, a, sub.value, member, op, v, list, got);
    assert Candidates(env.rt, d, p, a, sub) == got;
    assert Eval(env.lx, env.rt, d, F.Compare(p, op, v)) <==> exists x <- got :: CompareValue(env.lx, sub.value, x, op, v);
  }

  lemma {:induction false} SomeCandidate(lx: Lexicon, a: Attribute, sub: Attribute, member: F.Path, op: F.CompareOp, v: F.Literal, list: seq<Elem>, got: seq<Value>)
    requires ElementTarget(a, member) == Some(sub) && |got| == |list| && forall i :: 0 <= i < |list| ==> got[i] == Member(list[i], sub)
    ensures (exists x <- got :: CompareValue(lx, sub, x, op, v)) <==> SomeSatisfies(lx, a, list, F.Compare(member, op, v))
    ensures (exists x <- got :: !x.Nil?) <==> SomeSatisfies(lx, a, list, F.Present(member))
  {
    hide CompareValue, Member, ElementTarget;
    forall i | 0 <= i < |list|
      ensures EvalElement(lx, a, list[i], F.Compare(member, op, v)) <==> CompareValue(lx, sub, got[i], op, v)
      ensures EvalElement(lx, a, list[i], F.Present(member)) <==> !got[i].Nil?
      ensures got[i] in got && list[i] in list
    {
    }
    forall x <- got ensures exists i :: 0 <= i < |list| && got[i] == x {
    }
    forall e <- list ensures exists i :: 0 <= i < |list| && list[i] == e {
    }
  }

  lemma MemberTarget(rt: ResourceType, p: F.Path)
    requires ResolveTarget(rt, p).Some? && ResolveTarget(rt, p).value.1.Some?
    ensures ElementTarget(ResolveTarget(rt, p).value.0, F.Path("", p.sub, "", None)) == ResolveTarget(rt, p).value.1
  {
  }

  /** Elsewhere a comparison is one of the value Get shows, or of some value of a list of
      scalars; what is unassigned compares like null. */
  lemma {:induction false} ComparesHeld(env: Env, d: Doc, p: F.Path, op: F.CompareOp, v: F.Literal)
    requires ResolveTarget(env.rt, p).Some?
    requires var (a, sub) := ResolveTarget(env.rt, p).value; !(a.multi && a.typ == TComplex)
    ensures var (a, sub) := ResolveTarget(env.rt, p).value;
            var (target, held) := (if sub.Some? then sub.value else a, GetOrNil(env.rt, d, SubPathText(p)));
            Eval(env.lx, env.rt, d, F.Compare(p, op, v)) <==>
            if a.multi && sub.None? && held.Slice? then exists x <- held.scalars :: CompareValue(env.lx, target, x, op, v)
            else if a.multi && sub.None? && held.Multi? then exists x <- Boxed(held.elems) :: CompareValue(env.lx, target, x, op, v)
            else CompareValue(env.lx, target, held, op, v)
  {
    hide ResolveTarget, CompareValue, Get, SubPathText, Boxed;
    var (a, sub) := ResolveTarget(env.rt, p).value;
    var got := Candidates(env.rt, d, p, a, sub);
    assert |got| == 1 ==> forall x <- got :: x == got[0];
    assert |got| == 1 ==> got[0] in got;
  }

  /** Presence elsewhere is that Get shows something, and a value path on a single complex value
      is its filter on that one element; on anything else it does not hold. */
  lemma {:induction false} HeldClauses(env: Env, d: Doc, p: F.Path, f: F.Expr)
    requires ResolveTarget(env.rt, p).Some?
    ensures var (a, sub) := ResolveTarget(env.rt, p).value;
            var (target, held) := (if sub.Some? then sub.value else a, Get(env.rt, d, SubPathText(p)));
            && (!(a.multi && a.typ == TComplex && sub.Some?) ==> (Eval(env.lx, env.rt, d, F.Present(p)) <==> held.Some?))
            && (held.Some? && held.value.Cplx? ==> (Eval(env.lx, env.rt, d, F.ValuePath(p, f)) <==> SomeSatisfies(env.lx, target, [held.value.elem], f)))
            && (held.None? || !(held.value.Cplx? || held.value.Multi?) ==> !Eval(env.lx, env.rt, d, F.ValuePath(p, f)))
  {
    hide ResolveTarget, Get, SubPathText, EvalElement;
    var held := Get(env.rt, d, SubPathText(p));
    if held.Some? && held.value.Cplx? {
      var e := held.value.elem;
      assert e in [e] && forall x <- [e] :: x == e;
    }
  }

  /** A clause on an attribute the type does not declare is valid, whatever it asks, and does not hold. */
  lemma {:induction false} UndefinedClauses(env: Env, d: Doc, p: F.Path, op: F.CompareOp, v: F.Literal, f: F.Expr)
    requires ResolveTarget(env.rt, p).None?
    ensures Match(env.lx, env.rt, d, F.Compare(p, op, v)) == Ok(false)
    ensures Match(env.lx, env.rt, d, F.Present(p)) == Ok(false)
    ensures Match(env.lx, env.rt, d, F.ValuePath(p, f)) == Ok(false)
  {
    hide ResolveTarget;
  }

  /** The attribute a comparison on a resource is about. */
  function Compared(rt: ResourceType, p: F.Path): Option<Attribute> {
    var t := ResolveTarget(rt, p);
    if t.None? then None else if t.value.1.Some? then t.value.1 else Some(t.value.0)
  }

  /** There is no order on the attribute's values, and the operator asks for one. */
  predicate Disordered(a: Option<Attribute>, op: F.CompareOp) {
    a.Some? && a.value.typ in {TBoolean, TBinary} && op in {F.Gt, F.Ge, F.Lt, F.Le}
  }

  /** A comparison is invalid exactly when it asks for an order on a boolean or binary attribute, a
      value path exactly when its filter is, and a nested one always; presence never is. */
  lemma {:induction false} ClausesValid(rt: ResourceType, a: Attribute, p: F.Path, op: F.CompareOp, v: F.Literal, f: F.Expr)
    ensures FilterValid(rt, F.Compare(p, op, v)) <==> !Disordered(Compared(rt, p), op)
    ensures FilterValid(rt, F.Present(p)) && ElementValid(a, F.Present(p)) && !ElementValid(a, F.ValuePath(p, f))
    ensures FilterValid(rt, F.ValuePath(p, f)) <==> (ResolveTarget(rt, p).Some? ==> ElementValid(ResolveTarget(rt, p).value.0, f))
    ensures ElementValid(a, F.Compare(p, op, v)) <==> !(p.urn == "" && p.sub == "" && Disordered(FindAttribute(a.subs, p.attr), op))
  {
    hide ResolveTarget, FindAttribute;
  }

  /** On one element a clause is about the member of the bare name alone. */
  lemma {:induction false} ElementClauses(lx: Lexicon, a: Attribute, e: Elem, p: F.Path, op: F.CompareOp, v: F.Literal)
    ensures var sub := FindAttribute(a.subs, p.attr);
            if p.urn != "" || p.sub != "" || sub.None? then
              !EvalElement(lx, a, e, F.Compare(p, op, v)) && !EvalElement(lx, a, e, F.Present(p))
            else
              var held := Fold(p.attr) in e && !e[Fold(p.attr)].Nil?;
              && (EvalElement(lx, a, e, F.Present(p)) <==> held)
              && (EvalElement(lx, a, e, F.Compare(p, op, v)) <==> CompareValue(lx, sub.value, if held then e[Fold(p.attr)] else Nil, op, v))
  {
    hide CompareValue, Fold;
  }
}
