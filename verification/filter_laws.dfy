/** Laws of filter evaluation (section 3.4.2.2 of RFC 7644, filter/match.go). */
module FilterLaws {
  import opened Text
  import opened Schema
  import opened Values
  import opened Documents
  import opened DocumentFacts
  import opened Paths
  import opened PatchRules
  import opened PatchFacts
  import opened PatchGuards
  import opened PatchElements
  import opened PatchSelected
  import opened PatchTables
  import opened FilterMatch
  import opened Sorting
  import Ordering
  import F = FilterAst

  // ----- Text -----

  /** co holds exactly when the text stands somewhere inside. */
  lemma {:induction false} ContainsIff(s: string, t: string)
    ensures ContainsText(s, t) <==> exists i :: 0 <= i <= |s| && HasPrefix(s[i..], t)
  {
    if s == "" {
      assert s[0..] == s;
    } else {
      ContainsIff(s[1..], t);
      assert s[0..] == s;
      if ContainsText(s[1..], t) {
        var i :| 0 <= i <= |s[1..]| && HasPrefix(s[1..][i..], t);
        assert s[1..][i..] == s[i + 1..];
      }
      if i :| 0 <= i <= |s| && HasPrefix(s[i..], t) {
        if i > 0 {
          assert s[1..][i - 1..] == s[i..];
        }
      }
    }
  }

  /** sw, ew and co on a text attribute: the value begins with the text, ends with it, or has it
      somewhere inside; so the first two imply the third. */
  lemma {:induction false} Substrings(lx: Lexicon, a: Attribute, got: Value, want: string)
    requires (a.typ == TString || a.typ == TReference) && TextOf(got).Some?
    ensures var (g, w) := if a.caseExact then (TextOf(got).value, want) else (Fold(TextOf(got).value), Fold(want));
            var (sw, ew, co) := (CompareValue(lx, a, got, F.Sw, F.Str(want)), CompareValue(lx, a, got, F.Ew, F.Str(want)), CompareValue(lx, a, got, F.Co, F.Str(want)));
            && (sw <==> w <= g)
            && (ew <==> |w| <= |g| && g[|g| - |w|..] == w)
            && (co <==> exists i :: 0 <= i <= |g| && w <= g[i..])
            && (sw || ew ==> co)
  {
    hide ContainsText, HasPrefix, HasSuffix, Fold;
    var (g, w) := if a.caseExact then (TextOf(got).value, want) else (Fold(TextOf(got).value), Fold(want));
    SubstringIs(g, w);
  }

  lemma {:induction false} SubstringIs(g: string, w: string)
    ensures HasPrefix(g, w) <==> w <= g
    ensures HasSuffix(g, w) <==> |w| <= |g| && g[|g| - |w|..] == w
    ensures ContainsText(g, w) <==> exists i :: 0 <= i <= |g| && w <= g[i..]
    ensures HasPrefix(g, w) || HasSuffix(g, w) ==> ContainsText(g, w)
  {
    hide ContainsText;
    ContainsIff(g, w);
    assert g[0..] == g;
    if i :| 0 <= i <= |g| && HasPrefix(g[i..], w) { assert w <= g[i..]; }
    if i :| 0 <= i <= |g| && w <= g[i..] { assert HasPrefix(g[i..], w); }
    if HasSuffix(g, w) { assert HasPrefix(g[|g| - |w|..], w); }
  }

  // ----- Case -----

  /** The same literal, or texts that differ only in case on a text attribute that is not
      caseExact. */
  predicate LiteralsAlike(a: Option<Attribute>, v: F.Literal, w: F.Literal) {
    v == w ||
    (v.Str? && w.Str? && Fold(v.s) == Fold(w.s) && a.Some? && !a.value.caseExact && (a.value.typ == TString || a.value.typ == TReference))
  }

  /** The same element filter but for the case of such literals. */
  predicate AlikeIn(parent: Attribute, e: F.Expr, f: F.Expr) {
    match (e, f)
    case (And(l, r), And(l', r')) => AlikeIn(parent, l, l') && AlikeIn(parent, r, r')
    case (Or(l, r), Or(l', r')) => AlikeIn(parent, l, l') && AlikeIn(parent, r, r')
    case (Not(x), Not(y)) => AlikeIn(parent, x, y)
    case (Compare(p, op, v), Compare(q, op', w)) => p == q && op == op' && LiteralsAlike(ElementTarget(parent, p), v, w)
    case _ => e == f
  }

  /** The attribute a path compares. */
  function Compared(rt: ResourceType, p: F.Path): Option<Attribute> {
    var t := ResolveTarget(rt, p);
    if t.None? then None else if t.value.1.Some? then t.value.1 else Some(t.value.0)
  }

  /** The same filter but for the case of such literals. */
  predicate Alike(rt: ResourceType, e: F.Expr, f: F.Expr) {
    match (e, f)
    case (And(l, r), And(l', r')) => Alike(rt, l, l') && Alike(rt, r, r')
    case (Or(l, r), Or(l', r')) => Alike(rt, l, l') && Alike(rt, r, r')
    case (Not(x), Not(y)) => Alike(rt, x, y)
    case (Compare(p, op, v), Compare(q, op', w)) => p == q && op == op' && LiteralsAlike(Compared(rt, p), v, w)
    case (ValuePath(p, x), ValuePath(q, y)) => p == q && (Compared(rt, p).Some? ==> AlikeIn(Compared(rt, p).value, x, y))
    case _ => e == f
  }

  lemma CaseIgnored(lx: Lexicon, a: Attribute, got: Value, op: F.CompareOp, v: F.Literal, w: F.Literal)
    requires LiteralsAlike(Some(a), v, w)
    ensures CompareValue(lx, a, got, op, v) == CompareValue(lx, a, got, op, w)
  {
  }

  lemma {:induction false} ElementAlike(lx: Lexicon, parent: Attribute, elem: Elem, e: F.Expr, f: F.Expr)
    requires AlikeIn(parent, e, f)
    ensures EvalElement(lx, parent, elem, e) == EvalElement(lx, parent, elem, f)
  {
    hide CompareValue, Member, ElementTarget, LiteralsAlike;
    match (e, f) {
      case (And(l, r), And(l', r')) =>
        ElementAlike(lx, parent, elem, l, l');
        ElementAlike(lx, parent, elem, r, r');
      case (Or(l, r), Or(l', r')) =>
        ElementAlike(lx, parent, elem, l, l');
        ElementAlike(lx, parent, elem, r, r');
      case (Not(x), Not(y)) =>
        ElementAlike(lx, parent, elem, x, y);
      case (Compare(p, op, v), Compare(_, _, w)) =>
        var sub := ElementTarget(parent, p);
        if sub.Some? { CaseIgnored(lx, sub.value, Member(elem, sub.value), op, v, w); }
      case _ =>
    }
  }

  lemma {:induction false} ValidAlike(parent: Attribute, checked: Attribute, e: F.Expr, f: F.Expr)
    requires AlikeIn(parent, e, f)
    ensures ElementValid(checked, e) == ElementValid(checked, f)
  {
    hide OrderingRefused, ElementTarget, LiteralsAlike;
    match (e, f) {
      case (And(l, r), And(l', r')) =>
        ValidAlike(parent, checked, l, l');
        ValidAlike(parent, checked, r, r');
      case (Or(l, r), Or(l', r')) =>
        ValidAlike(parent, checked, l, l');
        ValidAlike(parent, checked, r, r');
      case (Not(x), Not(y)) =>
        ValidAlike(parent, checked, x, y);
      case _ =>
    }
  }

  /** The case of a literal compared with an attribute that is not caseExact never decides which
      resources a filter matches, inside value filters or out. */
  lemma {:induction false} CaseAlike(lx: Lexicon, rt: ResourceType, d: Doc, e: F.Expr, f: F.Expr)
    requires Alike(rt, e, f)
    ensures Match(lx, rt, d, e) == Match(lx, rt, d, f)
  {
    EvalAlike(lx, rt, d, e, f);
  }

  lemma {:induction false} EvalAlike(lx: Lexicon, rt: ResourceType, d: Doc, e: F.Expr, f: F.Expr)
    requires Alike(rt, e, f)
    ensures FilterValid(rt, e) == FilterValid(rt, f) && Eval(lx, rt, d, e) == Eval(lx, rt, d, f)
  {
    hide CompareValue, ResolveTarget, Candidates, GetOrNil, LiteralsAlike, AlikeIn, ElementValid, EvalElement, OrderingRefused, SubCandidates;
    match (e, f) {
      case (And(l, r), And(l', r')) =>
        EvalAlike(lx, rt, d, l, l');
        EvalAlike(lx, rt, d, r, r');
      case (Or(l, r), Or(l', r')) =>
        EvalAlike(lx, rt, d, l, l');
        EvalAlike(lx, rt, d, r, r');
      case (Not(x), Not(y)) =>
        EvalAlike(lx, rt, d, x, y);
      case (Compare(p, op, v), Compare(_, _, w)) =>
        if Compared(rt, p).Some? {
          forall got: Value ensures CompareValue(lx, Compared(rt, p).value, got, op, v) == CompareValue(lx, Compared(rt, p).value, got, op, w) {
            CaseIgnored(lx, Compared(rt, p).value, got, op, v, w);
          }
        }
      case (ValuePath(p, x), ValuePath(_, y)) =>
        if Compared(rt, p).Some? {
          ValidAlike(Compared(rt, p).value, ResolveTarget(rt, p).value.0, x, y);
          forall elem: Elem ensures EvalElement(lx, Compared(rt, p).value, elem, x) == EvalElement(lx, Compared(rt, p).value, elem, y) {
            ElementAlike(lx, Compared(rt, p).value, elem, x, y);
          }
        }
      case _ =>
    }
  }

  // ----- Order -----

  /** Where an assigned value of an ordered attribute stands to a literal. */
  datatype Standing = Below | Level | Above

  function NumberStanding(lx: Lexicon, got: Value, text: string): Option<Standing> {
    if got.Int? && lx.int64(text).Some? then
      var n := lx.int64(text).value;
      Some(if got.i < n then Below else if got.i == n then Level else Above)
    else if lx.float64(text).None? || !(got.Int? || got.Dec?) then None
    else
      var (x, y) := (if got.Int? then got.i as real else got.r, lx.float64(text).value);
      Some(if x < y then Below else if x == y then Level else Above)
  }

  function InstantStanding(lx: Lexicon, got: Value, text: string): Option<Standing> {
    if !got.Time? || lx.rfc3339(text).None? then None
    else
      var (x, y) := (got.t.instant, lx.rfc3339(text).value.instant);
      Some(if x < y then Below else if x == y then Level else Above)
  }

  function TextStanding(a: Attribute, got: Value, text: string): Option<Standing> {
    if TextOf(got).None? then None
    else
      var (x, y) := if a.caseExact then (TextOf(got).value, text) else (Fold(TextOf(got).value), Fold(text));
      Some(if x == y then Level else if Ordering.LessEq(x, y) then Below else Above)
  }

  /** Numbers stand by size, instants by time and texts by their first difference; a value and a
      literal of different kinds do not stand to each other at all. */
  function StandingOf(lx: Lexicon, a: Attribute, got: Value, want: F.Literal): Option<Standing> {
    match a.typ
    case TInteger => if want.Number? then NumberStanding(lx, got, want.text) else None
    case TDecimal => if want.Number? then NumberStanding(lx, got, want.text) else None
    case TDateTime => if want.Str? then InstantStanding(lx, got, want.s) else None
    case TString => if want.Str? then TextStanding(a, got, want.s) else None
    case TReference => if want.Str? then TextStanding(a, got, want.s) else None
    case _ => None
  }

  lemma {:induction false} TextSign(x: string, y: string)
    ensures CompareText(x, y) == 0 <==> x == y
    ensures CompareText(x, y) <= 0 <==> Ordering.LessEq(x, y)
  {
    CompareTextIs(x, y);
    CompareTextIs(y, x);
    if CompareText(x, y) == 0 { Ordering.LessEqAntisym(x, y); }
  }

  /** gt, ge, lt, le, eq and ne on an ordered attribute are the comparisons their names say: each
      holds of an assigned value exactly when it stands so to the literal. */
  lemma {:induction false} Trichotomy(lx: Lexicon, a: Attribute, got: Value, want: F.Literal)
    requires !got.Nil? && !want.Null? && a.typ != TBoolean && a.typ != TBinary
    ensures var s := StandingOf(lx, a, got, want);
            && (CompareValue(lx, a, got, F.Lt, want) <==> s == Some(Below))
            && (CompareValue(lx, a, got, F.Eq, want) <==> s == Some(Level))
            && (CompareValue(lx, a, got, F.Gt, want) <==> s == Some(Above))
            && (CompareValue(lx, a, got, F.Le, want) <==> s == Some(Below) || s == Some(Level))
            && (CompareValue(lx, a, got, F.Ge, want) <==> s == Some(Above) || s == Some(Level))
            && (CompareValue(lx, a, got, F.Ne, want) <==> s == Some(Below) || s == Some(Above))
  {
    hide CompareValue, StandingOf;
    Compares(lx, a, got, F.Lt, want);
    Compares(lx, a, got, F.Eq, want);
    Compares(lx, a, got, F.Gt, want);
    Compares(lx, a, got, F.Le, want);
    Compares(lx, a, got, F.Ge, want);
    Compares(lx, a, got, F.Ne, want);
  }

  /** The standings an operator admits. */
  predicate Admitted(op: F.CompareOp, s: Standing) {
    match op
    case Eq => s == Level
    case Ne => s != Level
    case Lt => s == Below
    case Le => s != Above
    case Gt => s == Above
    case Ge => s != Below
    case _ => false
  }

  lemma {:induction false} Compares(lx: Lexicon, a: Attribute, got: Value, op: F.CompareOp, want: F.Literal)
    requires !got.Nil? && !want.Null? && a.typ != TBoolean && a.typ != TBinary && !op.Co? && !op.Sw? && !op.Ew?
    ensures var s := StandingOf(lx, a, got, want); CompareValue(lx, a, got, op, want) <==> s.Some? && Admitted(op, s.value)
  {
    hide CompareText, Fold, Ordering.LessEq;
    if want.Str? && TextOf(got).Some? {
      var (x, y) := if a.caseExact then (TextOf(got).value, want.s) else (Fold(TextOf(got).value), Fold(want.s));
      TextSign(x, y);
    }
  }

  /** Booleans and bytes are only equal or not. */
  lemma PlainEquality(lx: Lexicon, a: Attribute, got: Value, op: F.CompareOp, want: F.Literal)
    requires !got.Nil? && !want.Null? && (a.typ == TBoolean || a.typ == TBinary)
    ensures var same := if a.typ == TBoolean then got.Bool? && want.Bool? && got.b == want.b
                        else got.Bin? && want.Str? && lx.base64(want.s) == Some(got.bytes);
            var comparable := if a.typ == TBoolean then got.Bool? && want.Bool? else got.Bin? && want.Str? && lx.base64(want.s).Some?;
            CompareValue(lx, a, got, op, want) <==> comparable && ((op.Eq? && same) || (op.Ne? && !same))
  {
  }

  // ----- Null and presence -----

  lemma AbsentMatches(lx: Lexicon, a: Attribute, got: Value, op: F.CompareOp, want: F.Literal)
    ensures got.Nil? ==> (CompareValue(lx, a, got, op, want) <==> op.Eq? && want.Null?)
    ensures want.Null? ==> (CompareValue(lx, a, got, op, want) <==> if got.Nil? then op.Eq? else op.Ne?)
  {
  }

  /** The path names a member of the elements of a list. */
  predicate Across(attr: Attribute, sub: Option<Attribute>) {
    sub.Some? && attr.multi && attr.typ == TComplex
  }

  /** Comparing with null asks for presence: ne null is pr, and eq null is its opposite, except
      that across the elements of a list eq null asks for an element without the member. */
  lemma {:induction false} NullLaws(lx: Lexicon, rt: ResourceType, d: Doc, p: F.Path)
    requires Regular(rt) && ParsedPath(p) && p.filter.None? && Canonical(rt, d) && ResolveTarget(rt, p).Some?
    ensures var (attr, sub) := ResolveTarget(rt, p).value;
            && (Eval(lx, rt, d, F.Compare(p, F.Ne, F.Null)) <==> Eval(lx, rt, d, F.Present(p)))
            && (Eval(lx, rt, d, F.Compare(p, F.Eq, F.Null)) <==>
                if Across(attr, sub) then exists got <- SubCandidates(rt, d, p, sub.value) :: got.Nil?
                else !Eval(lx, rt, d, F.Present(p)))
  {
    hide Regular, ParsedPath, Canonical, ResolveTarget, Eval, SubCandidates, Candidates, Get, SubPathText;
    var (attr, sub) := ResolveTarget(rt, p).value;
    NullTests(lx, rt, d, p);
    PresentIs(lx, rt, d, p);
    if Across(attr, sub) {
      AcrossCandidates(rt, d, p, attr, sub);
    } else {
      CandidatesPresent(rt, d, p, attr, sub);
      assert Candidates(rt, d, p, attr, sub)[0] in Candidates(rt, d, p, attr, sub);
    }
  }

  lemma {:induction false} NullTests(lx: Lexicon, rt: ResourceType, d: Doc, p: F.Path)
    requires ResolveTarget(rt, p).Some?
    ensures var (attr, sub) := ResolveTarget(rt, p).value;
            && (Eval(lx, rt, d, F.Compare(p, F.Eq, F.Null)) <==> exists got <- Candidates(rt, d, p, attr, sub) :: got.Nil?)
            && (Eval(lx, rt, d, F.Compare(p, F.Ne, F.Null)) <==> exists got <- Candidates(rt, d, p, attr, sub) :: !got.Nil?)
  {
    hide ResolveTarget, CompareValue, Candidates;
    var (attr, sub) := ResolveTarget(rt, p).value;
    var a := if sub.Some? then sub.value else attr;
    forall got <- Candidates(rt, d, p, attr, sub)
      ensures CompareValue(lx, a, got, F.Eq, F.Null) == got.Nil? && CompareValue(lx, a, got, F.Ne, F.Null) == !got.Nil?
    {
      AbsentMatches(lx, a, got, F.Eq, F.Null);
      AbsentMatches(lx, a, got, F.Ne, F.Null);
    }
  }

  lemma PresentIs(lx: Lexicon, rt: ResourceType, d: Doc, p: F.Path)
    requires ResolveTarget(rt, p).Some?
    ensures var (attr, sub) := ResolveTarget(rt, p).value;
            Eval(lx, rt, d, F.Present(p)) <==>
            if Across(attr, sub) then exists got <- SubCandidates(rt, d, p, sub.value) :: !got.Nil? else Get(rt, d, SubPathText(p)).Some?
  {
    hide ResolveTarget, SubCandidates, Get, SubPathText;
  }

  lemma AcrossCandidates(rt: ResourceType, d: Doc, p: F.Path, attr: Attribute, sub: Option<Attribute>)
    requires Across(attr, sub)
    ensures Candidates(rt, d, p, attr, sub) == SubCandidates(rt, d, p, sub.value)
  {
  }

  /** Off the lists, the candidates are values that are present, or the one absence. */
  lemma {:induction false} CandidatesPresent(rt: ResourceType, d: Doc, p: F.Path, attr: Attribute, sub: Option<Attribute>)
    requires Regular(rt) && ParsedPath(p) && p.filter.None? && Canonical(rt, d) && ResolveTarget(rt, p) == Some((attr, sub)) && !Across(attr, sub)
    ensures var list := Candidates(rt, d, p, attr, sub);
            if Get(rt, d, SubPathText(p)).Some? then list != [] && forall got <- list :: !got.Nil? else list == [Nil]
  {
    hide Regular, ParsedPath, Canonical, ResolveTarget, Get, SubPathText;
    if Get(rt, d, SubPathText(p)).Some? {
      SubsOfComplex(rt, p);
      PresentValue(rt, d, p, attr, sub);
    }
  }

  /** A value with something in it: not nil, and a list of such values only if it has elements. */
  predicate Substantial(multi: bool, v: Value) {
    match v
    case Nil => false
    case Slice(_, l) => multi ==> l != [] && forall x <- l :: !x.Nil?
    case Multi(l) => multi ==> l != []
    case _ => true
  }

  lemma {:induction false} PresentValue(rt: ResourceType, d: Doc, p: F.Path, attr: Attribute, sub: Option<Attribute>)
    requires Regular(rt) && ParsedPath(p) && p.filter.None? && Canonical(rt, d) && ResolveTarget(rt, p) == Some((attr, sub)) && !Across(attr, sub)
    requires Get(rt, d, SubPathText(p)).Some?
    ensures Substantial(attr.multi && sub.None?, Get(rt, d, SubPathText(p)).value)
  {
    hide Regular, ParsedPath, Canonical, ResolvePath, ResolveTarget, Sound, AttrPathText, SubPathText, Slot, GetResolved, Substantial, LocOf, Settable;
    SubsOfComplex(rt, p);
    WritePathResolves(rt, p);
    TextOfBare(rt, p);
    var rp := ResolvePath(rt, SubPathText(p)).value;
    SoundParts(rt, rp);
    if Settable(rp) {
      GetSlot(rt, d, rp);
      SlotStoredAt(rt, d, rp);
      StoredSubstantial(rp.attr.value, rp.sub, Slot(d, LocOf(rp)).value);
    } else {
      DerivedSubstantial(rt, d, rp);
    }
  }

  lemma SubsOfComplex(rt: ResourceType, p: F.Path)
    requires ResolveTarget(rt, p).Some?
    ensures var (attr, sub) := ResolveTarget(rt, p).value; (sub.Some? ==> attr.typ == TComplex) && (sub.None? <==> p.sub == "")
  {
  }

  lemma {:induction false} TextOfBare(rt: ResourceType, p: F.Path)
    ensures p.sub == "" ==> SubPathText(p) == AttrPathText(p)
  {
    assert AttrPathText(p) + "" == AttrPathText(p);
  }

  lemma SoundParts(rt: ResourceType, rp: Resolved)
    requires Sound(rt, rp)
    ensures rp.attr.Some?
    ensures rp.sub.Some? ==> rp.attr.value.typ == TComplex && !rp.attr.value.multi
    ensures rp.sub.Some? ==> FindAttribute(rp.attr.value.subs, rp.sub.value.name) == rp.sub
  {
  }

  lemma {:induction false} StoredSubstantial(a: Attribute, sub: Option<Attribute>, v: Value)
    requires Stored(a, v) && (sub.Some? ==> a.typ == TComplex && !a.multi) && SubValue(Some(v), sub).Some?
    ensures Substantial(a.multi && sub.None?, SubValue(Some(v), sub).value)
  {
    hide ScalarOf, StoredElem, StoredSimple;
    StoredValueNotNil(a, v);
    if sub.Some? {
      MemberNotNil(a, v.elem, Fold(sub.value.name));
    } else if a.typ != TComplex {
      SimpleSubstantial(a, v);
    }
  }

  lemma {:induction false} SimpleSubstantial(a: Attribute, v: Value)
    requires a.typ != TComplex && StoredSimple(a, v)
    ensures Substantial(a.multi, v)
  {
    if a.multi {
      forall x <- v.scalars ensures !x.Nil? {
        var i :| 0 <= i < |v.scalars| && v.scalars[i] == x;
        assert ScalarOf(a.typ, v.scalars[i]);
      }
    }
  }

  lemma {:induction false} DerivedSubstantial(rt: ResourceType, d: Doc, rp: Resolved)
    requires rp.attr.Some? && !Settable(rp) && GetResolved(rt, d, rp).Some?
    ensures forall multi :: Substantial(multi, GetResolved(rt, d, rp).value)
  {
    hide MetaElem, Fold;
    SchemaTexts(rt.exts, d);
    MetaMembers(d.meta);
  }

  lemma MetaMembers(m: Meta)
    ensures forall k <- MetaElem(m).Keys :: MetaElem(m)[k].Str? || MetaElem(m)[k].Time?
  {
  }

  lemma {:induction false} SchemaTexts(exts: seq<SchemaDef>, d: Doc)
    ensures forall x <- ExtensionsHeld(exts, d) :: x.Str?
  {
    if exts != [] { SchemaTexts(exts[1..], d); }
  }

  // ----- One element -----

  /** The resource that holds nothing but one element at the path. */
  function Probe(lx: Lexicon, rt: ResourceType, p: F.Path, e: Elem): Result<Doc> {
    Set(lx, rt, Doc(map[], map[], NO_META), AttrPathText(p), Multi([e]))
  }

  /** A resource takes an element alone exactly when the element holds no typed slice other than
      text; matching that resource is then matching the element on its own: the correlation of
      clauses within one element is the same. */
  lemma {:induction false} ProbeMatches(lx: Lexicon, rt: ResourceType, p: F.Path, f: F.Expr, e: Elem)
    requires Regular(rt) && ParsedPath(p) && ResolveTarget(rt, p).Some?
    requires var a := ResolveTarget(rt, p).value.0; a.typ == TComplex && a.multi && StoredElem(a, e) && e != map[]
    ensures var (a, probe) := (ResolveTarget(rt, p).value.0, Probe(lx, rt, p, e));
            && (probe.Ok? <==> RecoercibleElem(e))
            && (probe.Ok? ==> Match(lx, rt, probe.value, F.ValuePath(F.Path(p.urn, p.attr, "", None), f)) == MatchElement(lx, a, e, f))
  {
    hide Regular, ParsedPath, ResolvePath, ResolveTarget, AttrPathText, Sound, ElementValid, EvalElement, StoredElem, RecoercibleElem, GetResolved, Coerce, SetInContainer, Slot, Settable;
    var bare := F.Path(p.urn, p.attr, "", None);
    BareTarget(rt, p, bare);
    ResolversAgreeAt(rt, p);
    var rp := ResolvePath(rt, AttrPathText(p)).value;
    SoundDeclared(rt, rp);
    CommonSchemas(rt, rp);
    OneStored(lx, rp.attr.value, e);
    if RecoercibleElem(e) {
      ProbeSlot(lx, rt, p, e, rp);
      var d := Probe(lx, rt, p, e).value;
      GetSlot(rt, d, rp);
      assert GetOrNil(rt, d, SubPathText(bare)) == Multi([e]);
      OneMatches(lx, rt, d, bare, f, e);
    } else {
      SettableRefused(lx, Doc(map[], map[], NO_META), rp, Multi([e]));
    }
  }

  lemma {:induction false} OneMatches(lx: Lexicon, rt: ResourceType, d: Doc, bare: F.Path, f: F.Expr, e: Elem)
    requires ResolveTarget(rt, bare).Some? && ResolveTarget(rt, bare).value.1.None? && GetOrNil(rt, d, SubPathText(bare)) == Multi([e])
    ensures Match(lx, rt, d, F.ValuePath(bare, f)) == MatchElement(lx, ResolveTarget(rt, bare).value.0, e, f)
  {
    hide ResolveTarget, GetOrNil, ElementValid, EvalElement, SubPathText;
    assert [e][0] == e;
  }

  lemma {:induction false} BareTarget(rt: ResourceType, p: F.Path, bare: F.Path)
    requires bare == F.Path(p.urn, p.attr, "", None) && ResolveTarget(rt, p).Some?
    ensures ResolveTarget(rt, bare) == Some((ResolveTarget(rt, p).value.0, None))
    ensures SubPathText(bare) == AttrPathText(p)
  {
    assert AttrPathText(p) + "" == AttrPathText(p);
  }

  lemma {:induction false} OneStored(lx: Lexicon, a: Attribute, e: Elem)
    requires a.typ == TComplex && a.multi && StoredElem(a, e) && e != map[]
    ensures Coerce(lx, a, Multi([e])) == if RecoercibleElem(e) then Ok(Multi([e])) else Err(InvalidValue)
  {
    hide StoredElem, RecoercibleElem, Coerce;
    assert [e][1..] == [];
    assert PrimaryCount([]) == 0;
    CoerceFixedIff(lx, a, Multi([e]));
  }

  lemma {:induction false} ProbeSlot(lx: Lexicon, rt: ResourceType, p: F.Path, e: Elem, rp: Resolved)
    requires ResolvePath(rt, AttrPathText(p)) == Ok(rp) && Settable(rp) && rp.sub.None?
    requires Coerce(lx, rp.attr.value, Multi([e])) == Ok(Multi([e]))
    ensures Probe(lx, rt, p, e).Ok? && Slot(Probe(lx, rt, p, e).value, LocOf(rp)) == Some(Multi([e]))
  {
    hide ResolvePath, Coerce, AttrPathText;
    var none := Doc(map[], map[], NO_META);
    SetWhole(lx, map[], rp, Multi([e]));
    SetSlot(lx, none, rp, Multi([e]));
  }

  /** The elements before the first that a resource does not take alone. */
  function Probed(list: seq<Elem>): (r: seq<Elem>)
    ensures r <= list && forall i :: 0 <= i < |r| ==> RecoercibleElem(r[i])
    ensures |r| < |list| ==> !RecoercibleElem(list[|r|])
  {
    if list == [] || !RecoercibleElem(list[0]) then [] else [list[0]] + Probed(list[1..])
  }

  /** The element is the first of those the PATCH engine selects from the list; None when it
      selects none of them or refuses the filter. */
  predicate FirstSelected(lx: Lexicon, a: Attribute, f: F.Expr, list: seq<Elem>, r: Option<Elem>) {
    var selected := Matching(lx, a, f, list);
    if selected.Err? || selected.value == {} then r.None?
    else exists i <- selected.value :: r == Some(list[i]) && forall j <- selected.value :: i <= j
  }

  /** The sort key's probing of elements finds the first the PATCH engine would select, among
      those before the first element a resource does not take alone: there it gives up. */
  lemma {:induction false} MatchIndexIs(lx: Lexicon, rt: ResourceType, sortBy: F.Path, f: F.Expr, list: seq<Elem>)
    requires Regular(rt) && ParsedPath(sortBy) && ResolveTarget(rt, sortBy).Some?
    requires var a := ResolveTarget(rt, sortBy).value.0;
             a.typ == TComplex && a.multi && forall i :: 0 <= i < |list| ==> StoredElem(a, list[i]) && list[i] != map[]
    ensures FirstSelected(lx, ResolveTarget(rt, sortBy).value.0, f, Probed(list), MatchIndex(lx, rt, sortBy, f, list))
  {
    hide Regular, ParsedPath, ResolveTarget, Match, MatchElement, StoredElem, RecoercibleElem, Set, FirstSelected;
    var a := ResolveTarget(rt, sortBy).value.0;
    if list == [] {
      NoneSelected(lx, a, f);
    } else {
      ProbeMatches(lx, rt, sortBy, f, list[0]);
      MatchIndexIs(lx, rt, sortBy, f, list[1..]);
      if RecoercibleElem(list[0]) {
        OneMoreSelected(lx, a, f, list[0], Probed(list[1..]), MatchIndex(lx, rt, sortBy, f, list[1..]));
      } else {
        NoneSelected(lx, a, f);
      }
    }
  }

  lemma NoneSelected(lx: Lexicon, a: Attribute, f: F.Expr)
    ensures FirstSelected(lx, a, f, [], None)
  {
    assert Matching(lx, a, f, []).value == {};
  }

  lemma {:induction false} OneMoreSelected(lx: Lexicon, a: Attribute, f: F.Expr, e: Elem, list: seq<Elem>, r: Option<Elem>)
    requires FirstSelected(lx, a, f, list, r)
    ensures var ok := MatchElement(lx, a, e, f);
            FirstSelected(lx, a, f, [e] + list, if ok.Err? then None else if ok.value then Some(e) else r)
  {
    hide ElementValid, EvalElement, Matching;
    SelectedShift(lx, a, f, e, list);
    var all, rest := Matching(lx, a, f, [e] + list), Matching(lx, a, f, list);
    if all.Ok? && 0 !in all.value && rest.value != {} {
      var i :| i in rest.value && r == Some(list[i]) && forall j <- rest.value :: i <= j;
      assert i + 1 in all.value && ([e] + list)[i + 1] == list[i];
      assert forall j <- all.value :: i <= j - 1;
    }
  }

  lemma ElementChecked(lx: Lexicon, a: Attribute, e: Elem, f: F.Expr)
    ensures MatchElement(lx, a, e, f) == if ElementValid(a, f) then Ok(EvalElement(lx, a, e, f)) else Err(InvalidFilter)
  {
  }

  /** What is selected with one more element in front. */
  lemma {:induction false} SelectedShift(lx: Lexicon, a: Attribute, f: F.Expr, e: Elem, list: seq<Elem>)
    ensures var (ok, all, rest) := (MatchElement(lx, a, e, f), Matching(lx, a, f, [e] + list), Matching(lx, a, f, list));
            && all.Ok? == ok.Ok?
            && (all.Ok? ==>
                  && rest.Ok? && (0 in all.value <==> ok.value)
                  && (forall i <- all.value :: i < |list| + 1 && (i > 0 ==> i - 1 in rest.value))
                  && (forall i <- rest.value :: i < |list| && i + 1 in all.value))
  {
    hide ElementValid, EvalElement, MatchElement;
    ElementChecked(lx, a, e, f);
    var (all, rest) := (Matching(lx, a, f, [e] + list), Matching(lx, a, f, list));
    assert forall i: nat :: i < |list| ==> ([e] + list)[i + 1] == list[i];
    if all.Ok? {
      forall i <- all.value ensures i < |list| + 1 && (i > 0 ==> i - 1 in rest.value) {
        if i > 0 { assert ([e] + list)[i] == list[i - 1]; }
      }
      forall i <- rest.value ensures i < |list| && i + 1 in all.value {
      }
      assert ([e] + list)[0] == e;
    }
  }
}
