/** Evaluating filters against resources and against single elements (filter/match.go). */
module FilterMatch {
  import opened Text
  import opened Schema
  import opened Values
  import opened Documents
  import opened Paths
  import F = FilterAst

  function CompareText(a: string, b: string): int {
    if a == "" && b == "" then 0
    else if a == "" then -1
    else if b == "" then 1
    else if a[0] < b[0] then -1
    else if b[0] < a[0] then 1
    else CompareText(a[1..], b[1..])
  }

  predicate ContainsText(s: string, t: string) {
    HasPrefix(s, t) || (s != "" && ContainsText(s[1..], t))
  }

  predicate HasSuffix(s: string, t: string) {
    |t| <= |s| && s[|s| - |t|..] == t
  }

  predicate Ordering(op: F.CompareOp) {
    op.Gt? || op.Ge? || op.Lt? || op.Le?
  }

  /** compareOrdered without its substring branch. */
  predicate Ordered(op: F.CompareOp, c: int) {
    match op
    case Eq => c == 0
    case Ne => c != 0
    case Gt => c > 0
    case Ge => c >= 0
    case Lt => c < 0
    case Le => c <= 0
    case _ => false
  }

  function Sign(less: bool, greater: bool): int {
    if less then -1 else if greater then 1 else 0
  }

  /** compareStringForm, on folded texts unless the attribute is caseExact. */
  predicate MatchText(got: string, op: F.CompareOp, want: string, exact: bool) {
    var g := if exact then got else Fold(got);
    var w := if exact then want else Fold(want);
    match op
    case Co => ContainsText(g, w)
    case Sw => HasPrefix(g, w)
    case Ew => HasSuffix(g, w)
    case _ => Ordered(op, CompareText(g, w))
  }

  predicate MatchNumber(lx: Lexicon, got: Value, op: F.CompareOp, text: string) {
    if got.Int? && lx.int64(text).Some? then
      var w := lx.int64(text).value;
      Ordered(op, Sign(got.i < w, w < got.i))
    else
      var w := lx.float64(text);
      w.Some? && (got.Int? || got.Dec?) &&
      var g := if got.Int? then got.i as real else got.r;
      Ordered(op, Sign(g < w.value, w.value < g))
  }

  /** compareValue; a type mismatch is a non-match. */
  predicate CompareValue(lx: Lexicon, a: Attribute, got: Value, op: F.CompareOp, want: F.Literal) {
    if want.Null? then (op.Eq? && got.Nil?) || (op.Ne? && !got.Nil?)
    else if got.Nil? then false
    else match a.typ
    case TString => want.Str? && TextOf(got).Some? && MatchText(TextOf(got).value, op, want.s, a.caseExact)
    case TReference => want.Str? && TextOf(got).Some? && MatchText(TextOf(got).value, op, want.s, a.caseExact)
    case TBoolean => want.Bool? && got.Bool? && (if op.Eq? then got.b == want.b else op.Ne? && got.b != want.b)
    case TInteger => want.Number? && MatchNumber(lx, got, op, want.text)
    case TDecimal => want.Number? && MatchNumber(lx, got, op, want.text)
    case TDateTime =>
      want.Str? && got.Time? && lx.rfc3339(want.s).Some? &&
      var w := lx.rfc3339(want.s).value;
      Ordered(op, Sign(got.t.instant < w.instant, w.instant < got.t.instant))
    case TBinary =>
      want.Str? && got.Bin? && lx.base64(want.s).Some? &&
      var w := lx.base64(want.s).value;
      if op.Eq? then got.bytes == w else op.Ne? && got.bytes != w
    case TComplex => false
  }

  function TextOf(v: Value): Option<string> {
    match v
    case Str(s) => Some(s)
    case Ref(s) => Some(s)
    case _ => None
  }

  // ----- One element -----

  /** resolveTarget inside a value filter: a bare sub-attribute name of the parent. */
  function ElementTarget(parent: Attribute, p: F.Path): Option<Attribute> {
    if p.urn != "" || p.sub != "" then None else FindAttribute(parent.subs, p.attr)
  }

  predicate OrderingRefused(target: Option<Attribute>, op: F.CompareOp) {
    Ordering(op) && target.Some? && (target.value.typ.TBoolean? || target.value.typ.TBinary?)
  }

  /** validate under a parent: ordering on a boolean or binary, or a nested value path, makes
      the filter invalid. */
  predicate ElementValid(parent: Attribute, e: F.Expr) {
    match e
    case And(l, r) => ElementValid(parent, l) && ElementValid(parent, r)
    case Or(l, r) => ElementValid(parent, l) && ElementValid(parent, r)
    case Not(x) => ElementValid(parent, x)
    case Compare(p, op, _) => !OrderingRefused(ElementTarget(parent, p), op)
    case ValuePath(_, _) => false
    case Present(_) => true
  }

  function Member(elem: Elem, sub: Attribute): Value {
    if Fold(sub.name) in elem then elem[Fold(sub.name)] else Nil
  }

  /** evalElement. */
  predicate EvalElement(lx: Lexicon, parent: Attribute, elem: Elem, e: F.Expr) {
    match e
    case And(l, r) => EvalElement(lx, parent, elem, l) && EvalElement(lx, parent, elem, r)
    case Or(l, r) => EvalElement(lx, parent, elem, l) || EvalElement(lx, parent, elem, r)
    case Not(x) => !EvalElement(lx, parent, elem, x)
    case Compare(p, op, v) =>
      var sub := ElementTarget(parent, p);
      sub.Some? && CompareValue(lx, sub.value, Member(elem, sub.value), op, v)
    case Present(p) =>
      var sub := ElementTarget(parent, p);
      sub.Some? && !Member(elem, sub.value).Nil?
    case ValuePath(_, _) => false
  }

  /** MatchElement. */
  function MatchElement(lx: Lexicon, parent: Attribute, elem: Elem, e: F.Expr): Result<bool> {
    if ElementValid(parent, e) then Ok(EvalElement(lx, parent, elem, e)) else Err(InvalidFilter)
  }

  // ----- A whole resource -----

  /** validate at the top. */
  predicate FilterValid(rt: ResourceType, e: F.Expr) {
    match e
    case And(l, r) => FilterValid(rt, l) && FilterValid(rt, r)
    case Or(l, r) => FilterValid(rt, l) && FilterValid(rt, r)
    case Not(x) => FilterValid(rt, x)
    case Compare(p, op, _) =>
      var t := ResolveTarget(rt, p);
      !OrderingRefused(if t.None? then None else if t.value.1.Some? then t.value.1 else Some(t.value.0), op)
    case ValuePath(p, f) =>
      var t := ResolveTarget(rt, p);
      t.None? || ElementValid(t.value.0, f)
    case Present(_) => true
  }

  /** subCandidates: one member projected across the elements of a multi-valued attribute. */
  function SubCandidates(rt: ResourceType, d: Doc, p: F.Path, sub: Attribute): seq<Value> {
    var v := GetOrNil(rt, d, AttrPathText(p));
    if !v.Multi? then [Nil]
    else seq(|v.elems|, i requires 0 <= i < |v.elems| => Member(v.elems[i], sub))
  }

  /** candidates: the values a comparison tests; absence is a single nil. */
  function Candidates(rt: ResourceType, d: Doc, p: F.Path, attr: Attribute, sub: Option<Attribute>): seq<Value> {
    if sub.Some? && attr.multi && attr.typ == TComplex then SubCandidates(rt, d, p, sub.value)
    else
      var v := Get(rt, d, SubPathText(p));
      if v.None? then [Nil]
      else if attr.multi && sub.None? then
        match v.value
        case Slice(_, l) => l
        case Multi(l) => Boxed(l)
        case _ => [v.value]
      else [v.value]
  }

  /** eval. */
  predicate Eval(lx: Lexicon, rt: ResourceType, d: Doc, e: F.Expr) {
    match e
    case And(l, r) => Eval(lx, rt, d, l) && Eval(lx, rt, d, r)
    case Or(l, r) => Eval(lx, rt, d, l) || Eval(lx, rt, d, r)
    case Not(x) => !Eval(lx, rt, d, x)
    case Compare(p, op, v) =>
      var t := ResolveTarget(rt, p);
      t.Some? &&
      var (attr, sub) := t.value;
      exists got <- Candidates(rt, d, p, attr, sub) ::
        CompareValue(lx, if sub.Some? then sub.value else attr, got, op, v)
    case Present(p) =>
      var t := ResolveTarget(rt, p);
      t.Some? &&
      var (attr, sub) := t.value;
      if sub.Some? && attr.multi && attr.typ == TComplex then
        exists got <- SubCandidates(rt, d, p, sub.value) :: !got.Nil?
      else Get(rt, d, SubPathText(p)).Some?
    case ValuePath(p, f) =>
      var t := ResolveTarget(rt, p);
      t.Some? &&
      var (attr, sub) := t.value;
      var target := if sub.Some? then sub.value else attr;
      match GetOrNil(rt, d, SubPathText(p))
      case Multi(l) => exists i :: 0 <= i < |l| && EvalElement(lx, target, l[i], f)
      case Cplx(m) => EvalElement(lx, target, m, f)
      case _ => false
  }

  /** Match. */
  function Match(lx: Lexicon, rt: ResourceType, d: Doc, e: F.Expr): Result<bool> {
    if FilterValid(rt, e) then Ok(Eval(lx, rt, d, e)) else Err(InvalidFilter)
  }
}
