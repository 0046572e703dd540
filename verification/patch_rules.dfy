/** The PATCH engine's rules on values: what appending, merging, demoting and the mutability
    guards compute (patch/apply.go, patch/apply_add.go, patch/apply_replace.go,
    patch/synthesize.go). */
module PatchRules {
  import opened Text
  import opened Schema
  import opened Values
  import opened Documents
  import opened FilterMatch
  import opened Ordering
  import F = FilterAst

  datatype OpKind = Add | Remove | Replace | Unknown

  datatype Op = Op(kind: OpKind, path: Option<F.Path>, value: Value)

  /** The two profile knobs that act at apply time. */
  datatype Profile = Profile(synthesizeAddValuePath: bool, replaceNoTargetAsAdd: bool)

  datatype Env = Env(lx: Lexicon, rt: ResourceType, profile: Profile)

  // ----- Primary -----

  /** demoteOthers: when a kept element is primary, every other primary element loses the flag. */
  function Demoted(list: seq<Elem>, keep: set<nat>): (r: seq<Elem>)
    ensures |r| == |list|
  {
    if exists i :: 0 <= i < |list| && i in keep && PrimaryTrue(list[i]) then
      seq(|list|, i requires 0 <= i < |list| => if i in keep then list[i] else Demote(list[i]))
    else list
  }

  function Demote(e: Elem): Elem {
    if PrimaryTrue(e) then e[PRIMARY := Bool(false)] else e
  }

  // ----- Appending -----

  function MemberOrNil(e: Elem, k: string): Value {
    if k in e then e[k] else Nil
  }

  /** hasDuplicateElement's test: by the value member when the incoming element has one, else
      by the whole element. */
  predicate Duplicates(x: Elem, inc: Elem) {
    if VALUE in inc then SimpleEqual(MemberOrNil(x, VALUE), inc[VALUE]) else ElemEqual(x, inc)
  }

  predicate HasDuplicate(list: seq<Elem>, inc: Elem) {
    exists i :: 0 <= i < |list| && Duplicates(list[i], inc)
  }

  /** The elements of incoming that out does not have yet, added in order. */
  function AppendElems(out: seq<Elem>, incoming: seq<Elem>): (r: seq<Elem>)
    ensures |out| <= |r| && r[..|out|] == out
    decreases |incoming|
  {
    if incoming == [] then out
    else if HasDuplicate(out, incoming[0]) then AppendElems(out, incoming[1..])
    else AppendElems(out + [incoming[0]], incoming[1..])
  }

  function IndexRange(lo: nat, hi: nat): (r: set<nat>)
    ensures forall i: nat :: i in r <==> lo <= i < hi
    decreases hi - lo
  {
    if hi <= lo then {} else {lo} + IndexRange(lo + 1, hi)
  }

  /** appendComplexElements. */
  function AppendComplex(existing: seq<Elem>, incoming: seq<Elem>): (seq<Elem>, bool) {
    var out := AppendElems(existing, incoming);
    if |out| == |existing| then (existing, false)
    else (Demoted(out, IndexRange(|existing|, |out|)), true)
  }

  predicate HasScalar(list: seq<Value>, v: Value) {
    exists i :: 0 <= i < |list| && ScalarEqual(list[i], v)
  }

  /** appendFunc. */
  function AppendScalars(out: seq<Value>, incoming: seq<Value>): (r: seq<Value>)
    ensures |out| <= |r| && r[..|out|] == out
    decreases |incoming|
  {
    if incoming == [] then out
    else if HasScalar(out, incoming[0]) then AppendScalars(out, incoming[1..])
    else AppendScalars(out + [incoming[0]], incoming[1..])
  }

  /** appendNew: the appended value, and whether anything was added. */
  function AppendNew(existing: Value, incoming: Value): (Value, bool) {
    match (existing, incoming)
    case (Multi(ex), Multi(inc)) =>
      var (out, added) := AppendComplex(ex, inc);
      (Multi(out), added)
    case (Slice(t, ex), Slice(u, inc)) =>
      if t != u then (existing, false)
      else
        var out := AppendScalars(ex, inc);
        (Slice(t, out), |ex| < |out|)
    case _ => (existing, false)
  }

  /** wrapElements. */
  function Wrapped(v: Value): Value {
    if v.Arr? then v else Arr([v])
  }

  // ----- Immutability guards -----

  /** wouldChange: the guard's prediction of whether an add or replace would alter the value. */
  predicate WouldChange(attr: Attribute, kind: OpKind, existing: Value, incoming: Value) {
    if incoming.Nil? then kind.Replace?
    else if attr.multi && kind.Add? then AppendNew(existing, incoming).1
    else if attr.typ == TComplex && !attr.multi && existing.Cplx? && incoming.Cplx? then
      !ValuesEqual(existing, Cplx(existing.elem + incoming.elem))
    else !ValuesEqual(existing, incoming)
  }

  /** A guard's verdict: None lets the write go on. */
  type Verdict = Option<Kind>

  /** checkImmutableAttr against the value now assigned. */
  function CheckImmutableAttr(lx: Lexicon, existing: Option<Value>, attr: Attribute, kind: OpKind, raw: Value): Verdict {
    if existing.None? then None
    else if kind.Remove? then Some(Mutability)
    else
      var incoming := Coerce(lx, attr, raw);
      if incoming.Err? then Some(incoming.kind)
      else if WouldChange(attr, kind, existing.value, incoming.value) then Some(Mutability)
      else None
  }

  /** checkImmutableSubPath and checkElemImmutable share this comparison. */
  function CheckImmutableSub(lx: Lexicon, existing: Option<Value>, sub: Attribute, raw: Value): Verdict {
    if existing.None? || existing.value.Nil? then None
    else
      var incoming := Coerce(lx, sub, raw);
      if incoming.Err? then Some(incoming.kind)
      else if !ValuesEqual(existing.value, incoming.value) then Some(Mutability)
      else None
  }

  /** checkElemImmutable. */
  function CheckElemImmutable(lx: Lexicon, sub: Attribute, elem: Elem, raw: Value): Verdict {
    if sub.access != Immutable then None else CheckImmutableSub(lx, Lookup(elem, Fold(sub.name)), sub, raw)
  }

  // ----- Edits of one element -----

  /** What a valuePath operation does to each element its filter selects. */
  datatype Edit =
    | WriteSub(sub: Attribute, value: Value)
    | MergeIn(obj: Elem)
    | Substitute(obj: Elem)
    | DropSub(sub: Attribute)

  /** mergeElemKeys, over the members still to visit. */
  function MergeKeys(lx: Lexicon, attr: Attribute, elem: Elem, obj: Elem, keys: seq<string>): Result<Elem>
    requires forall k <- keys :: k in obj
    decreases |keys|
  {
    if keys == [] then Ok(elem)
    else
      var (k, sub) := (keys[0], FindAttribute(attr.subs, keys[0]));
      if sub.Some? && sub.value.access == ReadOnly then MergeKeys(lx, attr, elem, obj, keys[1..])
      else
        var verdict := if sub.None? then None else CheckElemImmutable(lx, sub.value, elem, obj[k]);
        if verdict.Some? then Err(verdict.value)
        else MergeKeys(lx, attr, elem[k := obj[k]], obj, keys[1..])
  }

  /** checkReplacedElement, over the sub-attributes still to visit. */
  function CheckReplaced(lx: Lexicon, subs: seq<Attribute>, old_: Elem, obj: Elem): Verdict
    decreases |subs|
  {
    if subs == [] then None
    else
      var (sub, key) := (subs[0], Fold(subs[0].name));
      if sub.access != Immutable || key !in old_ || old_[key].Nil? then CheckReplaced(lx, subs[1..], old_, obj)
      else if key !in obj then Some(Mutability)
      else
        var verdict := CheckImmutableSub(lx, Some(old_[key]), sub, obj[key]);
        if verdict.Some? then verdict else CheckReplaced(lx, subs[1..], old_, obj)
  }

  function EditElem(lx: Lexicon, attr: Attribute, edit: Edit, elem: Elem): Result<Elem> {
    match edit
    case WriteSub(sub, v) =>
      var verdict := CheckElemImmutable(lx, sub, elem, v);
      if verdict.Some? then Err(verdict.value) else Ok(elem[Fold(sub.name) := v])
    case MergeIn(obj) => MergeKeys(lx, attr, elem, obj, SortedKeys(obj.Keys))
    case Substitute(obj) =>
      var verdict := CheckReplaced(lx, attr.subs, elem, obj);
      if verdict.Some? then Err(verdict.value) else Ok(obj)
    case DropSub(sub) =>
      if sub.access == Immutable && !MemberOrNil(elem, Fold(sub.name)).Nil? then Err(Mutability)
      else Ok(elem - {Fold(sub.name)})
  }

  /** The edit applied to the selected elements in order, from index i on. */
  function EditElems(lx: Lexicon, attr: Attribute, edit: Edit, list: seq<Elem>, selected: set<nat>, i: nat): (r: Result<seq<Elem>>)
    requires i <= |list|
    ensures r.Ok? ==> |r.value| == |list| - i
    decreases |list| - i
  {
    if i == |list| then Ok([])
    else
      var head :- if i in selected then EditElem(lx, attr, edit, list[i]) else Ok(list[i]);
      var rest :- EditElems(lx, attr, edit, list, selected, i + 1);
      Ok([head] + rest)
  }

  /** matchingElements: the indices whose element satisfies the filter. An empty list is never
      validated against. */
  function Matching(lx: Lexicon, attr: Attribute, f: F.Expr, list: seq<Elem>): Result<set<nat>> {
    if list != [] && !ElementValid(attr, f) then Err(InvalidFilter)
    else Ok(set i: nat | 0 <= i < |list| && EvalElement(lx, attr, list[i], f))
  }

  // ----- Synthesis -----

  function LiteralValue(v: F.Literal): Value {
    match v
    case Null => Nil
    case Bool(b) => Bool(b)
    case Number(t) => Num(t)
    case Str(s) => Str(s)
  }

  /** collectEqClauses: an eq-only conjunction adds its literals to the seed. */
  function CollectEq(e: F.Expr, seed: Elem): Option<Elem> {
    match e
    case Compare(p, op, v) =>
      var key := Fold(p.attr);
      if !op.Eq? || p.urn != "" || p.sub != "" || p.filter.Some? then None
      else if key in seed && seed[key] != LiteralValue(v) then None
      else if v.Null? then Some(seed)
      else Some(seed[key := LiteralValue(v)])
    case And(l, r) =>
      var left := CollectEq(l, seed);
      if left.None? then None else CollectEq(r, left.value)
    case _ => None
  }
}
