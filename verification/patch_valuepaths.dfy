/** Which operations on a path with a value filter PATCH accepts (patch/apply_add.go,
    patch/apply_replace.go, patch/apply_remove.go), in terms of the elements the resource holds.
    What an accepted one leaves is told in PatchSelected and PatchSynthesis. */
module PatchValuePaths {
  import opened Text
  import opened Schema
  import opened Values
  import opened Documents
  import opened DocumentFacts
  import opened Paths
  import opened FilterMatch
  import opened PatchRules
  import opened PatchSpec
  import opened PatchFacts
  import opened PatchGuards
  import opened PatchElements
  import opened PatchMerging
  import opened PatchSelected
  import opened PatchSynthesis
  import opened PatchAppend
  import opened PatchTables
  import opened PatchReplay
  import opened PatchPathless
  import opened PatchAccepts
  import F = FilterAst

  // ----- One element -----

  /** An immutable sub-attribute the element assigns takes its own value alone. */
  predicate KeepsValue(lx: Lexicon, sub: Attribute, e: Elem, v: Value) {
    var held := Lookup(e, Fold(sub.name));
    sub.access == Immutable && held.Some? && !held.value.Nil? ==>
      Coerce(lx, sub, v).Ok? && ValuesEqual(held.value, Coerce(lx, sub, v).value)
  }

  /** The edit changes no immutable sub-attribute the element assigns: the member set, every
      member merged in that is not readOnly, every one of those sub-attributes in an object put
      in its place; and none is removed. */
  predicate Permits(lx: Lexicon, a: Attribute, edit: Edit, e: Elem) {
    match edit
    case WriteSub(sub, v) => KeepsValue(lx, sub, e, v)
    case MergeIn(obj) => forall k <- obj.Keys :: var s := FindAttribute(a.subs, k); s.Some? && s.value.access != ReadOnly ==> KeepsValue(lx, s.value, e, obj[k])
    case Substitute(obj) => forall s <- a.subs :: PermitsReplaced(lx, s, e, obj)
    case DropSub(sub) => !(sub.access == Immutable && Fold(sub.name) in e && !e[Fold(sub.name)].Nil?)
  }

  predicate PermitsReplaced(lx: Lexicon, s: Attribute, e: Elem, obj: Elem) {
    var key := Fold(s.name);
    s.access == Immutable && key in e && !e[key].Nil? ==> key in obj && KeepsValue(lx, s, e, obj[key])
  }

  lemma KeepsIff(lx: Lexicon, sub: Attribute, e: Elem, v: Value)
    ensures CheckElemImmutable(lx, sub, e, v).None? <==> KeepsValue(lx, sub, e, v)
  {
    hide Coerce, ValuesEqual;
  }

  lemma {:induction false} ReplacedIff(lx: Lexicon, subs: seq<Attribute>, e: Elem, obj: Elem)
    ensures CheckReplaced(lx, subs, e, obj).None? <==> forall s <- subs :: PermitsReplaced(lx, s, e, obj)
  {
    hide CheckReplaced, PermitsReplaced;
    if subs == [] {
      NoneReplaced(lx, e, obj);
    } else {
      ReplacedIff(lx, subs[1..], e, obj);
      FirstReplaced(lx, subs, e, obj);
      assert forall x <- subs :: x == subs[0] || x in subs[1..];
    }
  }

  lemma NoneReplaced(lx: Lexicon, e: Elem, obj: Elem)
    ensures CheckReplaced(lx, [], e, obj).None?
  {
  }

  lemma {:induction false} FirstReplaced(lx: Lexicon, subs: seq<Attribute>, e: Elem, obj: Elem)
    requires subs != []
    ensures CheckReplaced(lx, subs, e, obj).None? <==> PermitsReplaced(lx, subs[0], e, obj) && CheckReplaced(lx, subs[1..], e, obj).None?
  {
    hide Coerce, ValuesEqual, Fold;
  }

  lemma {:induction false} PermitsIff(lx: Lexicon, a: Attribute, edit: Edit, e: Elem)
    requires edit.MergeIn? ==> FoldedKeys(edit.obj)
    ensures EditElem(lx, a, edit, e).Ok? <==> Permits(lx, a, edit, e)
  {
    hide KeepsValue, CheckElemImmutable, MergeKeys, CheckReplaced, PermitsReplaced, Fold;
    match edit {
      case WriteSub(sub, v) => KeepsIff(lx, sub, e, v);
      case MergeIn(obj) =>
        MergeAllIff(lx, a, e, obj);
        forall k <- obj.Keys
          ensures Admits(lx, a, e, obj, k) <==> (var s := FindAttribute(a.subs, k); s.Some? && s.value.access != ReadOnly ==> KeepsValue(lx, s.value, e, obj[k]))
        {
          var s := FindAttribute(a.subs, k);
          if s.Some? { KeepsIff(lx, s.value, e, obj[k]); }
        }
      case Substitute(obj) => ReplacedIff(lx, a.subs, e, obj);
      case DropSub(sub) =>
    }
  }

  // ----- A list of elements -----

  predicate AllPermitted(lx: Lexicon, a: Attribute, edit: Edit, list: seq<Elem>, selected: set<nat>, from: nat) {
    forall i: nat :: from <= i < |list| && i in selected ==> Permits(lx, a, edit, list[i])
  }

  lemma {:induction false} AllPermittedIff(lx: Lexicon, a: Attribute, edit: Edit, list: seq<Elem>, selected: set<nat>, from: nat)
    requires (edit.MergeIn? ==> FoldedKeys(edit.obj)) && from <= |list|
    ensures EditElems(lx, a, edit, list, selected, from).Ok? <==> AllPermitted(lx, a, edit, list, selected, from)
    decreases |list| - from
  {
    hide EditElem, Permits, FoldedKeys;
    if from < |list| {
      PermitsIff(lx, a, edit, list[from]);
      AllPermittedIff(lx, a, edit, list, selected, from + 1);
    }
  }

  /** The list an edit of the selected elements makes, before it is stored. */
  function EditedList(a: Attribute, edit: Edit, list: seq<Elem>, selected: set<nat>): seq<Elem> {
    var taken := !edit.DropSub? && exists i :: 0 <= i < |list| && i in selected && PrimaryTrue(Made(a, edit, list[i]));
    seq(|list|, i requires 0 <= i < |list| => if i in selected then Made(a, edit, list[i]) else Yielded(list[i], taken))
  }

  lemma {:induction false} EditsMake(lx: Lexicon, a: Attribute, edit: Edit, list: seq<Elem>, selected: set<nat>)
    requires EditElems(lx, a, edit, list, selected, 0).Ok?
    ensures var out := EditElems(lx, a, edit, list, selected, 0).value;
            (if edit.DropSub? then out else Demoted(out, selected)) == EditedList(a, edit, list, selected)
  {
    hide EditElem, EditElems, Made, Demoted, PrimaryTrue;
    var out := EditElems(lx, a, edit, list, selected, 0).value;
    var written := if edit.DropSub? then out else Demoted(out, selected);
    EditYields(lx, a, edit, list, selected);
    forall i | 0 <= i < |list| && i in selected ensures written[i] == Made(a, edit, list[i]) {
      EditElemsAt(lx, a, edit, list, selected, 0, i);
      EditMakes(lx, a, edit, list[i]);
      DemotedAt(out, selected, i);
    }
    assert TakesPrimary(written, selected) <==> exists i :: 0 <= i < |list| && i in selected && PrimaryTrue(Made(a, edit, list[i]));
    assert written == EditedList(a, edit, list, selected);
  }

  /** A list of elements can be stored: every one coerces, and at most one is then primary. */
  predicate Storing(lx: Lexicon, a: Attribute, elems: seq<Elem>) {
    (forall i :: 0 <= i < |elems| ==> MembersCoerce(lx, a, elems[i])) && PrimaryCount(Kept(lx, a, elems)) <= 1
  }

  lemma {:induction false} CoerceElemsIff(lx: Lexicon, a: Attribute, elems: seq<Elem>)
    ensures CoerceElems(lx, a, Boxed(elems)).Ok? <==> forall i :: 0 <= i < |elems| ==> MembersCoerce(lx, a, elems[i])
  {
    hide MembersCoerce, CoercedElem;
    CoerceElemsKept(lx, a, elems);
    if elems != [] {
      CoerceElemsIff(lx, a, elems[1..]);
      assert Boxed(elems)[1..] == Boxed(elems[1..]) && Boxed(elems)[0] == Cplx(elems[0]);
      assert forall i :: 1 <= i < |elems| ==> elems[i] == elems[1..][i - 1];
    }
  }

  lemma {:induction false} StoringIff(lx: Lexicon, a: Attribute, v: Value, elems: seq<Elem>)
    requires a.typ == TComplex && a.multi && (v == Multi(elems) || v == Arr(Boxed(elems)))
    ensures Coerce(lx, a, v).Ok? <==> Storing(lx, a, elems)
  {
    hide MembersCoerce, CoerceElems, Kept, PrimaryCount, Boxed;
    CoerceElemsIff(lx, a, elems);
    CoerceElemsKept(lx, a, elems);
  }

  lemma {:induction false} ListWriteIff(env: Env, w: Work, p: F.Path, v: Value, elems: seq<Elem>)
    requires Regular(env.rt) && ParsedPath(p) && ResolveTarget(env.rt, p).Some? && (v == Multi(elems) || v == Arr(Boxed(elems)))
    requires var a := ResolveTarget(env.rt, p).value.0; a.typ == TComplex && a.multi
    ensures SetTracked(env, w, AttrPathText(p), v).Ok? <==> Storing(env.lx, ResolveTarget(env.rt, p).value.0, elems)
  {
    hide Regular, ParsedPath, ResolvePath, ResolveTarget, SetTracked, Sound, AttrPathText, Coerce, Storing, Settable;
    ResolversAgreeAt(env.rt, p);
    var rp := ResolvePath(env.rt, AttrPathText(p)).value;
    SoundDeclared(env.rt, rp);
    CommonSchemas(env.rt, rp);
    CoercedWrite(env, w, AttrPathText(p), v, rp);
    StoringIff(env.lx, rp.attr.value, v, elems);
  }

  // ----- Nothing selected -----

  /** The list with the element a filter and a value describe at its end, the old primary
      demoted when the new element is primary. */
  function GrownList(list: seq<Elem>, raw: Elem): seq<Elem> {
    (if PrimaryTrue(raw) then Lowered(list) else list) + [raw]
  }

  lemma {:induction false} GrownIs(list: seq<Elem>, raw: Elem)
    ensures Demoted(list + [raw], {|list|}) == GrownList(list, raw)
  {
    hide PrimaryTrue, Demoted, Lowered;
    var out := list + [raw];
    if PrimaryTrue(raw) {
      DemotedAll(out, {|list|}, |list|);
      LoweredAt(list);
      assert Demoted(out, {|list|}) == Lowered(list) + [raw];
    } else {
      NoneDemoted(out, {|list|});
    }
  }

  lemma {:induction false} SynthesizeIff(env: Env, w: Work, op: Op, p: F.Path)
    requires Regular(env.rt) && ParsedPath(p) && p.filter.Some? && ResolveTarget(env.rt, p).Some?
    requires var a := ResolveTarget(env.rt, p).value.0; a.typ == TComplex && a.multi
    ensures var (a, sub) := ResolveTarget(env.rt, p).value;
            var (r, seed, list) := (Synthesize(env, w, op, p, sub), CollectEq(p.filter.value, map[]), Elements(env, w.doc, p));
            if seed.None? then r == Err(NoTarget)
            else if sub.None? && !op.value.Obj? then r == Err(InvalidValue)
            else r.Ok? <==> Storing(env.lx, a, GrownList(list, seed.value + Written(op, sub)))
  {
    hide Regular, ParsedPath, ResolveTarget, SetTracked, AttrPathText, Storing, Elements, CollectEq, Demoted, GrownList;
    var (a, sub) := ResolveTarget(env.rt, p).value;
    var (seed, list) := (CollectEq(p.filter.value, map[]), Elements(env, w.doc, p));
    if seed.Some? && (sub.Some? || op.value.Obj?) {
      var raw := seed.value + Written(op, sub);
      assert sub.Some? ==> seed.value[Fold(sub.value.name) := op.value] == raw;
      GrownIs(list, raw);
      assert |list + [raw]| - 1 == |list|;
      ListWriteIff(env, w, p, Multi(GrownList(list, raw)), GrownList(list, raw));
    }
  }

  // ----- The filters an element can be made from -----

  /** A clause of a conjunction: a folded sub-attribute name and the literal it must equal. */
  datatype Clause = Clause(key: string, lit: F.Literal)

  /** The clauses of a conjunction of eq comparisons on bare names; None for any other filter. */
  function EqClauses(f: F.Expr): Option<seq<Clause>> {
    match f
    case Compare(p, op, v) => if op.Eq? && p.urn == "" && p.sub == "" && p.filter.None? then Some([Clause(Fold(p.attr), v)]) else None
    case And(l, r) => if EqClauses(l).Some? && EqClauses(r).Some? then Some(EqClauses(l).value + EqClauses(r).value) else None
    case _ => None
  }

  /** No clause asks for another value than the seed or a clause before it gives; a null clause
      gives none. */
  predicate Agree(clauses: seq<Clause>, seed: Elem) {
    && (forall i :: 0 <= i < |clauses| && clauses[i].key in seed ==> LiteralValue(clauses[i].lit) == seed[clauses[i].key])
    && forall i, j :: 0 <= i < j < |clauses| && clauses[i].key == clauses[j].key && !clauses[i].lit.Null? ==>
         LiteralValue(clauses[i].lit) == LiteralValue(clauses[j].lit)
  }

  /** What the collection of clauses leaves at a name. */
  ghost predicate Gathered(clauses: seq<Clause>, seed: Elem, out: Elem) {
    forall k: string ::
      (k in out <==> k in seed || exists i :: 0 <= i < |clauses| && clauses[i].key == k && !clauses[i].lit.Null?)
      && (k in seed ==> k in out && out[k] == seed[k])
      && (forall i :: 0 <= i < |clauses| && clauses[i].key == k && !clauses[i].lit.Null? ==> k in out && out[k] == LiteralValue(clauses[i].lit))
  }

  lemma {:induction false} CollectIff(f: F.Expr, seed: Elem)
    ensures var (r, clauses) := (CollectEq(f, seed), EqClauses(f));
            && (r.Some? <==> clauses.Some? && Agree(clauses.value, seed))
            && (r.Some? ==> Gathered(clauses.value, seed, r.value))
  {
    hide LiteralValue, Fold, Agree, Gathered;
    match f {
      case Compare(p, op, v) =>
        if EqClauses(f).Some? { OneClause(Clause(Fold(p.attr), v), seed); }
      case And(l, r) =>
        CollectIff(l, seed);
        if CollectEq(l, seed).Some? { CollectIff(r, CollectEq(l, seed).value); }
        if EqClauses(l).Some? && EqClauses(r).Some? {
          if Agree(EqClauses(l).value, seed) {
            AgreeConcat(EqClauses(l).value, EqClauses(r).value, seed, CollectEq(l, seed).value);
            if Agree(EqClauses(r).value, CollectEq(l, seed).value) {
              GatheredConcat(EqClauses(l).value, EqClauses(r).value, seed, CollectEq(l, seed).value, CollectEq(f, seed).value);
            }
          } else {
            AgreePrefix(EqClauses(l).value, EqClauses(r).value, seed);
          }
        }
      case _ =>
    }
  }

  lemma OneClause(c: Clause, seed: Elem)
    ensures Agree([c], seed) <==> (c.key in seed ==> LiteralValue(c.lit) == seed[c.key])
    ensures Agree([c], seed) ==> Gathered([c], seed, if c.lit.Null? then seed else seed[c.key := LiteralValue(c.lit)])
  {
    hide LiteralValue;
    var one := [c];
    assert one[0] == c && |one| == 1;
    assert Agree(one, seed) <==> (one[0].key in seed ==> LiteralValue(one[0].lit) == seed[one[0].key]);
    if Agree(one, seed) {
      var out := if c.lit.Null? then seed else seed[c.key := LiteralValue(c.lit)];
      forall k: string
        ensures k in out <==> k in seed || exists i :: 0 <= i < |one| && one[i].key == k && !one[i].lit.Null?
        ensures k in seed ==> k in out && out[k] == seed[k]
      {
        assert k in out && k !in seed ==> one[0].key == k && !one[0].lit.Null?;
      }
    }
  }

  lemma {:induction false} AgreePrefix(a: seq<Clause>, b: seq<Clause>, seed: Elem)
    ensures Agree(a + b, seed) ==> Agree(a, seed)
  {
    hide LiteralValue;
    assert forall i :: 0 <= i < |a| ==> (a + b)[i] == a[i];
  }

  lemma {:induction false} AgreeConcat(a: seq<Clause>, b: seq<Clause>, seed: Elem, mid: Elem)
    requires Agree(a, seed) && Gathered(a, seed, mid)
    ensures Agree(a + b, seed) <==> Agree(b, mid)
  {
    hide LiteralValue;
    var c := a + b;
    assert forall i :: 0 <= i < |a| ==> c[i] == a[i];
    assert forall i :: 0 <= i < |b| ==> c[|a| + i] == b[i];
    if Agree(b, mid) {
      forall i | 0 <= i < |c| && c[i].key in seed ensures LiteralValue(c[i].lit) == seed[c[i].key] {
        if i >= |a| { assert b[i - |a|] == c[i]; }
      }
      forall i, j | 0 <= i < j < |c| && c[i].key == c[j].key && !c[i].lit.Null? ensures LiteralValue(c[i].lit) == LiteralValue(c[j].lit) {
        if i >= |a| { assert b[i - |a|] == c[i] && b[j - |a|] == c[j]; }
        else if j >= |a| { assert a[i] == c[i] && b[j - |a|] == c[j]; }
      }
    }
    if Agree(c, seed) {
      forall i | 0 <= i < |b| && b[i].key in mid ensures LiteralValue(b[i].lit) == mid[b[i].key] {
        assert c[|a| + i] == b[i];
        if b[i].key !in seed {
          var j :| 0 <= j < |a| && a[j].key == b[i].key && !a[j].lit.Null?;
          assert c[j] == a[j];
        }
      }
      forall i, j | 0 <= i < j < |b| && b[i].key == b[j].key && !b[i].lit.Null? ensures LiteralValue(b[i].lit) == LiteralValue(b[j].lit) {
        assert c[|a| + i] == b[i] && c[|a| + j] == b[j];
      }
    }
  }

  lemma {:induction false} GatheredConcat(a: seq<Clause>, b: seq<Clause>, seed: Elem, mid: Elem, out: Elem)
    requires Gathered(a, seed, mid) && Gathered(b, mid, out)
    ensures Gathered(a + b, seed, out)
  {
    hide LiteralValue;
    var c := a + b;
    forall k: string
      ensures k in out <==> k in seed || exists i :: 0 <= i < |c| && c[i].key == k && !c[i].lit.Null?
      ensures k in seed ==> k in out && out[k] == seed[k]
      ensures forall i :: 0 <= i < |c| && c[i].key == k && !c[i].lit.Null? ==> k in out && out[k] == LiteralValue(c[i].lit)
    {
      if i :| 0 <= i < |a| && a[i].key == k && !a[i].lit.Null? { assert c[i] == a[i]; }
      if i :| 0 <= i < |b| && b[i].key == k && !b[i].lit.Null? { assert c[|a| + i] == b[i]; }
      forall i | 0 <= i < |c| && c[i].key == k && !c[i].lit.Null? ensures k in out && out[k] == LiteralValue(c[i].lit) {
        if i < |a| { assert c[i] == a[i]; } else { assert c[i] == b[i - |a|]; }
      }
    }
  }

  /** An element can be made from a filter exactly when it is a conjunction of eq comparisons on
      bare names that agree with one another; the element then has the given values, and the
      null clauses give none. */
  lemma {:induction false} SeedIff(f: F.Expr)
    ensures var (r, clauses) := (CollectEq(f, map[]), EqClauses(f));
            && (r.Some? <==> clauses.Some? && Agree(clauses.value, map[]))
            && (r.Some? ==> Gathered(clauses.value, map[], r.value))
  {
    CollectIff(f, map[]);
  }

  // ----- The whole operation -----

  /** Why an operation with a value filter is refused before any element is edited. */
  function FilterVerdict(env: Env, d: Doc, op: Op, p: F.Path): Verdict
    requires p.filter.Some?
  {
    var t := ResolveTarget(env.rt, p);
    if t.None? then Some(InvalidPath)
    else
      var (a, sub) := t.value;
      var list := Elements(env, d, p);
      if a.access == ReadOnly || (sub.Some? && sub.value.access == ReadOnly) then Some(Mutability)
      else if a.access == Immutable && Slot(d, TargetLoc(env.rt, p)).Some? then Some(Mutability)
      else if !a.multi || a.typ != TComplex then Some(InvalidPath)
      else if list != [] && !ElementValid(a, p.filter.value) then Some(InvalidFilter)
      else
        var selected := Matching(env.lx, a, p.filter.value, list).value;
        if op.kind.Remove? then (if sub.None? && a.required && selected != {} && |selected| == |list| then Some(Mutability) else None)
        else if selected == {} && !(if op.kind.Add? then env.profile.synthesizeAddValuePath else env.profile.replaceNoTargetAsAdd) then Some(NoTarget)
        else if selected == {} && CollectEq(p.filter.value, map[]).None? then Some(NoTarget)
        else if sub.None? && !op.value.Obj? then Some(InvalidValue)
        else None
  }

  /** The list an operation that is not refused outright goes on to store; None when it writes
      nothing. */
  function StoredList(env: Env, d: Doc, op: Op, p: F.Path): Option<seq<Elem>>
    requires p.filter.Some? && !op.kind.Unknown? && FilterVerdict(env, d, op, p).None?
  {
    var (a, sub) := ResolveTarget(env.rt, p).value;
    var list := Elements(env, d, p);
    var selected := Matching(env.lx, a, p.filter.value, list).value;
    if selected == {} then
      if op.kind.Remove? then None else Some(GrownList(list, CollectEq(p.filter.value, map[]).value + Written(op, sub)))
    else if op.kind.Remove? && sub.None? then Some(Unselected(list, selected, |list|))
    else Some(EditedList(a, EditOf(op, sub).value, list, selected))
  }

  /** Every element it edits permits the edit. */
  predicate EditsPermitted(env: Env, d: Doc, op: Op, p: F.Path)
    requires p.filter.Some? && !op.kind.Unknown? && FilterVerdict(env, d, op, p).None?
  {
    var (a, sub) := ResolveTarget(env.rt, p).value;
    var list := Elements(env, d, p);
    var selected := Matching(env.lx, a, p.filter.value, list).value;
    (op.kind.Remove? && sub.None?) || AllPermitted(env.lx, a, EditOf(op, sub).value, list, selected, 0)
  }

  lemma {:induction false} EditIff(env: Env, w: Work, p: F.Path, edit: Edit, selected: set<nat>)
    requires Regular(env.rt) && ParsedPath(p) && ResolveTarget(env.rt, p).Some? && (edit.MergeIn? ==> FoldedKeys(edit.obj))
    requires var a := ResolveTarget(env.rt, p).value.0; a.typ == TComplex && a.multi
    ensures var (a, list) := (ResolveTarget(env.rt, p).value.0, Elements(env, w.doc, p));
            var out := EditElems(env.lx, a, edit, list, selected, 0);
            (out.Ok? && SetTracked(env, w, AttrPathText(p), Multi(if edit.DropSub? then out.value else Demoted(out.value, selected))).Ok?)
            <==> AllPermitted(env.lx, a, edit, list, selected, 0) && Storing(env.lx, a, EditedList(a, edit, list, selected))
  {
    hide Regular, ParsedPath, ResolveTarget, SetTracked, AttrPathText, Storing, Elements, Demoted, EditElems, EditedList, AllPermitted, FoldedKeys;
    var (a, list) := (ResolveTarget(env.rt, p).value.0, Elements(env, w.doc, p));
    AllPermittedIff(env.lx, a, edit, list, selected, 0);
    if EditElems(env.lx, a, edit, list, selected, 0).Ok? {
      EditsMake(env.lx, a, edit, list, selected);
      ListWriteIff(env, w, p, Multi(EditedList(a, edit, list, selected)), EditedList(a, edit, list, selected));
    }
  }

  lemma {:induction false} FilterTarget(env: Env, d: Doc, op: Op, p: F.Path)
    requires Regular(env.rt) && ParsedPath(p) && p.filter.Some? && !op.kind.Unknown? && ResolveTarget(env.rt, p).Some?
    ensures var (a, sub) := ResolveTarget(env.rt, p).value;
            OpTarget(env, d, op, p) ==
            if a.access == ReadOnly || (sub.Some? && sub.value.access == ReadOnly) || (a.access == Immutable && Slot(d, TargetLoc(env.rt, p)).Some?) then Err(Mutability)
            else Ok((a, sub))
  {
    hide Regular, ParsedPath, ResolveTarget, AttrPathText, SubPathText, Get, Slot, TargetLoc;
    if ResolveTarget(env.rt, p).value.0.access == Immutable {
      ImmutableKept(env.rt, p);
      AttrShown(env, d, p);
    }
  }

  /** schemas and meta are not immutable. */
  lemma {:induction false} ImmutableKept(rt: ResourceType, p: F.Path)
    requires ResolveTarget(rt, p).Some? && ResolveTarget(rt, p).value.0.access == Immutable
    ensures !DerivedTarget(rt, p)
  {
    hide Fold;
    CommonAccess();
  }

  lemma CommonAccess()
    ensures forall a <- COMMON :: a.access != Immutable
  {
  }

  lemma {:induction false} RemoveIff(env: Env, w: Work, op: Op, p: F.Path)
    requires Regular(env.rt) && ParsedPath(p) && Canonical(env.rt, w.doc) && op.path == Some(p) && p.filter.Some? && op.kind.Remove?
    requires FilterVerdict(env, w.doc, op, p).None?
    ensures var (a, sub) := ResolveTarget(env.rt, p).value;
            var stored := StoredList(env, w.doc, op, p);
            ValuePathRemove(env, w, p, a, sub).Ok? <==> stored.None? || (EditsPermitted(env, w.doc, op, p) && Storing(env.lx, a, stored.value))
  {
    hide Regular, ParsedPath, Canonical, ResolveTarget, SetTracked, AttrPathText, Storing, Elements, EditElems, EditedList, AllPermitted, ListAt, Survivors, Unselected, Boxed, TargetLoc, Slot, CollectEq, ElementValid, EvalElement;
    var (a, sub) := ResolveTarget(env.rt, p).value;
    ListRead(env, w.doc, p);
    var list := Elements(env, w.doc, p);
    var selected := Matching(env.lx, a, p.filter.value, list).value;
    if selected != {} {
      NoneFromNothing(env.lx, a, p.filter.value);
      if sub.Some? {
        EditIff(env, w, p, DropSub(sub.value), selected);
      } else {
        SurvivorsAre(list, selected, 0);
        ListWriteIff(env, w, p, Arr(Boxed(Survivors(list, selected, 0))), Survivors(list, selected, 0));
      }
    }
  }

  lemma NoneFromNothing(lx: Lexicon, a: Attribute, f: F.Expr)
    ensures Matching(lx, a, f, []) == Ok({})
  {
    assert Matching(lx, a, f, []).value == {};
  }

  lemma {:induction false} WriteIsAccepted(env: Env, w: Work, op: Op, p: F.Path)
    requires Regular(env.rt) && ParsedPath(p) && op.path == Some(p) && p.filter.Some? && (op.kind.Add? || op.kind.Replace?)
    requires FilterVerdict(env, w.doc, op, p).None? && (op.value.Obj? ==> FoldedKeys(op.value.members))
    ensures var (a, sub) := ResolveTarget(env.rt, p).value;
            var stored := StoredList(env, w.doc, op, p);
            ValuePathWrite(env, w, op, p, a, sub).Ok? <==> stored.None? || (EditsPermitted(env, w.doc, op, p) && Storing(env.lx, a, stored.value))
  {
    hide Regular, ParsedPath, ResolveTarget, SetTracked, AttrPathText, Storing, Elements, EditElems, EditedList, GrownList, Demoted, ListAt, Synthesize, TargetLoc, Slot, CollectEq, ElementValid, EvalElement, Permits, FoldedKeys;
    var (a, sub) := ResolveTarget(env.rt, p).value;
    var list := Elements(env, w.doc, p);
    var selected := Matching(env.lx, a, p.filter.value, list).value;
    if selected == {} {
      SynthesizeIff(env, w, op, p);
    } else {
      EditIff(env, w, p, EditOf(op, sub).value, selected);
    }
  }

  /** An operation whose path has a value filter is refused outright, in the way stated, when its
      path names no multi-valued complex attribute, the attribute or member is readOnly, or
      immutable and assigned, the filter is invalid, selects nothing where something must be
      selected or can be made, or takes the last element of a required attribute. Otherwise it is
      accepted exactly when every element it edits permits the edit and the list it makes can be
      stored; a remove that selects nothing writes nothing. */
  lemma {:induction false} ValuePathIff(env: Env, w: Work, op: Op, p: F.Path)
    requires Regular(env.rt) && ParsedPath(p) && Canonical(env.rt, w.doc) && op.path == Some(p) && p.filter.Some? && !op.kind.Unknown?
    requires op.value.Obj? ==> FoldedKeys(op.value.members)
    ensures var (r, verdict) := (ApplyOp(env, w, op), FilterVerdict(env, w.doc, op, p));
            if verdict.Some? then r == Err(verdict.value)
            else
              var stored := StoredList(env, w.doc, op, p);
              && (r.Ok? <==> stored.None? || (EditsPermitted(env, w.doc, op, p) && Storing(env.lx, ResolveTarget(env.rt, p).value.0, stored.value)))
              && (stored.None? ==> r == Ok(w))
  {
    hide Regular, ParsedPath, Canonical, ResolveTarget, OpTarget, ValuePathWrite, ValuePathRemove, Elements, EditsPermitted, StoredList, Storing, TargetLoc, Slot, CollectEq, ElementValid, EvalElement, FilterVerdict, FoldedKeys;
    if ResolveTarget(env.rt, p).None? {
      NoTargetVerdict(env, w, op, p);
    } else {
      var (a, sub) := ResolveTarget(env.rt, p).value;
      FilterTarget(env, w.doc, op, p);
      EarlyVerdict(env, w, op, p);
      if FilterVerdict(env, w.doc, op, p).None? {
        if op.kind.Remove? { RemoveIff(env, w, op, p); } else { WriteIsAccepted(env, w, op, p); }
        NothingStored(env, w, op, p);
      }
    }
  }

  lemma NoTargetVerdict(env: Env, w: Work, op: Op, p: F.Path)
    requires op.path == Some(p) && p.filter.Some? && !op.kind.Unknown? && ResolveTarget(env.rt, p).None?
    ensures FilterVerdict(env, w.doc, op, p) == Some(InvalidPath) && ApplyOp(env, w, op) == Err(InvalidPath)
  {
    hide ResolveTarget;
  }

  lemma {:induction false} NothingStored(env: Env, w: Work, op: Op, p: F.Path)
    requires op.path == Some(p) && p.filter.Some? && !op.kind.Unknown? && FilterVerdict(env, w.doc, op, p).None?
    ensures var (a, sub) := ResolveTarget(env.rt, p).value;
            StoredList(env, w.doc, op, p).None? ==> op.kind.Remove? && ValuePathRemove(env, w, p, a, sub) == Ok(w)
  {
    hide ResolveTarget, SetTracked, AttrPathText, EditElems, EditedList, GrownList, ListAt, CollectEq, ElementValid, EvalElement, TargetLoc, Slot, Survivors, Unselected;
  }

  /** What is refused before any element is edited. */
  lemma {:induction false} EarlyVerdict(env: Env, w: Work, op: Op, p: F.Path)
    requires Regular(env.rt) && ParsedPath(p) && Canonical(env.rt, w.doc) && op.path == Some(p) && p.filter.Some? && !op.kind.Unknown? && ResolveTarget(env.rt, p).Some?
    ensures var ((a, sub), verdict) := (ResolveTarget(env.rt, p).value, FilterVerdict(env, w.doc, op, p));
            if OpTarget(env, w.doc, op, p).Err? then verdict == Some(OpTarget(env, w.doc, op, p).kind)
            else verdict.Some? ==> (if op.kind.Remove? then ValuePathRemove(env, w, p, a, sub) else ValuePathWrite(env, w, op, p, a, sub)) == Err(verdict.value)
  {
    hide Regular, ParsedPath, Canonical, ResolveTarget, OpTarget, SetTracked, AttrPathText, EditElems, Demoted, ListAt, Survivors, Boxed, Synthesize, TargetLoc, Slot, CollectEq, ElementValid, EvalElement, Elements;
    var (a, sub) := ResolveTarget(env.rt, p).value;
    FilterTarget(env, w.doc, op, p);
    if OpTarget(env, w.doc, op, p).Ok? && a.multi && a.typ == TComplex {
      ListRead(env, w.doc, p);
      SynthesizeIff(env, w, op, p);
    }
  }
}
