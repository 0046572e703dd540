/** The PATCH engine as the source runs it: an applier that edits a shared copy of the resource
    through Get and Set, loops over elements, and demotes in place (patch/apply.go,
    patch/apply_add.go, patch/apply_replace.go, patch/apply_remove.go, patch/synthesize.go).
    Every method is proved against the function of the same purpose in PatchRules and
    PatchSpec. */
module PatchEngine {
  import opened Text
  import opened Schema
  import opened Values
  import opened Documents
  import opened Paths
  import opened PatchRules
  import opened PatchSpec
  import opened PatchMerging
  import opened Ordering
  import opened Resources
  import FilterMatch
  import F = FilterAst

  // ----- Lists of elements -----

  /** hasDuplicateElement. */
  method HasDuplicateElement(list: seq<Dict>, inc: Dict) returns (found: bool)
    ensures found == HasDuplicate(ElemsOf(list), inc.m)
  {
    hide Duplicates;
    for i := 0 to |list|
      invariant forall j :: 0 <= j < i ==> !Duplicates(ElemsOf(list)[j], inc.m)
    {
      if Duplicates(list[i].m, inc.m) {
        assert Duplicates(ElemsOf(list)[i], inc.m);
        return true;
      }
    }
    found := false;
  }

  /** cloneElement. */
  method CloneElement(d: Dict) returns (c: Dict)
    ensures fresh(c) && c.m == d.m
  {
    c := new Dict(d.m);
  }

  /** demoteOthers, in place: the array is written, an element is copied before it is. */
  method DemoteOthers(list: array<Dict>, keep: set<nat>)
    modifies list
    ensures ElemsOf(list[..]) == Demoted(old(ElemsOf(list[..])), keep)
    ensures forall i :: 0 <= i < list.Length ==> list[i] == old(list[i]) || fresh(list[i])
  {
    hide PrimaryTrue, Demote, ElemsOf;
    ghost var was := ElemsOf(list[..]);
    var hasNewPrimary := false;
    for i := 0 to list.Length
      invariant ElemsOf(list[..]) == was
      invariant hasNewPrimary <==> exists j :: 0 <= j < i && j in keep && PrimaryTrue(was[j])
    {
      if i in keep && PrimaryTrue(list[i].m) {
        hasNewPrimary := true;
        break;
      }
    }
    if hasNewPrimary { DemoteRest(list, keep); }
  }

  /** The second loop of demoteOthers. */
  method DemoteRest(list: array<Dict>, keep: set<nat>)
    modifies list
    ensures forall i :: 0 <= i < list.Length ==> ElemsOf(list[..])[i] == if i in keep then old(ElemsOf(list[..]))[i] else Demote(old(ElemsOf(list[..]))[i])
    ensures forall i :: 0 <= i < list.Length ==> list[i] == old(list[i]) || fresh(list[i])
  {
    hide PrimaryTrue, Demote, ElemsOf;
    ghost var was := ElemsOf(list[..]);
    for i := 0 to list.Length
      invariant forall j :: i <= j < list.Length ==> list[j] == old(list[j]) && list[j].m == was[j]
      invariant forall j :: 0 <= j < i ==> list[j] == old(list[j]) || fresh(list[j])
      invariant forall j :: 0 <= j < i ==> list[j].m == if j in keep then was[j] else Demote(was[j])
    {
      DemoteIs(was[i]);
      if i !in keep && PrimaryTrue(list[i].m) {
        var clone := CloneElement(list[i]);
        clone.m := clone.m[PRIMARY := Bool(false)];
        list[i] := clone;
      }
    }
  }

  lemma DemoteIs(e: Elem)
    ensures Demote(e) == if PrimaryTrue(e) then e[PRIMARY := Bool(false)] else e
  {
  }

  /** slices.Clone: an array of its own with the same elements. */
  method Clone(list: seq<Dict>) returns (out: array<Dict>)
    ensures fresh(out) && out[..] == list
  {
    out := new Dict[|list|](i requires 0 <= i < |list| => list[i]);
  }

  lemma ElemsMore(s: seq<Dict>, d: Dict)
    ensures ElemsOf(s + [d]) == ElemsOf(s) + [d.m]
  {
  }

  lemma {:induction false} AppendStep(out: seq<Elem>, inc: seq<Elem>, i: nat)
    requires i < |inc|
    ensures AppendElems(out, inc[i..]) == AppendElems(if HasDuplicate(out, inc[i]) then out else out + [inc[i]], inc[i + 1..])
  {
    hide HasDuplicate;
    assert inc[i..][1..] == inc[i + 1..];
  }

  lemma AppendEnd(out: seq<Elem>, inc: seq<Elem>)
    ensures inc[0..] == inc && AppendElems(out, inc[|inc|..]) == out
  {
  }

  /** appendComplexElements: the outcome is the existing array, or a new one that shares elements
      with the two it was made of. */
  method AppendComplexElements(existing: array<Dict>, incoming: array<Dict>) returns (out: array<Dict>, added: bool)
    ensures (ElemsOf(out[..]), added) == AppendComplex(ElemsOf(existing[..]), ElemsOf(incoming[..]))
    ensures if added then fresh(out) else out == existing
  {
    hide HasDuplicate, Demoted, AppendElems, ElemsOf;
    ghost var ex, inc := ElemsOf(existing[..]), ElemsOf(incoming[..]);
    var raw, newIdx: set<nat> := existing[..], {};
    added := false;
    for i := 0 to incoming.Length
      invariant |ex| <= |raw| && added == (|ex| < |raw|)
      invariant AppendElems(ex, inc) == AppendElems(ElemsOf(raw), inc[i..])
      invariant newIdx == IndexRange(|ex|, |raw|)
    {
      AppendStep(ElemsOf(raw), inc, i);
      var duplicate := HasDuplicateElement(raw, incoming[i]);
      if !duplicate {
        newIdx := newIdx + {|raw|};
        ElemsMore(raw, incoming[i]);
        raw := raw + [incoming[i]];
        added := true;
      }
    }
    AppendEnd(ElemsOf(raw), inc);
    if !added { return existing, false; }
    out := Clone(raw);
    DemoteOthers(out, newIdx);
  }

  /** appendFunc. */
  method AppendFunc(existing: seq<Value>, incoming: seq<Value>) returns (out: seq<Value>, added: bool)
    ensures out == AppendScalars(existing, incoming) && added == (|existing| < |out|)
  {
    hide ScalarEqual;
    out, added := existing, false;
    for i := 0 to |incoming|
      invariant |existing| <= |out| && added == (|existing| < |out|)
      invariant AppendScalars(existing, incoming) == AppendScalars(out, incoming[i..])
    {
      assert incoming[i..][1..] == incoming[i + 1..];
      if !(exists j :: 0 <= j < |out| && ScalarEqual(out[j], incoming[i])) {
        out := out + [incoming[i]];
        added := true;
      }
    }
    assert incoming[|incoming|..] == [];
  }

  /** appendNew, on live values. */
  method AppendNewValues(existing: Ref, incoming: Ref) returns (out: Ref, added: bool)
    requires PlainLeaf(existing) && PlainLeaf(incoming)
    ensures (Deref(out), added) == AppendNew(Deref(existing), Deref(incoming))
    ensures !added ==> out == existing
  {
    hide AppendComplex, AppendScalars, AppendNew;
    AppendNewIs(Deref(existing), Deref(incoming));
    if existing.List? && incoming.List? {
      var list;
      list, added := AppendComplexElements(existing.l, incoming.l);
      out := List(list);
    } else if existing.Leaf? && incoming.Leaf? && existing.v.Slice? && incoming.v.Slice? && existing.v.typ == incoming.v.typ {
      var list;
      list, added := AppendFunc(existing.v.scalars, incoming.v.scalars);
      assert list[..|existing.v.scalars|] == existing.v.scalars;
      assert !added ==> list == existing.v.scalars;
      out := if added then Leaf(Slice(existing.v.typ, list)) else existing;
      assert Deref(out) == Slice(existing.v.typ, list);
    } else {
      out, added := existing, false;
    }
  }

  lemma {:induction false} AppendNewIs(existing: Value, incoming: Value)
    ensures existing.Multi? && incoming.Multi? ==>
              AppendNew(existing, incoming) == (Multi(AppendComplex(existing.elems, incoming.elems).0), AppendComplex(existing.elems, incoming.elems).1)
    ensures existing.Slice? && incoming.Slice? && existing.typ == incoming.typ ==>
              var out := AppendScalars(existing.scalars, incoming.scalars);
              AppendNew(existing, incoming) == (Slice(existing.typ, out), |existing.scalars| < |out|)
    ensures !(existing.Multi? && incoming.Multi?) && !(existing.Slice? && incoming.Slice? && existing.typ == incoming.typ) ==>
              AppendNew(existing, incoming) == (existing, false)
  {
    hide AppendComplex, AppendScalars;
  }

  // ----- Editing the selected elements -----

  /** Members of a value object are guarded in map order, so when several fail, any of their
      kinds may be the one reported. */
  predicate GuardKind(k: Kind) {
    k == InvalidValue || k == Mutability
  }

  predicate SameFailure(loose: bool, k: Kind, spec: Kind) {
    k == spec || (loose && GuardKind(k) && GuardKind(spec))
  }

  /** mergeElemKeys: the members are visited in arbitrary order, and written as they come. */
  method MergeElemKeys(lx: Lexicon, attr: Attribute, elem: Dict, obj: Elem) returns (fail: Option<Kind>)
    requires FoldedKeys(obj)
    modifies elem
    ensures var spec := MergeKeys(lx, attr, old(elem.m), obj, SortedKeys(obj.Keys));
            if spec.Ok? then fail.None? && elem.m == spec.value else fail.Some? && SameFailure(true, fail.value, spec.kind)
  {
    hide MergeKeys, Admits, Overlay, MergedSo, FoldedKeys;
    ghost var was := elem.m;
    MergeAllIff(lx, attr, was, obj);
    var todo := obj.Keys;
    MergedNone(lx, attr, was, obj);
    assert obj.Keys - todo == {};
    while todo != {}
      invariant todo <= obj.Keys && MergedSo(lx, attr, was, obj, obj.Keys - todo, elem.m)
      decreases |todo|
    {
      var k :| k in todo;
      fail := MergeMember(lx, attr, elem, was, obj, obj.Keys - todo, k);
      if fail.Some? { return; }
      assert obj.Keys - (todo - {k}) == obj.Keys - todo + {k};
      todo := todo - {k};
    }
    assert obj.Keys - todo == obj.Keys;
    MergedAll(lx, attr, was, obj, elem.m);
    fail := None;
  }

  /** The members visited so far were all admitted, and out is the element with them merged in. */
  predicate MergedSo(lx: Lexicon, attr: Attribute, elem: Elem, obj: Elem, done: set<string>, out: Elem)
    requires done <= obj.Keys
  {
    (forall k <- done :: Admits(lx, attr, elem, obj, k)) && out == elem + Overlay(attr, obj, done)
  }

  lemma MergedNone(lx: Lexicon, attr: Attribute, elem: Elem, obj: Elem)
    ensures MergedSo(lx, attr, elem, obj, {}, elem)
  {
  }

  lemma MergedAll(lx: Lexicon, attr: Attribute, elem: Elem, obj: Elem, out: Elem)
    requires MergedSo(lx, attr, elem, obj, obj.Keys, out)
    ensures (forall k <- obj.Keys :: Admits(lx, attr, elem, obj, k)) && out == elem + Overlay(attr, obj, obj.Keys)
  {
  }

  /** One member, guarded on the element as merged so far. */
  method MergeMember(lx: Lexicon, attr: Attribute, elem: Dict, ghost was: Elem, obj: Elem, ghost done: set<string>, k: string) returns (fail: Option<Kind>)
    requires FoldedKeys(obj) && k in obj && k !in done && done <= obj.Keys && MergedSo(lx, attr, was, obj, done, elem.m)
    modifies elem
    ensures if Admits(lx, attr, was, obj, k) then fail.None? && MergedSo(lx, attr, was, obj, done + {k}, elem.m)
            else fail.Some? && GuardKind(fail.value)
  {
    hide CheckElemImmutable, Overlay;
    OverlayMore(attr, was, obj, done, k);
    var sub := FindAttribute(attr.subs, k);
    if sub.Some? && sub.value.access == ReadOnly { return None; }
    if sub.Some? {
      MergedKeeps(attr, was, obj, done, k);
      AdmitsByMember(lx, attr, was, elem.m, obj, k);
      GuardKinds(lx, sub.value, elem.m, obj[k]);
      var v := CheckElemImmutable(lx, sub.value, elem.m, obj[k]);
      if v.Some? { return v; }
    }
    elem.m := elem.m[k := obj[k]];
    fail := None;
  }

  lemma MergedKeeps(attr: Attribute, elem: Elem, obj: Elem, done: set<string>, k: string)
    requires k !in done
    ensures Lookup(elem + Overlay(attr, obj, done), k) == Lookup(elem, k)
  {
  }

  lemma {:induction false} OverlayMore(attr: Attribute, elem: Elem, obj: Elem, done: set<string>, k: string)
    requires k in obj
    ensures var out := elem + Overlay(attr, obj, done);
            elem + Overlay(attr, obj, done + {k}) == if SkippedKey(attr, k) then out else out[k := obj[k]]
  {
    hide SkippedKey;
  }

  /** checkReplacedElement. */
  method CheckReplacedElement(lx: Lexicon, attr: Attribute, elem: Elem, obj: Elem) returns (v: Verdict)
    ensures v == CheckReplaced(lx, attr.subs, elem, obj)
  {
    hide CheckImmutableSub;
    for i := 0 to |attr.subs|
      invariant CheckReplaced(lx, attr.subs, elem, obj) == CheckReplaced(lx, attr.subs[i..], elem, obj)
    {
      assert attr.subs[i..][1..] == attr.subs[i + 1..];
      var sub, key := attr.subs[i], Fold(attr.subs[i].name);
      if sub.access != Immutable || key !in elem || elem[key].Nil? { continue; }
      if key !in obj { return Some(Mutability); }
      var verdict := CheckImmutableSub(lx, Some(elem[key]), sub, obj[key]);
      if verdict.Some? { return verdict; }
    }
    assert attr.subs[|attr.subs|..] == [];
    v := None;
  }

  /** What the engine does to one matched element: a copy of it is edited, or another one made. */
  method EditOne(lx: Lexicon, attr: Attribute, edit: Edit, elem: Dict) returns (r: Result<Dict>)
    requires edit.MergeIn? ==> FoldedKeys(edit.obj)
    ensures var spec := EditElem(lx, attr, edit, elem.m);
            if spec.Ok? then r.Ok? && fresh(r.value) && r.value.m == spec.value else r.Err? && SameFailure(edit.MergeIn?, r.kind, spec.kind)
  {
    hide CheckElemImmutable, MergeKeys, CheckReplaced;
    var clone;
    match edit {
      case WriteSub(sub, v) =>
        clone := CloneElement(elem);
        var verdict := CheckElemImmutable(lx, sub, clone.m, v);
        if verdict.Some? { return Err(verdict.value); }
        clone.m := clone.m[Fold(sub.name) := v];
      case MergeIn(obj) =>
        clone := CloneElement(elem);
        var fail := MergeElemKeys(lx, attr, clone, obj);
        if fail.Some? { return Err(fail.value); }
      case Substitute(obj) =>
        var verdict := CheckReplacedElement(lx, attr, elem.m, obj);
        if verdict.Some? { return Err(verdict.value); }
        clone := new Dict(obj);
      case DropSub(sub) =>
        if sub.access == Immutable && !MemberOrNil(elem.m, Fold(sub.name)).Nil? { return Err(Mutability); }
        clone := CloneElement(elem);
        clone.m := clone.m - {Fold(sub.name)};
    }
    r := Ok(clone);
  }

  /** idx lists the selected positions below n in increasing order. */
  ghost predicate Enumerates(idx: seq<nat>, selected: set<nat>, n: nat) {
    && (forall j :: 0 <= j < |idx| ==> idx[j] < n)
    && (forall j, k :: 0 <= j < k < |idx| ==> idx[j] < idx[k])
    && (forall i: nat :: i in selected <==> i in idx)
    && |selected| == |idx|
  }

  /** sel holds the positions below n whose element satisfies the filter. */
  ghost predicate Selects(lx: Lexicon, attr: Attribute, f: F.Expr, list: seq<Elem>, sel: set<nat>, n: nat)
    requires n <= |list|
  {
    && (n > 0 ==> FilterMatch.ElementValid(attr, f))
    && forall k: nat :: k in sel <==> k < n && FilterMatch.EvalElement(lx, attr, list[k], f)
  }

  lemma {:induction false} SelectsMore(lx: Lexicon, attr: Attribute, f: F.Expr, list: seq<Elem>, sel: set<nat>, n: nat)
    requires n < |list| && Selects(lx, attr, f, list, sel, n)
    ensures var ok := FilterMatch.MatchElement(lx, attr, list[n], f);
            if ok.Ok? then Selects(lx, attr, f, list, if ok.value then sel + {n} else sel, n + 1) else Matching(lx, attr, f, list) == Err(ok.kind)
  {
    hide FilterMatch.EvalElement, FilterMatch.ElementValid;
  }

  /** matchingElements, on the live list. */
  method MatchingElements(lx: Lexicon, attr: Attribute, f: F.Expr, list: array<Dict>) returns (r: Result<seq<nat>>)
    ensures var spec := Matching(lx, attr, f, ElemsOf(list[..]));
            if spec.Ok? then r.Ok? && Enumerates(r.value, spec.value, list.Length) else r == Err(spec.kind)
  {
    hide *;
    ghost var dicts := list[..];
    ghost var elems := ElemsOf(dicts);
    MatchedNone(lx, attr, f, elems);
    var idx: seq<nat> := [];
    ghost var sel: set<nat> := {};
    for i := 0 to list.Length
      invariant list[..] == dicts && ElemsOf(dicts) == elems
      invariant Enumerates(idx, sel, i) && Selects(lx, attr, f, elems, sel, i)
    {
      assert list[i].m == elems[i];
      SelectsMore(lx, attr, f, elems, sel, i);
      EnumeratesMore(idx, sel, i);
      var ok := FilterMatch.MatchElement(lx, attr, list[i].m, f);
      if ok.Err? { return Err(ok.kind); }
      if ok.value { idx, sel := idx + [i], sel + {i}; }
    }
    MatchingIs(lx, attr, f, elems, sel);
    r := Ok(idx);
  }

  lemma MatchedNone(lx: Lexicon, attr: Attribute, f: F.Expr, list: seq<Elem>)
    ensures Enumerates([], {}, 0) && Selects(lx, attr, f, list, {}, 0)
  {
  }

  lemma {:induction false} MatchingIs(lx: Lexicon, attr: Attribute, f: F.Expr, list: seq<Elem>, sel: set<nat>)
    requires Selects(lx, attr, f, list, sel, |list|)
    ensures Matching(lx, attr, f, list) == Ok(sel)
  {
    hide FilterMatch.EvalElement, FilterMatch.ElementValid;
    assert Matching(lx, attr, f, list).Ok?;
    assert sel == Matching(lx, attr, f, list).value;
  }

  lemma EnumeratesSize(idx: seq<nat>, selected: set<nat>, n: nat)
    requires Enumerates(idx, selected, n)
    ensures |selected| == |idx| && (idx == [] <==> selected == {})
  {
  }

  lemma {:induction false} EnumeratesMore(idx: seq<nat>, selected: set<nat>, n: nat)
    requires Enumerates(idx, selected, n)
    ensures Enumerates(idx + [n], selected + {n}, n + 1) && Enumerates(idx, selected, n + 1)
  {
    assert n !in selected;
  }

  function Prefixed(done: seq<Elem>, rest: Result<seq<Elem>>): Result<seq<Elem>> {
    if rest.Ok? then Ok(done + rest.value) else rest
  }

  /** Unselected elements pass through. */
  lemma {:induction false} EditsSkip(lx: Lexicon, attr: Attribute, edit: Edit, list: seq<Elem>, selected: set<nat>, lo: nat, hi: nat)
    requires lo <= hi <= |list|
    requires forall i: nat :: lo <= i < hi ==> i !in selected
    ensures EditElems(lx, attr, edit, list, selected, lo) == Prefixed(list[lo..hi], EditElems(lx, attr, edit, list, selected, hi))
    decreases hi - lo
  {
    hide EditElem, EditElems, Prefixed;
    var rest := EditElems(lx, attr, edit, list, selected, hi);
    if lo < hi {
      EditsSkip(lx, attr, edit, list, selected, lo + 1, hi);
      EditsSkipOne(lx, attr, edit, list, selected, lo);
      PrefixedTwice([list[lo]], list[lo + 1..hi], rest);
      assert [list[lo]] + list[lo + 1..hi] == list[lo..hi];
    } else {
      PrefixedNone(rest);
      assert list[lo..hi] == [];
    }
  }

  lemma {:induction false} PrefixedTwice(a: seq<Elem>, b: seq<Elem>, r: Result<seq<Elem>>)
    ensures Prefixed(a, Prefixed(b, r)) == Prefixed(a + b, r)
  {
    if r.Ok? { assert a + (b + r.value) == (a + b) + r.value; }
  }

  lemma {:induction false} EditsSkipOne(lx: Lexicon, attr: Attribute, edit: Edit, list: seq<Elem>, selected: set<nat>, i: nat)
    requires i < |list| && i !in selected
    ensures EditElems(lx, attr, edit, list, selected, i) == Prefixed([list[i]], EditElems(lx, attr, edit, list, selected, i + 1))
  {
    hide EditElem;
  }

  /** The selected positions from p on start with the j-th match. */
  lemma {:induction false} BetweenMatches(idx: seq<nat>, selected: set<nat>, n: nat, j: nat)
    requires Enumerates(idx, selected, n) && j < |idx|
    ensures var p := if j == 0 then 0 else idx[j - 1] + 1;
            p <= idx[j] < n && idx[j] in selected && forall i: nat :: p <= i < idx[j] ==> i !in selected
  {
    var p := if j == 0 then 0 else idx[j - 1] + 1;
    forall k | 0 <= k < |idx| ensures idx[k] < p || idx[j] <= idx[k] {
    }
  }

  lemma AfterMatches(idx: seq<nat>, selected: set<nat>, n: nat)
    requires Enumerates(idx, selected, n)
    ensures var p := if idx == [] then 0 else idx[|idx| - 1] + 1; forall i: nat :: p <= i ==> i !in selected
  {
  }

  /** One matched element, read off the specification. */
  lemma {:induction false} EditsStep(done: seq<Elem>, lx: Lexicon, attr: Attribute, edit: Edit, list: seq<Elem>, selected: set<nat>, p: nat, i: nat)
    requires p <= i < |list| && i in selected && forall k: nat :: p <= k < i ==> k !in selected
    ensures var (spec, r) := (Prefixed(done, EditElems(lx, attr, edit, list, selected, p)), EditElem(lx, attr, edit, list[i]));
            if r.Err? then spec == Err(r.kind)
            else spec == Prefixed(done + list[p..i] + [r.value], EditElems(lx, attr, edit, list, selected, i + 1))
  {
    hide EditElem;
    EditsSkip(lx, attr, edit, list, selected, p, i);
    var r, rest := EditElem(lx, attr, edit, list[i]), EditElems(lx, attr, edit, list, selected, i + 1);
    if r.Ok? && rest.Ok? {
      assert done + (list[p..i] + ([r.value] + rest.value)) == done + list[p..i] + [r.value] + rest.value;
    }
  }

  lemma {:induction false} EditsEnd(done: seq<Elem>, lx: Lexicon, attr: Attribute, edit: Edit, list: seq<Elem>, selected: set<nat>, p: nat)
    requires p <= |list|
    requires forall i: nat :: p <= i ==> i !in selected
    ensures Prefixed(done, EditElems(lx, attr, edit, list, selected, p)) == Ok(done + list[p..])
  {
    hide EditElem;
    EditsSkip(lx, attr, edit, list, selected, p, |list|);
    assert list[p..|list|] + [] == list[p..];
  }

  lemma {:induction false} PrefixedNone(r: Result<seq<Elem>>)
    ensures Prefixed([], r) == r
  {
    if r.Ok? { assert [] + r.value == r.value; }
  }

  /** The loop over the matched elements that writeToElements, replaceValuePath and
      removeSubFromElements share, on a copy of the live list. Each matched position gets an
      element of its own, so the list and its elements stay what they were, also when a later
      element fails. */
  method EditMatches(lx: Lexicon, attr: Attribute, edit: Edit, list: array<Dict>, matches: seq<nat>, ghost selected: set<nat>)
    returns (out: array<Dict>, fail: Option<Kind>)
    requires Enumerates(matches, selected, list.Length) && (edit.MergeIn? ==> FoldedKeys(edit.obj))
    ensures fresh(out) && out.Length == list.Length
    ensures forall i :: 0 <= i < list.Length ==> fresh(out[i]) || out[i] == list[i]
    ensures forall i: nat :: i < list.Length && i !in selected ==> out[i] == list[i]
    ensures var spec := EditElems(lx, attr, edit, ElemsOf(list[..]), selected, 0);
            if spec.Ok? then fail.None? && ElemsOf(out[..]) == spec.value else fail.Some? && SameFailure(edit.MergeIn?, fail.value, spec.kind)
  {
    hide *;
    ghost var elems := ElemsOf(list[..]);
    out := Clone(list[..]);
    ghost var spec := EditElems(lx, attr, edit, elems, selected, 0);
    PrefixedNone(spec);
    ghost var done: seq<Elem>, p: nat := [], 0;
    for j := 0 to |matches|
      invariant p == (if j == 0 then 0 else matches[j - 1] + 1) <= list.Length == out.Length
      invariant forall i: nat :: i < list.Length && (p <= i || i !in selected) ==> out[i] == list[i]
      invariant ElemsOf(list[..]) == elems && forall i :: 0 <= i < p ==> fresh(out[i]) || out[i] == list[i]
      invariant |done| == p && forall i :: 0 <= i < p ==> out[i].m == done[i]
      invariant spec == Prefixed(done, EditElems(lx, attr, edit, elems, selected, p))
    {
      var i := matches[j];
      BetweenMatches(matches, selected, list.Length, j);
      EditsStep(done, lx, attr, edit, elems, selected, p, i);
      var r := EditOne(lx, attr, edit, out[i]);
      if r.Err? { return out, Some(r.kind); }
      out[i] := r.value;
      done, p := done + elems[p..i] + [r.value.m], i + 1;
    }
    AfterMatches(matches, selected, list.Length);
    EditsEnd(done, lx, attr, edit, elems, selected, p);
    EditedShows(out, done, elems, p);
    fail := None;
  }

  lemma EditedShows(out: array<Dict>, done: seq<Elem>, rest: seq<Elem>, p: nat)
    requires p <= |rest| == out.Length && |done| == p
    requires forall i :: 0 <= i < p ==> out[i].m == done[i]
    requires forall i :: p <= i < |rest| ==> out[i].m == rest[i]
    ensures ElemsOf(out[..]) == done + rest[p..]
  {
  }

  /** The new list of writeToElements and replaceValuePath, read off when Set takes it. */
  method EditAndDemote(lx: Lexicon, attr: Attribute, edit: Edit, list: array<Dict>, matches: seq<nat>, ghost selected: set<nat>) returns (r: Result<seq<Elem>>)
    requires Enumerates(matches, selected, list.Length) && (edit.MergeIn? ==> FoldedKeys(edit.obj))
    ensures var spec := EditElems(lx, attr, edit, ElemsOf(list[..]), selected, 0);
            if spec.Ok? then r == Ok(Demoted(spec.value, selected)) else r.Err? && SameFailure(edit.MergeIn?, r.kind, spec.kind)
  {
    hide EditElems, Demoted, ElemsOf;
    var out, failed := EditMatches(lx, attr, edit, list, matches, selected);
    if failed.Some? { return Err(failed.value); }
    var keep := set i <- matches;
    assert keep == selected;
    DemoteOthers(out, keep);
    r := Ok(ElemsOf(out[..]));
  }

  /** collectEqClauses: fills the map it is handed on the way down the conjunction. */
  method CollectEqClauses(e: F.Expr, out: Dict) returns (ok: bool)
    modifies out
    ensures var spec := CollectEq(e, old(out.m)); if spec.Some? then ok && out.m == spec.value else !ok
  {
    match e {
      case Compare(p, op, v) =>
        if !op.Eq? || p.urn != "" || p.sub != "" || p.filter.Some? { return false; }
        var key := Fold(p.attr);
        if key in out.m && out.m[key] != LiteralValue(v) { return false; }
        if !v.Null? { out.m := out.m[key := LiteralValue(v)]; }
        ok := true;
      case And(l, r) =>
        ok := CollectEqClauses(l, out);
        if ok { ok := CollectEqClauses(r, out); }
      case _ =>
        ok := false;
    }
  }

  // ----- The applier -----

  /** Only merging an object into matched elements leaves the kind of failure open. */
  predicate Loose(op: Op) {
    op.kind.Add? && op.path.Some? && op.path.value.filter.Some? && op.value.Obj?
  }

  /** The members of the object such an operation merges are keyed by folded name. */
  predicate KeyedFolded(op: Op) {
    Loose(op) ==> FoldedKeys(op.value.members)
  }

  /** Only a merging add leaves the kind of failure open, and its object is keyed by folded name. */
  lemma {:induction false} EditFolded(op: Op, p: F.Path, sub: Option<Attribute>)
    requires KeyedFolded(op) && op.path == Some(p) && p.filter.Some?
    ensures var edit := if op.kind.Add? then WriteEdit(op, sub) else ReplaceEdit(op, sub);
            edit.Ok? && edit.value.MergeIn? ==> Loose(op) && FoldedKeys(edit.value.obj)
  {
    hide FoldedKeys;
  }

  /** What a Get result stands for now; a container is not a value valuesEqual can compare. */
  function Current(got: Got): Value
    reads if got.Held? && got.ref.List? then {got.ref.l} else {}, if got.Held? && got.ref.List? then got.ref.l[..] else []
    reads if got.Held? && got.ref.Single? then {got.ref.d} else {}
  {
    if got.Held? then Deref(got.ref) else Nil
  }

  lemma ObjUnequal()
    ensures forall m: Elem, v: Value :: !ValuesEqual(Obj(m), v) && !ValuesEqual(v, Obj(m))
  {
  }

  /** The raw element synthesis starts from: the filter's literals, overridden by the value. */
  function SeededElem(op: Op, f: F.Expr, sub: Option<Attribute>): Result<Elem> {
    var seed := CollectEq(f, map[]);
    if seed.None? then Err(NoTarget)
    else if sub.None? && !op.value.Obj? then Err(InvalidValue)
    else Ok(if sub.Some? then seed.value[Fold(sub.value.name) := op.value] else seed.value + op.value.members)
  }

  lemma {:induction false} SynthesizeTail(env: Env, w: Work, op: Op, p: F.Path, sub: Option<Attribute>)
    requires p.filter.Some?
    ensures var elem := SeededElem(op, p.filter.value, sub);
            Synthesize(env, w, op, p, sub) ==
            if elem.Err? then Err(elem.kind)
            else
              var out := Elements(env, w.doc, p) + [elem.value];
              PatchSpec.SetTracked(env, w, AttrPathText(p), Multi(Demoted(out, {|out| - 1})))
  {
    hide CollectEq, Elements, Demoted, PatchSpec.SetTracked, AttrPathText;
  }

  /** seedFromFilter and the merge of the operation's value on top. */
  method SeedElement(op: Op, f: F.Expr, sub: Option<Attribute>) returns (r: Result<Dict>)
    ensures var spec := SeededElem(op, f, sub);
            if spec.Ok? then r.Ok? && fresh(r.value) && r.value.m == spec.value else r == Err(spec.kind)
  {
    hide CollectEq;
    var seed := new Dict(map[]);
    var ok := CollectEqClauses(f, seed);
    if !ok { return Err(NoTarget); }
    if sub.None? && !op.value.Obj? { return Err(InvalidValue); }
    seed.m := if sub.Some? then seed.m[Fold(sub.value.name) := op.value] else seed.m + op.value.members;
    r := Ok(seed);
  }

  lemma {:induction false} ExtensionStep(env: Env, w: Work, kind: OpKind, urn: string, ext: seq<Attribute>, obj: Elem, keys: seq<string>, i: nat)
    requires i < |keys| && forall k <- keys :: k in obj
    ensures var attr := FindAttribute(ext, keys[i]);
            var w1 := if attr.None? then Ok(w) else PathlessAttr(env, w, kind, urn + ":" + keys[i], attr.value, obj[keys[i]]);
            PathlessExtension(env, w, kind, urn, ext, obj, keys[i..]) ==
            if w1.Err? then w1 else PathlessExtension(env, w1.value, kind, urn, ext, obj, keys[i + 1..])
  {
    hide PathlessAttr;
    assert keys[i..][1..] == keys[i + 1..];
  }

  lemma ExtensionEnd(env: Env, w: Work, kind: OpKind, urn: string, ext: seq<Attribute>, obj: Elem, keys: seq<string>)
    requires forall k <- keys :: k in obj
    ensures PathlessExtension(env, w, kind, urn, ext, obj, keys[|keys|..]) == Ok(w)
  {
  }

  lemma {:induction false} KeysStep(env: Env, w: Work, kind: OpKind, obj: Elem, keys: seq<string>, i: nat)
    requires i < |keys| && forall k <- keys :: k in obj
    ensures var w1 := PathlessKey(env, w, kind, keys[i], obj[keys[i]]);
            PathlessKeys(env, w, kind, obj, keys[i..]) == if w1.Err? then w1 else PathlessKeys(env, w1.value, kind, obj, keys[i + 1..])
  {
    hide PathlessKey;
    assert keys[i..][1..] == keys[i + 1..];
  }

  lemma KeysEnd(env: Env, w: Work, kind: OpKind, obj: Elem, keys: seq<string>)
    requires forall k <- keys :: k in obj
    ensures PathlessKeys(env, w, kind, obj, keys[|keys|..]) == Ok(w)
  {
  }

  predicate SomeLoose(ops: seq<Op>) {
    exists op <- ops :: Loose(op)
  }

  /** setTracked in terms of what Set makes of the document. */
  lemma TrackedIs(env: Env, w: Work, path: string, v: Value)
    ensures var d := Set(env.lx, env.rt, w.doc, path, v);
            PatchSpec.SetTracked(env, w, path, v) ==
            if d.Err? then Err(d.kind) else Ok(Work(d.value, w.changed || !ValuesEqual(GetOrNil(env.rt, w.doc, path), GetOrNil(env.rt, d.value, path))))
  {
    hide Set, GetOrNil, ValuesEqual;
  }

  /** What removeValuePath makes of the selected elements. */
  function RemovalOf(env: Env, w: Work, p: F.Path, attr: Attribute, sub: Option<Attribute>, list: seq<Elem>, selected: set<nat>): Result<Work> {
    if sub.Some? then
      var out :- EditElems(env.lx, attr, DropSub(sub.value), list, selected, 0);
      PatchSpec.SetTracked(env, w, AttrPathText(p), Multi(out))
    else if attr.required && |selected| == |list| then Err(Mutability)
    else PatchSpec.SetTracked(env, w, AttrPathText(p), Arr(Boxed(Survivors(list, selected, 0))))
  }

  lemma RemovalTail(env: Env, w: Work, p: F.Path, attr: Attribute, sub: Option<Attribute>, selected: set<nat>)
    requires p.filter.Some? && attr.multi && attr.typ == TComplex && ListAt(env, w.doc, p).Some?
    requires Matching(env.lx, attr, p.filter.value, ListAt(env, w.doc, p).value) == Ok(selected)
    ensures PatchSpec.ValuePathRemove(env, w, p, attr, sub) ==
            if selected == {} then Ok(w) else RemovalOf(env, w, p, attr, sub, ListAt(env, w.doc, p).value, selected)
  {
    hide EditElems, Survivors, Boxed, PatchSpec.SetTracked, AttrPathText, Matching;
  }

  /** The tail of applyValuePathWrite: the selected elements are edited. */
  ghost function EditOf(env: Env, w: Work, op: Op, p: F.Path, attr: Attribute, sub: Option<Attribute>, selected: set<nat>): Result<Work> {
    var edit :- if op.kind.Add? then WriteEdit(op, sub) else ReplaceEdit(op, sub);
    PatchSpec.WriteElements(env, w, p, attr, edit, selected)
  }

  /** What applyValuePathWrite does, by what the filter selects. */
  lemma {:induction false} SelectedTail(env: Env, w: Work, op: Op, p: F.Path, attr: Attribute, sub: Option<Attribute>)
    requires p.filter.Some?
    ensures var (matched, written) := (Matching(env.lx, attr, p.filter.value, Elements(env, w.doc, p)), PatchSpec.ValuePathWrite(env, w, op, p, attr, sub));
            if !attr.multi || attr.typ != TComplex then written == Err(InvalidPath)
            else if matched.Err? then written == Err(matched.kind)
            else if matched.value == {} then
              written == if (if op.kind.Add? then env.profile.synthesizeAddValuePath else env.profile.replaceNoTargetAsAdd) then PatchSpec.Synthesize(env, w, op, p, sub) else Err(NoTarget)
            else written == EditOf(env, w, op, p, attr, sub, matched.value)
  {
    hide PatchSpec.Synthesize, PatchSpec.WriteElements, Matching, Elements, WriteEdit, ReplaceEdit;
  }

  class Applier {
    const env: Env
    const res: Resource
    var changed: bool

    ghost predicate Valid()
      reads this, res, res.attrs, res.Repr(), res.Shared()
    {
      res.Valid() && res.rt == env.rt && this !in res.Repr() && this !in res.Shared()
    }

    /** The working copy's value and the flag. */
    ghost function Now(): Work
      requires Valid()
      reads this, res, res.attrs, res.Repr(), res.Shared()
    {
      Work(res.View(), changed)
    }

    /** The step did what the specification says, or failed like it. */
    ghost predicate Did(fail: Option<Kind>, spec: Result<Work>, loose: bool)
      requires Valid()
      reads this, res, res.attrs, res.Repr(), res.Shared()
    {
      if spec.Ok? then fail.None? && Now() == spec.value else fail.Some? && SameFailure(loose, fail.value, spec.kind)
    }

    constructor (env: Env, res: Resource)
      requires res.Valid() && res.rt == env.rt
      ensures this.env == env && this.res == res && Valid() && Now() == Work(res.View(), false)
    {
      this.env, this.res, changed := env, res, false;
    }

    /** Get, with what the reference shows now. */
    method Look(path: string) returns (got: Got)
      requires Valid()
      ensures if got.Extension? then GetOrNil(env.rt, res.View(), path).Obj? else Current(got) == GetOrNil(env.rt, res.View(), path)
      ensures got.Held? && got.ref.Single? ==>
                fresh(got.ref.d) || (got.ref.d in res.Repr() && ResolvePath(env.rt, path).Ok? && ResolvePath(env.rt, path).value.sub.None?)
      ensures got.Held? && got.ref.List? ==> Foreign(got.ref, res.Repr())
    {
      hide ResolvePath, Get, Container.View, Container.Valid, Family, Resource.View;
      got := res.Get(path);
    }

    /** Set under a reference Get returned for the same path: the reference shows what it did,
        because Set replaces a whole attribute and a list instead of editing it. */
    method SetUnder(path: string, v: Value, before: Got) returns (fail: Option<Kind>)
      requires Valid()
      requires before.Held? && before.ref.Single? ==>
                 before.ref.d !in res.Repr() || (ResolvePath(env.rt, path).Ok? && ResolvePath(env.rt, path).value.sub.None?)
      requires before.Held? && before.ref.List? ==> Foreign(before.ref, res.Repr())
      modifies res.Repr()
      ensures Valid() && fresh(res.Repr() - old(res.Repr())) && fresh(res.Shared() - old(res.Shared())) && changed == old(changed)
      ensures var spec := Set(env.lx, env.rt, old(res.View()), path, v);
              if spec.Ok? then fail.None? && res.View() == spec.value else fail == Some(spec.kind)
      ensures Current(before) == old(Current(before))
    {
      hide ResolvePath, Set, Container.View, Container.Valid, Family, Resource.View, Resource.Valid;
      fail := res.Set(env.lx, path, v);
    }

    /** setTracked. What Get returned before the write is a reference, read again only after it. */
    method SetTracked(path: string, v: Value) returns (fail: Option<Kind>)
      requires Valid()
      modifies this`changed, res.Repr()
      ensures Valid() && fresh(res.Repr() - old(res.Repr())) && fresh(res.Shared() - old(res.Shared()))
      ensures Did(fail, PatchSpec.SetTracked(env, old(Now()), path, v), false)
    {
      hide ResolvePath, GetOrNil, Set, ValuesEqual, Current, PatchSpec.SetTracked, Foreign, Container.View, Container.Valid, Family, Resource.View, Resource.Valid;
      ghost var was := GetOrNil(env.rt, res.View(), path);
      TrackedIs(env, Now(), path, v);
      var before := Look(path);
      fail := SetUnder(path, v, before);
      if fail.None? { NoteChange(path, before, was); }
    }

    /** The second half of setTracked: the comparison of before and after. */
    method NoteChange(path: string, before: Got, ghost was: Value)
      requires Valid() && if before.Extension? then was.Obj? else Current(before) == was
      modifies this`changed
      ensures Valid() && changed == (old(changed) || !ValuesEqual(was, GetOrNil(env.rt, res.View(), path)))
    {
      hide ResolvePath, GetOrNil, ValuesEqual, Container.View, Container.Valid, Family, Resource.View, Resource.Valid;
      var after := Look(path);
      ObjUnequal();
      var same := !before.Extension? && !after.Extension? && ValuesEqual(Current(before), Current(after));
      if !same { changed := true; }
    }

    // ----- Whole attributes -----

    /** What addMulti is about to write: the incoming elements, or the held ones with what is new. */
    method Appended(path: string, incoming: Value) returns (out: Option<Value>)
      requires Valid()
      ensures out == (var existing := Get(env.rt, res.View(), path);
                      if existing.None? then Some(incoming)
                      else var (merged, added) := AppendNew(existing.value, incoming); if added then Some(merged) else None)
    {
      hide Get, AppendNew, Deref, Foreign, Container.View, Container.Valid, Family, Resource.View, Resource.Valid;
      var existing := res.Find(path);
      if existing.None? { return Some(incoming); }
      var elements := Container.Wrap(incoming);
      var merged, added := AppendNewValues(existing.value, elements);
      out := if added then Some(Deref(merged)) else None;
    }

    /** addMulti. */
    method AddMulti(path: string, attr: Attribute, v: Value) returns (fail: Option<Kind>)
      requires Valid()
      modifies this`changed, res.Repr()
      ensures Valid() && fresh(res.Repr() - old(res.Repr())) && fresh(res.Shared() - old(res.Shared()))
      ensures Did(fail, PatchSpec.AddMulti(env, old(Now()), path, attr, v), false)
    {
      hide Coerce, Get, Wrapped, AppendNew, PatchSpec.SetTracked, Resource.View, Resource.Valid;
      var incoming := Coerce(env.lx, attr, Wrapped(v));
      if incoming.Err? { return Some(incoming.kind); }
      if incoming.value.Nil? { return None; }
      var next := Appended(path, incoming.value);
      if next.None? { return None; }
      fail := SetTracked(path, next.value);
    }

    /** What mergeComplex is about to write: the incoming value, over a copy of the one held. */
    method Merged(path: string, incoming: Value) returns (out: Value)
      requires Valid()
      ensures var existing := GetOrNil(env.rt, res.View(), path);
              out == if incoming.Cplx? && existing.Cplx? then Cplx(existing.elem + incoming.elem) else incoming
    {
      hide Get, Foreign, Container.View, Container.Valid, Family, Resource.View, Resource.Valid;
      var existing := res.Find(path);
      if !incoming.Cplx? || existing.None? || !existing.value.Single? { return incoming; }
      var merged := CloneElement(existing.value.d);
      merged.m := merged.m + incoming.elem;
      out := Cplx(merged.m);
    }

    /** mergeComplex. */
    method MergeComplex(path: string, attr: Attribute, v: Value) returns (fail: Option<Kind>)
      requires Valid()
      modifies this`changed, res.Repr()
      ensures Valid() && fresh(res.Repr() - old(res.Repr())) && fresh(res.Shared() - old(res.Shared()))
      ensures Did(fail, PatchSpec.MergeComplex(env, old(Now()), path, attr, v), false)
    {
      hide Coerce, GetOrNil, PatchSpec.SetTracked, Resource.View, Resource.Valid;
      var incoming := Coerce(env.lx, attr, v);
      if incoming.Err? { return Some(incoming.kind); }
      if incoming.value.Nil? { return None; }
      var next := Merged(path, incoming.value);
      fail := SetTracked(path, next);
    }

    /** addToAttribute. */
    method AddToAttribute(path: string, attr: Attribute, v: Value) returns (fail: Option<Kind>)
      requires Valid()
      modifies this`changed, res.Repr()
      ensures Valid() && fresh(res.Repr() - old(res.Repr())) && fresh(res.Shared() - old(res.Shared()))
      ensures Did(fail, PatchSpec.AddToAttribute(env, old(Now()), path, attr, v), false)
    {
      hide PatchSpec.SetTracked, PatchSpec.AddMulti, PatchSpec.MergeComplex, Resource.View, Resource.Valid;
      if attr.multi {
        fail := AddMulti(path, attr, v);
      } else if attr.typ == TComplex {
        fail := MergeComplex(path, attr, v);
      } else {
        fail := SetTracked(path, v);
      }
    }

    /** replaceAttribute. */
    method ReplaceAttribute(path: string, attr: Attribute, v: Value) returns (fail: Option<Kind>)
      requires Valid()
      modifies this`changed, res.Repr()
      ensures Valid() && fresh(res.Repr() - old(res.Repr())) && fresh(res.Shared() - old(res.Shared()))
      ensures Did(fail, PatchSpec.ReplaceAttribute(env, old(Now()), path, attr, v), false)
    {
      hide Coerce, Wrapped, PatchSpec.SetTracked, PatchSpec.MergeComplex, Resource.View, Resource.Valid;
      if attr.multi {
        var incoming := Coerce(env.lx, attr, Wrapped(v));
        if incoming.Err? { return Some(incoming.kind); }
        fail := SetTracked(path, incoming.value);
      } else if attr.typ == TComplex {
        fail := MergeComplex(path, attr, v);
      } else {
        fail := SetTracked(path, v);
      }
    }

    // ----- Guards -----

    /** checkImmutableAttr. */
    method CheckImmutableAttr(path: string, attr: Attribute, kind: OpKind, raw: Value) returns (v: Verdict)
      requires Valid()
      ensures v == PatchRules.CheckImmutableAttr(env.lx, Get(env.rt, res.View(), path), attr, kind, raw)
    {
      hide Get, Coerce, WouldChange, Resource.View, Resource.Valid;
      var existing := res.Find(path);
      if existing.None? { return None; }
      if kind.Remove? { return Some(Mutability); }
      var incoming := Coerce(env.lx, attr, raw);
      if incoming.Err? { return Some(incoming.kind); }
      var changes := Changes(attr, kind, existing.value, incoming.value);
      v := if changes then Some(Mutability) else None;
    }

    /** checkImmutablePathed. */
    method CheckImmutablePathed(op: Op, p: F.Path, attr: Attribute, sub: Option<Attribute>) returns (v: Verdict)
      requires Valid()
      ensures v == PatchSpec.CheckImmutablePathed(env, res.View(), op, p, attr, sub)
    {
      hide Get, PatchRules.CheckImmutableAttr, AttrPathText, Resource.View, Resource.Valid;
      if attr.access != Immutable { return None; }
      if sub.None? && p.filter.None? {
        v := CheckImmutableAttr(AttrPathText(p), attr, op.kind, op.value);
      } else {
        var existing := res.Fetch(AttrPathText(p));
        v := if existing.Some? then Some(Mutability) else None;
      }
    }

    /** checkImmutableSubPath. */
    method CheckImmutableSubPath(op: Op, p: F.Path, sub: Option<Attribute>) returns (v: Verdict)
      requires Valid()
      ensures v == PatchSpec.CheckImmutableSubPath(env, res.View(), op, p, sub)
    {
      hide Get, Coerce, ValuesEqual, SubPathText, Resource.View, Resource.Valid;
      if sub.None? || sub.value.access != Immutable || p.filter.Some? { return None; }
      var existing := res.Fetch(SubPathText(p));
      if existing.None? { return None; }
      if op.kind.Remove? { return Some(Mutability); }
      var incoming := Coerce(env.lx, sub.value, op.value);
      if incoming.Err? { return Some(incoming.kind); }
      v := if !ValuesEqual(existing.value, incoming.value) then Some(Mutability) else None;
    }

    /** resolveOpTarget, checkMutable included. */
    method ResolveOpTarget(op: Op, p: F.Path) returns (t: Result<(Attribute, Option<Attribute>)>)
      requires Valid()
      ensures t == OpTarget(env, res.View(), op, p)
    {
      hide ResolveTarget, PatchSpec.CheckImmutablePathed, PatchSpec.CheckImmutableSubPath, Resource.View, Resource.Valid;
      var found := ResolveTarget(env.rt, p);
      if found.None? { return Err(InvalidPath); }
      var (attr, sub) := found.value;
      if attr.multi && sub.Some? && p.filter.None? { return Err(InvalidPath); }
      if attr.access == ReadOnly || (sub.Some? && sub.value.access == ReadOnly) { return Err(Mutability); }
      var verdict := CheckImmutablePathed(op, p, attr, sub);
      if verdict.Some? { return Err(verdict.value); }
      verdict := CheckImmutableSubPath(op, p, sub);
      if verdict.Some? { return Err(verdict.value); }
      if op.kind.Remove? && attr.required && sub.None? && p.filter.None? { return Err(Mutability); }
      t := Ok((attr, sub));
    }

    /** getList: the live list. */
    method GetList(p: F.Path) returns (list: Option<array<Dict>>)
      requires Valid()
      ensures ListAt(env, res.View(), p) == if list.Some? then Some(ElemsOf(list.value[..])) else None
    {
      hide Get, AttrPathText, Resource.View, Resource.Valid;
      var v := res.Find(AttrPathText(p));
      list := if v.Some? && v.value.List? then Some(v.value.l) else None;
    }

    /** The live list, or an empty one when the attribute is unassigned. */
    method GetElements(p: F.Path) returns (list: array<Dict>)
      requires Valid()
      ensures Valid() && Now() == old(Now()) && ElemsOf(list[..]) == Elements(env, res.View(), p)
    {
      hide ListAt, Resource.View, Resource.Valid;
      var held := GetList(p);
      if held.Some? { return held.value; }
      list := new Dict[0];
    }

    // ----- Elements selected by a value filter -----

    /** What synthesizeElement is about to write. */
    method Synthesized(op: Op, p: F.Path, sub: Option<Attribute>) returns (r: Result<seq<Elem>>)
      requires Valid() && p.filter.Some?
      ensures var elem := SeededElem(op, p.filter.value, sub);
              if elem.Err? then r == Err(elem.kind)
              else var all := Elements(env, res.View(), p) + [elem.value]; r == Ok(Demoted(all, {|all| - 1}))
    {
      hide ListAt, Elements, Demoted, SeededElem, ElemsOf, AttrPathText, Resource.View, Resource.Valid;
      var elem := SeedElement(op, p.filter.value, sub);
      if elem.Err? { return Err(elem.kind); }
      var list := GetElements(p);
      var out := WithElement(list, elem.value);
      r := Ok(out);
    }

    /** synthesizeElement. */
    method SynthesizeElement(op: Op, p: F.Path, sub: Option<Attribute>) returns (fail: Option<Kind>)
      requires Valid() && p.filter.Some?
      modifies this`changed, res.Repr()
      ensures Valid() && fresh(res.Repr() - old(res.Repr())) && fresh(res.Shared() - old(res.Shared()))
      ensures Did(fail, PatchSpec.Synthesize(env, old(Now()), op, p, sub), false)
    {
      hide Elements, Demoted, SeededElem, PatchSpec.SetTracked, PatchSpec.Synthesize, AttrPathText, Resource.View, Resource.Valid;
      SynthesizeTail(env, Now(), op, p, sub);
      var out := Synthesized(op, p, sub);
      if out.Err? { return Some(out.kind); }
      fail := SetTracked(AttrPathText(p), Multi(out.value));
    }

    /** writeToElements and the tail of replaceValuePath. */
    method WriteElements(p: F.Path, attr: Attribute, edit: Edit, list: array<Dict>, matches: seq<nat>, ghost selected: set<nat>) returns (fail: Option<Kind>)
      requires Valid() && ElemsOf(list[..]) == Elements(env, res.View(), p) && Enumerates(matches, selected, list.Length)
      requires edit.MergeIn? ==> FoldedKeys(edit.obj)
      modifies this`changed, res.Repr()
      ensures Valid() && fresh(res.Repr() - old(res.Repr())) && fresh(res.Shared() - old(res.Shared()))
      ensures Did(fail, PatchSpec.WriteElements(env, old(Now()), p, attr, edit, selected), edit.MergeIn?)
    {
      hide EditElems, Elements, Demoted, ElemsOf, PatchSpec.SetTracked, AttrPathText, Resource.View, Resource.Valid;
      var out := EditAndDemote(env.lx, attr, edit, list, matches, selected);
      if out.Err? { return Some(out.kind); }
      fail := SetTracked(AttrPathText(p), Multi(out.value));
    }

    /** The live list and the positions the filter selects in it. */
    method Selection(p: F.Path, attr: Attribute) returns (list: array<Dict>, r: Result<seq<nat>>, ghost selected: set<nat>)
      requires Valid() && p.filter.Some?
      ensures Valid() && Now() == old(Now()) && ElemsOf(list[..]) == Elements(env, res.View(), p)
      ensures var spec := Matching(env.lx, attr, p.filter.value, Elements(env, Now().doc, p));
              if spec.Err? then r == Err(spec.kind)
              else r.Ok? && selected == spec.value && Enumerates(r.value, selected, list.Length) && (r.value == [] <==> selected == {})
    {
      hide Matching, Elements, ElemsOf, Enumerates, Resource.View, Resource.Valid;
      list := GetElements(p);
      r := MatchingElements(env.lx, attr, p.filter.value, list);
      selected := {};
      if r.Ok? {
        selected := Matching(env.lx, attr, p.filter.value, ElemsOf(list[..])).value;
        EnumeratesSize(r.value, selected, list.Length);
      }
    }

    /** addValuePath and replaceValuePath. */
    method WriteValuePath(op: Op, p: F.Path, attr: Attribute, sub: Option<Attribute>) returns (fail: Option<Kind>)
      requires Valid() && op.path == Some(p) && p.filter.Some? && KeyedFolded(op) && (op.kind.Add? || op.kind.Replace?)
      modifies this`changed, res.Repr()
      ensures Valid() && fresh(res.Repr() - old(res.Repr())) && fresh(res.Shared() - old(res.Shared()))
      ensures Did(fail, PatchSpec.ValuePathWrite(env, old(Now()), op, p, attr, sub), Loose(op))
    {
      hide Matching, ListAt, Elements, ElemsOf, Enumerates, FoldedKeys, KeyedFolded, EditOf, PatchSpec.ValuePathWrite, PatchSpec.Synthesize, PatchSpec.SetTracked, AttrPathText,
        Resource.View, Resource.Valid;
      SelectedTail(env, Now(), op, p, attr, sub);
      if !attr.multi || attr.typ != TComplex { return Some(InvalidPath); }
      var list, matches, selected := Selection(p, attr);
      if matches.Err? { return Some(matches.kind); }
      if matches.value == [] {
        if !(if op.kind.Add? then env.profile.synthesizeAddValuePath else env.profile.replaceNoTargetAsAdd) { return Some(NoTarget); }
        fail := SynthesizeElement(op, p, sub);
        return;
      }
      fail := WriteSelected(op, p, attr, sub, list, matches.value, selected);
    }

    /** applyValuePathWrite once the filter has selected elements. */
    method WriteSelected(op: Op, p: F.Path, attr: Attribute, sub: Option<Attribute>, list: array<Dict>, matches: seq<nat>, ghost selected: set<nat>)
      returns (fail: Option<Kind>)
      requires Valid() && op.path == Some(p) && p.filter.Some? && KeyedFolded(op) && (op.kind.Add? || op.kind.Replace?)
      requires ElemsOf(list[..]) == Elements(env, res.View(), p) && Enumerates(matches, selected, list.Length)
      modifies this`changed, res.Repr()
      ensures Valid() && fresh(res.Repr() - old(res.Repr())) && fresh(res.Shared() - old(res.Shared()))
      ensures Did(fail, EditOf(env, old(Now()), op, p, attr, sub, selected), Loose(op))
    {
      hide Elements, ElemsOf, Enumerates, FoldedKeys, KeyedFolded, WriteEdit, ReplaceEdit, PatchSpec.WriteElements, Resource.View, Resource.Valid;
      EditFolded(op, p, sub);
      var edit := if op.kind.Add? then WriteEdit(op, sub) else ReplaceEdit(op, sub);
      if edit.Err? { return Some(edit.kind); }
      fail := WriteElements(p, attr, edit.value, list, matches, selected);
    }

    /** removeValuePath. */
    method RemoveValuePath(op: Op, p: F.Path, attr: Attribute, sub: Option<Attribute>) returns (fail: Option<Kind>)
      requires Valid() && p.filter.Some?
      modifies this`changed, res.Repr()
      ensures Valid() && fresh(res.Repr() - old(res.Repr())) && fresh(res.Shared() - old(res.Shared()))
      ensures Did(fail, PatchSpec.ValuePathRemove(env, old(Now()), p, attr, sub), false)
    {
      hide Matching, ListAt, EditElems, Survivors, Boxed, ElemsOf, Enumerates, PatchSpec.SetTracked, AttrPathText, Resource.View, Resource.Valid;
      if !attr.multi || attr.typ != TComplex { return Some(InvalidPath); }
      var held := GetList(p);
      if held.None? { return None; }
      var list := held.value;
      ghost var elems := ElemsOf(list[..]);
      var matches := MatchingElements(env.lx, attr, p.filter.value, list);
      if matches.Err? { return Some(matches.kind); }
      ghost var selected := Matching(env.lx, attr, p.filter.value, elems).value;
      EnumeratesSize(matches.value, selected, list.Length);
      RemovalTail(env, Now(), p, attr, sub, selected);
      if matches.value == [] { return None; }
      fail := RemoveSelected(p, attr, sub, list, elems, matches.value, selected);
    }

    /** removeValuePath once the filter has selected elements. */
    method RemoveSelected(p: F.Path, attr: Attribute, sub: Option<Attribute>, list: array<Dict>, ghost elems: seq<Elem>, matches: seq<nat>,
        ghost selected: set<nat>) returns (fail: Option<Kind>)
      requires Valid() && Enumerates(matches, selected, list.Length) && ElemsOf(list[..]) == elems
      modifies this`changed, res.Repr()
      ensures Valid() && fresh(res.Repr() - old(res.Repr())) && fresh(res.Shared() - old(res.Shared()))
      ensures Did(fail, RemovalOf(env, old(Now()), p, attr, sub, elems, selected), false)
    {
      hide EditElems, Survivors, Boxed, ElemsOf, Enumerates, PatchSpec.SetTracked, AttrPathText, Resource.View, Resource.Valid;
      EnumeratesSize(matches, selected, list.Length);
      if sub.Some? {
        fail := RemoveSubFromElements(p, attr, sub.value, list, elems, matches, selected);
      } else if attr.required && |matches| == list.Length {
        fail := Some(Mutability);
      } else {
        fail := RemoveElements(p, list, elems, matches, selected);
      }
    }

    /** The tail of removeValuePath. */
    method RemoveElements(p: F.Path, list: array<Dict>, ghost elems: seq<Elem>, matches: seq<nat>, ghost selected: set<nat>) returns (fail: Option<Kind>)
      requires Valid() && Enumerates(matches, selected, list.Length) && ElemsOf(list[..]) == elems
      modifies this`changed, res.Repr()
      ensures Valid() && fresh(res.Repr() - old(res.Repr())) && fresh(res.Shared() - old(res.Shared()))
      ensures Did(fail, PatchSpec.SetTracked(env, old(Now()), AttrPathText(p), Arr(Boxed(Survivors(elems, selected, 0)))), false)
    {
      hide Survivors, Boxed, ElemsOf, Enumerates, Did, Now, PatchSpec.SetTracked, AttrPathText, Resource.View, Resource.Valid;
      var survivors := KeepSurvivors(list, matches, selected);
      fail := SetTracked(AttrPathText(p), Arr(Boxed(ElemsOf(survivors))));
    }

    /** removeSubFromElements. */
    method RemoveSubFromElements(p: F.Path, attr: Attribute, sub: Attribute, list: array<Dict>, ghost elems: seq<Elem>, matches: seq<nat>, ghost selected: set<nat>)
      returns (fail: Option<Kind>)
      requires Valid() && Enumerates(matches, selected, list.Length) && ElemsOf(list[..]) == elems
      modifies this`changed, res.Repr()
      ensures Valid() && fresh(res.Repr() - old(res.Repr())) && fresh(res.Shared() - old(res.Shared()))
      ensures var out := EditElems(env.lx, attr, DropSub(sub), elems, selected, 0);
              Did(fail, if out.Ok? then PatchSpec.SetTracked(env, old(Now()), AttrPathText(p), Multi(out.value)) else Err(out.kind), false)
    {
      hide EditElems, ElemsOf, Enumerates, PatchSpec.SetTracked, AttrPathText, Resource.View, Resource.Valid;
      var out, failed := EditMatches(env.lx, attr, DropSub(sub), list, matches, selected);
      if failed.Some? { return failed; }
      fail := SetTracked(AttrPathText(p), Multi(ElemsOf(out[..])));
    }

    // ----- Pathless -----

    /** applyPathlessAttr. */
    method ApplyPathlessAttr(kind: OpKind, path: string, attr: Attribute, v: Value) returns (fail: Option<Kind>)
      requires Valid()
      modifies this`changed, res.Repr()
      ensures Valid() && fresh(res.Repr() - old(res.Repr())) && fresh(res.Shared() - old(res.Shared()))
      ensures Did(fail, PathlessAttr(env, old(Now()), kind, path, attr, v), false)
    {
      hide Get, PatchRules.CheckImmutableAttr, PatchSpec.ReplaceAttribute, PatchSpec.AddToAttribute, Resource.View, Resource.Valid;
      if attr.access == ReadOnly { return None; }
      if attr.access == Immutable {
        var verdict := CheckImmutableAttr(path, attr, kind, v);
        if verdict.Some? { return verdict; }
      }
      if kind.Replace? {
        fail := ReplaceAttribute(path, attr, v);
      } else {
        fail := AddToAttribute(path, attr, v);
      }
    }

    /** applyPathlessExtension. */
    method ApplyPathlessExtension(kind: OpKind, urn: string, ext: seq<Attribute>, v: Value) returns (fail: Option<Kind>)
      requires Valid()
      modifies this`changed, res.Repr()
      ensures Valid() && fresh(res.Repr() - old(res.Repr())) && fresh(res.Shared() - old(res.Shared()))
      ensures Did(fail, if v.Obj? then PathlessExtension(env, old(Now()), kind, urn, ext, v.members, SortedKeys(v.members.Keys)) else Err(InvalidValue), false)
    {
      hide PathlessExtension, Resource.View, Resource.Valid;
      if v.Obj? {
        fail := ApplyMembers(kind, urn, ext, v.members, SortedKeys(v.members.Keys));
      } else {
        fail := Some(InvalidValue);
      }
    }

    method ApplyMembers(kind: OpKind, urn: string, ext: seq<Attribute>, obj: Elem, keys: seq<string>) returns (fail: Option<Kind>)
      requires Valid() && forall k <- keys :: k in obj
      modifies this`changed, res.Repr()
      ensures Valid() && fresh(res.Repr() - old(res.Repr())) && fresh(res.Shared() - old(res.Shared()))
      ensures Did(fail, PathlessExtension(env, old(Now()), kind, urn, ext, obj, keys), false)
    {
      hide PathlessAttr, PathlessExtension, Resource.View, Resource.Valid;
      ghost var spec := PathlessExtension(env, Now(), kind, urn, ext, obj, keys);
      assert keys[0..] == keys;
      for i := 0 to |keys|
        invariant Valid() && fresh(res.Repr() - old(res.Repr())) && fresh(res.Shared() - old(res.Shared()))
        invariant spec == PathlessExtension(env, Now(), kind, urn, ext, obj, keys[i..])
      {
        ExtensionStep(env, Now(), kind, urn, ext, obj, keys, i);
        var attr := FindAttribute(ext, keys[i]);
        if attr.None? { continue; }
        fail := ApplyPathlessAttr(kind, urn + ":" + keys[i], attr.value, obj[keys[i]]);
        if fail.Some? { return; }
      }
      ExtensionEnd(env, Now(), kind, urn, ext, obj, keys);
      fail := None;
    }

    /** applyPathlessKey. */
    method ApplyPathlessKey(kind: OpKind, key: string, v: Value) returns (fail: Option<Kind>)
      requires Valid()
      modifies this`changed, res.Repr()
      ensures Valid() && fresh(res.Repr() - old(res.Repr())) && fresh(res.Shared() - old(res.Shared()))
      ensures Did(fail, PathlessKey(env, old(Now()), kind, key, v), false)
    {
      hide PathlessAttr, PathlessExtension, SortedKeys, Resource.View, Resource.Valid;
      if Fold(key) == SCHEMAS || Fold(key) == META { return None; }
      var ext := FindSchema(env.rt.exts, key);
      if ext.Some? {
        fail := ApplyPathlessExtension(kind, key, ext.value.attrs, v);
        return;
      }
      var attr := NamespaceAttr(env.rt, "", key);
      if attr.None? { return None; }
      fail := ApplyPathlessAttr(kind, key, attr.value, v);
    }

    /** addPathless. */
    method AddPathless(op: Op) returns (fail: Option<Kind>)
      requires Valid()
      modifies this`changed, res.Repr()
      ensures Valid() && fresh(res.Repr() - old(res.Repr())) && fresh(res.Shared() - old(res.Shared()))
      ensures Did(fail, Pathless(env, old(Now()), op), false)
    {
      hide PathlessKeys, SortedKeys, Resource.View, Resource.Valid;
      if op.value.Obj? {
        fail := ApplyKeys(op.kind, op.value.members, SortedKeys(op.value.members.Keys));
      } else {
        fail := Some(InvalidValue);
      }
    }

    method ApplyKeys(kind: OpKind, obj: Elem, keys: seq<string>) returns (fail: Option<Kind>)
      requires Valid() && forall k <- keys :: k in obj
      modifies this`changed, res.Repr()
      ensures Valid() && fresh(res.Repr() - old(res.Repr())) && fresh(res.Shared() - old(res.Shared()))
      ensures Did(fail, PathlessKeys(env, old(Now()), kind, obj, keys), false)
    {
      hide PathlessKey, PathlessKeys, Resource.View, Resource.Valid;
      ghost var spec := PathlessKeys(env, Now(), kind, obj, keys);
      assert keys[0..] == keys;
      for i := 0 to |keys|
        invariant Valid() && fresh(res.Repr() - old(res.Repr())) && fresh(res.Shared() - old(res.Shared()))
        invariant spec == PathlessKeys(env, Now(), kind, obj, keys[i..])
      {
        KeysStep(env, Now(), kind, obj, keys, i);
        fail := ApplyPathlessKey(kind, keys[i], obj[keys[i]]);
        if fail.Some? { return; }
      }
      KeysEnd(env, Now(), kind, obj, keys);
      fail := None;
    }

    // ----- Operations -----

    /** applyAdd, applyReplace and applyRemove for an operation with a path. */
    method ApplyPathed(op: Op, p: F.Path) returns (fail: Option<Kind>)
      requires Valid() && op.path == Some(p) && KeyedFolded(op) && !op.kind.Unknown?
      modifies this`changed, res.Repr()
      ensures Valid() && fresh(res.Repr() - old(res.Repr())) && fresh(res.Shared() - old(res.Shared()))
      ensures Did(fail, Pathed(env, old(Now()), op, p), Loose(op))
    {
      hide OpTarget, FoldedKeys, ValuePathWrite, ValuePathRemove, PatchSpec.SetTracked, PatchSpec.AddToAttribute, PatchSpec.ReplaceAttribute,
        AttrPathText, SubPathText, Resource.View, Resource.Valid;
      var t := ResolveOpTarget(op, p);
      if t.Err? { return Some(t.kind); }
      var (attr, sub) := t.value;
      if p.filter.Some? {
        if op.kind.Remove? {
          fail := RemoveValuePath(op, p, attr, sub);
        } else {
          fail := WriteValuePath(op, p, attr, sub);
        }
      } else if sub.Some? {
        fail := SetTracked(SubPathText(p), if op.kind.Remove? then Nil else op.value);
      } else if op.kind.Remove? {
        fail := SetTracked(AttrPathText(p), Nil);
      } else if op.kind.Add? {
        fail := AddToAttribute(AttrPathText(p), attr, op.value);
      } else {
        fail := ReplaceAttribute(AttrPathText(p), attr, op.value);
      }
    }

    /** apply. */
    method ApplyOne(op: Op) returns (fail: Option<Kind>)
      requires Valid() && KeyedFolded(op)
      modifies this`changed, res.Repr()
      ensures Valid() && fresh(res.Repr() - old(res.Repr())) && fresh(res.Shared() - old(res.Shared()))
      ensures Did(fail, ApplyOp(env, old(Now()), op), Loose(op))
    {
      hide FoldedKeys, PatchSpec.Pathed, PatchSpec.Pathless, Resource.View, Resource.Valid;
      if op.kind.Unknown? {
        fail := Some(InvalidSyntax);
      } else if op.path.Some? {
        fail := ApplyPathed(op, op.path.value);
      } else if op.kind.Remove? {
        fail := Some(NoTarget);
      } else {
        fail := AddPathless(op);
      }
    }

    /** The loop of Apply: each operation works on what the ones before it left. */
    method Run(ops: seq<Op>) returns (fail: Option<Kind>)
      requires Valid() && forall op <- ops :: KeyedFolded(op)
      modifies this`changed, res.Repr()
      ensures Valid() && fresh(res.Repr() - old(res.Repr())) && fresh(res.Shared() - old(res.Shared()))
      ensures Did(fail, ApplyOps(env, old(Now()), ops), SomeLoose(ops))
    {
      hide ApplyOp, Loose, KeyedFolded, Resource.View, Resource.Valid;
      ghost var spec := ApplyOps(env, Now(), ops);
      for i := 0 to |ops|
        invariant Valid() && fresh(res.Repr() - old(res.Repr())) && fresh(res.Shared() - old(res.Shared()))
        invariant spec == ApplyOps(env, Now(), ops[i..])
      {
        assert ops[i..][1..] == ops[i + 1..];
        fail := ApplyOne(ops[i]);
        if fail.Some? { return; }
      }
      assert ops[|ops|..] == [];
      fail := None;
    }
  }

  // ----- Apply -----

  lemma ApplyStarts(env: Env, d: Doc, ops: seq<Op>)
    ensures PatchSpec.Apply(env, d, ops) == ApplyOps(env, Work(d, false), ops)
  {
  }

  /** Apply: no object that exists before the call changes, whether it succeeds or fails
      midway. So the input keeps its value, and so does every list handed out by Get, although
      the working copy starts out with the very same lists. On success the result and the input
      edit nothing of each other, and the value and the Changed flag are those the specification
      computes. */
  method Apply(env: Env, input: Resource, ops: seq<Op>) returns (result: Option<Resource>, changed: bool, fail: Option<Kind>)
    requires input.Valid() && input.rt == env.rt && forall op <- ops :: KeyedFolded(op)
    ensures input.Valid() && input.View() == old(input.View())
    ensures var spec := PatchSpec.Apply(env, old(input.View()), ops);
            if spec.Ok? then
              && fail.None? && result.Some?
              && result.value.Valid() && fresh(result.value.Repr()) && result.value.rt == input.rt && Independent(input, result.value)
              && Work(result.value.View(), changed) == spec.value
            else
              result.None? && fail.Some? && SameFailure(SomeLoose(ops), fail.value, spec.kind)
  {
    hide ApplyOps, SomeLoose, KeyedFolded, Resource.View, Resource.Valid, SharedCopy, SharedCopies, SameFailure, PatchSpec.Apply, Independent;
    ApplyStarts(env, input.View(), ops);
    input.Parts();
    var copy := input.CloneShared();
    changed, fail := RunOn(env, copy, ops);
    IndependentIs(input, copy);
    result, changed := if fail.None? then Some(copy) else None, fail.None? && changed;
  }

  /** The patched resource and the input stay independent under every interleaving of later
      writes, although they may hold the very same lists. */
  method ApplyThenWrite(env: Env, input: Resource, ops: seq<Op>, script: seq<Write>) returns (result: Option<Resource>, fail: Option<Kind>)
    requires input.Valid() && input.rt == env.rt && forall op <- ops :: KeyedFolded(op)
    modifies input.Repr()
    ensures input.Valid()
    ensures var spec := PatchSpec.Apply(env, old(input.View()), ops);
            if spec.Ok? then
              && result.Some? && result.value.Valid() && Independent(input, result.value)
              && input.View() == Alone(env.lx, env.rt, old(input.View()), script, true)
              && result.value.View() == Alone(env.lx, env.rt, spec.value.doc, script, false)
            else result.None? && fail.Some? && input.View() == old(input.View())
  {
    hide PatchSpec.Apply, ApplyOps, SomeLoose, KeyedFolded, Resource.View, Resource.Valid, SameFailure, Independent, Alone;
    var changed;
    result, changed, fail := Apply(env, input, ops);
    if result.Some? { Interleave(env.lx, input, result.value, script); }
  }

  /** The operations on the working copy. */
  method RunOn(env: Env, copy: Resource, ops: seq<Op>) returns (changed: bool, fail: Option<Kind>)
    requires copy.Valid() && copy.rt == env.rt && forall op <- ops :: KeyedFolded(op)
    modifies copy.Repr()
    ensures copy.Valid() && fresh(copy.Repr() - old(copy.Repr())) && fresh(copy.Shared() - old(copy.Shared()))
    ensures var spec := ApplyOps(env, Work(old(copy.View()), false), ops);
            if spec.Ok? then fail.None? && Work(copy.View(), changed) == spec.value
            else fail.Some? && SameFailure(SomeLoose(ops), fail.value, spec.kind)
  {
    hide ApplyOps, SomeLoose, KeyedFolded, Resource.View, Resource.Valid;
    var a := new Applier(env, copy);
    assert a.Now() == Work(old(copy.View()), false);
    fail := a.Run(ops);
    assert a.Now() == Work(copy.View(), a.changed);
    changed := a.changed;
  }

  /** The list with the manufactured element at its end, the others demoted if it is primary. */
  method WithElement(list: array<Dict>, elem: Dict) returns (all: seq<Elem>)
    ensures var was := ElemsOf(list[..]) + [elem.m]; all == Demoted(was, {|was| - 1})
  {
    hide Demoted, ElemsOf;
    ElemsMore(list[..], elem);
    var out := Clone(list[..] + [elem]);
    DemoteOthers(out, {out.Length - 1});
    all := ElemsOf(out[..]);
  }

  /** The survivor loop of removeValuePath. */
  method KeepSurvivors(list: array<Dict>, matches: seq<nat>, ghost selected: set<nat>) returns (out: seq<Dict>)
    requires Enumerates(matches, selected, list.Length)
    ensures ElemsOf(out) == Survivors(ElemsOf(list[..]), selected, 0)
  {
    hide ElemsOf;
    ghost var elems := ElemsOf(list[..]);
    var matched := set i <- matches;
    assert matched == selected;
    out := [];
    for i := 0 to list.Length
      invariant ElemsOf(list[..]) == elems && Survivors(elems, selected, 0) == ElemsOf(out) + Survivors(elems, selected, i)
    {
      if i !in matched {
        ElemsMore(out, list[i]);
        out := out + [list[i]];
      }
    }
  }

  /** wouldChange, on the live value: what an add or a merge would make of it is computed on
      copies. */
  method Changes(attr: Attribute, kind: OpKind, existing: Ref, incoming: Value) returns (changes: bool)
    requires PlainLeaf(existing)
    ensures changes == WouldChange(attr, kind, Deref(existing), incoming)
  {
    hide AppendNew, ValuesEqual;
    if incoming.Nil? { return kind.Replace?; }
    if attr.multi && kind.Add? {
      var elements := Container.Wrap(incoming);
      var _, added := AppendNewValues(existing, elements);
      return added;
    }
    if attr.typ == TComplex && !attr.multi && existing.Single? && incoming.Cplx? {
      var merged := CloneElement(existing.d);
      merged.m := merged.m + incoming.elem;
      return !ValuesEqual(Deref(existing), Cplx(merged.m));
    }
    changes := !ValuesEqual(Deref(existing), incoming);
  }
}
