/** Which operations on a path without a value filter PATCH accepts, and why it refuses the others
    (section 3.5.2 of RFC 7644), in terms of what the resource holds. */
module PatchAccepts {
  import opened Text
  import opened Schema
  import opened Values
  import opened Documents
  import opened DocumentFacts
  import opened Paths
  import opened PatchRules
  import opened PatchSpec
  import opened PatchFacts
  import opened PatchGuards
  import opened PatchElements
  import opened PatchTables
  import opened PatchReplay
  import opened PatchPathless
  import F = FilterAst

  /** A whole attribute: a remove is refused while an immutable attribute is assigned, and on a
      required one; an add or replace like a member of a pathless value. */
  function WholeRuling(lx: Lexicon, op: Op, attr: Attribute, x: Option<Value>): Verdict {
    if op.kind.Remove? then (if (attr.access == Immutable && x.Some?) || attr.required then Some(Mutability) else None)
    else Ruling(lx, op.kind, attr, op.value, x)
  }

  /** One member of a single-valued complex attribute: refused inside an assigned immutable
      attribute; an assigned immutable member takes its own value alone. */
  function MemberVerdict(lx: Lexicon, op: Op, attr: Attribute, sub: Attribute, x: Option<Value>): Verdict {
    var (held, cv) := (Lookup(HeldElem(x), Fold(sub.name)), Coerce(lx, sub, op.value));
    if attr.access == Immutable && x.Some? then Some(Mutability)
    else if sub.access == Immutable && held.Some? then
      if op.kind.Remove? then Some(Mutability)
      else if cv.Err? then Some(InvalidValue)
      else if ValuesEqual(held.value, cv.value) then None
      else Some(Mutability)
    else if op.kind.Remove? || cv.Ok? then None
    else Some(InvalidValue)
  }

  /** Why an operation on a path without a value filter is refused on the resource. */
  function PathedRuling(env: Env, d: Doc, op: Op, p: F.Path): Verdict {
    var t := ResolveTarget(env.rt, p);
    if t.None? then Some(InvalidPath)
    else
      var (attr, sub) := t.value;
      var x := Slot(d, TargetLoc(env.rt, p));
      if attr.multi && sub.Some? then Some(InvalidPath)
      else if attr.access == ReadOnly || (sub.Some? && sub.value.access == ReadOnly) then Some(Mutability)
      else if sub.Some? then MemberVerdict(env.lx, op, attr, sub.value, x)
      else WholeRuling(env.lx, op, attr, x)
  }

  lemma {:induction false} RemoveRuled(env: Env, w: Work, path: string, rp: Resolved)
    requires ResolvePath(env.rt, path) == Ok(rp) && Settable(rp) && rp.sub.None?
    ensures SetTracked(env, w, path, Nil).Ok?
  {
    hide ResolvePath, SetTracked;
    NilCoerces(env.lx, rp.attr.value);
    CoercedWrite(env, w, path, Nil, rp);
  }

  lemma {:induction false} MemberRuled(env: Env, w: Work, path: string, v: Value, rp: Resolved)
    requires ResolvePath(env.rt, path) == Ok(rp) && Settable(rp) && rp.sub.Some?
    ensures var r := SetTracked(env, w, path, v); if Coerce(env.lx, rp.sub.value, v).Ok? then r.Ok? else r == Err(InvalidValue)
  {
    hide ResolvePath, Coerce, ValuesEqual, GetOrNil;
    CoerceKind(env.lx, rp.sub.value, v);
  }

  lemma CoerceKind(lx: Lexicon, a: Attribute, v: Value)
    ensures Coerce(lx, a, v).Err? ==> Coerce(lx, a, v).kind == InvalidValue
  {
  }

  /** The add or replace that Perform makes of a whole attribute, once the guard let it pass. */
  lemma {:induction false} WholeRuled(env: Env, w: Work, op: Op, path: string, attr: Attribute, rp: Resolved)
    requires Canonical(env.rt, w.doc) && Names(env.rt, path, attr, rp) && (op.kind.Add? || op.kind.Replace?) && attr.access != ReadOnly
    ensures var r := if op.kind.Replace? then ReplaceAttribute(env, w, path, attr, op.value) else AddToAttribute(env, w, path, attr, op.value);
            var (guard, ruling) := (CheckImmutableAttr(env.lx, Slot(w.doc, LocOf(rp)), attr, op.kind, op.value), Ruling(env.lx, op.kind, attr, op.value, Slot(w.doc, LocOf(rp))));
            if attr.access == Immutable && guard.Some? then ruling == guard
            else if ruling.Some? then r == Err(ruling.value)
            else r.Ok?
  {
    hide Canonical, Names, ReplaceAttribute, AddToAttribute, Slot, LocOf, Storable, Coerce, CheckImmutableAttr, Tabled;
    AttrRuled(env, w, op.kind, path, attr, op.value, rp);
    ShownSlot(env.rt, w.doc, path, attr, rp);
  }

  lemma {:induction false} WholeAccepted(env: Env, w: Work, op: Op, p: F.Path)
    requires Regular(env.rt) && ParsedPath(p) && Canonical(env.rt, w.doc) && !DerivedTarget(env.rt, p)
    requires op.path == Some(p) && p.filter.None? && !op.kind.Unknown? && ResolveTarget(env.rt, p).Some?
    requires var (attr, sub) := ResolveTarget(env.rt, p).value; sub.None? && attr.access != ReadOnly
    ensures var (r, ruling) := (ApplyOp(env, w, op), WholeRuling(env.lx, op, ResolveTarget(env.rt, p).value.0, Slot(w.doc, TargetLoc(env.rt, p))));
            if ruling.Some? then r == Err(ruling.value) else r.Ok?
  {
    hide Regular, ParsedPath, Canonical, ResolvePath, ResolveTarget, WritePath, TargetLoc, LocOf, Sound, Slot, SetTracked, Ruling,
      AddToAttribute, ReplaceAttribute, AttrPathText, SubPathText, CheckImmutableAttr, Settable, DerivedTarget, Get;
    var attr := ResolveTarget(env.rt, p).value.0;
    WritePathResolves(env.rt, p);
    WritePathIs(p, None);
    TargetSettable(env.rt, p);
    var path := AttrPathText(p);
    var rp := ResolvePath(env.rt, path).value;
    ShownSlot(env.rt, w.doc, path, attr, rp);
    if op.kind.Remove? {
      RemoveRuled(env, w, path, rp);
      RemoveGuard(env.lx, Slot(w.doc, LocOf(rp)), attr, op.value);
    } else {
      WholeRuled(env, w, op, path, attr, rp);
    }
  }

  lemma RemoveGuard(lx: Lexicon, x: Option<Value>, attr: Attribute, v: Value)
    ensures CheckImmutableAttr(lx, x, attr, Remove, v) == if x.Some? then Some(Mutability) else None
  {
  }

  lemma {:induction false} MemberAccepted(env: Env, w: Work, op: Op, p: F.Path)
    requires Regular(env.rt) && ParsedPath(p) && Canonical(env.rt, w.doc) && !DerivedTarget(env.rt, p)
    requires op.path == Some(p) && p.filter.None? && !op.kind.Unknown? && ResolveTarget(env.rt, p).Some?
    requires var (attr, sub) := ResolveTarget(env.rt, p).value; sub.Some? && !attr.multi && attr.access != ReadOnly && sub.value.access != ReadOnly
    ensures var (attr, sub) := ResolveTarget(env.rt, p).value;
            var (r, ruling) := (ApplyOp(env, w, op), MemberVerdict(env.lx, op, attr, sub.value, Slot(w.doc, TargetLoc(env.rt, p))));
            if ruling.Some? then r == Err(ruling.value) else r.Ok?
  {
    hide Regular, ParsedPath, Canonical, ResolvePath, ResolveTarget, WritePath, TargetLoc, LocOf, Sound, Slot, SetTracked, Coerce, ValuesEqual,
      AttrPathText, SubPathText, Settable, DerivedTarget, Get, HeldElem, Fold;
    var (attr, sub) := ResolveTarget(env.rt, p).value;
    WritePathResolves(env.rt, p);
    WritePathIs(p, sub);
    TargetSettable(env.rt, p);
    var rp := ResolvePath(env.rt, SubPathText(p)).value;
    MemberShown(env.rt, w.doc, SubPathText(p), rp);
    AttrShown(env, w.doc, p);
    CoerceKind(env.lx, sub.value, op.value);
    NilCoerces(env.lx, sub.value);
    MemberRuled(env, w, SubPathText(p), if op.kind.Remove? then Nil else op.value, rp);
  }

  /** What Get shows at a member. */
  lemma {:induction false} MemberShown(rt: ResourceType, d: Doc, path: string, rp: Resolved)
    requires Canonical(rt, d) && ResolvePath(rt, path) == Ok(rp) && Sound(rt, rp) && Settable(rp) && rp.sub.Some?
    ensures Get(rt, d, path) == Lookup(HeldElem(Slot(d, LocOf(rp))), Fold(rp.sub.value.name))
  {
    hide ResolvePath, Canonical, Slot, GetResolved, Stored;
    GetSlot(rt, d, rp);
    if Slot(d, LocOf(rp)).Some? {
      SlotStoredAt(rt, d, rp);
      StoredSingle(rp.attr.value, Slot(d, LocOf(rp)).value);
    }
  }

  /** What Get shows at the parent. */
  lemma {:induction false} AttrShown(env: Env, d: Doc, p: F.Path)
    requires Regular(env.rt) && ParsedPath(p) && ResolveTarget(env.rt, p).Some? && !DerivedTarget(env.rt, p)
    ensures Get(env.rt, d, AttrPathText(p)) == Slot(d, TargetLoc(env.rt, p))
  {
    hide Regular, ParsedPath, ResolvePath, ResolveTarget, WritePath, TargetLoc, LocOf, Sound, Slot, AttrPathText, SubPathText, Settable, Get, DerivedTarget;
    var bare := F.Path(p.urn, p.attr, "", None);
    BarePath(env.rt, p, bare);
    WritePathResolves(env.rt, bare);
    TargetSettable(env.rt, bare);
    ShownSlot(env.rt, d, AttrPathText(p), ResolveTarget(env.rt, p).value.0, ResolvePath(env.rt, AttrPathText(p)).value);
  }

  lemma {:induction false} BarePath(rt: ResourceType, p: F.Path, bare: F.Path)
    requires bare == F.Path(p.urn, p.attr, "", None) && ResolveTarget(rt, p).Some? && ParsedPath(p)
    ensures ResolveTarget(rt, bare) == Some((ResolveTarget(rt, p).value.0, None)) && ParsedPath(bare)
    ensures TargetLoc(rt, bare) == TargetLoc(rt, p) && DerivedTarget(rt, bare) == DerivedTarget(rt, p)
    ensures AttrPathText(bare) == AttrPathText(p) && WritePath(bare, None) == AttrPathText(p)
  {
  }

  /** An operation whose path has no value filter is accepted exactly when its path names an
      attribute, or a member of a single-valued one, that is not derived nor readOnly, the
      immutability of attribute and member allows it, and the value can be stored; otherwise it
      fails in the way stated. What an accepted one leaves is DecisionTable's. */
  lemma {:induction false} PathedIff(env: Env, w: Work, op: Op, p: F.Path)
    requires Regular(env.rt) && ParsedPath(p) && Canonical(env.rt, w.doc) && !DerivedTarget(env.rt, p)
    requires op.path == Some(p) && p.filter.None? && !op.kind.Unknown?
    ensures var (r, ruling) := (ApplyOp(env, w, op), PathedRuling(env, w.doc, op, p));
            if ruling.Some? then r == Err(ruling.value) else r.Ok?
  {
    hide Regular, ParsedPath, Canonical, ResolveTarget, TargetLoc, Slot, MemberVerdict, WholeRuling, Perform, CheckImmutablePathed, CheckImmutableSubPath, DerivedTarget;
    var t := ResolveTarget(env.rt, p);
    if t.Some? {
      var (attr, sub) := t.value;
      if !(attr.multi && sub.Some?) && attr.access != ReadOnly && (sub.Some? ==> sub.value.access != ReadOnly) {
        if sub.Some? { MemberAccepted(env, w, op, p); } else { WholeAccepted(env, w, op, p); }
      }
    }
  }

  // ----- Whole requests -----

  /** The working copies of an accepted sequence: each operation takes the one before it to the one
      after it. */
  ghost predicate Stages(env: Env, d: Doc, ops: seq<Op>, t: seq<Work>) {
    |t| == |ops| + 1 && t[0] == Work(d, false) && forall i :: 0 <= i < |ops| ==> ApplyOp(env, t[i], ops[i]) == Ok(t[i + 1])
  }

  /** The operations before the n-th go through and the n-th fails like this. */
  ghost predicate FailsAt(env: Env, d: Doc, ops: seq<Op>, n: nat, t: seq<Work>, kind: Kind) {
    n < |ops| && Stages(env, d, ops[..n], t) && ApplyOp(env, t[n], ops[n]) == Err(kind)
  }

  lemma {:induction false} StagesMore(env: Env, d: Doc, done: seq<Op>, ops: seq<Op>, t: seq<Work>) returns (n: nat, t': seq<Work>)
    requires Stages(env, d, done, t)
    ensures var r := ApplyOps(env, t[|done|], ops);
            if r.Ok? then Stages(env, d, done + ops, t') && t'[|done + ops|] == r.value
            else FailsAt(env, d, done + ops, n, t', r.kind)
    decreases |ops|
  {
    hide ApplyOp;
    n, t' := |done|, t;
    if ops == [] {
      assert done + ops == done;
    } else {
      var next := ApplyOp(env, t[|done|], ops[0]);
      assert (done + ops)[..|done|] == done;
      if next.Ok? {
        var more := done + [ops[0]];
        assert Stages(env, d, more, t + [next.value]);
        n, t' := StagesMore(env, d, more, ops[1..], t + [next.value]);
        assert more + ops[1..] == done + ops;
      }
    }
  }

  lemma {:induction false} StagesUnique(env: Env, d: Doc, ops: seq<Op>, more: seq<Op>, t: seq<Work>, t': seq<Work>)
    requires Stages(env, d, ops, t) && Stages(env, d, ops + more, t')
    ensures t == t'[..|ops| + 1]
    decreases |ops|
  {
    hide ApplyOp;
    if ops != [] {
      var n := |ops| - 1;
      assert ops[..n] + ([ops[n]] + more) == ops + more;
      assert Stages(env, d, ops[..n], t[..n + 1]);
      StagesUnique(env, d, ops[..n], [ops[n]] + more, t[..n + 1], t');
      assert (ops + more)[n] == ops[n] && t[n] == t[..n + 1][n] == t'[n];
      assert t == t[..n + 1] + [t[n + 1]];
    }
  }

  /** A sequence is its operations one after another on the working copy, from the first: it is
      accepted exactly when each goes through, and it fails as the first that does not. */
  lemma {:induction false} ApplyIff(env: Env, d: Doc, ops: seq<Op>)
    ensures forall w :: Apply(env, d, ops) == Ok(w) <==> exists t :: Stages(env, d, ops, t) && t[|ops|] == w
    ensures forall k :: Apply(env, d, ops) == Err(k) <==> exists n, t :: FailsAt(env, d, ops, n, t, k)
  {
    hide ApplyOp, Stages, FailsAt;
    StagesStart(env, d);
    assert [] + ops == ops;
    var n, t := StagesMore(env, d, [], ops, [Work(d, false)]);
    forall t' | Stages(env, d, ops, t') ensures |t'| == |ops| + 1 && Apply(env, d, ops) == Ok(t'[|ops|]) {
      StagesOnly(env, d, ops, n, t, t');
    }
    forall m, t', k | FailsAt(env, d, ops, m, t', k) ensures Apply(env, d, ops) == Err(k) {
      FailsOnly(env, d, ops, n, t, m, t', k);
    }
  }

  lemma StagesStart(env: Env, d: Doc)
    ensures Stages(env, d, [], [Work(d, false)])
  {
    hide ApplyOp;
  }

  lemma {:induction false} StagesOnly(env: Env, d: Doc, ops: seq<Op>, n: nat, t: seq<Work>, t': seq<Work>)
    requires Stages(env, d, ops, t')
    requires if Apply(env, d, ops).Ok? then Stages(env, d, ops, t) && t[|ops|] == Apply(env, d, ops).value else FailsAt(env, d, ops, n, t, Apply(env, d, ops).kind)
    ensures |t'| == |ops| + 1 && Apply(env, d, ops) == Ok(t'[|ops|])
  {
    hide ApplyOp, Apply;
    if Apply(env, d, ops).Ok? {
      assert ops + [] == ops;
      StagesUnique(env, d, ops, [], t, t');
    } else {
      assert ops[..n] + ops[n..] == ops;
      StagesUnique(env, d, ops[..n], ops[n..], t, t');
      assert t[n] == t'[n];
      StageMoves(env, d, ops, t', n);
    }
  }

  lemma StageMoves(env: Env, d: Doc, ops: seq<Op>, t: seq<Work>, n: nat)
    requires Stages(env, d, ops, t) && n < |ops|
    ensures ApplyOp(env, t[n], ops[n]) == Ok(t[n + 1])
  {
    hide ApplyOp;
  }

  lemma {:induction false} FailsOnly(env: Env, d: Doc, ops: seq<Op>, n: nat, t: seq<Work>, m: nat, t': seq<Work>, k: Kind)
    requires FailsAt(env, d, ops, m, t', k)
    requires if Apply(env, d, ops).Ok? then Stages(env, d, ops, t) && t[|ops|] == Apply(env, d, ops).value else FailsAt(env, d, ops, n, t, Apply(env, d, ops).kind)
    ensures Apply(env, d, ops) == Err(k)
  {
    hide ApplyOp, Apply;
    if Apply(env, d, ops).Ok? {
      assert ops[..m] + ops[m..] == ops;
      StagesUnique(env, d, ops[..m], ops[m..], t', t);
      assert t[m] == t'[m];
      StageMoves(env, d, ops, t, m);
    } else if m <= n {
      assert ops[..m] + ops[m..n] == ops[..n];
      StagesUnique(env, d, ops[..m], ops[m..n], t', t);
      assert t[m] == t'[m];
      if m < n { StageMoves(env, d, ops[..n], t, m); }
    } else {
      assert ops[..n] + ops[n..m] == ops[..m];
      StagesUnique(env, d, ops[..n], ops[n..m], t, t');
      assert t[n] == t'[n];
      StageMoves(env, d, ops[..m], t', n);
    }
  }

  /** What is no operation is malformed, and a remove names what it removes. */
  lemma {:induction false} NotPerformed(env: Env, w: Work, op: Op)
    ensures op.kind.Unknown? ==> ApplyOp(env, w, op) == Err(InvalidSyntax)
    ensures op.kind.Remove? && op.path.None? ==> ApplyOp(env, w, op) == Err(NoTarget)
  {
    hide Pathed, Pathless;
  }
}
