/** The PATCH operations as functions on documents: what patch.Apply computes. Module
    PatchEngine proves the engine, which works on a shared-copy heap object, against them. */
module PatchSpec {
  import opened Text
  import opened Schema
  import opened Values
  import opened Documents
  import opened Paths
  import opened PatchRules
  import opened Ordering
  import F = FilterAst

  /** The working copy and whether anything has changed so far. */
  datatype Work = Work(doc: Doc, changed: bool)

  /** setTracked. */
  function SetTracked(env: Env, w: Work, path: string, v: Value): Result<Work> {
    var before := GetOrNil(env.rt, w.doc, path);
    var d :- Set(env.lx, env.rt, w.doc, path, v);
    var after := GetOrNil(env.rt, d, path);
    Ok(Work(d, w.changed || !ValuesEqual(before, after)))
  }

  // ----- Mutability -----

  function CheckImmutablePathed(env: Env, d: Doc, op: Op, p: F.Path, attr: Attribute, sub: Option<Attribute>): Verdict {
    var existing := Get(env.rt, d, AttrPathText(p));
    if attr.access != Immutable then None
    else if sub.None? && p.filter.None? then CheckImmutableAttr(env.lx, existing, attr, op.kind, op.value)
    else if existing.Some? then Some(Mutability)
    else None
  }

  function CheckImmutableSubPath(env: Env, d: Doc, op: Op, p: F.Path, sub: Option<Attribute>): Verdict {
    if sub.None? || sub.value.access != Immutable || p.filter.Some? then None
    else
      var existing := Get(env.rt, d, SubPathText(p));
      if existing.None? then None
      else if op.kind.Remove? then Some(Mutability)
      else
        var incoming := Coerce(env.lx, sub.value, op.value);
        if incoming.Err? then Some(incoming.kind)
        else if !ValuesEqual(existing.value, incoming.value) then Some(Mutability)
        else None
  }

  /** checkMutable. */
  function CheckMutable(env: Env, d: Doc, op: Op, p: F.Path, attr: Attribute, sub: Option<Attribute>): Verdict {
    if attr.access == ReadOnly || (sub.Some? && sub.value.access == ReadOnly) then Some(Mutability)
    else if CheckImmutablePathed(env, d, op, p, attr, sub).Some? then CheckImmutablePathed(env, d, op, p, attr, sub)
    else if CheckImmutableSubPath(env, d, op, p, sub).Some? then CheckImmutableSubPath(env, d, op, p, sub)
    else if op.kind.Remove? && attr.required && sub.None? && p.filter.None? then Some(Mutability)
    else None
  }

  /** resolveOpTarget. */
  function OpTarget(env: Env, d: Doc, op: Op, p: F.Path): Result<(Attribute, Option<Attribute>)> {
    var t := ResolveTarget(env.rt, p);
    if t.None? then Err(InvalidPath)
    else if t.value.0.multi && t.value.1.Some? && p.filter.None? then Err(InvalidPath)
    else
      var verdict := CheckMutable(env, d, op, p, t.value.0, t.value.1);
      if verdict.Some? then Err(verdict.value) else Ok(t.value)
  }

  // ----- Whole attributes -----

  /** addMulti. */
  function AddMulti(env: Env, w: Work, path: string, attr: Attribute, v: Value): Result<Work> {
    var incoming :- Coerce(env.lx, attr, Wrapped(v));
    if incoming.Nil? then Ok(w)
    else
      var existing := Get(env.rt, w.doc, path);
      if existing.None? then SetTracked(env, w, path, incoming)
      else
        var (merged, added) := AppendNew(existing.value, incoming);
        if !added then Ok(w) else SetTracked(env, w, path, merged)
  }

  /** mergeComplex. */
  function MergeComplex(env: Env, w: Work, path: string, attr: Attribute, v: Value): Result<Work> {
    var incoming :- Coerce(env.lx, attr, v);
    if incoming.Nil? then Ok(w)
    else
      var existing := GetOrNil(env.rt, w.doc, path);
      if incoming.Cplx? && existing.Cplx? then SetTracked(env, w, path, Cplx(existing.elem + incoming.elem))
      else SetTracked(env, w, path, incoming)
  }

  /** addToAttribute. */
  function AddToAttribute(env: Env, w: Work, path: string, attr: Attribute, v: Value): Result<Work> {
    if attr.multi then AddMulti(env, w, path, attr, v)
    else if attr.typ == TComplex then MergeComplex(env, w, path, attr, v)
    else SetTracked(env, w, path, v)
  }

  /** replaceAttribute. */
  function ReplaceAttribute(env: Env, w: Work, path: string, attr: Attribute, v: Value): Result<Work> {
    if attr.multi then
      var incoming :- Coerce(env.lx, attr, Wrapped(v));
      SetTracked(env, w, path, incoming)
    else if attr.typ == TComplex then MergeComplex(env, w, path, attr, v)
    else SetTracked(env, w, path, v)
  }

  // ----- Elements selected by a value filter -----

  /** getList; an unassigned attribute has no elements. */
  function ListAt(env: Env, d: Doc, p: F.Path): Option<seq<Elem>> {
    var v := Get(env.rt, d, AttrPathText(p));
    if v.Some? && v.value.Multi? then Some(v.value.elems) else None
  }

  function Elements(env: Env, d: Doc, p: F.Path): seq<Elem> {
    var l := ListAt(env, d, p);
    if l.None? then [] else l.value
  }

  /** synthesizeElement. */
  function Synthesize(env: Env, w: Work, op: Op, p: F.Path, sub: Option<Attribute>): Result<Work>
    requires p.filter.Some?
  {
    var seed := CollectEq(p.filter.value, map[]);
    if seed.None? then Err(NoTarget)
    else if sub.None? && !op.value.Obj? then Err(InvalidValue)
    else
      var elem := if sub.Some? then seed.value[Fold(sub.value.name) := op.value] else seed.value + op.value.members;
      var out := Elements(env, w.doc, p) + [elem];
      SetTracked(env, w, AttrPathText(p), Multi(Demoted(out, {|out| - 1})))
  }

  /** The edit an add or a sub-attribute replace makes: writeToElements. */
  function WriteEdit(op: Op, sub: Option<Attribute>): Result<Edit> {
    if sub.Some? then Ok(WriteSub(sub.value, op.value))
    else if op.value.Obj? then Ok(MergeIn(op.value.members))
    else Err(InvalidValue)
  }

  function ReplaceEdit(op: Op, sub: Option<Attribute>): Result<Edit> {
    if sub.Some? then Ok(WriteSub(sub.value, op.value))
    else if op.value.Obj? then Ok(Substitute(op.value.members))
    else Err(InvalidValue)
  }

  /** The shared tail of valuePath add and replace. */
  function WriteElements(env: Env, w: Work, p: F.Path, attr: Attribute, edit: Edit, selected: set<nat>): Result<Work> {
    var list := Elements(env, w.doc, p);
    var out :- EditElems(env.lx, attr, edit, list, selected, 0);
    SetTracked(env, w, AttrPathText(p), Multi(Demoted(out, selected)))
  }

  /** addValuePath and replaceValuePath. */
  function ValuePathWrite(env: Env, w: Work, op: Op, p: F.Path, attr: Attribute, sub: Option<Attribute>): Result<Work>
    requires p.filter.Some?
  {
    if !attr.multi || attr.typ != TComplex then Err(InvalidPath)
    else
      var selected :- Matching(env.lx, attr, p.filter.value, Elements(env, w.doc, p));
      if selected == {} then
        if (if op.kind.Add? then env.profile.synthesizeAddValuePath else env.profile.replaceNoTargetAsAdd) then
          Synthesize(env, w, op, p, sub)
        else Err(NoTarget)
      else
        var edit :- if op.kind.Add? then WriteEdit(op, sub) else ReplaceEdit(op, sub);
        WriteElements(env, w, p, attr, edit, selected)
  }

  function Survivors(list: seq<Elem>, selected: set<nat>, i: nat): seq<Elem>
    requires i <= |list|
    decreases |list| - i
  {
    if i == |list| then []
    else (if i in selected then [] else [list[i]]) + Survivors(list, selected, i + 1)
  }

  /** removeValuePath. */
  function ValuePathRemove(env: Env, w: Work, p: F.Path, attr: Attribute, sub: Option<Attribute>): Result<Work>
    requires p.filter.Some?
  {
    if !attr.multi || attr.typ != TComplex then Err(InvalidPath)
    else if ListAt(env, w.doc, p).None? then Ok(w)
    else
      var list := Elements(env, w.doc, p);
      var selected :- Matching(env.lx, attr, p.filter.value, list);
      if selected == {} then Ok(w)
      else if sub.Some? then
        var out :- EditElems(env.lx, attr, DropSub(sub.value), list, selected, 0);
        SetTracked(env, w, AttrPathText(p), Multi(out))
      else if attr.required && |selected| == |list| then Err(Mutability)
      else SetTracked(env, w, AttrPathText(p), Arr(Boxed(Survivors(list, selected, 0))))
  }

  // ----- Pathless -----

  /** applyPathlessAttr. */
  function PathlessAttr(env: Env, w: Work, kind: OpKind, path: string, attr: Attribute, v: Value): Result<Work> {
    if attr.access == ReadOnly then Ok(w)
    else
      var verdict := if attr.access == Immutable then CheckImmutableAttr(env.lx, Get(env.rt, w.doc, path), attr, kind, v) else None;
      if verdict.Some? then Err(verdict.value)
      else if kind.Replace? then ReplaceAttribute(env, w, path, attr, v)
      else AddToAttribute(env, w, path, attr, v)
  }

  /** applyPathlessExtension, over the members still to visit. */
  function PathlessExtension(env: Env, w: Work, kind: OpKind, urn: string, ext: seq<Attribute>, obj: Elem, keys: seq<string>): Result<Work>
    requires forall k <- keys :: k in obj
    decreases |keys|
  {
    if keys == [] then Ok(w)
    else
      var attr := FindAttribute(ext, keys[0]);
      var w1 :- if attr.None? then Ok(w) else PathlessAttr(env, w, kind, urn + ":" + keys[0], attr.value, obj[keys[0]]);
      PathlessExtension(env, w1, kind, urn, ext, obj, keys[1..])
  }

  /** applyPathlessKey. */
  function PathlessKey(env: Env, w: Work, kind: OpKind, key: string, v: Value): Result<Work> {
    if Fold(key) == SCHEMAS || Fold(key) == META then Ok(w)
    else
      var ext := FindSchema(env.rt.exts, key);
      if ext.Some? then
        if !v.Obj? then Err(InvalidValue)
        else PathlessExtension(env, w, kind, key, ext.value.attrs, v.members, SortedKeys(v.members.Keys))
      else
        var attr := NamespaceAttr(env.rt, "", key);
        if attr.None? then Ok(w) else PathlessAttr(env, w, kind, key, attr.value, v)
  }

  /** addPathless's loop, over the members still to visit. */
  function PathlessKeys(env: Env, w: Work, kind: OpKind, obj: Elem, keys: seq<string>): Result<Work>
    requires forall k <- keys :: k in obj
    decreases |keys|
  {
    if keys == [] then Ok(w)
    else
      var w1 :- PathlessKey(env, w, kind, keys[0], obj[keys[0]]);
      PathlessKeys(env, w1, kind, obj, keys[1..])
  }

  function Pathless(env: Env, w: Work, op: Op): Result<Work> {
    if !op.value.Obj? then Err(InvalidValue)
    else PathlessKeys(env, w, op.kind, op.value.members, SortedKeys(op.value.members.Keys))
  }

  // ----- Operations -----

  /** applyAdd, applyReplace and applyRemove once the path has passed the guards. */
  function Perform(env: Env, w: Work, op: Op, p: F.Path, attr: Attribute, sub: Option<Attribute>): Result<Work> {
    if p.filter.Some? then
      if op.kind.Remove? then ValuePathRemove(env, w, p, attr, sub) else ValuePathWrite(env, w, op, p, attr, sub)
    else if sub.Some? then SetTracked(env, w, SubPathText(p), if op.kind.Remove? then Nil else op.value)
    else if op.kind.Remove? then SetTracked(env, w, AttrPathText(p), Nil)
    else if op.kind.Add? then AddToAttribute(env, w, AttrPathText(p), attr, op.value)
    else ReplaceAttribute(env, w, AttrPathText(p), attr, op.value)
  }

  function Pathed(env: Env, w: Work, op: Op, p: F.Path): Result<Work> {
    var t :- OpTarget(env, w.doc, op, p);
    Perform(env, w, op, p, t.0, t.1)
  }

  /** applier.apply. */
  function ApplyOp(env: Env, w: Work, op: Op): Result<Work> {
    if op.kind.Unknown? then Err(InvalidSyntax)
    else if op.path.Some? then Pathed(env, w, op, op.path.value)
    else if op.kind.Remove? then Err(NoTarget)
    else Pathless(env, w, op)
  }

  function ApplyOps(env: Env, w: Work, ops: seq<Op>): Result<Work>
    decreases |ops|
  {
    if ops == [] then Ok(w)
    else
      var w1 :- ApplyOp(env, w, ops[0]);
      ApplyOps(env, w1, ops[1..])
  }

  /** Apply: the patched document and the Changed flag, or the first failure. */
  function Apply(env: Env, d: Doc, ops: seq<Op>): Result<Work> {
    ApplyOps(env, Work(d, false), ops)
  }
}
