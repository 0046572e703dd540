/** The merge behind PUT (mergePut in server/pipeline.go): what the server keeps of the current
    resource when a client replaces it. */
module MergePut {
  import opened Text
  import opened Schema
  import opened Values
  import opened Paths
  import opened Documents
  import opened DocumentFacts
  import opened PatchFacts
  import opened StoreState
  import opened Resources

  /** One attribute of mergePutAttrs: readOnly values are carried over, immutable ones must
      match (or are carried over when the request omits them). jsonEqual is equality here: the
      encodings it compares differ for different stored values of one attribute. */
  function MergeAttr(lx: Lexicon, rt: ResourceType, inc: Doc, cur: Doc, path: string, access: Access): Result<Doc> {
    var was := Get(rt, cur, path);
    if was.None? then Ok(inc)
    else if access == ReadOnly then Set(lx, rt, inc, path, was.value)
    else if access != Immutable then Ok(inc)
    else
      var now := Get(rt, inc, path);
      if now.None? then Set(lx, rt, inc, path, was.value)
      else if now != was then Err(Mutability)
      else Ok(inc)
  }

  /** mergePutAttrs, over the attributes still to visit. */
  function MergeAttrs(lx: Lexicon, rt: ResourceType, inc: Doc, cur: Doc, prefix: string, attrs: seq<Attribute>): Result<Doc>
    decreases |attrs|
  {
    if attrs == [] then Ok(inc)
    else
      var next :- MergeAttr(lx, rt, inc, cur, prefix + attrs[0].name, attrs[0].access);
      MergeAttrs(lx, rt, next, cur, prefix, attrs[1..])
  }

  function MergeExts(lx: Lexicon, rt: ResourceType, inc: Doc, cur: Doc, exts: seq<SchemaDef>): Result<Doc>
    decreases |exts|
  {
    if exts == [] then Ok(inc)
    else
      var next :- MergeAttrs(lx, rt, inc, cur, exts[0].id + ":", exts[0].attrs);
      MergeExts(lx, rt, next, cur, exts[1..])
  }

  /** mergePut: the metadata is the current one, version included, with a new modification time. */
  function Merge(lx: Lexicon, rt: ResourceType, inc: Doc, cur: Doc, now: Moment): Result<Doc> {
    var core :- MergeAttrs(lx, rt, inc, cur, "", rt.core.attrs);
    var all :- MergeExts(lx, rt, core, cur, rt.exts);
    Finish(lx, rt, all, cur, now)
  }

  function Finish(lx: Lexicon, rt: ResourceType, all: Doc, cur: Doc, now: Moment): Result<Doc> {
    var named :- Set(lx, rt, all, ID, GetOrNil(rt, cur, ID));
    Ok(Touched(named.(meta := cur.meta), now))
  }

  // ----- What a merge leaves -----

  /** Attributes the server does not let a client change. */
  predicate Protected(a: Attribute) {
    a.access == ReadOnly || a.access == Immutable
  }

  /** next shows the current resource's value at the locations in ls that it assigns, and
      everywhere else what inc has there. */
  ghost predicate Merged(rt: ResourceType, inc: Doc, next: Doc, cur: Doc, ls: iset<Loc>) {
    && Canonical(rt, next)
    && forall l: Loc :: Slot(next, l) == if l in ls && Slot(cur, l).Some? then Slot(cur, l) else Slot(inc, l)
  }

  lemma {:induction false} MergedThen(rt: ResourceType, a: Doc, b: Doc, c: Doc, cur: Doc, ls: iset<Loc>, ms: iset<Loc>)
    requires Merged(rt, a, b, cur, ls) && Merged(rt, b, c, cur, ms)
    ensures Merged(rt, a, c, cur, ls + ms)
  {
    hide Canonical, Slot;
  }

  lemma MergedNone(rt: ResourceType, a: Doc, cur: Doc)
    requires Canonical(rt, a)
    ensures Merged(rt, a, a, cur, iset{})
  {
  }

  lemma MergedCanonical(rt: ResourceType, a: Doc, b: Doc, cur: Doc, ls: iset<Loc>)
    requires Merged(rt, a, b, cur, ls)
    ensures Canonical(rt, b)
  {
  }

  /** The location of a protected attribute. */
  ghost function Guarded(urn: string, a: Attribute): iset<Loc> {
    if Protected(a) then iset{Loc(urn, Fold(a.name))} else iset{}
  }

  ghost predicate GuardsAt(urn: string, attrs: seq<Attribute>, l: Loc) {
    exists a <- attrs :: l in Guarded(urn, a)
  }

  ghost function GuardedAll(urn: string, attrs: seq<Attribute>): iset<Loc> {
    iset l: Loc | GuardsAt(urn, attrs, l)
  }

  /** Why one attribute of the merge fails: an immutable one sent with another value than the
      one assigned, or a value to carry over that Set does not take back. */
  function AttrVerdict(access: Access, sent: Option<Value>, held: Option<Value>): Option<Kind> {
    if held.None? || !(access == ReadOnly || access == Immutable) then None
    else if access == Immutable && sent.Some? then (if sent == held then None else Some(Mutability))
    else if Writable(held.value) then None
    else Some(InvalidValue)
  }

  /** Copying a stored value over from another resource reproduces it, if Set takes it back. */
  lemma {:induction false} CopyOver(lx: Lexicon, rt: ResourceType, inc: Doc, cur: Doc, path: string, rp: Resolved)
    requires Canonical(rt, inc) && Canonical(rt, cur) && ResolvePath(rt, path) == Ok(rp) && Sound(rt, rp) && rp.sub.None? && Settable(rp)
    requires Slot(cur, LocOf(rp)).Some?
    ensures var (v, r) := (Slot(cur, LocOf(rp)).value, Set(lx, rt, inc, path, Slot(cur, LocOf(rp)).value));
            if Writable(v) then r.Ok? && Merged(rt, inc, r.value, cur, iset{LocOf(rp)}) else r == Err(InvalidValue)
  {
    hide ResolvePath, Canonical, Coerce, SetInContainer, Slot, Stored, Declared, CanonicalSlot, Writable;
    var v := Slot(cur, LocOf(rp)).value;
    CanonicalAt(rt, cur, LocOf(rp));
    SlotValue(rt, LocOf(rp), v, rp.attr.value);
    CoerceFixedIff(lx, rp.attr.value, v);
    StoredValueNotNil(rp.attr.value, v);
    var held := Documents.Container(inc, rp);
    SetWhole(lx, if held.None? then map[] else held.value, rp, v);
    if Writable(v) {
      SetFrame(lx, inc, rp, v);
      SetSlot(lx, inc, rp, v);
      SetCanonical(lx, rt, inc, rp, v);
    }
  }

  lemma SlotValue(rt: ResourceType, l: Loc, v: Value, a: Attribute)
    requires CanonicalSlot(rt, l, v) && Declared(rt, l) == Some(a)
    ensures Stored(a, v)
  {
  }

  /** One attribute of the merge. */
  lemma {:induction false} AttrMerged(lx: Lexicon, rt: ResourceType, inc: Doc, cur: Doc, urn: string, path: string, a: Attribute)
    requires Canonical(rt, inc) && Canonical(rt, cur) && Reaches(rt, urn, path, a.name)
    ensures var (r, l) := (MergeAttr(lx, rt, inc, cur, path, a.access), Loc(urn, Fold(a.name)));
            var verdict := AttrVerdict(a.access, Slot(inc, l), Slot(cur, l));
            if verdict.Some? then r == Err(verdict.value) else r.Ok? && Merged(rt, inc, r.value, cur, Guarded(urn, a))
  {
    hide ResolvePath, Canonical, Slot, GetResolved, Set, Declared, Settable, Sound, Writable, Merged;
    var rp := ResolvePath(rt, path).value;
    SoundNames(rt, rp);
    GetSlot(rt, cur, rp);
    GetSlot(rt, inc, rp);
    MergedNone(rt, inc, cur);
    AlreadyMerged(rt, inc, cur, LocOf(rp));
    if Slot(cur, LocOf(rp)).Some? { CopyOver(lx, rt, inc, cur, path, rp); }
  }

  lemma AlreadyMerged(rt: ResourceType, inc: Doc, cur: Doc, l: Loc)
    requires Canonical(rt, inc)
    ensures Slot(cur, l).None? || Slot(inc, l) == Slot(cur, l) ==> Merged(rt, inc, inc, cur, iset{l})
  {
  }

  /** The path the merge uses for the attribute resolves to its location. */
  predicate Reaches(rt: ResourceType, urn: string, path: string, name: string) {
    var rp := ResolvePath(rt, path);
    rp.Ok? && Sound(rt, rp.value) && Settable(rp.value) && rp.value.sub.None? && LocOf(rp.value) == Loc(urn, Fold(name))
  }

  predicate AllReach(rt: ResourceType, urn: string, prefix: string, attrs: seq<Attribute>) {
    forall a <- attrs :: Reaches(rt, urn, prefix + a.name, a.name)
  }

  /** The first failure among the attributes, when their locations are apart. */
  function AttrsVerdict(inc: Doc, cur: Doc, urn: string, attrs: seq<Attribute>): Option<Kind> {
    if attrs == [] then None
    else
      var l := Loc(urn, Fold(attrs[0].name));
      var first := AttrVerdict(attrs[0].access, Slot(inc, l), Slot(cur, l));
      if first.Some? then first else AttrsVerdict(inc, cur, urn, attrs[1..])
  }

  lemma {:induction false} AttrsMerged(lx: Lexicon, rt: ResourceType, inc: Doc, cur: Doc, urn: string, prefix: string, attrs: seq<Attribute>)
    requires Canonical(rt, inc) && Canonical(rt, cur) && AllReach(rt, urn, prefix, attrs)
    ensures var r := MergeAttrs(lx, rt, inc, cur, prefix, attrs); r.Ok? ==> Merged(rt, inc, r.value, cur, GuardedAll(urn, attrs))
    decreases |attrs|
  {
    hide Canonical, Slot, Merged, MergeAttr, Guarded, Reaches;
    if attrs == [] {
      MergedNone(rt, inc, cur);
      assert GuardedAll(urn, attrs) == iset{};
    } else {
      var a := attrs[0];
      assert a in attrs;
      AttrMerged(lx, rt, inc, cur, urn, prefix + a.name, a);
      var r1 := MergeAttr(lx, rt, inc, cur, prefix + a.name, a.access);
      if r1.Ok? {
        MergedCanonical(rt, inc, r1.value, cur, Guarded(urn, a));
        AttrsMerged(lx, rt, r1.value, cur, urn, prefix, attrs[1..]);
        var r := MergeAttrs(lx, rt, r1.value, cur, prefix, attrs[1..]);
        if r.Ok? {
          MergedThen(rt, inc, r1.value, r.value, cur, Guarded(urn, a), GuardedAll(urn, attrs[1..]));
          GuardedFirst(urn, attrs);
        }
      }
    }
  }

  lemma {:induction false} GuardedFirst(urn: string, attrs: seq<Attribute>)
    requires attrs != []
    ensures GuardedAll(urn, attrs) == Guarded(urn, attrs[0]) + GuardedAll(urn, attrs[1..])
  {
    hide Guarded;
    assert forall a <- attrs :: a == attrs[0] || a in attrs[1..];
  }

  /** No two attributes of the list have the same folded name, as Schema.Validate demands. */
  predicate DistinctNames(attrs: seq<Attribute>) {
    forall i, j :: 0 <= i < j < |attrs| ==> Fold(attrs[i].name) != Fold(attrs[j].name)
  }

  lemma {:induction false} AttrsDecided(lx: Lexicon, rt: ResourceType, inc: Doc, cur: Doc, urn: string, prefix: string, attrs: seq<Attribute>)
    requires Canonical(rt, inc) && Canonical(rt, cur) && AllReach(rt, urn, prefix, attrs) && DistinctNames(attrs)
    ensures var (r, verdict) := (MergeAttrs(lx, rt, inc, cur, prefix, attrs), AttrsVerdict(inc, cur, urn, attrs));
            if verdict.Some? then r == Err(verdict.value) else r.Ok?
    decreases |attrs|
  {
    hide Canonical, Slot, Merged, MergeAttr, AttrVerdict, Reaches, Fold;
    if attrs != [] {
      var a := attrs[0];
      assert a in attrs;
      AttrMerged(lx, rt, inc, cur, urn, prefix + a.name, a);
      var r1 := MergeAttr(lx, rt, inc, cur, prefix + a.name, a.access);
      if r1.Ok? {
        MergedCanonical(rt, inc, r1.value, cur, Guarded(urn, a));
        assert forall i :: 0 <= i < |attrs| - 1 ==> attrs[1..][i] == attrs[i + 1];
        AttrsDecided(lx, rt, r1.value, cur, urn, prefix, attrs[1..]);
        forall b <- attrs[1..] ensures Slot(r1.value, Loc(urn, Fold(b.name))) == Slot(inc, Loc(urn, Fold(b.name))) {
          MergedElsewhere(rt, inc, r1.value, cur, urn, a, Loc(urn, Fold(b.name)));
        }
        VerdictFrame(inc, r1.value, cur, urn, attrs[1..]);
      }
    }
  }

  lemma MergedElsewhere(rt: ResourceType, inc: Doc, next: Doc, cur: Doc, urn: string, a: Attribute, l: Loc)
    requires Merged(rt, inc, next, cur, Guarded(urn, a)) && l != Loc(urn, Fold(a.name))
    ensures Slot(next, l) == Slot(inc, l)
  {
  }

  lemma {:induction false} VerdictFrame(inc: Doc, next: Doc, cur: Doc, urn: string, attrs: seq<Attribute>)
    requires forall b <- attrs :: Slot(next, Loc(urn, Fold(b.name))) == Slot(inc, Loc(urn, Fold(b.name)))
    ensures AttrsVerdict(next, cur, urn, attrs) == AttrsVerdict(inc, cur, urn, attrs)
  {
    hide Slot, Fold, AttrVerdict;
    if attrs != [] { VerdictFrame(inc, next, cur, urn, attrs[1..]); }
  }

  lemma {:induction false} CoreReaches(rt: ResourceType)
    requires Regular(rt)
    ensures AllReach(rt, "", "", rt.core.attrs)
  {
    hide Regular, ResolvePath, Sound, LocOf;
    forall a <- rt.core.attrs ensures Reaches(rt, "", "" + a.name, a.name) {
      assert "" + a.name == a.name;
      assert FindAttribute(rt.core.attrs, a.name).Some?;
      KeyResolves(rt, a.name);
      CoreSettable(rt, ResolvePath(rt, a.name).value, a.name);
    }
  }

  lemma {:induction false} CoreSettable(rt: ResourceType, rp: Resolved, name: string)
    requires Sound(rt, rp) && LocOf(rp) == Loc("", Fold(name)) && FindAttribute(rt.core.attrs, name).Some?
    ensures Settable(rp)
  {
    CoreFlags(rt, rp, name);
  }

  lemma {:induction false} ExtReaches(rt: ResourceType, x: SchemaDef)
    requires Regular(rt) && x in rt.exts
    ensures AllReach(rt, Fold(x.id), x.id + ":", x.attrs)
  {
    hide Regular, ResolvePath, Sound;
    RegularSchemas(rt);
    OwnSchema(rt, x);
    forall a <- x.attrs ensures Reaches(rt, Fold(x.id), x.id + ":" + a.name, a.name) {
      assert FindAttribute(x.attrs, a.name).Some?;
      ExtensionKeyResolves(rt, x.id, x, a.name);
      ExtSettable(rt, x, ResolvePath(rt, x.id + ":" + a.name).value);
    }
  }

  lemma RegularSchemas(rt: ResourceType)
    requires Regular(rt)
    ensures SeparateSchemas(rt)
  {
  }

  lemma {:induction false} ExtSettable(rt: ResourceType, x: SchemaDef, rp: Resolved)
    requires SeparateSchemas(rt) && x in rt.exts && Sound(rt, rp) && LocOf(rp).urn == Fold(x.id)
    ensures Settable(rp)
  {
    UrnByFold(rt, x, x.id);
    assert |Fold(x.id)| == |x.id| && |Fold(rp.urn)| == |rp.urn|;
  }

  ghost predicate ExtGuardsAt(exts: seq<SchemaDef>, l: Loc) {
    exists x <- exts :: l in GuardedAll(Fold(x.id), x.attrs)
  }

  ghost function GuardedExts(exts: seq<SchemaDef>): iset<Loc> {
    iset l: Loc | ExtGuardsAt(exts, l)
  }

  lemma {:induction false} ExtsFirst(exts: seq<SchemaDef>)
    requires exts != []
    ensures GuardedExts(exts) == GuardedAll(Fold(exts[0].id), exts[0].attrs) + GuardedExts(exts[1..])
  {
    hide GuardedAll, Fold;
    assert forall x <- exts :: x == exts[0] || x in exts[1..];
  }

  lemma {:induction false} ExtsMerged(lx: Lexicon, rt: ResourceType, inc: Doc, cur: Doc, exts: seq<SchemaDef>)
    requires Regular(rt) && Canonical(rt, inc) && Canonical(rt, cur) && forall x <- exts :: x in rt.exts
    ensures var r := MergeExts(lx, rt, inc, cur, exts); r.Ok? ==> Merged(rt, inc, r.value, cur, GuardedExts(exts))
    decreases |exts|
  {
    hide Regular, Canonical, Slot, Merged, MergeAttrs, GuardedAll, AllReach;
    if exts == [] {
      MergedNone(rt, inc, cur);
      assert GuardedExts(exts) == iset{};
    } else {
      var x := exts[0];
      assert x in exts;
      var r1 := MergeAttrs(lx, rt, inc, cur, x.id + ":", x.attrs);
      if r1.Ok? {
        ExtReaches(rt, x);
        AttrsMerged(lx, rt, inc, cur, Fold(x.id), x.id + ":", x.attrs);
        MergedCanonical(rt, inc, r1.value, cur, GuardedAll(Fold(x.id), x.attrs));
        ExtsMerged(lx, rt, r1.value, cur, exts[1..]);
        var r := MergeExts(lx, rt, r1.value, cur, exts[1..]);
        if r.Ok? {
          MergedThen(rt, inc, r1.value, r.value, cur, GuardedAll(Fold(x.id), x.attrs), GuardedExts(exts[1..]));
          ExtsFirst(exts);
        }
      }
    }
  }

  /** The first failure among the extensions. */
  function ExtsVerdict(inc: Doc, cur: Doc, exts: seq<SchemaDef>): Option<Kind> {
    if exts == [] then None
    else
      var first := AttrsVerdict(inc, cur, Fold(exts[0].id), exts[0].attrs);
      if first.Some? then first else ExtsVerdict(inc, cur, exts[1..])
  }

  lemma {:induction false} ExtsDecided(lx: Lexicon, rt: ResourceType, inc: Doc, cur: Doc, exts: seq<SchemaDef>)
    requires Regular(rt) && Canonical(rt, inc) && Canonical(rt, cur)
    requires (forall x <- exts :: x in rt.exts && DistinctNames(x.attrs)) && DistinctIds(exts)
    ensures var (r, verdict) := (MergeExts(lx, rt, inc, cur, exts), ExtsVerdict(inc, cur, exts));
            if verdict.Some? then r == Err(verdict.value) else r.Ok?
    decreases |exts|
  {
    hide Regular, Canonical, Slot, Merged, MergeAttrs, GuardedAll, AllReach, DistinctNames, AttrsVerdict, Fold;
    if exts != [] {
      var x := exts[0];
      assert x in exts;
      ExtReaches(rt, x);
      AttrsDecided(lx, rt, inc, cur, Fold(x.id), x.id + ":", x.attrs);
      var r1 := MergeAttrs(lx, rt, inc, cur, x.id + ":", x.attrs);
      if r1.Ok? {
        AttrsMerged(lx, rt, inc, cur, Fold(x.id), x.id + ":", x.attrs);
        MergedCanonical(rt, inc, r1.value, cur, GuardedAll(Fold(x.id), x.attrs));
        assert forall i :: 0 <= i < |exts| - 1 ==> exts[1..][i] == exts[i + 1];
        ExtsDecided(lx, rt, r1.value, cur, exts[1..]);
        UrnFrame(rt, inc, r1.value, cur, x);
        ExtsFrame(inc, r1.value, cur, Fold(x.id), exts[1..]);
      }
    }
  }

  /** No two extensions have the same identifier. */
  predicate DistinctIds(exts: seq<SchemaDef>) {
    forall i, j :: 0 <= i < j < |exts| ==> Fold(exts[i].id) != Fold(exts[j].id)
  }

  /** Merging one extension leaves the other schemas' attributes alone. */
  lemma UrnFrame(rt: ResourceType, inc: Doc, next: Doc, cur: Doc, x: SchemaDef)
    requires Merged(rt, inc, next, cur, GuardedAll(Fold(x.id), x.attrs))
    ensures forall l: Loc :: l.urn != Fold(x.id) ==> Slot(next, l) == Slot(inc, l)
  {
  }

  lemma {:induction false} ExtsFrame(inc: Doc, next: Doc, cur: Doc, urn: string, exts: seq<SchemaDef>)
    requires (forall l: Loc :: l.urn != urn ==> Slot(next, l) == Slot(inc, l)) && forall x <- exts :: Fold(x.id) != urn
    ensures ExtsVerdict(next, cur, exts) == ExtsVerdict(inc, cur, exts)
  {
    hide Slot, Fold, AttrsVerdict;
    if exts != [] {
      VerdictFrame(inc, next, cur, Fold(exts[0].id), exts[0].attrs);
      ExtsFrame(inc, next, cur, urn, exts[1..]);
    }
  }

  /** An attribute of a schema of the resource type, by its location. */
  ghost predicate SchemaAttr(rt: ResourceType, l: Loc, a: Attribute) {
    && l.key == Fold(a.name)
    && ((l.urn == "" && a in rt.core.attrs) || exists x <- rt.exts :: l.urn == Fold(x.id) && a in x.attrs)
  }

  /** A location the merge guards: that of a readOnly or immutable attribute of a schema. */
  ghost predicate Shielded(rt: ResourceType, l: Loc) {
    exists a :: SchemaAttr(rt, l, a) && Protected(a)
  }

  lemma {:induction false} ShieldedIff(rt: ResourceType, l: Loc)
    ensures l in GuardedAll("", rt.core.attrs) + GuardedExts(rt.exts) <==> Shielded(rt, l)
  {
    if l in GuardedAll("", rt.core.attrs) {
      var a :| a in rt.core.attrs && l in Guarded("", a);
      assert SchemaAttr(rt, l, a);
    }
    if l in GuardedExts(rt.exts) {
      var x :| x in rt.exts && l in GuardedAll(Fold(x.id), x.attrs);
      var a :| a in x.attrs && l in Guarded(Fold(x.id), a);
      assert SchemaAttr(rt, l, a);
    }
    if Shielded(rt, l) {
      var a :| SchemaAttr(rt, l, a) && Protected(a);
      if !(l.urn == "" && a in rt.core.attrs) {
        var x :| x in rt.exts && l.urn == Fold(x.id) && a in x.attrs;
        assert l in Guarded(Fold(x.id), a);
        assert l in GuardedAll(Fold(x.id), x.attrs);
      } else {
        assert l in Guarded("", a);
      }
    }
  }

  /** What an accepted PUT leaves at a location: the current resource's id; the current value of
      a readOnly or immutable attribute that has one; and everywhere else what the request had
      there, nothing included. */
  ghost function PutSlot(rt: ResourceType, inc: Doc, cur: Doc, l: Loc): Option<Value> {
    if l == Loc("", ID) || (Shielded(rt, l) && Slot(cur, l).Some?) then Slot(cur, l) else Slot(inc, l)
  }

  /** An accepted PUT keeps the id, every readOnly and immutable attribute the current resource
      assigns, and its metadata but for the modification time; everything else becomes what the
      request says, and the result is canonical. */
  lemma {:induction false} MergeRetains(lx: Lexicon, rt: ResourceType, inc: Doc, cur: Doc, now: Moment, id: string)
    requires StoreType(rt) && Canonical(rt, inc) && Canonical(rt, cur) && Lookup(cur.attrs, ID) == Some(Str(id))
    ensures var r := Merge(lx, rt, inc, cur, now);
            r.Ok? ==>
              && Canonical(rt, r.value) && r.value.meta == cur.meta.(lastModified := Some(now))
              && Lookup(r.value.attrs, ID) == Some(Str(id))
              && (forall l: Loc :: Slot(r.value, l) == PutSlot(rt, inc, cur, l))
  {
    hide StoreType, Canonical, Merged, MergeAttrs, MergeExts, Shielded, GuardedAll, GuardedExts, Slot, Set;
    var core := MergeAttrs(lx, rt, inc, cur, "", rt.core.attrs);
    if core.Ok? && MergeExts(lx, rt, core.value, cur, rt.exts).Ok? {
      var all := MergeExts(lx, rt, core.value, cur, rt.exts).value;
      var ls := GuardedAll("", rt.core.attrs) + GuardedExts(rt.exts);
      StoreRegular(rt);
      CoreReaches(rt);
      AttrsMerged(lx, rt, inc, cur, "", "", rt.core.attrs);
      MergedCanonical(rt, inc, core.value, cur, GuardedAll("", rt.core.attrs));
      ExtsMerged(lx, rt, core.value, cur, rt.exts);
      MergedThen(rt, inc, core.value, all, cur, GuardedAll("", rt.core.attrs), GuardedExts(rt.exts));
      MergedCanonical(rt, inc, all, cur, ls);
      IdAttribute(lx, rt, all, id);
      IdAttribute(lx, rt, cur, id);
      var m := Touched(WithId(all, id).(meta := cur.meta), now);
      MetaApart(rt, WithId(all, id), m.meta);
      NamedMerged(rt, inc, all, cur, id, m.meta, ls);
      forall l: Loc ensures Slot(m, l) == PutSlot(rt, inc, cur, l) {
        ShieldedIff(rt, l);
      }
    }
  }

  lemma StoreRegular(rt: ResourceType)
    requires StoreType(rt)
    ensures Regular(rt)
  {
  }

  /** Writing the current id. */
  lemma {:induction false} NamedMerged(rt: ResourceType, inc: Doc, all: Doc, cur: Doc, id: string, m: Meta, ls: iset<Loc>)
    requires Merged(rt, inc, all, cur, ls) && Lookup(cur.attrs, ID) == Some(Str(id))
    ensures var d := WithId(all, id).(meta := m);
            forall l: Loc :: Slot(d, l) == if l == Loc("", ID) || (l in ls && Slot(cur, l).Some?) then Slot(cur, l) else Slot(inc, l)
  {
    hide Canonical;
  }

  /** Attribute names are distinct within each schema, as the server demands of its schemas. */
  predicate DistinctAttrs(rt: ResourceType) {
    DistinctNames(rt.core.attrs) && forall x <- rt.exts :: DistinctNames(x.attrs)
  }

  /** An immutable attribute the current resource assigns is sent with another value. */
  ghost predicate Contradicts(rt: ResourceType, inc: Doc, cur: Doc, l: Loc, a: Attribute) {
    SchemaAttr(rt, l, a) && a.access == Immutable && Slot(cur, l).Some? && Slot(inc, l).Some? && Slot(inc, l) != Slot(cur, l)
  }

  /** A value to carry over that Set does not take back. */
  ghost predicate Stuck(rt: ResourceType, inc: Doc, cur: Doc, l: Loc, a: Attribute) {
    SchemaAttr(rt, l, a) && Protected(a) && Slot(cur, l).Some? && !Writable(Slot(cur, l).value) && (a.access == ReadOnly || Slot(inc, l).None?)
  }

  lemma {:induction false} AttrsVerdictIs(inc: Doc, cur: Doc, urn: string, attrs: seq<Attribute>)
    ensures var verdict := AttrsVerdict(inc, cur, urn, attrs);
            && (verdict.None? <==> forall a <- attrs :: AttrVerdict(a.access, Slot(inc, Loc(urn, Fold(a.name))), Slot(cur, Loc(urn, Fold(a.name)))).None?)
            && (verdict.Some? ==> exists a <- attrs :: AttrVerdict(a.access, Slot(inc, Loc(urn, Fold(a.name))), Slot(cur, Loc(urn, Fold(a.name)))) == verdict)
  {
    hide AttrVerdict, Slot, Fold;
    if attrs != [] {
      AttrsVerdictIs(inc, cur, urn, attrs[1..]);
      assert forall a <- attrs :: a == attrs[0] || a in attrs[1..];
    }
  }

  lemma {:induction false} ExtsVerdictIs(inc: Doc, cur: Doc, exts: seq<SchemaDef>)
    ensures var verdict := ExtsVerdict(inc, cur, exts);
            && (verdict.None? <==> forall x <- exts :: AttrsVerdict(inc, cur, Fold(x.id), x.attrs).None?)
            && (verdict.Some? ==> exists x <- exts :: AttrsVerdict(inc, cur, Fold(x.id), x.attrs) == verdict)
  {
    hide AttrsVerdict, Fold;
    if exts != [] {
      ExtsVerdictIs(inc, cur, exts[1..]);
      assert forall x <- exts :: x == exts[0] || x in exts[1..];
    }
  }

  /** The verdict of the whole merge. */
  function PutVerdict(rt: ResourceType, inc: Doc, cur: Doc): Option<Kind> {
    var core := AttrsVerdict(inc, cur, "", rt.core.attrs);
    if core.Some? then core else ExtsVerdict(inc, cur, rt.exts)
  }

  lemma {:induction false} PutDecided(lx: Lexicon, rt: ResourceType, inc: Doc, cur: Doc, now: Moment, id: string)
    requires StoreType(rt) && DistinctAttrs(rt) && Canonical(rt, inc) && Canonical(rt, cur) && Lookup(cur.attrs, ID) == Some(Str(id))
    ensures var (r, verdict) := (Merge(lx, rt, inc, cur, now), PutVerdict(rt, inc, cur));
            if verdict.Some? then r == Err(verdict.value) else r.Ok?
  {
    hide Regular, Canonical, Merged, MergeAttrs, MergeExts, DistinctNames, Slot, Set, GuardedAll, GuardedExts, AttrsVerdict, ExtsVerdict;
    StoreRegular(rt);
    CoreReaches(rt);
    AttrsDecided(lx, rt, inc, cur, "", "", rt.core.attrs);
    var core := MergeAttrs(lx, rt, inc, cur, "", rt.core.attrs);
    if core.Ok? {
      AttrsMerged(lx, rt, inc, cur, "", "", rt.core.attrs);
      MergedCanonical(rt, inc, core.value, cur, GuardedAll("", rt.core.attrs));
      SchemasApart(rt);
      ExtsDecided(lx, rt, core.value, cur, rt.exts);
      CoreFrame(rt, inc, core.value, cur);
      ExtsFrame(inc, core.value, cur, "", rt.exts);
      var all := MergeExts(lx, rt, core.value, cur, rt.exts);
      if all.Ok? {
        IdAttribute(lx, rt, all.value, id);
        IdAttribute(lx, rt, cur, id);
      }
    }
  }

  lemma {:induction false} SchemasApart(rt: ResourceType)
    requires Regular(rt)
    ensures DistinctIds(rt.exts) && forall x <- rt.exts :: Fold(x.id) != ""
  {
    hide FlatType, NamesValid, TextsFree;
    forall x <- rt.exts ensures Fold(x.id) != "" {
      assert UrnShaped(x.id);
    }
  }

  lemma CoreFrame(rt: ResourceType, inc: Doc, next: Doc, cur: Doc)
    requires Merged(rt, inc, next, cur, GuardedAll("", rt.core.attrs))
    ensures forall l: Loc :: l.urn != "" ==> Slot(next, l) == Slot(inc, l)
  {
  }

  lemma VerdictIs(rt: ResourceType, inc: Doc, cur: Doc, l: Loc, a: Attribute)
    requires SchemaAttr(rt, l, a)
    ensures var verdict := AttrVerdict(a.access, Slot(inc, l), Slot(cur, l));
            && (verdict == Some(Mutability) <==> Contradicts(rt, inc, cur, l, a))
            && (verdict == Some(InvalidValue) <==> Stuck(rt, inc, cur, l, a))
            && (verdict.Some? ==> verdict.value == Mutability || verdict.value == InvalidValue)
  {
    hide Slot, Writable;
  }

  lemma {:induction false} FailingAttr(rt: ResourceType, inc: Doc, cur: Doc) returns (l: Loc, a: Attribute)
    requires PutVerdict(rt, inc, cur).Some?
    ensures SchemaAttr(rt, l, a) && AttrVerdict(a.access, Slot(inc, l), Slot(cur, l)) == PutVerdict(rt, inc, cur)
  {
    hide AttrVerdict, AttrsVerdict, ExtsVerdict, Slot, Fold;
    var verdict := PutVerdict(rt, inc, cur);
    if AttrsVerdict(inc, cur, "", rt.core.attrs).Some? {
      AttrsVerdictIs(inc, cur, "", rt.core.attrs);
      a :| a in rt.core.attrs && AttrVerdict(a.access, Slot(inc, Loc("", Fold(a.name))), Slot(cur, Loc("", Fold(a.name)))) == verdict;
      l := Loc("", Fold(a.name));
    } else {
      ExtsVerdictIs(inc, cur, rt.exts);
      var x :| x in rt.exts && AttrsVerdict(inc, cur, Fold(x.id), x.attrs) == verdict;
      AttrsVerdictIs(inc, cur, Fold(x.id), x.attrs);
      a :| a in x.attrs && AttrVerdict(a.access, Slot(inc, Loc(Fold(x.id), Fold(a.name))), Slot(cur, Loc(Fold(x.id), Fold(a.name)))) == verdict;
      l := Loc(Fold(x.id), Fold(a.name));
    }
  }

  lemma {:induction false} PassingAttr(rt: ResourceType, inc: Doc, cur: Doc, l: Loc, a: Attribute)
    requires PutVerdict(rt, inc, cur).None?
    ensures !Contradicts(rt, inc, cur, l, a) && !Stuck(rt, inc, cur, l, a)
  {
    hide AttrVerdict, AttrsVerdict, ExtsVerdict, Slot, Fold, Contradicts, Stuck;
    AttrsVerdictIs(inc, cur, "", rt.core.attrs);
    ExtsVerdictIs(inc, cur, rt.exts);
    if SchemaAttr(rt, l, a) {
      VerdictIs(rt, inc, cur, l, a);
      if !(l.urn == "" && a in rt.core.attrs) {
        var x :| x in rt.exts && l.urn == Fold(x.id) && a in x.attrs;
        AttrsVerdictIs(inc, cur, Fold(x.id), x.attrs);
      }
    } else {
      NotOfSchema(rt, inc, cur, l, a);
    }
  }

  lemma NotOfSchema(rt: ResourceType, inc: Doc, cur: Doc, l: Loc, a: Attribute)
    requires !SchemaAttr(rt, l, a)
    ensures !Contradicts(rt, inc, cur, l, a) && !Stuck(rt, inc, cur, l, a)
  {
  }

  /** A PUT is accepted exactly when no immutable attribute that is assigned is sent with another
      value and every protected value to carry over is one Set takes back; it fails with
      mutability only for the first reason, and, if everything can be carried over, exactly for
      it. */
  lemma {:induction false} MergeIff(lx: Lexicon, rt: ResourceType, inc: Doc, cur: Doc, now: Moment, id: string)
    requires StoreType(rt) && DistinctAttrs(rt) && Canonical(rt, inc) && Canonical(rt, cur) && Lookup(cur.attrs, ID) == Some(Str(id))
    ensures var r := Merge(lx, rt, inc, cur, now);
            && (r.Ok? <==> forall l: Loc, a :: !Contradicts(rt, inc, cur, l, a) && !Stuck(rt, inc, cur, l, a))
            && (r.Err? ==> if r.kind == Mutability then exists l: Loc, a :: Contradicts(rt, inc, cur, l, a)
                           else r.kind == InvalidValue && exists l: Loc, a :: Stuck(rt, inc, cur, l, a))
  {
    hide *;
    PutDecided(lx, rt, inc, cur, now, id);
    if PutVerdict(rt, inc, cur).Some? {
      var l, a := FailingAttr(rt, inc, cur);
      VerdictIs(rt, inc, cur, l, a);
    } else {
      forall l: Loc, a ensures !Contradicts(rt, inc, cur, l, a) && !Stuck(rt, inc, cur, l, a) {
        PassingAttr(rt, inc, cur, l, a);
      }
    }
  }

  // ----- The merge in place -----

  /** The body of mergePutAttrs's loop, mergeImmutable included. */
  method MergeAttrInto(lx: Lexicon, incoming: Resource, current: Resource, path: string, access: Access) returns (fail: Option<Kind>)
    requires incoming.Valid() && current.Valid() && Independent(incoming, current) && incoming.rt == current.rt
    modifies incoming.Repr()
    ensures incoming.Valid() && fresh(incoming.Repr() - old(incoming.Repr())) && fresh(incoming.Shared() - old(incoming.Shared()))
    ensures var spec := MergeAttr(lx, incoming.rt, old(incoming.View()), old(current.View()), path, access);
            if spec.Ok? then fail.None? && incoming.View() == spec.value else fail == Some(spec.kind)
  {
    hide Get, Set, Resource.View, Resource.Valid;
    fail := None;
    var was := current.Fetch(path);
    if was.None? { return; }
    if access == ReadOnly {
      fail := incoming.Set(lx, path, was.value);
    } else if access == Immutable {
      var now := incoming.Fetch(path);
      if now.None? {
        fail := incoming.Set(lx, path, was.value);
      } else if now != was {
        fail := Some(Mutability);
      }
    }
  }

  /** mergePutAttrs. */
  method MergeAttrsInto(lx: Lexicon, incoming: Resource, current: Resource, prefix: string, attrs: seq<Attribute>) returns (fail: Option<Kind>)
    requires incoming.Valid() && current.Valid() && Independent(incoming, current) && incoming.rt == current.rt
    modifies incoming.Repr()
    ensures incoming.Valid() && fresh(incoming.Repr() - old(incoming.Repr())) && fresh(incoming.Shared() - old(incoming.Shared()))
    ensures current.Valid() && current.View() == old(current.View()) && Independent(incoming, current)
    ensures var spec := MergeAttrs(lx, incoming.rt, old(incoming.View()), old(current.View()), prefix, attrs);
            if spec.Ok? then fail.None? && incoming.View() == spec.value else fail == Some(spec.kind)
  {
    hide MergeAttr, Container.View, Container.Valid, Family, FamilyView;
    for i := 0 to |attrs|
      invariant incoming.Valid() && fresh(incoming.Repr() - old(incoming.Repr())) && fresh(incoming.Shared() - old(incoming.Shared()))
      invariant current.Valid() && current.View() == old(current.View()) && Independent(incoming, current)
      invariant MergeAttrs(lx, incoming.rt, old(incoming.View()), old(current.View()), prefix, attrs) ==
                MergeAttrs(lx, incoming.rt, incoming.View(), current.View(), prefix, attrs[i..])
    {
      assert attrs[i..][1..] == attrs[i + 1..];
      fail := MergeAttrInto(lx, incoming, current, prefix + attrs[i].name, attrs[i].access);
      if fail.Some? { return; }
    }
    assert attrs[|attrs|..] == [];
    fail := None;
  }

  /** The extension loop of mergePut. */
  method MergeExtsInto(lx: Lexicon, incoming: Resource, current: Resource) returns (fail: Option<Kind>)
    requires incoming.Valid() && current.Valid() && Independent(incoming, current) && incoming.rt == current.rt
    modifies incoming.Repr()
    ensures incoming.Valid() && fresh(incoming.Repr() - old(incoming.Repr())) && fresh(incoming.Shared() - old(incoming.Shared()))
    ensures current.Valid() && current.View() == old(current.View()) && Independent(incoming, current)
    ensures var spec := MergeExts(lx, incoming.rt, old(incoming.View()), old(current.View()), incoming.rt.exts);
            if spec.Ok? then fail.None? && incoming.View() == spec.value else fail == Some(spec.kind)
  {
    hide MergeAttrs, Container.View, Container.Valid, Family, FamilyView;
    var exts := incoming.rt.exts;
    for i := 0 to |exts|
      invariant incoming.Valid() && fresh(incoming.Repr() - old(incoming.Repr())) && fresh(incoming.Shared() - old(incoming.Shared()))
      invariant current.Valid() && current.View() == old(current.View()) && Independent(incoming, current)
      invariant MergeExts(lx, incoming.rt, old(incoming.View()), old(current.View()), exts) ==
                MergeExts(lx, incoming.rt, incoming.View(), current.View(), exts[i..])
    {
      assert exts[i..][1..] == exts[i + 1..];
      fail := MergeAttrsInto(lx, incoming, current, exts[i].id + ":", exts[i].attrs);
      if fail.Some? { return; }
    }
    assert exts[|exts|..] == [];
    fail := None;
  }

  /** mergePut: the request's resource becomes the merge; the current one is only read. */
  method MergeInto(lx: Lexicon, incoming: Resource, current: Resource, now: Moment) returns (fail: Option<Kind>)
    requires incoming.Valid() && current.Valid() && Independent(incoming, current) && incoming.rt == current.rt
    modifies incoming.Repr()
    ensures incoming.Valid() && fresh(incoming.Repr() - old(incoming.Repr())) && fresh(incoming.Shared() - old(incoming.Shared()))
    ensures current.Valid() && current.View() == old(current.View()) && Independent(incoming, current)
    ensures var spec := Merge(lx, incoming.rt, old(incoming.View()), old(current.View()), now);
            if spec.Ok? then fail.None? && incoming.View() == spec.value else fail == Some(spec.kind)
  {
    hide MergeAttrs, MergeExts, Finish, Resource.View, Resource.Valid;
    fail := MergeSchemasInto(lx, incoming, current);
    if fail.None? { fail := FinishInto(lx, incoming, current, now); }
  }

  method MergeSchemasInto(lx: Lexicon, incoming: Resource, current: Resource) returns (fail: Option<Kind>)
    requires incoming.Valid() && current.Valid() && Independent(incoming, current) && incoming.rt == current.rt
    modifies incoming.Repr()
    ensures incoming.Valid() && fresh(incoming.Repr() - old(incoming.Repr())) && fresh(incoming.Shared() - old(incoming.Shared()))
    ensures current.Valid() && current.View() == old(current.View()) && Independent(incoming, current)
    ensures var core := MergeAttrs(lx, incoming.rt, old(incoming.View()), old(current.View()), "", incoming.rt.core.attrs);
            var spec := if core.Err? then core else MergeExts(lx, incoming.rt, core.value, old(current.View()), incoming.rt.exts);
            if spec.Ok? then fail.None? && incoming.View() == spec.value else fail == Some(spec.kind)
  {
    hide MergeAttrs, MergeExts, Resource.View, Resource.Valid;
    fail := MergeAttrsInto(lx, incoming, current, "", incoming.rt.core.attrs);
    if fail.None? {
      fail := MergeExtsInto(lx, incoming, current);
    }
  }

  /** The identity and the metadata of the merge. */
  method FinishInto(lx: Lexicon, incoming: Resource, current: Resource, now: Moment) returns (fail: Option<Kind>)
    requires incoming.Valid() && current.Valid() && Independent(incoming, current) && incoming.rt == current.rt
    modifies incoming.Repr()
    ensures incoming.Valid() && fresh(incoming.Repr() - old(incoming.Repr())) && fresh(incoming.Shared() - old(incoming.Shared()))
    ensures current.Valid() && current.View() == old(current.View()) && Independent(incoming, current)
    ensures var spec := Finish(lx, incoming.rt, old(incoming.View()), old(current.View()), now);
            if spec.Ok? then fail.None? && incoming.View() == spec.value else fail == Some(spec.kind)
  {
    hide Get, Set, Container.View, Container.Valid, Family, FamilyView;
    var meta := current.meta.(lastModified := Some(now));
    fail := NameInto(lx, incoming, current);
    if fail.None? { incoming.SetMeta(meta); }
  }

  method NameInto(lx: Lexicon, incoming: Resource, current: Resource) returns (fail: Option<Kind>)
    requires incoming.Valid() && current.Valid() && Independent(incoming, current) && incoming.rt == current.rt
    modifies incoming.Repr()
    ensures incoming.Valid() && fresh(incoming.Repr() - old(incoming.Repr())) && fresh(incoming.Shared() - old(incoming.Shared()))
    ensures current.Valid() && current.View() == old(current.View()) && Independent(incoming, current)
    ensures var spec := Set(lx, incoming.rt, old(incoming.View()), ID, GetOrNil(incoming.rt, old(current.View()), ID));
            if spec.Ok? then fail.None? && incoming.View() == spec.value else fail == Some(spec.kind)
  {
    hide Get, Set, Resource.View, Resource.Valid;
    var id := current.Fetch(ID);
    fail := WriteInto(lx, incoming, current, ID, if id.None? then Nil else id.value);
  }

  /** One write to the request's resource. */
  method WriteInto(lx: Lexicon, incoming: Resource, current: Resource, path: string, v: Value) returns (fail: Option<Kind>)
    requires incoming.Valid() && current.Valid() && Independent(incoming, current)
    modifies incoming.Repr()
    ensures incoming.Valid() && fresh(incoming.Repr() - old(incoming.Repr())) && fresh(incoming.Shared() - old(incoming.Shared()))
    ensures current.Valid() && current.View() == old(current.View()) && Independent(incoming, current)
    ensures var spec := Set(lx, incoming.rt, old(incoming.View()), path, v);
            if spec.Ok? then fail.None? && incoming.View() == spec.value else fail == Some(spec.kind)
  {
    hide Set, Resource.View, Container.View, Container.Valid, Family, FamilyView;
    fail := incoming.Set(lx, path, v);
  }
}
