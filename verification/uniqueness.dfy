/** Which writes the store refuses for uniqueness (server/memstore/memstore.go), in terms of the
    schema: the folded texts held by core attributes declared unique. */
module Uniqueness {
  import opened Text
  import opened Schema
  import opened Values
  import opened Paths
  import opened Documents
  import opened DocumentFacts
  import opened PatchRules
  import opened PatchSpec
  import opened PatchFacts
  import opened Versions
  import opened StoreState
  import opened StoreRuns
  import opened Memstore

  /** The folded texts of a value: of a string, or of the members of a list of strings. */
  function Texts(v: Option<Value>): set<string> {
    if v.Some? && v.value.Str? then {Fold(v.value.s)}
    else if v.Some? && v.value.Slice? && v.value.typ == TString then set x <- v.value.scalars | x.Str? :: Fold(x.s)
    else {}
  }

  /** The folded texts a resource holds for a core attribute. */
  function HeldTexts(d: Doc, a: Attribute): set<string> {
    Texts(Slot(d, Loc("", Fold(a.name))))
  }

  /** The resources have a folded text of some core attribute declared unique in common. */
  predicate SharesUnique(rt: ResourceType, d: Doc, e: Doc) {
    exists a <- rt.core.attrs :: a.unique && HeldTexts(d, a) * HeldTexts(e, a) != {}
  }

  /** The names the store watches are those of the attributes declared unique. */
  lemma {:induction false} UniqueNamesIff(attrs: seq<Attribute>, x: string)
    ensures x in UniqueNames(attrs) <==> exists a <- attrs :: a.unique && Fold(a.name) == x
  {
    if attrs != [] { UniqueNamesIff(attrs[1..], x); }
  }

  lemma {:induction false} CoreShown(rt: ResourceType, d: Doc, a: Attribute)
    requires Regular(rt) && a in rt.core.attrs
    ensures Get(rt, d, Fold(a.name)) == Slot(d, Loc("", Fold(a.name)))
  {
    hide Regular, ResolvePath, Sound, Slot, GetResolved;
    FoldIdempotent(a.name);
    KeyResolves(rt, Fold(a.name));
    var rp := ResolvePath(rt, Fold(a.name)).value;
    CoreFlags(rt, rp, Fold(a.name));
    GetSlot(rt, d, rp);
  }

  /** The terms the index keeps for a core attribute are the folded texts the resource holds. */
  lemma {:induction false} TermsAreTexts(rt: ResourceType, d: Doc, a: Attribute)
    requires Regular(rt) && Canonical(rt, d) && a in rt.core.attrs
    ensures forall t :: t in Terms(rt, d, Fold(a.name)) <==> t in HeldTexts(d, a)
  {
    hide Regular, Canonical, Get, Slot, Fold;
    CoreShown(rt, d, a);
    var v := Slot(d, Loc("", Fold(a.name)));
    if v.Some? && v.value.Slice? && v.value.typ == TString {
      TextsOnly(rt, d, a);
      var l := v.value.scalars;
      var terms := Terms(rt, d, Fold(a.name));
      assert |terms| == |l| && forall i :: 0 <= i < |l| ==> terms[i] == Fold(l[i].s);
      forall t ensures t in terms <==> t in HeldTexts(d, a) {
        if t in terms {
          var i :| 0 <= i < |terms| && terms[i] == t;
          assert l[i] in l;
        }
      }
    }
  }

  lemma {:induction false} TextsOnly(rt: ResourceType, d: Doc, a: Attribute)
    requires Canonical(rt, d)
    ensures var v := Slot(d, Loc("", Fold(a.name)));
            v.Some? && v.value.Slice? && v.value.typ == TString ==> forall i :: 0 <= i < |v.value.scalars| ==> v.value.scalars[i].Str?
  {
    hide Canonical, Slot, StoredElem;
    CanonicalAt(rt, d, Loc("", Fold(a.name)));
  }

  lemma {:induction false} SharesIff(rt: ResourceType, d: Doc, e: Doc)
    requires Regular(rt) && Canonical(rt, d) && Canonical(rt, e)
    ensures (exists x <- UniqueNames(rt.core.attrs) :: Shares(rt, x, d, e)) <==> SharesUnique(rt, d, e)
  {
    hide Regular, Canonical, Terms, HeldTexts, UniqueNames, Fold;
    forall a <- rt.core.attrs ensures Shares(rt, Fold(a.name), d, e) <==> HeldTexts(d, a) * HeldTexts(e, a) != {} {
      TermsAreTexts(rt, d, a);
      TermsAreTexts(rt, e, a);
      if t :| t in HeldTexts(d, a) * HeldTexts(e, a) { assert t in Terms(rt, d, Fold(a.name)); }
      if t :| t in Terms(rt, d, Fold(a.name)) && t in Terms(rt, e, Fold(a.name)) { assert t in HeldTexts(d, a) * HeldTexts(e, a); }
    }
    if x :| x in UniqueNames(rt.core.attrs) && Shares(rt, x, d, e) {
      UniqueNamesIff(rt.core.attrs, x);
    }
    if SharesUnique(rt, d, e) {
      var a :| a in rt.core.attrs && a.unique && HeldTexts(d, a) * HeldTexts(e, a) != {};
      UniqueNamesIff(rt.core.attrs, Fold(a.name));
      assert Shares(rt, Fold(a.name), d, e);
    }
  }

  predicate CanonicalItems(rt: ResourceType, items: Items) {
    forall id <- items.Keys :: Canonical(rt, items[id])
  }

  /** Another resource has a unique text of d. */
  predicate Rivalled(rt: ResourceType, items: Items, id: string, d: Doc) {
    exists other <- items.Keys :: other != id && SharesUnique(rt, d, items[other])
  }

  lemma {:induction false} ClashIff(rt: ResourceType, items: Items, id: string, d: Doc)
    requires Regular(rt) && Canonical(rt, d) && CanonicalItems(rt, items)
    ensures Clash(rt, UniqueNames(rt.core.attrs), items, id, d) <==> Rivalled(rt, items, id, d)
  {
    hide Regular, Canonical, Shares, SharesUnique, UniqueNames;
    forall other <- items.Keys
      ensures (exists x <- UniqueNames(rt.core.attrs) :: Shares(rt, x, d, items[other])) <==> SharesUnique(rt, d, items[other])
    {
      SharesIff(rt, d, items[other]);
    }
  }

  /** Giving a resource its id changes none of its unique texts. */
  lemma {:induction false} IdApart(rt: ResourceType, d: Doc, id: string, e: Doc)
    requires StoreType(rt)
    ensures SharesUnique(rt, WithId(d, id), e) == SharesUnique(rt, d, e)
  {
    hide Regular, Texts;
    forall a <- rt.core.attrs ensures HeldTexts(WithId(d, id), a) == HeldTexts(d, a) {
      NotId(rt, a);
    }
  }

  lemma {:induction false} NotId(rt: ResourceType, a: Attribute)
    requires StoreType(rt) && a in rt.core.attrs
    ensures Fold(a.name) != ID
  {
    hide Regular;
    IdFound();
    assert COMMON[0] in COMMON && FindAttribute(rt.core.attrs, COMMON[0].name).None?;
  }

  /** In a valid store no two resources have a unique text in common. */
  lemma {:induction false} StoreUnique(st: Store)
    requires st.Valid()
    ensures forall x <- st.items.Keys, y <- st.items.Keys :: x != y ==> !SharesUnique(st.env.rt, st.items[x], st.items[y])
  {
    hide Regular, Canonical, Shares, SharesUnique, UniqueNames, OrderAgrees, IndexAgrees;
    forall x <- st.items.Keys, y <- st.items.Keys | x != y ensures !SharesUnique(st.env.rt, st.items[x], st.items[y]) {
      SharesIff(st.env.rt, st.items[x], st.items[y]);
    }
  }

  /** A resource is created under a free id exactly when no stored one has a unique text in
      common with it, and replaced, its token matching, exactly when no other one has; the
      refusal is one of uniqueness. */
  lemma {:induction false} WritesDecided(env: Env, s: State, res: Doc, generated: string, id: string)
    requires StoreType(env.rt) && Canonical(env.rt, res) && CanonicalItems(env.rt, s.items)
    ensures var free := CreatedId(res, generated);
            var r := Step(env, s, CreateA(res, generated)).reply;
            if free in s.items || Rivalled(env.rt, s.items, free, res) then r == Err(Uniqueness) else r.Ok?
    ensures var r := Step(env, s, ReplaceA(id, res)).reply;
            if id !in s.items then r == Err(NotFound)
            else if !VersionMatches(res.meta.version, s.items[id].meta.version) then r == Err(PreconditionFailed)
            else if Rivalled(env.rt, s.items, id, res) then r == Err(Uniqueness)
            else r.Ok?
  {
    hide Regular, Canonical, Clash, SharesUnique, UniqueNames, CreatedId, VersionMatches, Stamped;
    var free := CreatedId(res, generated);
    RivalsFor(env, s, res, free);
    RivalsFor(env, s, res, id);
  }

  lemma {:induction false} RivalsFor(env: Env, s: State, res: Doc, id: string)
    requires StoreType(env.rt) && Canonical(env.rt, res) && CanonicalItems(env.rt, s.items)
    ensures Clash(env.rt, UniqueNames(env.rt.core.attrs), s.items, id, WithId(res, id)) <==> Rivalled(env.rt, s.items, id, res)
  {
    hide Regular, Canonical, Clash, SharesUnique, UniqueNames;
    IdAttribute(env.lx, env.rt, res, id);
    ClashIff(env.rt, s.items, id, WithId(res, id));
    forall other <- s.items.Keys ensures SharesUnique(env.rt, WithId(res, id), s.items[other]) == SharesUnique(env.rt, res, s.items[other]) {
      IdApart(env.rt, res, id, s.items[other]);
    }
  }

  /** A PATCH that changes a stored resource is refused for uniqueness exactly when another one
      has a unique text of the outcome. */
  lemma {:induction false} PatchDecided(env: Env, s: State, id: string, ops: seq<Op>, now: Moment)
    requires StoreType(env.rt) && CanonicalItems(env.rt, s.items) && id in s.items && forall op <- ops :: ParsedOp(op)
    ensures var (r, reply) := (PatchSpec.Apply(env, s.items[id], ops), Step(env, s, PatchA(id, ops, now)).reply);
            if r.Err? then reply == Err(r.kind)
            else if !r.value.changed then reply == Ok(Some(s.items[id]))
            else if Rivalled(env.rt, s.items, id, r.value.doc) then reply == Err(Uniqueness)
            else reply.Ok?
  {
    hide Regular, Canonical, Clash, SharesUnique, UniqueNames, ParsedOp, ApplyOps, VersionString;
    var r := PatchSpec.Apply(env, s.items[id], ops);
    if r.Ok? && r.value.changed {
      PatchKeepsId(env, s.items[id], ops);
      var m := Stamped(Touched(r.value.doc, now), VersionOf(s, id) + 1).meta;
      ClashApart(env.rt, s.items, id, r.value.doc, m);
      ClashIff(env.rt, s.items, id, r.value.doc);
    }
  }
}
