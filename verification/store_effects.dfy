/** What each request to the store leaves behind (server/memstore/crud.go, server/memstore/patch.go),
    stated on what Get shows of the stored resource and on the rest of the state. */
module StoreEffects {
  import opened Text
  import opened Schema
  import opened Values
  import opened Paths
  import opened Documents
  import opened DocumentFacts
  import opened PatchRules
  import opened PatchSpec
  import opened PatchFacts
  import opened PatchGuards
  import opened Versions
  import opened StoreState
  import opened StoreRuns
  import opened Reading

  /** The identifier a resource is created under: the one it brings, or else the generated one. */
  function OwnOr(rt: ResourceType, res: Doc, generated: string): string {
    var own := Get(rt, res, "id");
    if own.Some? && own.value.Str? && own.value.s != "" then own.value.s else generated
  }

  /** d is res with this id and this version, and everything else as it was. */
  ghost predicate Filed(rt: ResourceType, res: Doc, id: string, version: nat, d: Doc) {
    && Get(rt, d, "id") == Some(Str(id))
    && Get(rt, d, "meta.version") == Some(Str("W/\"" + Decimal(version) + "\""))
    && (forall l: Loc :: l != Loc("", "id") ==> Slot(d, l) == Slot(res, l))
    && d.meta == res.meta.(version := d.meta.version)
  }

  lemma {:induction false} StampFiles(rt: ResourceType, lx: Lexicon, res: Doc, id: string, n: nat)
    requires StoreType(rt)
    ensures Filed(rt, res, id, n, Stamped(WithId(res, id), n))
  {
    hide StoreType, Get, Decimal;
    var d := Stamped(WithId(res, id), n);
    IdAttribute(lx, rt, d, id);
    MetaShown(rt, d);
    assert d.meta.version != "" by { assert |VersionString(n)| > 0; }
  }

  /** Create files the resource last, under its own id or the generated one, at version one, and
      touches nothing else; a refused one changes nothing. */
  lemma {:induction false} CreateFiles(env: Env, s: State, res: Doc, generated: string)
    requires StoreType(env.rt)
    ensures var (id, o) := (OwnOr(env.rt, res, generated), Step(env, s, CreateA(res, generated)));
            if o.reply.Err? then o.next == s && o.reply == Err(Uniqueness)
            else
              && o.reply.value.Some? && Filed(env.rt, res, id, 1, o.reply.value.value)
              && id !in s.items && o.next == State(s.items[id := o.reply.value.value], s.versions[id := 1], s.order + [id])
  {
    hide StoreType, Get, Clash, UniqueNames, Filed, Stamped, WithId;
    var id := CreatedId(res, generated);
    IdAttribute(env.lx, env.rt, res, "");
    IdIsId();
    StampFiles(env.rt, env.lx, res, id, 1);
  }

  lemma IdIsId()
    ensures ID == "id"
  {
  }

  /** Replace files the resource under the id in the address and the next version, in its old
      place; a refused one changes nothing. */
  lemma {:induction false} ReplaceFiles(env: Env, s: State, id: string, res: Doc)
    requires StoreType(env.rt)
    ensures var (n, o) := (VersionOf(s, id) + 1, Step(env, s, ReplaceA(id, res)));
            if o.reply.Err? then o.next == s
            else
              && o.reply.value.Some? && Filed(env.rt, res, id, n, o.reply.value.value)
              && id in s.items && o.next == State(s.items[id := o.reply.value.value], s.versions[id := n], s.order)
  {
    hide StoreType, Get, Clash, UniqueNames, Filed, Stamped, WithId, VersionMatches;
    StampFiles(env.rt, env.lx, res, id, VersionOf(s, id) + 1);
  }

  /** Delete takes the resource, its counter and its place away, and the rest keeps its order. */
  lemma {:induction false} DeleteDrops(env: Env, s: State, id: string)
    ensures var o := Step(env, s, DeleteA(id));
            if id !in s.items then o == Outcome(s, Err(NotFound))
            else
              && o.reply == Ok(None) && o.next.items == s.items - {id} && o.next.versions == s.versions - {id}
              && forall a, b: seq<string> :: s.order == a + [id] + b && id !in a && id !in b ==> o.next.order == a + b
  {
    hide Without;
    forall a, b: seq<string> | s.order == a + [id] + b && id !in a && id !in b ensures Without(s.order, id) == a + b {
      WithoutMiddle(a, b, id);
    }
  }

  lemma {:induction false} WithoutMiddle(a: seq<string>, b: seq<string>, x: string)
    requires x !in a && x !in b
    ensures Without(a + [x] + b, x) == a + b
    decreases |a|
  {
    var s := a + [x] + b;
    if a == [] {
      assert s[0] == x && s[1..] == b;
      WithoutNone(b, x);
      assert [] + b == b;
    } else {
      assert s[0] == a[0] && s[1..] == a[1..] + [x] + b;
      WithoutMiddle(a[1..], b, x);
      assert [a[0]] + (a[1..] + b) == a + b;
    }
  }

  /** A PATCH that changes something leaves what Apply makes of the stored resource, with the time
      of the change and the next version, in its old place; one that changes nothing replies with
      the stored resource, and it and a refused one leave everything as it was. */
  lemma {:induction false} PatchCommits(env: Env, s: State, id: string, ops: seq<Op>, now: Moment)
    requires StoreType(env.rt) && id in s.items && Canonical(env.rt, s.items[id]) && forall op <- ops :: ParsedOp(op)
    ensures var (cur, n, o) := (s.items[id], VersionOf(s, id) + 1, Step(env, s, PatchA(id, ops, now)));
            var r := PatchSpec.Apply(env, cur, ops);
            if o.reply.Err? then o.next == s && (r.Err? ==> o.reply == Err(r.kind))
            else if !r.value.changed then o == Outcome(s, Ok(Some(cur)))
            else
              && o.reply.value.Some?
              && var d := o.reply.value.value;
              && (forall l: Loc :: Slot(d, l) == Slot(r.value.doc, l))
              && d.meta == cur.meta.(lastModified := Some(now), version := "W/\"" + Decimal(n) + "\"")
              && Get(env.rt, d, "meta.lastModified") == Some(Time(now))
              && o.next == State(s.items[id := d], s.versions[id := n], s.order)
  {
    hide Canonical, Regular, Clash, UniqueNames, ParsedOp, ApplyOps, Get, Decimal;
    var r := PatchSpec.Apply(env, s.items[id], ops);
    if r.Ok? {
      PatchKeepsId(env, s.items[id], ops);
      if r.value.changed {
        MetaShown(env.rt, Stamped(Touched(r.value.doc, now), VersionOf(s, id) + 1));
      }
    }
  }
}
