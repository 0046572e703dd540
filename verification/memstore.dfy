/** The in-memory store (server/memstore): maps updated in place, one atomic step a method. It
    holds resources by value, as everything that crosses its boundary is cloned. */
module Memstore {
  import opened Text
  import opened Schema
  import opened Values
  import opened Documents
  import opened PatchRules
  import opened PatchSpec
  import opened PatchFacts
  import opened Versions
  import opened StoreState
  import opened Listing
  import opened Sorting
  import F = FilterAst
  import FilterMatch

  lemma EmptyAgrees(rt: ResourceType, unique: seq<string>, extra: seq<string>)
    ensures OrderAgrees({}, map[], [], map[], 0) && Identified(rt, map[], map[])
    ensures IndexAgrees(rt, unique + extra, map[], map[]) && UniqueHeld(rt, unique, map[])
  {
  }

  class Store {
    const env: Env
    const unique: seq<string>
    const extra: seq<string>
    var items: Items
    var versions: map<string, nat>
    var order: seq<string>
    var rank: map<string, nat>
    var clock: nat
    var index: Index

    ghost predicate Valid()
      reads this
    {
      && StoreType(env.rt) && unique == UniqueNames(env.rt.core.attrs)
      && OrderAgrees(items.Keys, versions, order, rank, clock)
      && Identified(env.rt, items, versions)
      && IndexAgrees(env.rt, unique + extra, items, index)
      && UniqueHeld(env.rt, unique, items)
    }

    constructor (env: Env, extra: seq<string>)
      requires StoreType(env.rt)
      ensures Valid() && items == map[] && this.env == env && this.extra == extra
    {
      EmptyAgrees(env.rt, UniqueNames(env.rt.core.attrs), extra);
      var names: seq<string> := [];
      var attrs := env.rt.core.attrs;
      hide StoreType, OrderAgrees, Identified, IndexAgrees, UniqueHeld;
      for i := 0 to |attrs|
        invariant UniqueNames(attrs) == names + UniqueNames(attrs[i..])
      {
        assert attrs[i..][1..] == attrs[i + 1..];
        if attrs[i].unique { names := names + [Fold(attrs[i].name)]; }
      }
      assert attrs[|attrs|..] == [];
      this.env, this.unique, this.extra := env, names, extra;
      items, versions, order, rank, clock, index := map[], map[], [], map[], 0, map[];
    }

    // ----- The index -----

    method DropTerm(attr: string, term: string, id: string)
      modifies this`index
      ensures index.Keys == old(index.Keys)
      ensures forall a, t :: Bucket(index, a, t) == if a == attr && t == term then Bucket(old(index), a, t) - {id} else Bucket(old(index), a, t)
    {
      if attr in index && term in index[attr] {
        var ids := index[attr][term] - {id};
        index := index[attr := if ids == {} then index[attr] - {term} else index[attr][term := ids]];
      }
    }

    method AddTerm(attr: string, term: string, id: string)
      modifies this`index
      ensures index.Keys == old(index.Keys) + {attr}
      ensures forall a, t :: Bucket(index, a, t) == if a == attr && t == term then Bucket(old(index), a, t) + {id} else Bucket(old(index), a, t)
    {
      var terms := if attr in index then index[attr] else map[];
      var ids := if term in terms then terms[term] else {};
      index := index[attr := terms[term := ids + {id}]];
    }

    /** The part of reindex for one attribute. */
    method ReindexAttr(attr: string, id: string, before: Option<Doc>, after: Option<Doc>)
      modifies this`index
      ensures index.Keys <= old(index.Keys) + if TermsOf(env.rt, after, attr) == [] then {} else {attr}
      ensures forall a, t :: Bucket(index, a, t) ==
                if a == attr then Rebucket(Bucket(old(index), a, t), id, t in TermsOf(env.rt, before, a), t in TermsOf(env.rt, after, a))
                else Bucket(old(index), a, t)
    {
      hide Terms, Bucket;
      var gone, come := TermsOf(env.rt, before, attr), TermsOf(env.rt, after, attr);
      for j := 0 to |gone|
        invariant index.Keys == old(index.Keys)
        invariant forall a, t :: Bucket(index, a, t) ==
                    if a == attr && t in gone[..j] then Bucket(old(index), a, t) - {id} else Bucket(old(index), a, t)
      {
        DropTerm(attr, gone[j], id);
        assert gone[..j + 1] == gone[..j] + [gone[j]];
      }
      assert gone[..|gone|] == gone;
      ghost var mid := index;
      for j := 0 to |come|
        invariant index.Keys <= old(index.Keys) + if come == [] then {} else {attr}
        invariant forall a, t :: Bucket(index, a, t) ==
                    if a == attr && t in come[..j] then Bucket(mid, a, t) + {id} else Bucket(mid, a, t)
      {
        AddTerm(attr, come[j], id);
        assert come[..j + 1] == come[..j] + [come[j]];
      }
      assert come[..|come|] == come;
    }

    /** reindex: removes the terms of the old resource and adds those of the new one. */
    method Reindex(id: string, before: Option<Doc>, after: Option<Doc>)
      modifies this`index
      ensures Reindexed(env.rt, unique + extra, old(index), index, id, before, after)
    {
      hide Terms, Bucket;
      var attrs := unique + extra;
      for i := 0 to |attrs|
        invariant forall a <- index.Keys :: a in old(index) || (a in attrs && TermsOf(env.rt, after, a) != [])
        invariant forall a, t :: Bucket(index, a, t) ==
                    if a in attrs[..i] then Rebucket(Bucket(old(index), a, t), id, t in TermsOf(env.rt, before, a), t in TermsOf(env.rt, after, a))
                    else Bucket(old(index), a, t)
      {
        ReindexAttr(attrs[i], id, before, after);
        assert attrs[..i + 1] == attrs[..i] + [attrs[i]];
      }
      assert attrs[..|attrs|] == attrs;
    }

    /** Some other resource holds the term. */
    predicate Taken(attr: string, term: string, id: string)
      reads this
    {
      exists other <- items.Keys :: other != id && term in Terms(env.rt, items[other], attr)
    }

    /** The innermost loop of checkUnique, over the holders of one term. */
    method TermTaken(attr: string, term: string, id: string) returns (taken: bool)
      requires Valid() && attr in unique
      ensures taken == Taken(attr, term, id)
    {
      hide Terms, Bucket, OrderAgrees, Identified, UniqueHeld, StoreType, UniqueNames;
      assert attr in unique + extra;
      var holders := Bucket(index, attr, term);
      taken := exists holder <- holders :: holder != id;
      assert forall x :: x in holders <==> x in items && term in Terms(env.rt, items[x], attr);
    }

    method AttrTaken(attr: string, id: string, d: Doc) returns (taken: bool)
      requires Valid() && attr in unique
      ensures taken == exists t <- Terms(env.rt, d, attr) :: Taken(attr, t, id)
    {
      hide Terms, Valid, Taken;
      var terms := Terms(env.rt, d, attr);
      for j := 0 to |terms|
        invariant forall k :: 0 <= k < j ==> !Taken(attr, terms[k], id)
      {
        var held := TermTaken(attr, terms[j], id);
        if held { return true; }
      }
      taken := false;
    }

    /** checkUnique. */
    method CheckUnique(id: string, d: Doc) returns (fail: Option<Kind>)
      requires Valid()
      ensures fail == if Clash(env.rt, unique, items, id, d) then Some(Uniqueness) else None
    {
      hide Terms, Valid, Taken;
      for i := 0 to |unique|
        invariant forall k, t :: 0 <= k < i && t in Terms(env.rt, d, unique[k]) ==> !Taken(unique[k], t, id)
      {
        var held := AttrTaken(unique[i], id, d);
        if held {
          ghost var t :| t in Terms(env.rt, d, unique[i]) && Taken(unique[i], t, id);
          TakenClash(id, d, i, t);
          return Some(Uniqueness);
        }
      }
      if Clash(env.rt, unique, items, id, d) { ClashTaken(id, d); }
      fail := None;
    }

    lemma ClashTaken(id: string, d: Doc)
      requires Clash(env.rt, unique, items, id, d)
      ensures exists k, t :: 0 <= k < |unique| && t in Terms(env.rt, d, unique[k]) && Taken(unique[k], t, id)
    {
      hide Terms;
      var a, other :| a in unique && other in items && other != id && Shares(env.rt, a, d, items[other]);
      var t :| t in Terms(env.rt, d, a) && t in Terms(env.rt, items[other], a);
      var k :| 0 <= k < |unique| && unique[k] == a;
      assert t in Terms(env.rt, d, unique[k]) && Taken(unique[k], t, id);
    }

    lemma TakenClash(id: string, d: Doc, k: nat, t: string)
      requires k < |unique| && t in Terms(env.rt, d, unique[k]) && Taken(unique[k], t, id)
      ensures Clash(env.rt, unique, items, id, d)
    {
      hide Terms;
      var other :| other in items && other != id && t in Terms(env.rt, items[other], unique[k]);
      assert unique[k] in unique && Shares(env.rt, unique[k], d, items[other]);
    }

    // ----- Bookkeeping -----

    /** bumpVersion. */
    method BumpVersion(id: string, d: Doc) returns (stored: Doc)
      modifies this`versions
      ensures var n := (if id in old(versions) then old(versions)[id] else 0) + 1;
              versions == old(versions)[id := n] && stored == Stamped(d, n)
    {
      versions := versions[id := (if id in versions then versions[id] else 0) + 1];
      stored := Stamped(d, versions[id]);
    }

    /** insert: a new id goes to the end of the insertion order. */
    method Insert(id: string, d: Doc)
      modifies this`items, this`order, this`rank, this`clock
      ensures items == old(items)[id := d] && order == old(order) + [id]
      ensures clock == old(clock) + 1 && rank == old(rank)[id := clock]
    {
      clock := clock + 1;
      rank, order, items := rank[id := clock], order + [id], items[id := d];
    }

    /** remove: the id leaves every structure, its version counter included. */
    method Remove(id: string)
      requires NoDuplicates(order)
      modifies this`items, this`versions, this`order, this`rank
      ensures items == old(items) - {id} && versions == old(versions) - {id} && rank == old(rank) - {id}
      ensures order == Without(old(order), id)
    {
      items, versions, rank := items - {id}, versions - {id}, rank - {id};
      for i := 0 to |order|
        invariant order == old(order) && id !in order[..i]
      {
        if order[i] == id {
          WithoutAt(order, i);
          order := order[..i] + order[i + 1..];
          return;
        }
        assert order[..i + 1] == order[..i] + [order[i]];
      }
      assert order[..|order|] == order;
      WithoutNone(order, id);
    }

    // ----- Operations -----

    /** Nothing in the store has changed since the old state. */
    twostate predicate Untouched()
      reads this
    {
      items == old(items) && versions == old(versions) && order == old(order) && rank == old(rank) && clock == old(clock) && index == old(index)
    }

    /** Get. */
    method Get(id: string) returns (r: Result<Doc>)
      ensures r == if id in items then Ok(items[id]) else Err(NotFound)
    {
      r := if id in items then Ok(items[id]) else Err(NotFound);
    }

    /** Create. */
    method Create(res: Doc, generated: string) returns (r: Result<Doc>)
      requires Valid() && Canonical(env.rt, res)
      modifies this
      ensures Valid()
      ensures var id := CreatedId(res, generated);
              var d := WithId(res, id);
              if id in old(items) || Clash(env.rt, unique, old(items), id, d) then r == Err(Uniqueness) && Untouched()
              else
                && r == Ok(Stamped(d, 1)) && items == old(items)[id := Stamped(d, 1)] && versions == old(versions)[id := 1]
                && order == old(order) + [id] && rank == old(rank)[id := clock]
    {
      hide Canonical, OrderAgrees, Identified, IndexAgrees, UniqueHeld, Clash, StoreType, CreatedId, UniqueNames;
      var id := CreatedId(res, generated);
      IdAttribute(env.lx, env.rt, res, id);
      var d := WithId(res, id);
      if id in items { return Err(Uniqueness); }
      var fail := CheckUnique(id, d);
      if fail.Some? { return Err(fail.value); }
      r := File(id, d);
    }

    /** The end of Create: the version, the order and the index of a new resource. */
    method File(id: string, d: Doc) returns (r: Result<Doc>)
      requires Valid() && Canonical(env.rt, d) && Lookup(d.attrs, ID) == Some(Str(id))
      requires id !in items && !Clash(env.rt, unique, items, id, d)
      modifies this
      ensures Valid() && r == Ok(Stamped(d, 1)) && items == old(items)[id := Stamped(d, 1)] && versions == old(versions)[id := 1]
      ensures order == old(order) + [id] && rank == old(rank)[id := clock]
    {
      hide Canonical, OrderAgrees, Identified, IndexAgrees, UniqueHeld, Clash, StoreType, Reindexed, UniqueNames, Stamped;
      Written(id, d, 1);
      OrderInsert(items.Keys, versions, order, rank, clock, id);
      OrderKeys();
      var stored := BumpVersion(id, d);
      Insert(id, stored);
      Reindex(id, None, Some(stored));
      assert items.Keys == old(items.Keys) + {id};
      ReindexedAgrees(env.rt, unique + extra, old(items), items, old(index), index, id, Some(stored));
      r := Ok(stored);
    }

    lemma OrderKeys()
      requires OrderAgrees(items.Keys, versions, order, rank, clock)
      ensures versions.Keys == items.Keys && rank.Keys == items.Keys && NoDuplicates(order)
    {
      OrderDistinct(items.Keys, versions, order, rank, clock);
    }

    lemma TypeFlat()
      requires StoreType(env.rt)
      ensures FlatType(env.rt)
    {
    }

    /** What holds once d, stamped, is filed under id. */
    lemma Written(id: string, d: Doc, n: nat)
      requires Valid() && Canonical(env.rt, d) && Lookup(d.attrs, ID) == Some(Str(id)) && !Clash(env.rt, unique, items, id, d)
      ensures Identified(env.rt, items[id := Stamped(d, n)], versions[id := n])
      ensures UniqueHeld(env.rt, unique, items[id := Stamped(d, n)])
      ensures Canonical(env.rt, Stamped(d, n)) && FlatType(env.rt)
    {
      hide Canonical, OrderAgrees, Identified, IndexAgrees, UniqueHeld, Clash, Regular, UniqueNames;
      IdentifiedPut(env.rt, items, versions, id, d, n);
      MetaApart(env.rt, d, d.meta.(version := VersionString(n)));
      TypeFlat();
      ClashApart(env.rt, items, id, d, d.meta.(version := VersionString(n)));
      UniquePut(env.rt, unique, items, id, Stamped(d, n));
    }

    /** Swapping in a new state of a resource: a new version, reindexed. */
    method Swap(id: string, d: Doc) returns (stored: Doc)
      requires Valid() && id in items && Canonical(env.rt, d) && Lookup(d.attrs, ID) == Some(Str(id)) && !Clash(env.rt, unique, items, id, d)
      modifies this
      ensures Valid() && stored == Stamped(d, old(versions)[id] + 1)
      ensures items == old(items)[id := stored] && versions == old(versions)[id := old(versions)[id] + 1]
      ensures order == old(order) && rank == old(rank) && clock == old(clock)
    {
      hide Canonical, OrderAgrees, Identified, IndexAgrees, UniqueHeld, Clash, StoreType, Reindexed, UniqueNames, Stamped;
      OrderKeys();
      Written(id, d, versions[id] + 1);
      OrderBump(items.Keys, versions, order, rank, clock, id);
      stored := BumpVersion(id, d);
      Reindex(id, Some(items[id]), Some(stored));
      items := items[id := stored];
      assert items.Keys == old(items.Keys);
      ReindexedAgrees(env.rt, unique + extra, old(items), items, old(index), index, id, Some(stored));
    }

    /** Replace: the compare-and-swap on the version token. */
    method Replace(id: string, res: Doc) returns (r: Result<Doc>)
      requires Valid() && Canonical(env.rt, res)
      modifies this
      ensures Valid()
      ensures var d := WithId(res, id);
              if id !in old(items) then r == Err(NotFound) && Untouched()
              else if !VersionMatches(res.meta.version, old(items)[id].meta.version) then r == Err(PreconditionFailed) && Untouched()
              else if Clash(env.rt, unique, old(items), id, d) then r == Err(Uniqueness) && Untouched()
              else
                && id in old(versions) && r == Ok(Stamped(d, old(versions)[id] + 1)) && items == old(items)[id := r.value]
                && versions == old(versions)[id := old(versions)[id] + 1] && order == old(order) && rank == old(rank) && clock == old(clock)
    {
      hide Canonical, OrderAgrees, Identified, IndexAgrees, UniqueHeld, Clash, StoreType, UniqueNames, VersionMatches, Stamped;
      if id !in items { return Err(NotFound); }
      if !VersionMatches(res.meta.version, items[id].meta.version) { return Err(PreconditionFailed); }
      IdAttribute(env.lx, env.rt, res, id);
      OrderKeys();
      var d := WithId(res, id);
      var fail := CheckUnique(id, d);
      if fail.Some? { return Err(fail.value); }
      var stored := Swap(id, d);
      r := Ok(stored);
    }

    /** Delete. */
    method Delete(id: string) returns (fail: Option<Kind>)
      requires Valid()
      modifies this
      ensures Valid()
      ensures if id !in old(items) then fail == Some(NotFound) && Untouched()
              else fail.None? && items == old(items) - {id} && versions == old(versions) - {id} && order == Without(old(order), id) && clock == old(clock)
    {
      hide Canonical, OrderAgrees, Identified, IndexAgrees, UniqueHeld, StoreType, Reindexed, UniqueNames, Without;
      if id !in items { return Some(NotFound); }
      OrderKeys();
      OrderRemove(items.Keys, versions, order, rank, clock, id);
      IdentifiedDrop(env.rt, items, versions, id);
      TypeFlat();
      UniqueDrop(env.rt, unique, items, id);
      Reindex(id, Some(items[id]), None);
      Remove(id);
      assert items.Keys == old(items.Keys) - {id};
      ReindexedAgrees(env.rt, unique + extra, old(items), items, old(index), index, id, None);
      fail := None;
    }

    /** The native Patch: the operations, applied and committed in one atomic step. */
    method Patch(id: string, ops: seq<Op>, now: Moment) returns (r: Result<Doc>)
      requires Valid() && forall op <- ops :: ParsedOp(op)
      modifies this
      ensures Valid()
      ensures if id !in old(items) then r == Err(NotFound) && Untouched()
              else
                id in old(versions) &&
                var n := old(versions)[id] + 1;
                var p := Patched(env, old(items)[id], ops, now, n);
                if p.Err? then r == Err(p.kind) && Untouched()
                else if p.value.None? then r == Ok(old(items)[id]) && Untouched()
                else if Clash(env.rt, unique, old(items), id, p.value.value) then r == Err(Uniqueness) && Untouched()
                else
                  && r == Ok(p.value.value) && items == old(items)[id := p.value.value] && versions == old(versions)[id := n]
                  && order == old(order) && rank == old(rank) && clock == old(clock)
    {
      hide Canonical, OrderAgrees, IndexAgrees, UniqueHeld, Clash, StoreType, UniqueNames, ApplyOps, ParsedOp, VersionString;
      if id !in items { return Err(NotFound); }
      OrderKeys();
      var cur := items[id];
      var result := Apply(env, cur, ops);
      if result.Err? { return Err(result.kind); }
      if !result.value.changed { return Ok(cur); }
      var next := Touched(result.value.doc, now);
      PatchKeepsId(env, cur, ops);
      MetaApart(env.rt, result.value.doc, next.meta);
      StampApart(id, next, versions[id] + 1);
      var fail := CheckUnique(id, next);
      if fail.Some? { return Err(fail.value); }
      var stored := Swap(id, next);
      r := Ok(stored);
    }

    lemma StampApart(id: string, d: Doc, n: nat)
      requires Valid()
      ensures Clash(env.rt, unique, items, id, Stamped(d, n)) == Clash(env.rt, unique, items, id, d)
    {
      hide Clash, UniqueNames, OrderAgrees, Identified, IndexAgrees, UniqueHeld, Regular;
      ClashApart(env.rt, items, id, d, d.meta.(version := VersionString(n)));
    }

    // ----- Queries -----

    /** The resources in insertion order. */
    function Docs(): seq<Doc>
      requires forall id <- order :: id in items
      reads this
    {
      ItemsAt(items, order)
    }

    lemma OrderFacts()
      requires Valid()
      ensures forall id <- order :: id in items && Canonical(env.rt, items[id]) && id in rank
      ensures forall id <- items.Keys :: id in order && id in rank
      ensures Ranked(order, rank)
    {
      hide Canonical, StoreType, IndexAgrees, UniqueHeld;
      forall i, j | 0 <= i < j < |order| ensures order[i] in rank && order[j] in rank && rank[order[i]] < rank[order[j]] {
        assert order[i] in order && order[j] in order;
      }
    }

    /** Inserts an id into ids in rank order. */
    method PlaceByRank(ids: seq<string>, id: string) returns (out: seq<string>)
      requires Ranked(ids, rank) && id in rank && forall x <- ids :: x in rank && rank[x] != rank[id]
      ensures Ranked(out, rank) && forall x :: x in out <==> x == id || x in ids
    {
      var k := 0;
      while k < |ids| && rank[ids[k]] < rank[id]
        invariant k <= |ids| && forall i :: 0 <= i < k ==> rank[ids[i]] < rank[id]
      {
        k := k + 1;
      }
      out := ids[..k] + [id] + ids[k..];
    }

    /** candidateSet: the hits of the index in rank order, or everything in insertion order. */
    method CandidateSet(f: Option<F.Expr>) returns (ids: seq<string>)
      requires Valid()
      ensures ids == if IndexLookup(index, f).Some? then Hits(order, IndexLookup(index, f).value) else order
    {
      hide Canonical, StoreType, IndexAgrees, UniqueHeld, Identified, IndexLookup, Hits;
      var bucket := IndexLookup(index, f);
      if bucket.None? { return order; }
      OrderFacts();
      var todo := set id <- bucket.value | id in items;
      ids := [];
      ghost var all := todo;
      while todo != {}
        invariant todo <= all && Ranked(ids, rank) && forall x :: x in ids <==> x in all && x !in todo
        decreases |todo|
      {
        var id :| id in todo;
        RankApart(id, ids);
        ids := PlaceByRank(ids, id);
        todo := todo - {id};
      }
      HitsRanked(order, rank, bucket.value);
      HitsIn(order, bucket.value);
      RankedUnique(ids, Hits(order, bucket.value), rank);
    }

    lemma RankApart(id: string, ids: seq<string>)
      requires Valid() && id in items && id !in ids && forall x <- ids :: x in items
      ensures id in rank && forall x <- ids :: x in rank && rank[x] != rank[id]
    {
      hide Canonical, StoreType, IndexAgrees, UniqueHeld, Identified;
      OrderFacts();
      var k :| 0 <= k < |order| && order[k] == id;
      forall x <- ids ensures rank[x] != rank[id] {
        var i :| 0 <= i < |order| && order[i] == x;
        assert i < k || k < i;
      }
    }

    /** matchCandidates: the index only narrows, the filter decides. */
    method MatchCandidates(f: Option<F.Expr>) returns (r: Result<seq<Doc>>)
      requires Valid() && ParsedFilter(f)
      ensures forall id <- order :: id in items
      ensures r == Keep(env, Docs(), f)
    {
      hide Canonical, StoreType, IndexAgrees, UniqueHeld, Identified, OrderAgrees, IndexLookup, Hits, FilterMatch.Match, Keep;
      OrderFacts();
      var ids := CandidateSet(f);
      if IndexLookup(index, f).Some? { IndexNarrows(env, unique + extra, items, order, index, f); }
      var docs := ItemsAt(items, ids);
      var matched: seq<Doc> := [];
      KeepStart(env, docs, f);
      for i := 0 to |docs|
        invariant Keep(env, docs, f) == After(matched, Keep(env, docs[i..], f))
      {
        KeepStep(env, docs, f, matched, i);
        if f.Some? {
          var ok := FilterMatch.Match(env.lx, env.rt, docs[i], f.value);
          if ok.Err? { return Err(ok.kind); }
          if !ok.value { continue; }
        }
        matched := matched + [docs[i]];
      }
      KeepEnd(env, docs, f, matched);
      r := Ok(matched);
    }

    /** List: the same page whether the index or a scan finds the matches. */
    method List(q: Query) returns (r: Result<Page>)
      requires Valid() && ParsedFilter(q.filter)
      ensures forall id <- order :: id in items
      ensures r == Listed(env, Docs(), q)
    {
      hide StoreType, IndexAgrees, UniqueHeld, Identified, OrderAgrees, Keep, SortResources, Paginate;
      var matched := MatchCandidates(q.filter);
      if matched.Err? { return Err(matched.kind); }
      var sorted := SortResources(env.lx, env.rt, matched.value, q.sortBy, q.ascending);
      r := Ok(Page(Paginate(sorted, q.startIndex, q.count), |matched.value|));
    }
  }
}
