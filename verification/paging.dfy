/** The client's walk over the pages of a list (client/query.go) against the server's paging of
    a data set that does not change meanwhile. */
module Paging {
  import opened Text
  import opened Values
  import opened Documents
  import Paths
  import opened PatchRules
  import opened Sorting
  import opened StoreState
  import opened Listing
  import opened Memstore
  import opened Engine
  import FilterMatch
  import F = FilterAst

  // ----- No resource is listed twice -----

  predicate Distinct(s: seq<Doc>) {
    forall i, j :: 0 <= i < j < |s| ==> s[i] != s[j]
  }

  lemma {:induction false} BagDistinct(s: seq<Doc>)
    ensures (forall d :: multiset(s)[d] <= 1) <==> Distinct(s)
  {
    if s != [] {
      BagDistinct(s[1..]);
      assert s == [s[0]] + s[1..];
      assert multiset(s) == multiset{s[0]} + multiset(s[1..]);
      if Distinct(s[1..]) && s[0] !in s[1..] {
        forall i, j | 0 <= i < j < |s| ensures s[i] != s[j] {
          assert s[j] == s[1..][j - 1] && s[1..][j - 1] in s[1..];
          if i > 0 { assert s[i] == s[1..][i - 1]; }
        }
      } else if Distinct(s[1..]) {
        var k :| 0 <= k < |s[1..]| && s[1..][k] == s[0];
        assert s[k + 1] == s[0];
        assert multiset(s)[s[0]] > 1;
      } else {
        var d :| multiset(s[1..])[d] > 1;
        assert multiset(s)[d] > 1;
        var i, j :| 0 <= i < j < |s[1..]| && s[1..][i] == s[1..][j];
        assert s[i + 1] == s[j + 1];
      }
    }
  }

  lemma {:induction false} KeepBag(env: Env, docs: seq<Doc>, f: Option<F.Expr>)
    ensures var r := Keep(env, docs, f); r.Ok? ==> multiset(r.value) <= multiset(docs)
  {
    hide FilterMatch.Match;
    if docs != [] {
      KeepBag(env, docs[1..], f);
      assert docs == [docs[0]] + docs[1..];
    }
  }

  lemma {:induction false} InsertDocs(dir: Direction, x: Row, s: seq<Row>)
    ensures multiset(DocsOf(Insert(dir, x, s))) == multiset{x.doc} + multiset(DocsOf(s))
  {
    hide NotAfter;
    if s == [] {
      assert DocsOf([x]) == [x.doc];
    } else if NotAfter(dir, x, s[0]) {
      assert DocsOf([x] + s) == [x.doc] + DocsOf(s);
    } else {
      InsertDocs(dir, x, s[1..]);
      assert DocsOf(s) == [s[0].doc] + DocsOf(s[1..]);
      assert DocsOf([s[0]] + Insert(dir, x, s[1..])) == [s[0].doc] + DocsOf(Insert(dir, x, s[1..]));
    }
  }

  lemma {:induction false} SortDocs(dir: Direction, s: seq<Row>)
    ensures multiset(DocsOf(SortRows(dir, s))) == multiset(DocsOf(s))
  {
    if s != [] {
      SortDocs(dir, s[1..]);
      InsertDocs(dir, s[0], SortRows(dir, s[1..]));
      assert DocsOf(s) == [s[0].doc] + DocsOf(s[1..]);
    }
  }

  lemma {:induction false} SortedBag(env: Env, docs: seq<Doc>, q: Query)
    ensures multiset(SortResources(env.lx, env.rt, docs, q.sortBy, q.ascending)) == multiset(docs)
    ensures |SortResources(env.lx, env.rt, docs, q.sortBy, q.ascending)| == |docs|
  {
    hide SortKey, SortRows;
    var sorted := SortResources(env.lx, env.rt, docs, q.sortBy, q.ascending);
    if q.sortBy.Some? && Paths.ResolveTarget(env.rt, q.sortBy.value).Some? {
      var (attr, sub) := Paths.ResolveTarget(env.rt, q.sortBy.value).value;
      var rows := Rows(env.lx, env.rt, docs, q.sortBy.value, attr, sub);
      SortDocs(DirectionOf(env, q.sortBy.value, q.ascending), rows);
      assert DocsOf(rows) == docs;
    }
    assert |sorted| == |multiset(sorted)| && |docs| == |multiset(docs)|;
  }

  /** Everything a query matches, in the order it lists it. */
  function Matched(env: Env, docs: seq<Doc>, q: Query): Result<seq<Doc>> {
    var m :- Keep(env, docs, q.filter);
    Ok(SortResources(env.lx, env.rt, m, q.sortBy, q.ascending))
  }

  lemma {:induction false} MatchedDistinct(env: Env, docs: seq<Doc>, q: Query)
    requires Distinct(docs)
    ensures var m := Matched(env, docs, q); m.Ok? ==> Distinct(m.value)
  {
    hide Distinct, Keep, SortResources;
    var m := Keep(env, docs, q.filter);
    if m.Ok? {
      BagDistinct(docs);
      KeepBag(env, docs, q.filter);
      SortedBag(env, m.value, q);
      BagDistinct(SortResources(env.lx, env.rt, m.value, q.sortBy, q.ascending));
    }
  }

  /** Resources of a store differ: each carries its own id. */
  lemma {:induction false} StoreDistinct(st: Store)
    requires st.Valid()
    ensures (forall id <- st.order :: id in st.items) && Distinct(st.Docs())
  {
    hide Canonical, StoreType, IndexAgrees, UniqueHeld, UniqueNames;
    OrderDistinct(st.items.Keys, st.versions, st.order, st.rank, st.clock);
    forall i, j | 0 <= i < j < |st.order| ensures st.items[st.order[i]] != st.items[st.order[j]] {
      assert st.order[i] in st.order && st.order[j] in st.order;
    }
  }

  // ----- The walk -----

  /** A list response as the client decodes it. */
  datatype Response = Response(startIndex: int, total: nat, resources: seq<Doc>)

  /** pageFingerprint: the start the server echoes, the size, and the first resource. */
  datatype Fingerprint = Unseen | Seen(start: int, n: nat, first: Option<Doc>)

  function FingerprintOf(page: Response): Fingerprint {
    Seen(page.startIndex, |page.resources|, if page.resources == [] then None else Some(page.resources[0]))
  }

  /** stalled: a non-empty page that is the previous page again. */
  predicate Stalled(fp: Fingerprint, prev: Fingerprint) {
    fp.Seen? && prev.Seen? && fp.n != 0 &&
    ((fp.start != 0 && fp.start == prev.start) || (fp.n == prev.n && fp.first == prev.first))
  }

  /** The server's side of a page: the count is capped, the start index echoed. */
  method ServePage(st: Store, q: Query, start: int, count: int, defaultCount: nat, cap: nat) returns (r: Result<Response>)
    requires st.Valid() && ParsedFilter(q.filter) && start >= 1 && count >= 1
    ensures forall id <- st.order :: id in st.items
    ensures var m := Matched(st.env, st.Docs(), q);
            if m.Err? then r == Err(m.kind)
            else r == Ok(Response(start, |m.value|, Paginate(m.value, start, if count < cap then count else cap)))
  {
    hide Store.Valid, Keep, SortResources, Paginate;
    var normal := Normalized(q, Some(start), Some(count), defaultCount, cap);
    var page := RunQuery(st, normal, 0, true, true);
    if page.Err? { return Err(page.kind); }
    ghost var matched := Keep(st.env, st.Docs(), q.filter).value;
    SortedBag(st.env, matched, q);
    r := Ok(Response(start, page.value.total, page.value.resources));
  }

  /** The list from a 1-based position on. */
  function From(s: seq<Doc>, start: int): seq<Doc> {
    if start < 1 then s else if |s| < start then [] else s[start - 1..]
  }

  lemma PageOf(s: seq<Doc>, start: int, count: int)
    requires start >= 1 && count >= 1
    ensures var page := Paginate(s, start, count);
            && From(s, start) == page + From(s, start + |page|)
            && (page == [] <==> |s| < start)
            && (page != [] ==> start + |page| - 1 <= |s| && page[0] == s[start - 1])
  {
  }

  /** client.List. Walking the pages of a query over a store at rest, from any start and for any
      page size the server caps at one or more, yields every remaining match exactly once and
      in order, never reports a stall, and ends. */
  method ListAll(st: Store, q: Query, defaultCount: nat, cap: nat) returns (yielded: seq<Doc>, fail: Option<Kind>, stalled: bool)
    requires st.Valid() && ParsedFilter(q.filter) && cap >= 1
    ensures forall id <- st.order :: id in st.items
    ensures !stalled
    ensures var m := Matched(st.env, st.Docs(), q);
            if m.Err? then fail == Some(m.kind) && yielded == []
            else fail.None? && yielded == From(m.value, q.startIndex) && Distinct(yielded)
  {
    hide Store.Valid, Matched, Paginate, From, Distinct, ParsedFilter;
    StoreDistinct(st);
    MatchedDistinct(st.env, st.Docs(), q);
    ghost var m := Matched(st.env, st.Docs(), q);
    ghost var all := if m.Ok? then m.value else [];
    var start := if q.startIndex < 1 then 1 else q.startIndex;
    var count := if q.count <= 0 then 100 else q.count;
    var size := if count < cap then count else cap;
    FromFirst(all, q.startIndex);
    FromDistinct(all, start);
    var prev := Unseen;
    yielded, fail, stalled := [], None, false;
    while true
      invariant start >= 1 && !stalled && fail.None?
      invariant m.Err? ==> yielded == []
      invariant yielded + From(all, start) == From(all, q.startIndex)
      invariant prev.Seen? ==> prev.start < start <= |all| && prev.start >= 1 && prev.first == Some(all[prev.start - 1])
      decreases |all| + 1 - start
    {
      var page := ServePage(st, q, start, count, defaultCount, cap);
      if page.Err? { return [], Some(page.kind), false; }
      PageOf(all, start, size);
      var fp := FingerprintOf(page.value);
      if prev.Seen? { DistinctAt(all, prev.start, start); }
      if Stalled(fp, prev) { return yielded, None, true; }
      prev := fp;
      ghost var rest := From(all, start + |page.value.resources|);
      assert yielded + (page.value.resources + rest) == yielded + page.value.resources + rest;
      yielded := yielded + page.value.resources;
      if |page.value.resources| == 0 {
        PastEnd(all, start);
        return;
      }
      start := start + |page.value.resources|;
      if page.value.total > 0 && start > page.value.total {
        PastEnd(all, start);
        return;
      }
    }
  }

  lemma FromFirst(s: seq<Doc>, start: int)
    ensures From(s, if start < 1 then 1 else start) == From(s, start)
    ensures [] + From(s, start) == From(s, start)
  {
  }

  lemma FromDistinct(s: seq<Doc>, start: int)
    ensures Distinct(s) ==> Distinct(From(s, start))
  {
  }

  lemma PastEnd(s: seq<Doc>, start: int)
    requires start >= 1 && |s| < start
    ensures From(s, start) == []
  {
  }

  lemma DistinctAt(s: seq<Doc>, i: int, j: int)
    requires 1 <= i < j <= |s|
    ensures Distinct(s) ==> s[i - 1] != s[j - 1]
  {
  }
}
