/** The server's query engine (server/engine.go, server/query.go): push the query down, or fetch
    a bounded set and finish it in memory. Both give the same page. */
module Engine {
  import opened Text
  import opened Documents
  import opened PatchRules
  import opened Sorting
  import opened StoreState
  import opened Listing
  import opened Memstore
  import FilterMatch
  import F = FilterAst

  function Clamp(n: int, lo: int, hi: int): int {
    if n < lo then lo else if hi < n then hi else n
  }

  /** normalizePagination, on the numbers the request carries, if any: without a start the page
      begins at the first resource, without a count it has the default size; a count over the
      maximum is cut to it, and nothing else of the query changes. */
  function Normalized(q: Query, startIndex: Option<int>, count: Option<int>, defaultCount: nat, maxCount: nat): (n: Query)
    ensures IsNormal(n) && (count.Some? ==> n.count <= maxCount)
    ensures if startIndex.Some? && startIndex.value >= 1 then n.startIndex == startIndex.value else n.startIndex == 1
    ensures count.None? ==> n.count == defaultCount
    ensures count.Some? && 0 <= count.value <= maxCount ==> n.count == count.value
    ensures count.Some? && count.value < 0 ==> n.count == 0
    ensures count.Some? && count.value > maxCount ==> n.count == maxCount
    ensures n.filter == q.filter && n.sortBy == q.sortBy && n.ascending == q.ascending
  {
    q.(startIndex := if startIndex.Some? && startIndex.value > 1 then startIndex.value else 1,
       count := if count.None? then defaultCount else Clamp(count.value, 0, maxCount))
  }

  /** What the engine may assume of a normalized query. */
  predicate IsNormal(q: Query) {
    q.startIndex >= 1 && q.count >= 0
  }

  /** The server's paginate. */
  method PaginateSlice(list: seq<Doc>, startIndex: int, count: int) returns (page: seq<Doc>)
    requires startIndex >= 1 && count >= 0
    ensures page == Paginate(list, startIndex, count)
  {
    var offset := startIndex - 1;
    if offset >= |list| || count == 0 { return []; }
    var end := if offset + count < |list| then offset + count else |list|;
    page := list[offset..end];
  }

  /** A window that starts at the front and is wide enough is the whole list. */
  lemma WholeWindow(list: seq<Doc>, count: int)
    requires |list| < count
    ensures Paginate(list, 1, count) == list
  {
  }

  lemma CutWindow(list: seq<Doc>, count: int)
    requires 0 < count
    ensures |Paginate(list, 1, count)| <= |list|
  {
  }

  lemma {:induction false} KeepAll(env: Env, docs: seq<Doc>)
    ensures Keep(env, docs, None) == Ok(docs)
  {
    if docs != [] {
      KeepAll(env, docs[1..]);
      assert [docs[0]] + docs[1..] == docs;
    }
  }

  lemma Unsorted(env: Env, docs: seq<Doc>)
    ensures SortResources(env.lx, env.rt, docs, None, false) == docs
  {
  }

  /** scanQuery's matching loop. */
  method MatchAll(env: Env, docs: seq<Doc>, f: F.Expr) returns (r: Result<seq<Doc>>)
    ensures r == Keep(env, docs, Some(f))
  {
    hide FilterMatch.Match, Keep;
    var matched: seq<Doc> := [];
    KeepStart(env, docs, Some(f));
    for i := 0 to |docs|
      invariant Keep(env, docs, Some(f)) == After(matched, Keep(env, docs[i..], Some(f)))
    {
      KeepStep(env, docs, Some(f), matched, i);
      var ok := FilterMatch.Match(env.lx, env.rt, docs[i], f);
      if ok.Err? { return Err(ok.kind); }
      if ok.value { matched := matched + [docs[i]]; }
    }
    KeepEnd(env, docs, Some(f), matched);
    r := Ok(matched);
  }

  /** What scanQuery answers: too many when the set it would fetch is over the limit, else the
      page a list of the store itself would give. */
  function Scanned(env: Env, docs: seq<Doc>, q: Query, limit: nat, pushFilter: bool): Result<Page> {
    var fetched := Keep(env, docs, if pushFilter then q.filter else None);
    if fetched.Err? then Err(fetched.kind)
    else if |fetched.value| > limit then Err(TooMany)
    else Listed(env, docs, q)
  }

  /** Of a scan the store finds at most limit resources for, filtered by the store or not at all,
      the answer is the page of a list of the store itself; one resource more is too many. */
  lemma {:induction false} LimitIff(env: Env, docs: seq<Doc>, q: Query, limit: nat, pushFilter: bool)
    ensures var (found, r) := (if pushFilter then Keep(env, docs, q.filter) else Ok(docs), Scanned(env, docs, q, limit, pushFilter));
            if found.Err? then r == Err(found.kind)
            else if |found.value| <= limit then r == Listed(env, docs, q)
            else r == Err(TooMany)
  {
    hide Keep, Listed;
    if !pushFilter { KeepAll(env, docs); }
  }

  /** scanQuery. */
  method ScanQuery(st: Store, q: Query, limit: nat, pushFilter: bool) returns (r: Result<Page>)
    requires st.Valid() && ParsedFilter(q.filter) && IsNormal(q)
    requires !pushFilter ==> q.filter.Some?
    ensures forall id <- st.order :: id in st.items
    ensures r == Scanned(st.env, st.Docs(), q, limit, pushFilter)
  {
    hide Store.Valid, Keep, SortResources, Paginate;
    var fetch := Query(if pushFilter then q.filter else None, None, false, 1, limit + 1);
    var page := st.List(fetch);
    if page.Err? { return Err(page.kind); }
    KeepAll(st.env, st.Docs());
    ghost var fetched := Keep(st.env, st.Docs(), fetch.filter).value;
    Unsorted(st.env, fetched);
    CutWindow(fetched, limit + 1);
    if page.value.total > limit || |page.value.resources| > limit { return Err(TooMany); }
    WholeWindow(fetched, limit + 1);
    var matched := page.value.resources;
    if !pushFilter {
      var kept := MatchAll(st.env, page.value.resources, q.filter.value);
      if kept.Err? { return Err(kept.kind); }
      matched := kept.value;
    }
    var sorted := SortResources(st.env.lx, st.env.rt, matched, q.sortBy, q.ascending);
    var window := PaginateSlice(sorted, q.startIndex, q.count);
    r := Ok(Page(window, |matched|));
  }

  /** runQuery: with both capabilities the store answers, otherwise the scan does. */
  method RunQuery(st: Store, q: Query, limit: nat, supportsFilter: bool, supportsSort: bool) returns (r: Result<Page>)
    requires st.Valid() && ParsedFilter(q.filter) && IsNormal(q)
    ensures forall id <- st.order :: id in st.items
    ensures r == if (q.filter.None? || supportsFilter) && (q.sortBy.None? || supportsSort) then Listed(st.env, st.Docs(), q)
                 else Scanned(st.env, st.Docs(), q, limit, q.filter.None? || supportsFilter)
  {
    hide Store.Valid, Listed, Scanned;
    var pushFilter, pushSort := q.filter.None? || supportsFilter, q.sortBy.None? || supportsSort;
    if pushFilter && pushSort {
      r := st.List(q);
    } else {
      r := ScanQuery(st, q, limit, pushFilter);
    }
  }
}
