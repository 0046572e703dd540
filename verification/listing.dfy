/** List queries as functions of the resources in insertion order (server/memstore/list.go,
    server/engine.go), and why looking a filter up in the index loses nothing. */
module Listing {
  import opened Text
  import opened Schema
  import opened Values
  import opened Documents
  import opened DocumentFacts
  import opened Paths
  import opened FilterMatch
  import opened PatchRules
  import opened PatchFacts
  import opened PatchGuards
  import opened Sorting
  import opened StoreState
  import F = FilterAst

  datatype Query = Query(filter: Option<F.Expr>, sortBy: Option<F.Path>, ascending: bool, startIndex: int, count: int)

  datatype Page = Page(resources: seq<Doc>, total: nat)

  /** paginate of the store: the 1-based window, empty for a count of zero. */
  function Paginate(list: seq<Doc>, startIndex: int, count: int): seq<Doc> {
    var start := if startIndex < 1 then 1 else startIndex;
    if count <= 0 || |list| <= start - 1 then []
    else list[start - 1..if start - 1 + count < |list| then start - 1 + count else |list|]
  }

  /** The filtering loop: without a filter everything matches. */
  function Keep(env: Env, docs: seq<Doc>, f: Option<F.Expr>): Result<seq<Doc>> {
    if docs == [] then Ok([])
    else
      var ok :- if f.None? then Ok(true) else Match(env.lx, env.rt, docs[0], f.value);
      var rest :- Keep(env, docs[1..], f);
      Ok((if ok then [docs[0]] else []) + rest)
  }

  /** The matches found so far, and what the rest of the loop adds to them. */
  function After(found: seq<Doc>, rest: Result<seq<Doc>>): Result<seq<Doc>> {
    if rest.Ok? then Ok(found + rest.value) else rest
  }

  lemma {:induction false} KeepStart(env: Env, docs: seq<Doc>, f: Option<F.Expr>)
    ensures Keep(env, docs, f) == After([], Keep(env, docs[0..], f))
  {
    hide Match, Keep;
    assert docs[0..] == docs;
    var kept := Keep(env, docs, f);
    if kept.Ok? { assert [] + kept.value == kept.value; }
  }

  lemma {:induction false} KeepStep(env: Env, docs: seq<Doc>, f: Option<F.Expr>, found: seq<Doc>, i: nat)
    requires i < |docs|
    ensures var ok := if f.None? then Ok(true) else Match(env.lx, env.rt, docs[i], f.value);
            After(found, Keep(env, docs[i..], f)) ==
            if ok.Err? then Err(ok.kind)
            else After(if ok.value then found + [docs[i]] else found, Keep(env, docs[i + 1..], f))
  {
    hide Match;
    assert docs[i..][1..] == docs[i + 1..];
    var kept := Keep(env, docs[i + 1..], f);
    if kept.Ok? {
      assert found + ([docs[i]] + kept.value) == found + [docs[i]] + kept.value;
      assert [] + kept.value == kept.value;
    }
  }

  lemma {:induction false} KeepEnd(env: Env, docs: seq<Doc>, f: Option<F.Expr>, found: seq<Doc>)
    ensures After(found, Keep(env, docs[|docs|..], f)) == Ok(found)
  {
    assert docs[|docs|..] == [] && found + [] == found;
  }

  /** What a list query answers: the window of the sorted matches, and how many match. */
  function Listed(env: Env, docs: seq<Doc>, q: Query): Result<Page> {
    var matched :- Keep(env, docs, q.filter);
    var sorted := SortResources(env.lx, env.rt, matched, q.sortBy, q.ascending);
    Ok(Page(Paginate(sorted, q.startIndex, q.count), |matched|))
  }

  /** A page holds the resources at its own positions of the sorted matches, as many as the count
      allows, and says how many resources match. */
  lemma {:induction false} PageIs(env: Env, docs: seq<Doc>, q: Query)
    ensures var (r, m) := (Listed(env, docs, q), Keep(env, docs, q.filter));
            if m.Err? then r == Err(m.kind)
            else
              var sorted := SortResources(env.lx, env.rt, m.value, q.sortBy, q.ascending);
              var (page, first, left) := (r.value.resources, if q.startIndex < 1 then 0 else q.startIndex - 1, |sorted| - if q.startIndex < 1 then 0 else q.startIndex - 1);
              && r.Ok? && r.value.total == |m.value|
              && |page| == (if q.count <= 0 || left <= 0 then 0 else if q.count < left then q.count else left)
              && forall i :: 0 <= i < |page| ==> page[i] == sorted[first + i]
  {
    hide Keep, SortResources;
  }

  function ItemsAt(items: Items, ids: seq<string>): seq<Doc>
    requires forall id <- ids :: id in items
  {
    seq(|ids|, i requires 0 <= i < |ids| => assert ids[i] in ids; items[ids[i]])
  }

  // ----- The index -----

  /** indexLookup: the bucket of a bare eq on an indexed attribute. */
  function IndexLookup(index: Index, f: Option<F.Expr>): Option<set<string>> {
    if f.None? || !f.value.Compare? then None
    else
      var c := f.value;
      if !c.op.Eq? || c.path.urn != "" || c.path.sub != "" || !c.lit.Str? || Fold(c.path.attr) !in index then None
      else Some(Bucket(index, Fold(c.path.attr), Fold(c.lit.s)))
  }

  /** The ids of order that are in s. */
  function Hits(order: seq<string>, s: set<string>): seq<string> {
    if order == [] then [] else (if order[0] in s then [order[0]] else []) + Hits(order[1..], s)
  }

  lemma {:induction false} HitsIn(order: seq<string>, s: set<string>)
    ensures forall id :: id in Hits(order, s) <==> id in order && id in s
  {
    if order != [] { HitsIn(order[1..], s); }
  }

  /** Equal texts, folded or exact, have the same term. */
  lemma {:induction false} TextEqual(a: string, b: string)
    requires CompareText(a, b) == 0
    ensures a == b
  {
    if a != "" && b != "" { TextEqual(a[1..], b[1..]); }
  }

  lemma {:induction false} MatchedTerm(lx: Lexicon, a: Attribute, got: Value, want: string)
    requires a.typ == TString && CompareValue(lx, a, got, F.Eq, F.Str(want)) && !got.Ref?
    ensures got.Str? && TextTerm(got) == Fold(want)
  {
    var (g, w) := if a.caseExact then (got.s, want) else (Fold(got.s), Fold(want));
    TextEqual(g, w);
  }

  /** A path that is a plain name reads alike in any case. */
  lemma {:induction false} GetByFold(rt: ResourceType, d: Doc, name: string)
    requires Regular(rt) && NamespaceAttr(rt, "", name).Some?
    ensures Get(rt, d, Fold(name)) == Get(rt, d, name)
  {
    hide ResolvePath, Regular, NamespaceAttr, GetResolved, Sound;
    FoldIdempotent(name);
    NamespaceByFold(rt, "", name, Fold(name));
    assert Fold("") == "";
    KeyResolves(rt, name);
    KeyResolves(rt, Fold(name));
    SameResolved(rt, ResolvePath(rt, name).value, ResolvePath(rt, Fold(name)).value);
  }

  lemma {:induction false} SameResolved(rt: ResourceType, a: Resolved, b: Resolved)
    requires Sound(rt, a) && Sound(rt, b) && a.attr == b.attr && a.sub.None? && b.sub.None? && LocOf(a).urn == "" && LocOf(b).urn == ""
    ensures a == b
  {
    assert |Fold(a.urn)| == |a.urn| && |Fold(b.urn)| == |b.urn|;
  }

  /** A resource that satisfies a bare eq on a string attribute carries the term looked up. */
  lemma {:induction false} EvalTerm(lx: Lexicon, rt: ResourceType, d: Doc, p: F.Path, want: string)
    requires Regular(rt) && Canonical(rt, d) && ParsedPath(p) && p.urn == "" && p.sub == "" && p.filter.None?
    requires StringAttr(rt, Fold(p.attr)) && Eval(lx, rt, d, F.Compare(p, F.Eq, F.Str(want)))
    ensures Fold(want) in Terms(rt, d, Fold(p.attr))
  {
    hide Regular, Canonical, ParsedPath, ResolvePath, CompareValue, Sound, GetResolved, KeyOf;
    var attr := ResolveTarget(rt, p).value.0;
    var rp := TargetRead(rt, d, p);
    var v := Get(rt, d, p.attr);
    GetKind(rt, d, rp);
    var got :| got in Candidates(rt, d, p, attr, None) && CompareValue(lx, attr, got, F.Eq, F.Str(want));
    NilUnmatched(lx, attr, want);
    StringKind(attr, v.value);
    MatchedTerm(lx, attr, got, want);
    if v.value.Slice? {
      var i :| 0 <= i < |v.value.scalars| && v.value.scalars[i] == got;
      assert Terms(rt, d, Fold(p.attr))[i] == Fold(want);
    } else {
      assert Terms(rt, d, Fold(p.attr))[0] == Fold(want);
    }
  }

  lemma NilUnmatched(lx: Lexicon, a: Attribute, want: string)
    ensures !CompareValue(lx, a, Nil, F.Eq, F.Str(want))
  {
  }

  lemma StringKind(a: Attribute, v: Value)
    requires a.typ == TString && KeyOf(a, v) && !v.Nil?
    ensures if a.multi then v.Slice? && v.typ == TString && (forall i :: 0 <= i < |v.scalars| ==> v.scalars[i].Str?) else v.Str?
  {
  }

  /** What a filter path that is a plain name reads. */
  lemma {:induction false} TargetRead(rt: ResourceType, d: Doc, p: F.Path) returns (rp: Resolved)
    requires Regular(rt) && ParsedPath(p) && p.urn == "" && p.sub == "" && p.filter.None?
    requires ResolveTarget(rt, p).Some? && StringAttr(rt, Fold(p.attr))
    ensures Sound(rt, rp) && rp.attr == Some(ResolveTarget(rt, p).value.0) && rp.sub.None? && rp.attr.value.typ == TString
    ensures ResolvePath(rt, p.attr) == Ok(rp) && Get(rt, d, Fold(p.attr)) == Get(rt, d, p.attr) == GetResolved(rt, d, rp)
    ensures SubPathText(p) == p.attr
  {
    hide Regular, ParsedPath, ResolvePath, Sound, GetResolved, NamespaceAttr, LocOf, TargetLoc;
    PlainTarget(rt, p);
    GetByFold(rt, d, p.attr);
    KeyResolves(rt, p.attr);
    rp := ResolvePath(rt, p.attr).value;
    FoldIdempotent(p.attr);
    NamespaceByFold(rt, "", p.attr, Fold(p.attr));
    assert Fold("") == "";
    KeyResolves(rt, Fold(p.attr));
    SoundDeclared(rt, rp);
  }

  lemma {:induction false} PlainTarget(rt: ResourceType, p: F.Path)
    requires p.urn == "" && p.sub == "" && p.filter.None? && ResolveTarget(rt, p).Some?
    ensures NamespaceAttr(rt, "", p.attr) == Some(ResolveTarget(rt, p).value.0) && ResolveTarget(rt, p).value.1.None?
    ensures SubPathText(p) == p.attr
  {
    assert "" + p.attr + "" == p.attr;
  }

  /** The path of a bare comparison is as the parser delivers it. */
  predicate ParsedFilter(f: Option<F.Expr>) {
    f.Some? && f.value.Compare? ==> ParsedPath(f.value.path) && f.value.path.filter.None?
  }

  lemma {:induction false} KeepCons(env: Env, d: Doc, rest: seq<Doc>, f: F.Expr)
    requires Match(env.lx, env.rt, d, f).Ok?
    ensures var kept := Keep(env, rest, Some(f));
            Keep(env, [d] + rest, Some(f)) ==
            if kept.Err? then kept else Ok((if Match(env.lx, env.rt, d, f).value then [d] else []) + kept.value)
  {
    hide Match;
    assert ([d] + rest)[1..] == rest;
  }

  lemma ItemsCons(items: Items, id: string, rest: seq<string>)
    requires id in items && forall x <- rest :: x in items
    ensures ItemsAt(items, [id] + rest) == [items[id]] + ItemsAt(items, rest)
  {
  }

  /** Dropping resources that do not match changes nothing. */
  lemma {:induction false} KeepHits(env: Env, items: Items, order: seq<string>, s: set<string>, f: F.Expr)
    requires forall id <- order :: id in items
    requires forall id <- order :: Match(env.lx, env.rt, items[id], f).Ok? && (Match(env.lx, env.rt, items[id], f).value ==> id in s)
    ensures (forall id <- Hits(order, s) :: id in items)
    ensures Keep(env, ItemsAt(items, order), Some(f)) == Keep(env, ItemsAt(items, Hits(order, s)), Some(f))
  {
    hide Match, Keep, ItemsAt;
    HitsIn(order, s);
    if order != [] {
      var id, rest := order[0], order[1..];
      HitsIn(rest, s);
      assert id in order && forall x <- rest :: x in order;
      KeepHits(env, items, rest, s, f);
      assert order == [id] + rest;
      ItemsCons(items, id, rest);
      KeepCons(env, items[id], ItemsAt(items, rest), f);
      if id in s {
        ItemsCons(items, id, Hits(rest, s));
        KeepCons(env, items[id], ItemsAt(items, Hits(rest, s)), f);
      } else {
        var kept := Keep(env, ItemsAt(items, rest), Some(f));
        assert [] + Hits(rest, s) == Hits(rest, s);
        if kept.Ok? { assert [] + kept.value == kept.value; }
      }
    } else {
      assert Hits(order, s) == order;
    }
  }

  /** An eq comparison is never an invalid filter. */
  lemma {:induction false} EqMatches(env: Env, d: Doc, p: F.Path, v: F.Literal)
    ensures Match(env.lx, env.rt, d, F.Compare(p, F.Eq, v)) == Ok(Eval(env.lx, env.rt, d, F.Compare(p, F.Eq, v)))
  {
    hide Eval;
  }

  /** Filtering the index bucket and filtering everything give the same resources, in the same
      order, for every filter the index answers. */
  lemma {:induction false} IndexNarrows(env: Env, attrs: seq<string>, items: Items, order: seq<string>, index: Index, f: Option<F.Expr>)
    requires StoreType(env.rt) && IndexAgrees(env.rt, attrs, items, index) && ParsedFilter(f) && IndexLookup(index, f).Some?
    requires forall id <- order :: id in items && Canonical(env.rt, items[id])
    ensures var s := IndexLookup(index, f).value;
            && (forall id <- Hits(order, s) :: id in items)
            && Keep(env, ItemsAt(items, order), f) == Keep(env, ItemsAt(items, Hits(order, s)), f)
  {
    hide Canonical, Regular, ParsedPath, Eval, Match, Terms, Bucket, StringAttr, FindAttribute;
    var (p, want) := (f.value.path, f.value.lit.s);
    var s := IndexLookup(index, f).value;
    assert Fold(p.attr) in attrs && StringAttr(env.rt, Fold(p.attr));
    forall id <- order
      ensures Match(env.lx, env.rt, items[id], f.value).Ok? && (Match(env.lx, env.rt, items[id], f.value).value ==> id in s)
    {
      EqMatches(env, items[id], p, f.value.lit);
      if Eval(env.lx, env.rt, items[id], f.value) { EvalTerm(env.lx, env.rt, items[id], p, want); }
      assert id in Bucket(index, Fold(p.attr), Fold(want)) <==> id in items && Fold(want) in Terms(env.rt, items[id], Fold(p.attr));
    }
    KeepHits(env, items, order, s, f.value);
  }

  // ----- Sorting the hits by rank -----

  predicate Ranked(ids: seq<string>, rank: map<string, nat>) {
    forall i, j :: 0 <= i < j < |ids| ==> ids[i] in rank && ids[j] in rank && rank[ids[i]] < rank[ids[j]]
  }

  lemma {:induction false} HitsRanked(order: seq<string>, rank: map<string, nat>, s: set<string>)
    requires Ranked(order, rank)
    ensures Ranked(Hits(order, s), rank)
  {
    if order != [] {
      var rest := order[1..];
      assert Ranked(rest, rank) by {
        assert forall i :: 0 <= i < |rest| ==> rest[i] == order[i + 1];
      }
      HitsRanked(rest, rank, s);
      HitsIn(rest, s);
      var hits := Hits(rest, s);
      forall i | 0 <= i < |hits| ensures order[0] in rank && hits[i] in rank && rank[order[0]] < rank[hits[i]] {
        assert hits[i] in hits;
        var k :| 0 <= k < |rest| && rest[k] == hits[i];
        assert order[k + 1] == hits[i];
      }
    }
  }

  lemma FrontIn(s: seq<string>)
    ensures s != [] ==> s[0] in s
  {
  }

  /** Ids in rank order are determined by which they are. */
  lemma {:induction false} RankedUnique(a: seq<string>, b: seq<string>, rank: map<string, nat>)
    requires Ranked(a, rank) && Ranked(b, rank) && forall id :: id in a <==> id in b
    ensures a == b
    decreases |a|
  {
    if a == [] {
      FrontIn(b);
    } else {
      assert a[0] in a && a[0] in b;
      var i :| 0 <= i < |b| && b[i] == a[0];
      assert b[0] in b && b[0] in a;
      var j :| 0 <= j < |a| && a[j] == b[0];
      assert a[0] == b[0];
      forall id ensures id in a[1..] <==> id in b[1..] {
        RankedTail(a, rank, id);
        RankedTail(b, rank, id);
      }
      assert Ranked(a[1..], rank) && Ranked(b[1..], rank) by {
        assert forall i :: 0 <= i < |a| - 1 ==> a[1..][i] == a[i + 1];
        assert forall i :: 0 <= i < |b| - 1 ==> b[1..][i] == b[i + 1];
      }
      RankedUnique(a[1..], b[1..], rank);
      assert a == [a[0]] + a[1..] && b == [b[0]] + b[1..];
    }
  }

  lemma {:induction false} RankedTail(a: seq<string>, rank: map<string, nat>, id: string)
    requires a != [] && Ranked(a, rank)
    ensures id in a[1..] <==> id in a && id != a[0]
  {
    if id in a && id != a[0] {
      var k :| 0 <= k < |a| && a[k] == id;
      assert a[1..][k - 1] == id;
    }
    if id in a[1..] {
      var k :| 0 <= k < |a[1..]| && a[1..][k] == id;
      assert a[k + 1] == id;
    }
  }
}
