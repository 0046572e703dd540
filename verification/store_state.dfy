/** What the store's structures must agree on (server/memstore/memstore.go): items, version
    counters, insertion order, ranks and the value index all describe the same resources. */
module StoreState {
  import opened Text
  import opened Schema
  import opened Values
  import opened Paths
  import opened Documents
  import opened DocumentFacts
  import opened PatchRules
  import opened PatchSpec
  import opened PatchFacts
  import opened PatchGuards
  import opened Versions
  import Sorting

  type Items = map<string, Doc>
  type Index = map<string, map<string, set<string>>>

  const ID := "id"

  /** A regular resource type whose core schema does not redeclare the common attributes. */
  predicate StoreType(rt: ResourceType) {
    Regular(rt) && forall a <- COMMON :: FindAttribute(rt.core.attrs, a.name).None?
  }

  function WithId(d: Doc, id: string): Doc {
    d.(attrs := d.attrs[ID := Str(id)])
  }

  function Stamped(d: Doc, n: nat): Doc {
    d.(meta := d.meta.(version := VersionString(n)))
  }

  function Touched(d: Doc, now: Moment): Doc {
    d.(meta := d.meta.(lastModified := Some(now)))
  }

  /** The id Create files a resource under: its own when it has one. */
  function CreatedId(res: Doc, generated: string): string {
    var id := Lookup(res.attrs, ID);
    if id.Some? && id.value.Str? && id.value.s != "" then id.value.s else generated
  }

  function TextTerm(v: Value): string {
    if v.Str? then Fold(v.s) else ""
  }

  /** indexValues: the folded terms of a string or multi-valued string attribute. */
  function Terms(rt: ResourceType, d: Doc, attr: string): seq<string> {
    var v := Get(rt, d, attr);
    if v.None? then []
    else match v.value
    case Str(s) => [Fold(s)]
    case Slice(typ, l) => if typ == TString then seq(|l|, i requires 0 <= i < |l| => TextTerm(l[i])) else []
    case _ => []
  }

  // ----- Agreement -----

  predicate NoDuplicates(s: seq<string>) {
    forall i, j :: 0 <= i < j < |s| ==> s[i] != s[j]
  }

  /** The sequence with every occurrence of x taken out. */
  function Without(s: seq<string>, x: string): seq<string> {
    if s == [] then [] else (if s[0] == x then [] else [s[0]]) + Without(s[1..], x)
  }

  lemma {:induction false} WithoutNone(s: seq<string>, x: string)
    requires x !in s
    ensures Without(s, x) == s
  {
    if s != [] { WithoutNone(s[1..], x); }
  }

  lemma {:induction false} WithoutAt(s: seq<string>, i: nat)
    requires i < |s| && NoDuplicates(s)
    ensures Without(s, s[i]) == s[..i] + s[i + 1..]
  {
    if i == 0 {
      assert forall j :: 0 <= j < |s| - 1 ==> s[1..][j] == s[j + 1];
      WithoutNone(s[1..], s[0]);
    } else {
      assert NoDuplicates(s[1..]) by {
        assert forall j :: 0 <= j < |s| - 1 ==> s[1..][j] == s[j + 1];
      }
      WithoutAt(s[1..], i - 1);
      assert s[..i] + s[i + 1..] == [s[0]] + (s[1..][..i - 1] + s[1..][i..]);
    }
  }

  ghost predicate OrderAgrees(ids: set<string>, versions: map<string, nat>, order: seq<string>, rank: map<string, nat>, clock: nat) {
    && versions.Keys == ids && rank.Keys == ids
    && (forall id :: id in order <==> id in ids)
    && (forall i, j :: 0 <= i < j < |order| ==> rank[order[i]] < rank[order[j]])
    && (forall id <- ids :: 1 <= rank[id] <= clock && 1 <= versions[id])
  }

  /** Every resource is canonical, carries its own key as id and the version of its counter. */
  predicate Identified(rt: ResourceType, items: Items, versions: map<string, nat>) {
    forall id <- items.Keys ::
      Canonical(rt, items[id]) && Lookup(items[id].attrs, ID) == Some(Str(id)) &&
      id in versions && items[id].meta.version == VersionString(versions[id])
  }

  function Bucket(index: Index, attr: string, term: string): set<string> {
    if attr in index && term in index[attr] then index[attr][term] else {}
  }

  /** The path names an attribute, or a member of one, of string type. */
  predicate StringAttr(rt: ResourceType, path: string) {
    var rp := ResolvePath(rt, path);
    rp.Ok? && rp.value.attr.Some? && (if rp.value.sub.Some? then rp.value.sub.value else rp.value.attr.value).typ == TString
  }

  /** The index holds exactly the ids whose resources carry a term, for string attributes only. */
  ghost predicate IndexAgrees(rt: ResourceType, attrs: seq<string>, items: Items, index: Index) {
    && (forall a <- index.Keys :: a in attrs && StringAttr(rt, a))
    && (forall a, term, id :: a in attrs ==> (id in Bucket(index, a, term) <==> id in items && term in Terms(rt, items[id], a)))
  }

  predicate Shares(rt: ResourceType, attr: string, a: Doc, b: Doc) {
    exists t <- Terms(rt, a, attr) :: t in Terms(rt, b, attr)
  }

  /** Some other resource already holds one of d's unique values. */
  predicate Clash(rt: ResourceType, unique: seq<string>, items: Items, id: string, d: Doc) {
    exists a <- unique, other <- items.Keys :: other != id && Shares(rt, a, d, items[other])
  }

  /** No two resources share a folded string value of a unique attribute. */
  predicate UniqueHeld(rt: ResourceType, unique: seq<string>, items: Items) {
    forall a <- unique, x <- items.Keys, y <- items.Keys :: x != y ==> !Shares(rt, a, items[x], items[y])
  }

  lemma SharesSym(rt: ResourceType, attr: string, a: Doc, b: Doc)
    requires Shares(rt, attr, a, b)
    ensures Shares(rt, attr, b, a)
  {
  }

  /** A write that does not clash keeps unique values unique. */
  lemma {:induction false} UniquePut(rt: ResourceType, unique: seq<string>, items: Items, id: string, d: Doc)
    requires UniqueHeld(rt, unique, items) && !Clash(rt, unique, items, id, d)
    ensures UniqueHeld(rt, unique, items[id := d])
  {
    hide Shares;
    var items' := items[id := d];
    forall a <- unique, x <- items'.Keys, y <- items'.Keys | x != y ensures !Shares(rt, a, items'[x], items'[y]) {
      if x == id {
        assert y in items;
      } else if y == id && Shares(rt, a, items'[x], d) {
        SharesSym(rt, a, items'[x], d);
      }
    }
  }

  lemma {:induction false} UniqueDrop(rt: ResourceType, unique: seq<string>, items: Items, id: string)
    requires UniqueHeld(rt, unique, items)
    ensures UniqueHeld(rt, unique, items - {id})
  {
    hide Shares;
  }

  // ----- Order and identity under each kind of write -----

  lemma {:induction false} OrderDistinct(ids: set<string>, versions: map<string, nat>, order: seq<string>, rank: map<string, nat>, clock: nat)
    requires OrderAgrees(ids, versions, order, rank, clock)
    ensures NoDuplicates(order)
  {
    forall i, j | 0 <= i < j < |order| ensures order[i] != order[j] {
      assert rank[order[i]] < rank[order[j]];
    }
  }

  lemma {:induction false} OrderInsert(ids: set<string>, versions: map<string, nat>, order: seq<string>, rank: map<string, nat>, clock: nat, id: string)
    requires OrderAgrees(ids, versions, order, rank, clock) && id !in ids
    ensures OrderAgrees(ids + {id}, versions[id := 1], order + [id], rank[id := clock + 1], clock + 1)
  {
    forall i, j | 0 <= i < j < |order + [id]|
      ensures rank[id := clock + 1][(order + [id])[i]] < rank[id := clock + 1][(order + [id])[j]]
    {
      assert order[i] in order;
      if j < |order| { assert order[j] in order; }
    }
  }

  /** What is left of a sequence without duplicates when one element goes. */
  lemma {:induction false} WithoutParts(s: seq<string>, x: string) returns (k: nat)
    requires x in s && NoDuplicates(s)
    ensures k < |s| && s[k] == x && |Without(s, x)| == |s| - 1
    ensures forall i :: 0 <= i < |s| - 1 ==> Without(s, x)[i] == s[if i < k then i else i + 1]
    ensures forall y :: y in Without(s, x) <==> y in s && y != x
  {
    k :| 0 <= k < |s| && s[k] == x;
    WithoutAt(s, k);
    var rest := s[..k] + s[k + 1..];
    forall y ensures y in rest <==> y in s && y != x {
      if y in s && y != x {
        var i :| 0 <= i < |s| && s[i] == y;
        assert rest[if i < k then i else i - 1] == y;
      }
    }
  }

  lemma {:induction false} OrderRemove(ids: set<string>, versions: map<string, nat>, order: seq<string>, rank: map<string, nat>, clock: nat, id: string)
    requires OrderAgrees(ids, versions, order, rank, clock) && id in ids
    ensures OrderAgrees(ids - {id}, versions - {id}, Without(order, id), rank - {id}, clock)
  {
    hide Without;
    OrderDistinct(ids, versions, order, rank, clock);
    var k := WithoutParts(order, id);
    var rest := Without(order, id);
    forall i, j | 0 <= i < j < |rest| ensures rank[rest[i]] < rank[rest[j]] && rest[i] != id && rest[j] != id {
      assert rest[i] in rest && rest[j] in rest;
    }
  }

  lemma {:induction false} OrderBump(ids: set<string>, versions: map<string, nat>, order: seq<string>, rank: map<string, nat>, clock: nat, id: string)
    requires OrderAgrees(ids, versions, order, rank, clock) && id in ids
    ensures OrderAgrees(ids, versions[id := versions[id] + 1], order, rank, clock)
  {
    assert versions[id := versions[id] + 1].Keys == ids;
  }

  lemma {:induction false} IdentifiedPut(rt: ResourceType, items: Items, versions: map<string, nat>, id: string, d: Doc, n: nat)
    requires Identified(rt, items, versions)
    requires Canonical(rt, d) && Lookup(d.attrs, ID) == Some(Str(id))
    ensures Identified(rt, items[id := Stamped(d, n)], versions[id := n])
  {
    hide Canonical;
    MetaApart(rt, d, d.meta.(version := VersionString(n)));
  }

  lemma {:induction false} IdentifiedDrop(rt: ResourceType, items: Items, versions: map<string, nat>, id: string)
    requires Identified(rt, items, versions)
    ensures Identified(rt, items - {id}, versions - {id})
  {
    hide Canonical;
  }

  // ----- What a reindexing must do -----

  /** The bucket of a term once id has traded its old resource for the new one. */
  function Rebucket(b: set<string>, id: string, held: bool, holds: bool): set<string> {
    (if held then b - {id} else b) + (if holds then {id} else {})
  }

  function TermsOf(rt: ResourceType, d: Option<Doc>, attr: string): seq<string> {
    if d.None? then [] else Terms(rt, d.value, attr)
  }

  ghost predicate Reindexed(rt: ResourceType, attrs: seq<string>, index: Index, index': Index, id: string, before: Option<Doc>, after: Option<Doc>) {
    && (forall a <- index'.Keys :: a in index || (a in attrs && TermsOf(rt, after, a) != []))
    && (forall a, term :: a in attrs ==>
          Bucket(index', a, term) == Rebucket(Bucket(index, a, term), id, term in TermsOf(rt, before, a), term in TermsOf(rt, after, a)))
  }

  lemma {:induction false} ReindexedAgrees(rt: ResourceType, attrs: seq<string>, items: Items, items': Items, index: Index, index': Index, id: string, after: Option<Doc>)
    requires IndexAgrees(rt, attrs, items, index) && FlatType(rt) && (after.Some? ==> Canonical(rt, after.value))
    requires Reindexed(rt, attrs, index, index', id, ItemAt(items, id), after)
    requires items' == if after.None? then items - {id} else items[id := after.value]
    ensures IndexAgrees(rt, attrs, items', index')
  {
    hide Terms, Bucket, StringAttr, Canonical, FlatType;
    forall a <- index'.Keys ensures a in attrs && StringAttr(rt, a) {
      if a !in index { TermsTyped(rt, after.value, a); }
    }
    forall a, term, x | a in attrs
      ensures x in Bucket(index', a, term) <==> x in items' && term in Terms(rt, items'[x], a)
    {
      assert Bucket(index', a, term) == Rebucket(Bucket(index, a, term), id, term in TermsOf(rt, ItemAt(items, id), a), term in TermsOf(rt, after, a));
      assert x in Bucket(index, a, term) <==> x in items && term in Terms(rt, items[x], a);
    }
  }

  /** Only string attributes contribute terms. */
  lemma {:induction false} TermsTyped(rt: ResourceType, d: Doc, path: string)
    requires FlatType(rt) && Canonical(rt, d) && Terms(rt, d, path) != []
    ensures StringAttr(rt, path)
  {
    hide FlatType, Canonical, ResolvePath, Sound, GetResolved;
    ResolvedSound(rt, path);
    Sorting.GetKind(rt, d, ResolvePath(rt, path).value);
  }

  function ItemAt(items: Items, id: string): Option<Doc> {
    if id in items then Some(items[id]) else None
  }

  // ----- Attributes that are not derived -----

  /** The common attributes resolve as themselves. */
  lemma {:induction false} CommonResolves(rt: ResourceType, a: Attribute)
    requires StoreType(rt) && a in COMMON
    ensures ResolvePath(rt, a.name).Ok? && ResolvePath(rt, a.name).value.attr.Some?
    ensures var rp := ResolvePath(rt, a.name).value;
            rp.urn == "" && rp.common && rp.sub.None? && rp.attr == FindAttribute(COMMON, a.name) && Sound(rt, rp)
  {
    hide ResolvePath, Sound, SeparateSchemas, FlatType, NamesValid;
    CommonFound(a);
    assert NamespaceAttr(rt, "", a.name).Some?;
    KeyResolves(rt, a.name);
    CommonFlags(rt, ResolvePath(rt, a.name).value, a.name);
  }

  lemma CommonFound(a: Attribute)
    requires a in COMMON
    ensures FindAttribute(COMMON, a.name).Some?
  {
  }

  lemma {:induction false} CommonFlags(rt: ResourceType, rp: Resolved, name: string)
    requires Sound(rt, rp) && LocOf(rp) == Loc("", Fold(name)) && FindAttribute(rt.core.attrs, name).None?
    ensures rp.urn == "" && rp.common
  {
    assert |rp.urn| == |Fold(rp.urn)|;
    FindByFold(rt.core.attrs, name, Fold(rp.attr.value.name));
    FoldIdempotent(name);
  }

  /** Reading and writing the id of a resource. */
  lemma {:induction false} IdAttribute(lx: Lexicon, rt: ResourceType, d: Doc, id: string)
    requires StoreType(rt)
    ensures Get(rt, d, ID) == Lookup(d.attrs, ID)
    ensures Set(lx, rt, d, ID, Str(id)) == Ok(WithId(d, id))
    ensures Canonical(rt, d) ==> Canonical(rt, WithId(d, id))
  {
    hide ResolvePath, StoreType, Canonical, Sound;
    var a := COMMON[0];
    IdFound();
    assert a in COMMON;
    CommonResolves(rt, a);
    var rp := ResolvePath(rt, ID).value;
    if Canonical(rt, d) { SetCanonical(lx, rt, d, rp, Str(id)); }
  }

  lemma IdFound()
    ensures COMMON[0].name == ID && Fold(ID) == ID && FindAttribute(COMMON, ID) == Some(COMMON[0])
  {
  }

  /** Restamping the metadata leaves the attributes canonical and a schema attribute's terms
      unchanged. */
  lemma {:induction false} MetaApart(rt: ResourceType, d: Doc, m: Meta)
    ensures Canonical(rt, d) ==> Canonical(rt, d.(meta := m))
  {
    hide CanonicalSlot;
  }

  lemma {:induction false} TermsApart(rt: ResourceType, d: Doc, m: Meta, attr: string)
    requires Regular(rt) && FindAttribute(rt.core.attrs, attr).Some?
    ensures Terms(rt, d.(meta := m), attr) == Terms(rt, d, attr)
  {
    hide ResolvePath, Regular, Sound;
    KeyResolves(rt, attr);
    var rp := ResolvePath(rt, attr).value;
    CoreFlags(rt, rp, attr);
  }

  lemma {:induction false} CoreFlags(rt: ResourceType, rp: Resolved, name: string)
    requires Sound(rt, rp) && LocOf(rp) == Loc("", Fold(name)) && FindAttribute(rt.core.attrs, name).Some?
    ensures rp.urn == "" && !rp.common
  {
    assert |rp.urn| == |Fold(rp.urn)|;
    FindByFold(rt.core.attrs, name, Fold(rp.attr.value.name));
    FoldIdempotent(name);
  }

  /** The attributes the schema constrains to be unique, folded. */
  function UniqueNames(attrs: seq<Attribute>): seq<string> {
    if attrs == [] then [] else (if attrs[0].unique then [Fold(attrs[0].name)] else []) + UniqueNames(attrs[1..])
  }

  lemma {:induction false} UniqueDeclared(attrs: seq<Attribute>)
    ensures forall a <- UniqueNames(attrs) :: FindAttribute(attrs, a).Some?
  {
    if attrs != [] {
      UniqueDeclared(attrs[1..]);
      FoldIdempotent(attrs[0].name);
    }
  }

  /** So stamping a resource does not change whether it clashes. */
  lemma {:induction false} ClashApart(rt: ResourceType, items: Items, id: string, d: Doc, m: Meta)
    requires Regular(rt)
    ensures Clash(rt, UniqueNames(rt.core.attrs), items, id, d.(meta := m)) == Clash(rt, UniqueNames(rt.core.attrs), items, id, d)
  {
    hide Terms, Regular, FindAttribute, UniqueNames;
    UniqueDeclared(rt.core.attrs);
    forall a <- UniqueNames(rt.core.attrs) ensures Terms(rt, d.(meta := m), a) == Terms(rt, d, a) {
      TermsApart(rt, d, m, a);
    }
  }

  // ----- PATCH on a stored resource -----

  /** What the native Patch makes of a stored resource: a failure, nothing (None), or the
      patched resource with a new modification time and version. */
  function Patched(env: Env, cur: Doc, ops: seq<Op>, now: Moment, n: nat): Result<Option<Doc>> {
    var r := Apply(env, cur, ops);
    if r.Err? then Err(r.kind)
    else if !r.value.changed then Ok(None)
    else Ok(Some(Stamped(Touched(r.value.doc, now), n)))
  }

  /** PATCH keeps the id and everything canonical. */
  lemma {:induction false} PatchKeepsId(env: Env, cur: Doc, ops: seq<Op>)
    requires StoreType(env.rt) && Canonical(env.rt, cur) && forall op <- ops :: ParsedOp(op)
    ensures var r := Apply(env, cur, ops);
            r.Ok? ==> Canonical(env.rt, r.value.doc) && r.value.doc.meta == cur.meta && Lookup(r.value.doc.attrs, ID) == Lookup(cur.attrs, ID)
  {
    hide Canonical, Regular, ParsedOp, ApplyOps, FindAttribute;
    ReadOnlyKept(env, Work(cur, false), ops, Loc("", ID));
    IdShielded(env.rt);
  }

  lemma {:induction false} IdShielded(rt: ResourceType)
    requires StoreType(rt)
    ensures PatchGuards.Shielded(rt, Loc("", ID))
  {
    IdFound();
    assert COMMON[0] in COMMON;
  }
}
