/** The sort of list results (server/sort.go): type-aware keys, resources without a key last,
    ties in their original order. */
module Sorting {
  import opened Text
  import opened Schema
  import opened Values
  import opened Documents
  import opened DocumentFacts
  import opened Paths
  import opened FilterMatch
  import opened PatchFacts
  import opened PatchGuards
  import opened PatchSelected
  import opened PatchRules
  import opened PatchSpec
  import Ordering
  import F = FilterAst

  // ----- Keys -----

  /** matchIndex: the first element that matches alone; None also when an element cannot be
      probed. */
  function MatchIndex(lx: Lexicon, rt: ResourceType, sortBy: F.Path, f: F.Expr, list: seq<Elem>): Option<Elem> {
    if list == [] then None
    else
      var probe := Set(lx, rt, Doc(map[], map[], NO_META), AttrPathText(sortBy), Multi([list[0]]));
      if probe.Err? then None
      else
        var ok := Match(lx, rt, probe.value, F.ValuePath(F.Path(sortBy.urn, sortBy.attr, "", None), f));
        if ok.Err? then None
        else if ok.value then Some(list[0])
        else MatchIndex(lx, rt, sortBy, f, list[1..])
  }

  function FirstPrimary(list: seq<Elem>): Option<Elem> {
    if list == [] then None else if PrimaryTrue(list[0]) then Some(list[0]) else FirstPrimary(list[1..])
  }

  /** pickElement. */
  function PickElement(lx: Lexicon, rt: ResourceType, sortBy: F.Path, list: seq<Elem>): Option<Elem>
    requires list != []
  {
    if sortBy.filter.Some? then MatchIndex(lx, rt, sortBy, sortBy.filter.value, list)
    else if FirstPrimary(list).Some? then FirstPrimary(list)
    else Some(list[0])
  }

  /** sortKey, with Nil for a missing key. */
  function SortKey(lx: Lexicon, rt: ResourceType, d: Doc, sortBy: F.Path, attr: Attribute, sub: Option<Attribute>): Value {
    if attr.multi && attr.typ == TComplex then
      var v := GetOrNil(rt, d, AttrPathText(sortBy));
      if !v.Multi? || v.elems == [] then Nil
      else
        var e := PickElement(lx, rt, sortBy, v.elems);
        var key := if sub.Some? then Fold(sub.value.name) else VALUE;
        if e.Some? && key in e.value then e.value[key] else Nil
    else GetOrNil(rt, d, SubPathText(sortBy))
  }

  // ----- Comparison -----

  function CompareBytes(a: seq<nat>, b: seq<nat>): int {
    if a == [] && b == [] then 0
    else if a == [] then -1
    else if b == [] then 1
    else if a[0] < b[0] then -1
    else if b[0] < a[0] then 1
    else CompareBytes(a[1..], b[1..])
  }

  function Number(v: Value): Option<real> {
    match v
    case Int(i) => Some(i as real)
    case Dec(r) => Some(r)
    case _ => None
  }

  /** compareKeys on stored values; values of different kinds compare equal. */
  function CompareKeys(a: Value, b: Value, exact: bool): int {
    match a
    case Str(s) => if !b.Str? then 0 else if exact then CompareText(s, b.s) else CompareText(Fold(s), Fold(b.s))
    case Ref(s) => if !b.Ref? then 0 else CompareText(s, b.uri)
    case Bool(x) => if !b.Bool? then 0 else Sign(!x && b.b, x && !b.b)
    case Time(t) => if !b.Time? then 0 else Sign(t.instant < b.t.instant, b.t.instant < t.instant)
    case Bin(x) => if !b.Bin? then 0 else CompareBytes(x, b.bytes)
    case _ =>
      var (x, y) := (Number(a), Number(b));
      if x.None? || y.None? then 0 else Sign(x.value < y.value, y.value < x.value)
  }

  /** sortCompare. */
  function SortCompare(a: Value, b: Value, exact: bool, ascending: bool): int {
    if a.Nil? && b.Nil? then 0
    else if a.Nil? then 1
    else if b.Nil? then -1
    else if ascending then CompareKeys(a, b, exact)
    else -CompareKeys(a, b, exact)
  }

  // ----- A stable sort -----

  datatype Row = Row(key: Value, doc: Doc)

  /** How a sort orders keys. */
  datatype Direction = Direction(exact: bool, ascending: bool)

  predicate NotAfter(dir: Direction, x: Row, y: Row) {
    SortCompare(x.key, y.key, dir.exact, dir.ascending) <= 0
  }

  /** x goes before the first row it does not come after: it was ahead of all of them. */
  function Insert(dir: Direction, x: Row, s: seq<Row>): seq<Row> {
    if s == [] then [x]
    else if NotAfter(dir, x, s[0]) then [x] + s
    else [s[0]] + Insert(dir, x, s[1..])
  }

  /** The stable sort. */
  function SortRows(dir: Direction, s: seq<Row>): seq<Row> {
    if s == [] then [] else Insert(dir, s[0], SortRows(dir, s[1..]))
  }

  function Rows(lx: Lexicon, rt: ResourceType, list: seq<Doc>, sortBy: F.Path, attr: Attribute, sub: Option<Attribute>): seq<Row> {
    seq(|list|, i requires 0 <= i < |list| => Row(SortKey(lx, rt, list[i], sortBy, attr, sub), list[i]))
  }

  function DocsOf(rows: seq<Row>): seq<Doc> {
    seq(|rows|, i requires 0 <= i < |rows| => rows[i].doc)
  }

  /** SortResources. */
  function SortResources(lx: Lexicon, rt: ResourceType, list: seq<Doc>, sortBy: Option<F.Path>, ascending: bool): seq<Doc> {
    if sortBy.None? then list
    else
      var t := ResolveTarget(rt, sortBy.value);
      if t.None? then list
      else
        var (attr, sub) := t.value;
        var target := if sub.Some? then sub.value else attr;
        DocsOf(SortRows(Direction(target.caseExact, ascending), Rows(lx, rt, list, sortBy.value, attr, sub)))
  }

  // ----- The comparison is a total preorder on the keys of one attribute -----

  lemma {:induction false} CompareTextIs(a: string, b: string)
    ensures CompareText(a, b) <= 0 <==> Ordering.LessEq(a, b)
    ensures CompareText(b, a) == -CompareText(a, b)
  {
    if a != "" && b != "" { CompareTextIs(a[1..], b[1..]); }
  }

  lemma {:induction false} TextTrans(a: string, b: string, c: string)
    requires CompareText(a, b) <= 0 && CompareText(b, c) <= 0
    ensures CompareText(a, c) <= 0
  {
    CompareTextIs(a, b);
    CompareTextIs(b, c);
    CompareTextIs(a, c);
    Ordering.LessEqTrans(a, b, c);
  }

  lemma {:induction false} BytesFlip(a: seq<nat>, b: seq<nat>)
    ensures CompareBytes(b, a) == -CompareBytes(a, b)
  {
    if a != [] && b != [] { BytesFlip(a[1..], b[1..]); }
  }

  lemma {:induction false} BytesTrans(a: seq<nat>, b: seq<nat>, c: seq<nat>)
    requires CompareBytes(a, b) <= 0 && CompareBytes(b, c) <= 0
    ensures CompareBytes(a, c) <= 0
  {
    if a != [] && b != [] && c != [] && a[0] == b[0] == c[0] { BytesTrans(a[1..], b[1..], c[1..]); }
  }

  /** Keys of one attribute are of one kind. */
  predicate KeyOf(a: Attribute, v: Value) {
    v.Nil? || (if a.typ == TComplex then v.Cplx? || v.Multi? else StoredSimple(a, v))
  }

  lemma {:induction false} KeysFlip(a: Attribute, x: Value, y: Value, exact: bool)
    requires KeyOf(a, x) && KeyOf(a, y) && !x.Nil? && !y.Nil?
    ensures CompareKeys(y, x, exact) == -CompareKeys(x, y, exact)
  {
    if x.Str? && y.Str? {
      CompareTextIs(x.s, y.s);
      CompareTextIs(Fold(x.s), Fold(y.s));
    } else if x.Ref? && y.Ref? {
      CompareTextIs(x.uri, y.uri);
    } else if x.Bin? && y.Bin? {
      BytesFlip(x.bytes, y.bytes);
    }
  }

  lemma {:induction false} KeysTrans(a: Attribute, x: Value, y: Value, z: Value, exact: bool)
    requires KeyOf(a, x) && KeyOf(a, y) && KeyOf(a, z) && !x.Nil? && !y.Nil? && !z.Nil?
    requires CompareKeys(x, y, exact) <= 0 && CompareKeys(y, z, exact) <= 0
    ensures CompareKeys(x, z, exact) <= 0
  {
    if x.Str? && y.Str? && z.Str? {
      if exact { TextTrans(x.s, y.s, z.s); } else { TextTrans(Fold(x.s), Fold(y.s), Fold(z.s)); }
    } else if x.Ref? && y.Ref? && z.Ref? {
      TextTrans(x.uri, y.uri, z.uri);
    } else if x.Bin? && y.Bin? && z.Bin? {
      BytesTrans(x.bytes, y.bytes, z.bytes);
    }
  }

  lemma {:induction false} RowsTotal(a: Attribute, dir: Direction, x: Row, y: Row)
    requires KeyOf(a, x.key) && KeyOf(a, y.key)
    ensures NotAfter(dir, x, y) || NotAfter(dir, y, x)
  {
    hide KeyOf, CompareKeys;
    if !x.key.Nil? && !y.key.Nil? { KeysFlip(a, x.key, y.key, dir.exact); }
  }

  lemma {:induction false} RowsTrans(a: Attribute, dir: Direction, x: Row, y: Row, z: Row)
    requires KeyOf(a, x.key) && KeyOf(a, y.key) && KeyOf(a, z.key)
    requires NotAfter(dir, x, y) && NotAfter(dir, y, z)
    ensures NotAfter(dir, x, z)
  {
    hide KeyOf, CompareKeys;
    if !x.key.Nil? && !y.key.Nil? && !z.key.Nil? {
      KeysFlip(a, x.key, y.key, dir.exact);
      KeysFlip(a, y.key, z.key, dir.exact);
      KeysFlip(a, x.key, z.key, dir.exact);
      if dir.ascending { KeysTrans(a, x.key, y.key, z.key, dir.exact); } else { KeysTrans(a, z.key, y.key, x.key, dir.exact); }
    }
  }

  // ----- What the sort computes -----

  predicate KeysOf(a: Attribute, s: seq<Row>) {
    forall i :: 0 <= i < |s| ==> KeyOf(a, s[i].key)
  }

  predicate Ordered(dir: Direction, s: seq<Row>) {
    forall i, j :: 0 <= i < j < |s| ==> NotAfter(dir, s[i], s[j])
  }

  lemma {:induction false} InsertBag(dir: Direction, x: Row, s: seq<Row>)
    ensures multiset(Insert(dir, x, s)) == multiset{x} + multiset(s)
  {
    hide NotAfter;
    if s != [] && !NotAfter(dir, x, s[0]) {
      InsertBag(dir, x, s[1..]);
      assert s == [s[0]] + s[1..];
    }
  }

  lemma {:induction false} SortBag(dir: Direction, s: seq<Row>)
    ensures multiset(SortRows(dir, s)) == multiset(s)
  {
    if s != [] {
      SortBag(dir, s[1..]);
      InsertBag(dir, s[0], SortRows(dir, s[1..]));
      assert s == [s[0]] + s[1..];
    }
  }

  lemma {:induction false} BagKeys(a: Attribute, s: seq<Row>, t: seq<Row>)
    requires multiset(s) == multiset(t) && KeysOf(a, s)
    ensures KeysOf(a, t)
  {
    hide KeyOf;
    forall i | 0 <= i < |t| ensures KeyOf(a, t[i].key) {
      assert t[i] in multiset(s);
    }
  }

  lemma {:induction false} InsertOrdered(a: Attribute, dir: Direction, x: Row, s: seq<Row>)
    requires KeyOf(a, x.key) && KeysOf(a, s) && Ordered(dir, s)
    ensures Ordered(dir, Insert(dir, x, s))
  {
    hide NotAfter, KeyOf;
    if s == [] {
    } else if NotAfter(dir, x, s[0]) {
      forall j | 0 < j < |s| ensures NotAfter(dir, x, s[j]) {
        RowsTrans(a, dir, x, s[0], s[j]);
      }
    } else {
      OrderedTail(dir, s);
      InsertOrdered(a, dir, x, s[1..]);
      RowsTotal(a, dir, x, s[0]);
      var rest := Insert(dir, x, s[1..]);
      InsertBag(dir, x, s[1..]);
      forall j | 0 <= j < |rest| ensures NotAfter(dir, s[0], rest[j]) {
        assert rest[j] in multiset(rest);
        if rest[j] != x {
          assert rest[j] in s[1..];
          var k :| 0 <= k < |s[1..]| && s[1..][k] == rest[j];
          assert s[k + 1] == rest[j];
        }
      }
      assert Insert(dir, x, s) == [s[0]] + rest;
    }
  }

  lemma OrderedTail(dir: Direction, s: seq<Row>)
    requires s != [] && Ordered(dir, s)
    ensures Ordered(dir, s[1..])
  {
  }

  lemma {:induction false} SortOrdered(a: Attribute, dir: Direction, s: seq<Row>)
    requires KeysOf(a, s)
    ensures Ordered(dir, SortRows(dir, s))
  {
    hide KeyOf, NotAfter;
    if s != [] {
      SortOrdered(a, dir, s[1..]);
      SortBag(dir, s[1..]);
      BagKeys(a, s[1..], SortRows(dir, s[1..]));
      InsertOrdered(a, dir, s[0], SortRows(dir, s[1..]));
    }
  }

  /** The rows that tie with x, in order. */
  function Ties(dir: Direction, x: Row, s: seq<Row>): seq<Row> {
    if s == [] then [] else (if NotAfter(dir, x, s[0]) && NotAfter(dir, s[0], x) then [s[0]] else []) + Ties(dir, x, s[1..])
  }

  lemma {:induction false} InsertTies(a: Attribute, dir: Direction, x: Row, y: Row, s: seq<Row>)
    requires KeyOf(a, x.key) && KeyOf(a, y.key) && KeysOf(a, s)
    ensures Ties(dir, x, Insert(dir, y, s)) == Ties(dir, x, [y]) + Ties(dir, x, s)
  {
    hide NotAfter, KeyOf;
    if s == [] {
    } else if NotAfter(dir, y, s[0]) {
      assert ([y] + s)[1..] == s;
    } else {
      InsertTies(a, dir, x, y, s[1..]);
      var rest := Insert(dir, y, s[1..]);
      assert ([s[0]] + rest)[1..] == rest;
      RowsTotal(a, dir, y, s[0]);
      if NotAfter(dir, x, s[0]) && NotAfter(dir, s[0], x) && NotAfter(dir, y, x) {
        RowsTrans(a, dir, y, x, s[0]);
      }
    }
  }

  /** Rows that tie keep the order they came in. */
  lemma {:induction false} SortStable(a: Attribute, dir: Direction, x: Row, s: seq<Row>)
    requires KeyOf(a, x.key) && KeysOf(a, s)
    ensures Ties(dir, x, SortRows(dir, s)) == Ties(dir, x, s)
  {
    hide KeyOf, NotAfter;
    if s != [] {
      SortStable(a, dir, x, s[1..]);
      SortBag(dir, s[1..]);
      BagKeys(a, s[1..], SortRows(dir, s[1..]));
      InsertTies(a, dir, x, s[0], SortRows(dir, s[1..]));
      assert [s[0]][1..] == [];
    }
  }

  // ----- The keys of canonical resources -----

  lemma {:induction false} HeldText(exts: seq<SchemaDef>, d: Doc)
    ensures forall i :: 0 <= i < |ExtensionsHeld(exts, d)| ==> ExtensionsHeld(exts, d)[i].Str?
  {
    if exts != [] { HeldText(exts[1..], d); }
  }

  const META_TEXTS: set<string> := {"resourcetype", "location", "version"}
  const META_TIMES: set<string> := {"created", "lastmodified"}

  lemma MetaMembers(m: Meta)
    ensures var v := MetaValue(m);
            v.Some? ==> v.value.Cplx? && forall k <- v.value.elem.Keys :: (k in META_TEXTS && v.value.elem[k].Str?) || (k in META_TIMES && v.value.elem[k].Time?)
  {
  }

  lemma {:induction false} MetaSubs(sub: Attribute)
    requires sub in COMMON[2].subs
    ensures !sub.multi
    ensures Fold(sub.name) in META_TEXTS ==> sub.typ == TString
    ensures Fold(sub.name) in META_TIMES ==> sub.typ == TDateTime
  {
    assert sub.name == "resourceType" ==> Fold(sub.name)[0] == 'r';
    assert sub.name == "created" ==> Fold(sub.name)[0] == 'c';
    assert sub.name == "lastModified" ==> Fold(sub.name)[1] == 'a';
    assert sub.name == "location" ==> Fold(sub.name)[1] == 'o';
    assert sub.name == "version" ==> Fold(sub.name)[0] == 'v';
  }

  /** The metadata read as a value has the kinds its schema declares. */
  lemma {:induction false} MetaKeys(m: Meta, sub: Attribute)
    requires FindAttribute(COMMON[2].subs, sub.name) == Some(sub)
    ensures var v := SubValue(MetaValue(m), Some(sub)); v.Some? ==> KeyOf(sub, v.value)
  {
    hide MetaValue;
    MetaMembers(m);
    MetaSubs(sub);
  }

  lemma {:induction false} CommonKinds(a: Attribute)
    requires FindAttribute(COMMON, a.name) == Some(a)
    ensures Fold(a.name) == META ==> a == COMMON[2]
    ensures Fold(a.name) == SCHEMAS ==> a == COMMON[3] && a.typ == TString && a.multi
  {
    hide Fold;
    assert a == COMMON[0] || a == COMMON[1] || a == COMMON[2] || a == COMMON[3];
    CommonKeys();
  }

  lemma {:induction false} CommonKeys()
    ensures Fold(COMMON[0].name) != META && Fold(COMMON[0].name) != SCHEMAS
    ensures Fold(COMMON[1].name) != META && Fold(COMMON[1].name) != SCHEMAS
    ensures Fold(COMMON[2].name) != SCHEMAS && Fold(COMMON[3].name) != META
  {
    assert |Fold(COMMON[0].name)| == 2 && |Fold(COMMON[1].name)| == 10 && |Fold(COMMON[2].name)| == 4 && |Fold(COMMON[3].name)| == 7;
  }

  /** What Get shows at a path to a single attribute or member is of that attribute's kind. */
  lemma {:induction false} GetKind(rt: ResourceType, d: Doc, rp: Resolved)
    requires Canonical(rt, d) && Sound(rt, rp)
    ensures var v := GetResolved(rt, d, rp); var target := if rp.sub.Some? then rp.sub.value else rp.attr.value;
            v.Some? ==> KeyOf(target, v.value)
  {
    hide Canonical, Declared, Slot;
    if Settable(rp) {
      GetSlot(rt, d, rp);
      CanonicalAt(rt, d, LocOf(rp));
      if Slot(d, LocOf(rp)).Some? { StoredKind(rp.attr.value, Slot(d, LocOf(rp)).value, rp.sub); }
    } else {
      DerivedKind(rt, d, rp);
    }
  }

  lemma {:induction false} StoredKind(a: Attribute, v: Value, sub: Option<Attribute>)
    requires Stored(a, v) && (sub.Some? ==> FindAttribute(a.subs, sub.value.name) == sub && sub.value.typ != TComplex)
    ensures var x := SubValue(Some(v), sub); x.Some? ==> KeyOf(if sub.Some? then sub.value else a, x.value)
  {
    if sub.Some? {
      FoldIdempotent(sub.value.name);
      FindByFold(a.subs, sub.value.name, Fold(sub.value.name));
      if v.Cplx? && a.typ != TComplex { SimpleShape(a, v); }
    }
  }

  lemma {:induction false} DerivedKind(rt: ResourceType, d: Doc, rp: Resolved)
    requires Sound(rt, rp) && !Settable(rp)
    ensures var v := GetResolved(rt, d, rp); var target := if rp.sub.Some? then rp.sub.value else rp.attr.value;
            v.Some? ==> KeyOf(target, v.value)
  {
    hide MetaValue;
    var a := rp.attr.value;
    CommonAttr(rt, rp);
    CommonKinds(a);
    HeldText(rt.exts, d);
    if rp.sub.Some? { MetaKeys(d.meta, rp.sub.value); }
    MetaIsComplex(d.meta);
  }

  lemma MetaIsComplex(m: Meta)
    ensures MetaValue(m).Some? ==> MetaValue(m).value.Cplx?
  {
  }

  lemma {:induction false} CommonAttr(rt: ResourceType, rp: Resolved)
    requires Sound(rt, rp) && rp.common
    ensures FindAttribute(COMMON, rp.attr.value.name) == rp.attr
  {
    FoldIdempotent(rp.attr.value.name);
    FindByFold(COMMON, rp.attr.value.name, Fold(rp.attr.value.name));
  }

  lemma {:induction false} PickedFrom(lx: Lexicon, rt: ResourceType, sortBy: F.Path, list: seq<Elem>)
    requires list != []
    ensures var e := PickElement(lx, rt, sortBy, list); e.Some? ==> e.value in list
  {
    hide Match, Set, PrimaryTrue;
    FirstIn(list);
    if sortBy.filter.Some? { IndexIn(lx, rt, sortBy, sortBy.filter.value, list); }
  }

  lemma {:induction false} FirstIn(list: seq<Elem>)
    ensures FirstPrimary(list).Some? ==> FirstPrimary(list).value in list
  {
    if list != [] { FirstIn(list[1..]); }
  }

  lemma {:induction false} IndexIn(lx: Lexicon, rt: ResourceType, sortBy: F.Path, f: F.Expr, list: seq<Elem>)
    ensures MatchIndex(lx, rt, sortBy, f, list).Some? ==> MatchIndex(lx, rt, sortBy, f, list).value in list
  {
    hide Match, Set;
    if list != [] { IndexIn(lx, rt, sortBy, f, list[1..]); }
  }

  /** The attribute whose kind every key of a sort has. */
  function KeyAttr(attr: Attribute, sub: Option<Attribute>): Attribute {
    if sub.Some? then sub.value
    else if attr.multi && attr.typ == TComplex && FindAttribute(attr.subs, VALUE).Some? then FindAttribute(attr.subs, VALUE).value
    else attr
  }

  lemma {:induction false} ElementKey(a: Attribute, e: Elem, key: string, sub: Option<Attribute>)
    requires StoredElem(a, e) && (sub.Some? ==> FindAttribute(a.subs, sub.value.name) == sub)
    requires key == if sub.Some? then Fold(sub.value.name) else VALUE
    requires a.multi && a.typ == TComplex
    ensures key in e ==> KeyOf(KeyAttr(a, sub), e[key])
  {
    if sub.Some? {
      FoldIdempotent(sub.value.name);
      FindByFold(a.subs, sub.value.name, Fold(sub.value.name));
    }
  }

  lemma {:induction false} MultiKey(env: Env, d: Doc, sortBy: F.Path)
    requires Regular(env.rt) && ParsedPath(sortBy) && Canonical(env.rt, d) && ResolveTarget(env.rt, sortBy).Some?
    requires var a := ResolveTarget(env.rt, sortBy).value.0; a.multi && a.typ == TComplex
    ensures var (a, sub) := ResolveTarget(env.rt, sortBy).value;
            KeyOf(KeyAttr(a, sub), SortKey(env.lx, env.rt, d, sortBy, a, sub))
  {
    hide Regular, ParsedPath, Canonical, ResolveTarget, PickElement, AttrPathText, StoredElem, KeyOf, KeyAttr, Slot, TargetLoc, PrimaryCount;
    var (a, sub) := ResolveTarget(env.rt, sortBy).value;
    NilKey(KeyAttr(a, sub));
    ListRead(env, d, sortBy);
    var l := Elements(env, d, sortBy);
    var v := GetOrNil(env.rt, d, AttrPathText(sortBy));
    if v.Multi? && v.elems != [] {
      PickedFrom(env.lx, env.rt, sortBy, l);
      var e := PickElement(env.lx, env.rt, sortBy, l);
      TargetMember(env.rt, sortBy);
      if e.Some? {
        var i :| 0 <= i < |l| && l[i] == e.value;
        ElementKey(a, e.value, if sub.Some? then Fold(sub.value.name) else VALUE, sub);
      }
    }
  }

  lemma NilKey(a: Attribute)
    ensures KeyOf(a, Nil)
  {
  }

  lemma {:induction false} TargetMember(rt: ResourceType, p: F.Path)
    requires ResolveTarget(rt, p).Some?
    ensures var (a, sub) := ResolveTarget(rt, p).value;
            sub.Some? ==> FindAttribute(a.subs, sub.value.name) == sub && a.typ == TComplex
  {
    var (a, sub) := ResolveTarget(rt, p).value;
    if sub.Some? { FindByFold(a.subs, p.sub, sub.value.name); }
  }

  lemma {:induction false} SingleKey(env: Env, d: Doc, sortBy: F.Path)
    requires Regular(env.rt) && ParsedPath(sortBy) && Canonical(env.rt, d) && ResolveTarget(env.rt, sortBy).Some?
    requires var a := ResolveTarget(env.rt, sortBy).value.0; !(a.multi && a.typ == TComplex)
    ensures var (a, sub) := ResolveTarget(env.rt, sortBy).value;
            KeyOf(KeyAttr(a, sub), SortKey(env.lx, env.rt, d, sortBy, a, sub))
  {
    hide Regular, ParsedPath, Canonical, ResolveTarget, ResolvePath, SubPathText, AttrPathText, KeyOf, Sound, GetResolved, Slot, TargetLoc, LocOf;
    var (a, sub) := ResolveTarget(env.rt, sortBy).value;
    NilKey(KeyAttr(a, sub));
    TargetMember(env.rt, sortBy);
    var bare := sortBy.(filter := None);
    SamePath(env.rt, sortBy, bare);
    WritePathResolves(env.rt, bare);
    var rp := ResolvePath(env.rt, SubPathText(sortBy)).value;
    SoundDeclared(env.rt, rp);
    GetKind(env.rt, d, rp);
  }

  lemma SamePath(rt: ResourceType, p: F.Path, bare: F.Path)
    requires bare == p.(filter := None)
    ensures ResolveTarget(rt, bare) == ResolveTarget(rt, p) && ParsedPath(bare) == ParsedPath(p)
    ensures ResolveTarget(rt, p).Some? ==> WritePath(bare, ResolveTarget(rt, p).value.1) == SubPathText(p)
  {
  }

  /** The rows a sort path gives a list of resources, and how it orders them. */
  function RowsOf(env: Env, list: seq<Doc>, sortBy: F.Path): seq<Row>
    requires ResolveTarget(env.rt, sortBy).Some?
  {
    var (attr, sub) := ResolveTarget(env.rt, sortBy).value;
    Rows(env.lx, env.rt, list, sortBy, attr, sub)
  }

  function DirectionOf(env: Env, sortBy: F.Path, ascending: bool): Direction
    requires ResolveTarget(env.rt, sortBy).Some?
  {
    var (attr, sub) := ResolveTarget(env.rt, sortBy).value;
    Direction((if sub.Some? then sub.value else attr).caseExact, ascending)
  }

  // ----- The order of keys -----

  /** The bytes come no later: they are a prefix, or smaller where the two first differ. */
  predicate BytesLessEq(x: seq<nat>, y: seq<nat>) {
    x <= y || exists i: nat :: i < |x| && i < |y| && x[..i] == y[..i] && x[i] < y[i]
  }

  /** Ascending, x may stand before y: texts by their first difference, folded unless the
      attribute is caseExact, references always exact, numbers by size, instants by time, false
      before true, bytes by their first difference. */
  predicate Precedes(x: Value, y: Value, exact: bool) {
    match (x, y)
    case (Str(s), Str(t)) => if exact then Ordering.LessEq(s, t) else Ordering.LessEq(Fold(s), Fold(t))
    case (Ref(s), Ref(t)) => Ordering.LessEq(s, t)
    case (Int(i), Int(j)) => i <= j
    case (Dec(r), Dec(q)) => r <= q
    case (Time(t), Time(u)) => t.instant <= u.instant
    case (Bool(b), Bool(c)) => b ==> c
    case (Bin(b), Bin(c)) => BytesLessEq(b, c)
    case _ => true
  }

  lemma {:induction false} CompareBytesIs(x: seq<nat>, y: seq<nat>)
    ensures CompareBytes(x, y) <= 0 <==> BytesLessEq(x, y)
  {
    if x == [] || y == [] {
    } else if x[0] != y[0] {
      if x[0] < y[0] { assert x[..0] == y[..0]; }
      if i: nat :| i < |x| && i < |y| && x[..i] == y[..i] && x[i] < y[i] {
        if i > 0 { SameFirst(x, y, i); }
      }
    } else {
      CompareBytesIs(x[1..], y[1..]);
      BytesTail(x, y);
    }
  }

  lemma SameFirst(x: seq<nat>, y: seq<nat>, i: nat)
    requires 0 < i <= |x| && i <= |y| && x[..i] == y[..i]
    ensures x[0] == y[0]
  {
    assert x[..i][0] == y[..i][0];
  }

  lemma {:induction false} BytesTail(x: seq<nat>, y: seq<nat>)
    requires x != [] && y != [] && x[0] == y[0]
    ensures BytesLessEq(x, y) <==> BytesLessEq(x[1..], y[1..])
  {
    if x[1..] <= y[1..] {
      assert x == [x[0]] + x[1..] && y[..|x|] == [y[0]] + y[1..][..|x| - 1];
    }
    if x <= y { assert y[1..][..|x| - 1] == y[..|x|][1..]; }
    if i: nat :| i < |x[1..]| && i < |y[1..]| && x[1..][..i] == y[1..][..i] && x[1..][i] < y[1..][i] {
      assert x[..i + 1] == [x[0]] + x[1..][..i] && y[..i + 1] == [y[0]] + y[1..][..i];
      assert x[..i + 1] == y[..i + 1] && x[i + 1] < y[i + 1];
    }
    if i: nat :| i < |x| && i < |y| && x[..i] == y[..i] && x[i] < y[i] {
      assert i > 0;
      assert x[1..][..i - 1] == x[..i][1..] && y[1..][..i - 1] == y[..i][1..];
      assert x[1..][i - 1] < y[1..][i - 1];
    }
  }

  lemma {:induction false} CompareIsOrder(a: Attribute, x: Value, y: Value, exact: bool)
    requires KeyOf(a, x) && KeyOf(a, y) && !x.Nil? && !y.Nil?
    ensures CompareKeys(x, y, exact) <= 0 <==> Precedes(x, y, exact)
  {
    hide CompareText, Ordering.LessEq, CompareBytes, BytesLessEq, Fold;
    if x.Str? && y.Str? {
      CompareTextIs(x.s, y.s);
      CompareTextIs(Fold(x.s), Fold(y.s));
    } else if x.Ref? && y.Ref? {
      CompareTextIs(x.uri, y.uri);
    } else if x.Bin? && y.Bin? {
      CompareBytesIs(x.bytes, y.bytes);
    }
  }

  /** A row may stand before another: its key comes no later in the direction of the sort, and
      what has no key comes last. */
  predicate Stands(dir: Direction, x: Value, y: Value) {
    y.Nil? || (!x.Nil? && if dir.ascending then Precedes(x, y, dir.exact) else Precedes(y, x, dir.exact))
  }

  lemma {:induction false} NotAfterIs(a: Attribute, dir: Direction, x: Row, y: Row)
    requires KeyOf(a, x.key) && KeyOf(a, y.key)
    ensures NotAfter(dir, x, y) <==> Stands(dir, x.key, y.key)
  {
    hide KeyOf, CompareKeys, Precedes;
    if !x.key.Nil? && !y.key.Nil? {
      KeysFlip(a, x.key, y.key, dir.exact);
      CompareIsOrder(a, x.key, y.key, dir.exact);
      CompareIsOrder(a, y.key, x.key, dir.exact);
    }
  }

  /** The rows whose keys stand to x's both ways, in order. */
  function Peers(dir: Direction, x: Row, s: seq<Row>): seq<Row> {
    if s == [] then []
    else (if Stands(dir, x.key, s[0].key) && Stands(dir, s[0].key, x.key) then [s[0]] else []) + Peers(dir, x, s[1..])
  }

  lemma {:induction false} TiesArePeers(a: Attribute, dir: Direction, x: Row, s: seq<Row>)
    requires KeyOf(a, x.key) && KeysOf(a, s)
    ensures Ties(dir, x, s) == Peers(dir, x, s)
  {
    hide KeyOf, NotAfter, Stands;
    if s != [] {
      NotAfterIs(a, dir, x, s[0]);
      NotAfterIs(a, dir, s[0], x);
      TiesArePeers(a, dir, x, s[1..]);
    }
  }

  /** The key of a resource: what it holds at the sort path; of a list of complex values, the
      member of an element that is primary, or of the first when none is, or, under a value
      filter, of the element the filter picks. */
  lemma {:induction false} KeyChoice(env: Env, d: Doc, sortBy: F.Path)
    requires ResolveTarget(env.rt, sortBy).Some?
    ensures var (a, sub) := ResolveTarget(env.rt, sortBy).value;
            var (key, list) := (SortKey(env.lx, env.rt, d, sortBy, a, sub), Elements(env, d, sortBy));
            var member := if sub.Some? then Fold(sub.value.name) else VALUE;
            if !(a.multi && a.typ == TComplex) then key == GetOrNil(env.rt, d, SubPathText(sortBy))
            else if list == [] then key == Nil
            else if sortBy.filter.Some? then
              var picked := MatchIndex(env.lx, env.rt, sortBy, sortBy.filter.value, list);
              key == if picked.Some? then MemberOrNil(picked.value, member) else Nil
            else if exists e <- list :: PrimaryTrue(e) then exists e <- list :: PrimaryTrue(e) && key == MemberOrNil(e, member)
            else key == MemberOrNil(list[0], member)
  {
    hide ResolveTarget, Get, AttrPathText, SubPathText, PrimaryTrue, MatchIndex;
    PrimaryPicked(Elements(env, d, sortBy));
  }

  lemma {:induction false} PrimaryPicked(list: seq<Elem>)
    ensures var r := FirstPrimary(list); if r.Some? then r.value in list && PrimaryTrue(r.value) else forall e <- list :: !PrimaryTrue(e)
  {
    hide PrimaryTrue;
    if list != [] { PrimaryPicked(list[1..]); }
  }

  /** Sorting canonical resources rearranges them into the order of their keys, ascending or
      descending as asked, resources without a key last whatever the direction, ties in their
      original order. */
  lemma {:induction false} SortIs(env: Env, list: seq<Doc>, sortBy: F.Path, ascending: bool)
    requires Regular(env.rt) && ParsedPath(sortBy) && ResolveTarget(env.rt, sortBy).Some?
    requires forall d <- list :: Canonical(env.rt, d)
    ensures var (rows, dir) := (RowsOf(env, list, sortBy), DirectionOf(env, sortBy, ascending));
            var sorted := SortRows(dir, rows);
            && SortResources(env.lx, env.rt, list, Some(sortBy), ascending) == DocsOf(sorted)
            && multiset(sorted) == multiset(rows)
            && (forall i, j :: 0 <= i < j < |sorted| ==> Stands(dir, sorted[i].key, sorted[j].key))
            && (forall x <- rows :: Peers(dir, x, sorted) == Peers(dir, x, rows))
  {
    hide Regular, ParsedPath, Canonical, ResolveTarget, SortKey, KeyOf, KeyAttr, SortCompare, SortRows, Ties, Peers, Stands;
    var (attr, sub) := ResolveTarget(env.rt, sortBy).value;
    var (rows, dir) := (RowsOf(env, list, sortBy), DirectionOf(env, sortBy, ascending));
    var a := KeyAttr(attr, sub);
    forall i | 0 <= i < |rows| ensures KeyOf(a, rows[i].key) {
      assert list[i] in list;
      if attr.multi && attr.typ == TComplex { MultiKey(env, list[i], sortBy); } else { SingleKey(env, list[i], sortBy); }
    }
    SortBag(dir, rows);
    SortOrdered(a, dir, rows);
    var sorted := SortRows(dir, rows);
    BagKeys(a, rows, sorted);
    forall i, j | 0 <= i < j < |sorted| ensures Stands(dir, sorted[i].key, sorted[j].key) {
      NotAfterIs(a, dir, sorted[i], sorted[j]);
    }
    forall x <- rows ensures Peers(dir, x, sorted) == Peers(dir, x, rows) {
      SortStable(a, dir, x, rows);
      TiesArePeers(a, dir, x, rows);
      TiesArePeers(a, dir, x, sorted);
    }
  }
}
