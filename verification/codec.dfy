/** The resource codec at the level of JSON trees, under the default projection of attributes
    that are all returned (scim/codec.go). */
module Codec {
  import opened Text
  import opened Schema
  import opened Values
  import opened Paths
  import opened Documents
  import opened DocumentFacts
  import opened PatchFacts
  import opened StoreState
  import S = FilterScanner
  import L = FilterLexing

  /** How stored scalars become text: dateTime and base64 formatting, and JSON numbers. */
  datatype Printer = Printer(time: Moment -> string, bytes: seq<nat> -> string, integer: int -> string, decimal: real -> string)

  // ----- Scalars that read back -----

  /** The text the scalar is printed to reads back as that very scalar. */
  predicate ReadsScalar(pr: Printer, lx: Lexicon, v: Value) {
    match v
    case Int(i) => lx.int64(pr.integer(i)) == Some(i)
    case Dec(r) => lx.float64(pr.decimal(r)) == Some(r)
    case Time(t) => lx.rfc3339(pr.time(t)) == Some(t)
    case Bin(b) => lx.base64(pr.bytes(b)) == Some(b)
    case _ => true
  }

  predicate ReadScalars(pr: Printer, lx: Lexicon, l: seq<Value>) {
    forall i :: 0 <= i < |l| ==> ReadsScalar(pr, lx, l[i])
  }

  predicate ReadsSimple(pr: Printer, lx: Lexicon, v: Value) {
    match v
    case Slice(_, l) => ReadScalars(pr, lx, l)
    case _ => ReadsScalar(pr, lx, v)
  }

  predicate ReadsElem(pr: Printer, lx: Lexicon, e: Elem) {
    forall k <- e.Keys :: ReadsSimple(pr, lx, e[k])
  }

  predicate ReadElems(pr: Printer, lx: Lexicon, l: seq<Elem>) {
    forall i :: 0 <= i < |l| ==> ReadsElem(pr, lx, l[i])
  }

  /** Every number, instant and byte string in the value reads back. */
  predicate Reads(pr: Printer, lx: Lexicon, v: Value) {
    match v
    case Cplx(e) => ReadsElem(pr, lx, e)
    case Multi(l) => ReadElems(pr, lx, l)
    case _ => ReadsSimple(pr, lx, v)
  }

  predicate ReadsContainer(pr: Printer, lx: Lexicon, c: Elem) {
    forall k <- c.Keys :: Reads(pr, lx, c[k])
  }

  predicate ReadsMeta(pr: Printer, lx: Lexicon, m: Meta) {
    && (m.created.Some? ==> lx.rfc3339(pr.time(m.created.value)) == m.created)
    && (m.lastModified.Some? ==> lx.rfc3339(pr.time(m.lastModified.value)) == m.lastModified)
  }

  /** Every number, instant and byte string the resource holds reads back. */
  predicate ReadsDoc(pr: Printer, lx: Lexicon, d: Doc) {
    && ReadsContainer(pr, lx, d.attrs)
    && (forall u <- d.exts.Keys :: ReadsContainer(pr, lx, d.exts[u]))
    && ReadsMeta(pr, lx, d.meta)
  }

  // ----- Values -----

  function EncodeScalar(pr: Printer, v: Value): Value {
    match v
    case Int(i) => Num(pr.integer(i))
    case Dec(r) => Num(pr.decimal(r))
    case Time(t) => Str(pr.time(t))
    case Bin(b) => Str(pr.bytes(b))
    case Ref(s) => Str(s)
    case _ => v
  }

  /** encodeValue on a value that is not complex. */
  function EncodeSimple(pr: Printer, v: Value): Value {
    match v
    case Slice(_, l) => Arr(seq(|l|, i requires 0 <= i < |l| => EncodeScalar(pr, l[i])))
    case _ => EncodeScalar(pr, v)
  }

  /** encodeComplex; every member of a stored element is declared. */
  function EncodeElem(pr: Printer, e: Elem): Value {
    Obj(map k | k in e.Keys :: EncodeSimple(pr, e[k]))
  }

  /** encodeValue. */
  function EncodeValue(pr: Printer, v: Value): Value {
    match v
    case Cplx(e) => EncodeElem(pr, e)
    case Multi(l) => Arr(seq(|l|, i requires 0 <= i < |l| => EncodeElem(pr, l[i])))
    case _ => EncodeSimple(pr, v)
  }

  lemma ScalarBack(pr: Printer, lx: Lexicon, typ: AttrType, v: Value)
    requires ScalarOf(typ, v)
    ensures CoerceScalar(lx, typ, EncodeScalar(pr, v)) == Ok(v) <==> ReadsScalar(pr, lx, v)
    ensures !EncodeScalar(pr, v).Nil?
  {
  }

  lemma {:induction false} ScalarsBack(pr: Printer, lx: Lexicon, typ: AttrType, l: seq<Value>)
    requires forall i :: 0 <= i < |l| ==> ScalarOf(typ, l[i])
    ensures CoerceScalars(lx, typ, seq(|l|, i requires 0 <= i < |l| => EncodeScalar(pr, l[i]))) == Ok(l) <==> ReadScalars(pr, lx, l)
  {
    hide ReadsScalar, EncodeScalar, CoerceScalar, ScalarOf;
    if l != [] {
      var out := seq(|l|, i requires 0 <= i < |l| => EncodeScalar(pr, l[i]));
      var rest := l[1..];
      ScalarBack(pr, lx, typ, l[0]);
      ScalarsBack(pr, lx, typ, rest);
      assert out[1..] == seq(|rest|, i requires 0 <= i < |rest| => EncodeScalar(pr, rest[i]));
      assert [l[0]] + rest == l;
    }
  }

  lemma {:induction false} SimpleBack(pr: Printer, lx: Lexicon, a: Attribute, v: Value)
    requires a.typ != TComplex && StoredSimple(a, v)
    ensures CoerceSimple(lx, a, EncodeSimple(pr, v)) == Ok(v) <==> ReadsSimple(pr, lx, v)
  {
    hide ReadsScalar, EncodeScalar, CoerceScalar;
    if a.multi {
      ScalarsBack(pr, lx, a.typ, v.scalars);
    } else {
      ScalarBack(pr, lx, a.typ, v);
      NotSlice(a.typ, v);
    }
  }

  lemma NotSlice(typ: AttrType, v: Value)
    requires ScalarOf(typ, v)
    ensures !v.Slice? && !v.Nil?
  {
  }

  lemma {:induction false} ElemBack(pr: Printer, lx: Lexicon, a: Attribute, e: Elem)
    requires StoredElem(a, e)
    ensures CoerceComplex(lx, a, EncodeElem(pr, e)) == Ok(e) <==> ReadsElem(pr, lx, e)
  {
    hide ReadsSimple, EncodeSimple, CoerceMember, StoredSimple;
    var m := EncodeElem(pr, e).members;
    forall k <- m.Keys ensures (CoerceMember(lx, a, k, m[k]) == Ok(e[k]) <==> ReadsSimple(pr, lx, e[k])) && !e[k].Nil? {
      MemberBack(pr, lx, a, k, e[k]);
    }
    if ReadsElem(pr, lx, e) { assert CoercedElem(lx, a, m) == e; }
  }

  lemma {:induction false} MemberBack(pr: Printer, lx: Lexicon, a: Attribute, k: string, v: Value)
    requires var sub := FindAttribute(a.subs, k); sub.Some? && sub.value.typ != TComplex && StoredSimple(sub.value, v)
    ensures CoerceMember(lx, a, k, EncodeSimple(pr, v)) == Ok(v) <==> ReadsSimple(pr, lx, v)
    ensures !v.Nil?
  {
    hide ReadsSimple, EncodeSimple, CoerceSimple, StoredSimple;
    SimpleBack(pr, lx, FindAttribute(a.subs, k).value, v);
    StoredNotNil(FindAttribute(a.subs, k).value, v);
  }

  lemma {:induction false} ElemsBack(pr: Printer, lx: Lexicon, a: Attribute, l: seq<Elem>)
    requires forall i :: 0 <= i < |l| ==> l[i] != map[] && StoredElem(a, l[i])
    ensures CoerceElems(lx, a, seq(|l|, i requires 0 <= i < |l| => EncodeElem(pr, l[i]))) == Ok(l) <==> ReadElems(pr, lx, l)
  {
    hide ReadsElem, EncodeElem, CoerceComplex, StoredElem;
    if l != [] {
      var out := seq(|l|, i requires 0 <= i < |l| => EncodeElem(pr, l[i]));
      var rest := l[1..];
      ElemBack(pr, lx, a, l[0]);
      ElemsBack(pr, lx, a, rest);
      NoMore(lx, a, out[1..]);
      assert out[1..] == seq(|rest|, i requires 0 <= i < |rest| => EncodeElem(pr, rest[i]));
      assert [l[0]] + rest == l;
    }
  }

  /** coerceMultiComplex adds no elements. */
  lemma {:induction false} NoMore(lx: Lexicon, a: Attribute, items: seq<Value>)
    ensures CoerceElems(lx, a, items).Ok? ==> |CoerceElems(lx, a, items).value| <= |items|
  {
    hide CoerceComplex;
    if items != [] { NoMore(lx, a, items[1..]); }
  }

  /** A stored value, typed slices included, is read from its wire form exactly when every
      scalar in it is: no null, no empty element and no second primary gets in the way. */
  lemma {:induction false} ValueBack(pr: Printer, lx: Lexicon, a: Attribute, v: Value)
    requires Stored(a, v)
    ensures Coerce(lx, a, EncodeValue(pr, v)) == Ok(v) <==> Reads(pr, lx, v)
    ensures !v.Nil?
  {
    hide ReadsSimple, ReadsElem, ReadElems, EncodeSimple, CoerceSimple, StoredSimple, CoerceElems, StoredElem, CoerceComplex, PrimaryCount, EncodeElem;
    StoredValueNotNil(a, v);
    if a.typ != TComplex {
      SimpleBack(pr, lx, a, v);
      SimpleNotNil(pr, a, v);
    } else if a.multi {
      ElemsBack(pr, lx, a, v.elems);
    } else {
      ElemBack(pr, lx, a, v.elem);
      ElemIsObj(pr, v.elem);
    }
  }

  lemma SimpleNotNil(pr: Printer, a: Attribute, v: Value)
    requires a.typ != TComplex && StoredSimple(a, v)
    ensures !EncodeSimple(pr, v).Nil? && EncodeValue(pr, v) == EncodeSimple(pr, v) && !v.Cplx? && !v.Multi?
  {
  }

  lemma ElemIsObj(pr: Printer, e: Elem)
    ensures EncodeElem(pr, e).Obj?
  {
  }

  // ----- Decoding -----

  const EXTERNAL_ID := "externalid"

  predicate UrnKey(k: string) {
    HasPrefix(k, "urn:")
  }

  /** decodeAttr: nothing for unknown names, and nothing for readOnly attributes when drop is set. */
  function DecodeEntry(lx: Lexicon, drop: bool, attrs: seq<Attribute>, k: string, v: Value): (r: Result<Value>)
    ensures r.Err? ==> r.kind == InvalidValue
  {
    var a := FindAttribute(attrs, k);
    if a.None? || (drop && a.value.access == ReadOnly) then Ok(Nil) else Coerce(lx, a.value, v)
  }

  /** decodeTopLevel's share of the core container. */
  function AttrPart(lx: Lexicon, rt: ResourceType, drop: bool, k: string, v: Value): Result<Value> {
    if k == SCHEMAS || k == META then Ok(Nil)
    else if k == ID || k == EXTERNAL_ID then DecodeEntry(lx, drop, COMMON, k, v)
    else if UrnKey(k) then Ok(Nil)
    else DecodeEntry(lx, drop, rt.core.attrs, k, v)
  }

  function DecodeContainer(lx: Lexicon, drop: bool, attrs: seq<Attribute>, m: Elem): Result<Elem> {
    if exists k <- m.Keys :: DecodeEntry(lx, drop, attrs, k, m[k]).Err? then Err(InvalidValue)
    else Ok(map k | k in m.Keys && !DecodeEntry(lx, drop, attrs, k, m[k]).value.Nil? :: DecodeEntry(lx, drop, attrs, k, m[k]).value)
  }

  /** decodeExtension; the empty container is not kept. */
  function ExtPart(lx: Lexicon, rt: ResourceType, drop: bool, k: string, v: Value): Result<Elem> {
    if !UrnKey(k) then Ok(map[])
    else
      var ext := FindSchema(rt.exts, k);
      if ext.None? || v.Nil? then Ok(map[])
      else if !v.Obj? then Err(InvalidSyntax)
      else DecodeContainer(lx, drop, ext.value.attrs, v.members)
  }

  function MetaText(v: Value): Result<string> {
    if v.Nil? then Ok("") else if v.Str? then Ok(v.s) else Err(InvalidValue)
  }

  function MetaTime(lx: Lexicon, v: Value): Result<Option<Moment>> {
    if v.Nil? then Ok(None)
    else
      var t :- CoerceScalar(lx, TDateTime, v);
      if t.Time? then Ok(Some(t.t)) else Err(InvalidValue)
  }

  /** decodeMeta: a missing or null field is unassigned, an unknown one ignored. */
  function MetaPart(lx: Lexicon, v: Value): Result<Meta> {
    if v.Nil? then Ok(NO_META)
    else if !v.Obj? then Err(InvalidSyntax)
    else
      var m := v.members;
      var resourceType :- MetaText(OrNil(Lookup(m, "resourcetype")));
      var created :- MetaTime(lx, OrNil(Lookup(m, "created")));
      var lastModified :- MetaTime(lx, OrNil(Lookup(m, "lastmodified")));
      var location :- MetaText(OrNil(Lookup(m, "location")));
      var version :- MetaText(OrNil(Lookup(m, "version")));
      Ok(Meta(resourceType, created, lastModified, location, version))
  }

  /** The metadata of a body; DropReadOnly ignores what it says. */
  function MetaEntry(lx: Lexicon, drop: bool, m: Elem): Result<Meta> {
    if drop then Ok(NO_META) else MetaPart(lx, OrNil(Lookup(m, META)))
  }

  predicate EntryOk(lx: Lexicon, rt: ResourceType, drop: bool, k: string, v: Value) {
    AttrPart(lx, rt, drop, k, v).Ok? && ExtPart(lx, rt, drop, k, v).Ok? && (k == META && !drop ==> MetaPart(lx, v).Ok?)
  }

  /** The member fails to decode, and this is how. */
  predicate EntryFails(lx: Lexicon, rt: ResourceType, drop: bool, k: string, v: Value, kind: Kind) {
    AttrPart(lx, rt, drop, k, v) == Err(kind) || ExtPart(lx, rt, drop, k, v) == Err(kind) || (k == META && !drop && MetaPart(lx, v) == Err(kind))
  }

  /** The core container after the members in done. */
  function Attrs(lx: Lexicon, rt: ResourceType, drop: bool, m: Elem, done: set<string>): Elem {
    map k | k in m.Keys && k in done && AttrPart(lx, rt, drop, k, m[k]).Ok? && !AttrPart(lx, rt, drop, k, m[k]).value.Nil? :: AttrPart(lx, rt, drop, k, m[k]).value
  }

  /** The extension containers after the members in done. */
  function Exts(lx: Lexicon, rt: ResourceType, drop: bool, m: Elem, done: set<string>): map<string, Elem> {
    map k | k in m.Keys && k in done && ExtPart(lx, rt, drop, k, m[k]).Ok? && ExtPart(lx, rt, drop, k, m[k]).value != map[] :: ExtPart(lx, rt, drop, k, m[k]).value
  }

  /** The resource a body decodes to, when every member decodes. */
  function DecodedDoc(lx: Lexicon, rt: ResourceType, drop: bool, m: Elem): Doc {
    Doc(Attrs(lx, rt, drop, m, m.Keys), Exts(lx, rt, drop, m, m.Keys), if MetaEntry(lx, drop, m).Ok? then MetaEntry(lx, drop, m).value else NO_META)
  }

  lemma {:induction false} AttrsMore(lx: Lexicon, rt: ResourceType, drop: bool, m: Elem, done: set<string>, k: string)
    requires k in m && k !in done && AttrPart(lx, rt, drop, k, m[k]).Ok?
    ensures Attrs(lx, rt, drop, m, done + {k}) ==
            if AttrPart(lx, rt, drop, k, m[k]).value.Nil? then Attrs(lx, rt, drop, m, done) else Attrs(lx, rt, drop, m, done)[k := AttrPart(lx, rt, drop, k, m[k]).value]
  {
    hide AttrPart;
  }

  lemma {:induction false} ExtsMore(lx: Lexicon, rt: ResourceType, drop: bool, m: Elem, done: set<string>, k: string)
    requires k in m && k !in done && ExtPart(lx, rt, drop, k, m[k]).Ok?
    ensures Exts(lx, rt, drop, m, done + {k}) ==
            if ExtPart(lx, rt, drop, k, m[k]).value == map[] then Exts(lx, rt, drop, m, done) else Exts(lx, rt, drop, m, done)[k := ExtPart(lx, rt, drop, k, m[k]).value]
  {
    hide ExtPart;
  }

  /** DecodeResource: the members are visited in arbitrary order and the containers filled as
      they come; the outcome does not depend on it. */
  method Decode(lx: Lexicon, rt: ResourceType, drop: bool, body: Value) returns (r: Result<Doc>)
    ensures if body.Obj? && forall k <- body.members.Keys :: EntryOk(lx, rt, drop, k, body.members[k]) then r == Ok(DecodedDoc(lx, rt, drop, body.members))
            else r.Err? && if body.Obj? then exists k <- body.members.Keys :: EntryFails(lx, rt, drop, k, body.members[k], r.kind) else r.kind == InvalidSyntax
  {
    hide AttrPart, ExtPart, MetaPart, Attrs, Exts;
    if !body.Obj? { return Err(InvalidSyntax); }
    var m := body.members;
    var attrs: Elem, exts: map<string, Elem>, meta := map[], map[], NO_META;
    var todo := m.Keys;
    NoneDecoded(lx, rt, drop, m);
    assert m.Keys - todo == {};
    while todo != {}
      invariant todo <= m.Keys
      invariant forall k <- m.Keys - todo :: EntryOk(lx, rt, drop, k, m[k])
      invariant attrs == Attrs(lx, rt, drop, m, m.Keys - todo) && exts == Exts(lx, rt, drop, m, m.Keys - todo)
      invariant if drop then meta == NO_META else if META in m && META !in todo then MetaEntry(lx, drop, m) == Ok(meta) else meta == NO_META
      decreases |todo|
    {
      var k :| k in todo;
      var (attr, ext) := (AttrPart(lx, rt, drop, k, m[k]), ExtPart(lx, rt, drop, k, m[k]));
      if attr.Err? { return Err(attr.kind); }
      if ext.Err? { return Err(ext.kind); }
      if k == META && !drop {
        var parsed := MetaPart(lx, m[k]);
        if parsed.Err? { return Err(parsed.kind); }
        meta := parsed.value;
      }
      AttrsMore(lx, rt, drop, m, m.Keys - todo, k);
      ExtsMore(lx, rt, drop, m, m.Keys - todo, k);
      if !attr.value.Nil? { attrs := attrs[k := attr.value]; }
      if ext.value != map[] { exts := exts[k := ext.value]; }
      assert m.Keys - (todo - {k}) == m.Keys - todo + {k};
      todo := todo - {k};
    }
    assert m.Keys - todo == m.Keys;
    NoMeta(lx);
    r := Ok(Doc(attrs, exts, meta));
  }

  lemma NoneDecoded(lx: Lexicon, rt: ResourceType, drop: bool, m: Elem)
    ensures Attrs(lx, rt, drop, m, {}) == map[] && Exts(lx, rt, drop, m, {}) == map[]
  {
  }

  lemma NoMeta(lx: Lexicon)
    ensures MetaPart(lx, Nil) == Ok(NO_META)
  {
  }

  // ----- What a body decodes to -----

  /** The body is keyed by folded names, extension objects included. */
  predicate FoldedBody(m: Elem) {
    forall k <- m.Keys :: Fold(k) == k && (m[k].Obj? ==> forall x <- m[k].members.Keys :: Fold(x) == x)
  }

  predicate Decodes(lx: Lexicon, rt: ResourceType, drop: bool, m: Elem) {
    forall k <- m.Keys :: EntryOk(lx, rt, drop, k, m[k])
  }

  /** A core member is looked up among the attributes declared at its location. */
  lemma {:induction false} AttrLookup(lx: Lexicon, rt: ResourceType, drop: bool, k: string, v: Value)
    requires StoreType(rt) && Fold(k) == k
    ensures var (r, a) := (AttrPart(lx, rt, drop, k, v), Declared(rt, Loc("", k)));
            if k == SCHEMAS || k == META || a.None? || (drop && a.value.access == ReadOnly) then r == Ok(Nil) else r == Coerce(lx, a.value, v)
  {
    hide StoreType, Coerce;
    var a := Declared(rt, Loc("", k));
    if k != SCHEMAS && k != META {
      if a.Some? {
        CoreLookup(rt, k);
        NamedApart(rt, k);
      } else {
        NoLookup(rt, k);
      }
    }
  }

  /** A declared name is no extension key. */
  lemma {:induction false} NamedApart(rt: ResourceType, k: string)
    requires StoreType(rt) && Fold(k) == k && Declared(rt, Loc("", k)).Some?
    ensures !UrnKey(k)
  {
    hide SeparateSchemas, FlatType, S.ValidAttrName;
    assert COMMON[2] in COMMON && COMMON[3] in COMMON;
    var a := Declared(rt, Loc("", k)).value;
    CommonNamesValid();
    L.ValidNameChars(a.name);
    NoUrnWithoutColon(a.name);
  }

  lemma NoLookup(rt: ResourceType, k: string)
    requires Declared(rt, Loc("", k)).None?
    ensures FindAttribute(COMMON, k).None? && FindAttribute(rt.core.attrs, k).None?
  {
  }

  /** The members of an extension object are looked up among those it declares. */
  lemma {:induction false} ExtLookup(lx: Lexicon, rt: ResourceType, drop: bool, u: string, v: Value)
    requires StoreType(rt) && Fold(u) == u && ExtPart(lx, rt, drop, u, v).Ok? && ExtPart(lx, rt, drop, u, v).value != map[]
    ensures u != "" && v.Obj? && FindSchema(rt.exts, u).Some? && ExtPart(lx, rt, drop, u, v) == DecodeContainer(lx, drop, FindSchema(rt.exts, u).value.attrs, v.members)
    ensures forall k: string :: Declared(rt, Loc(u, k)) == FindAttribute(FindSchema(rt.exts, u).value.attrs, k)
  {
    hide DecodeContainer;
  }

  lemma {:induction false} EntryStored(lx: Lexicon, drop: bool, attrs: seq<Attribute>, k: string, v: Value)
    ensures var r := DecodeEntry(lx, drop, attrs, k, v);
            r.Ok? && !r.value.Nil? ==> FindAttribute(attrs, k).Some? && Stored(FindAttribute(attrs, k).value, r.value)
  {
    hide Coerce, Stored;
    if FindAttribute(attrs, k).Some? { CoerceStored(lx, FindAttribute(attrs, k).value, v); }
  }

  /** Every body that decodes yields a canonical resource. */
  lemma {:induction false} DecodedCanonical(lx: Lexicon, rt: ResourceType, drop: bool, m: Elem)
    requires StoreType(rt) && FoldedBody(m) && Decodes(lx, rt, drop, m)
    ensures Canonical(rt, DecodedDoc(lx, rt, drop, m))
  {
    hide StoreType, AttrPart, ExtPart, MetaPart, Stored, Declared, Coerce;
    var d := DecodedDoc(lx, rt, drop, m);
    forall k <- d.attrs.Keys ensures CanonicalSlot(rt, Loc("", k), d.attrs[k]) {
      AttrLookup(lx, rt, drop, k, m[k]);
      CoerceStored(lx, Declared(rt, Loc("", k)).value, m[k]);
      NotDerivedKey(rt, k);
    }
    forall u <- d.exts.Keys ensures u != "" && Fold(u) == u && d.exts[u] != map[] && CanonicalContainer(rt, u, d.exts[u]) {
      ExtCanonical(lx, rt, drop, u, m[u]);
    }
  }

  lemma NotDerivedKey(rt: ResourceType, k: string)
    ensures k != SCHEMAS && k != META ==> !DerivedLoc(rt, Loc("", k))
  {
  }

  lemma {:induction false} ExtCanonical(lx: Lexicon, rt: ResourceType, drop: bool, u: string, v: Value)
    requires StoreType(rt) && Fold(u) == u && ExtPart(lx, rt, drop, u, v).Ok? && ExtPart(lx, rt, drop, u, v).value != map[]
    requires v.Obj? ==> forall x <- v.members.Keys :: Fold(x) == x
    ensures u != "" && CanonicalContainer(rt, u, ExtPart(lx, rt, drop, u, v).value)
  {
    hide StoreType, ExtPart, Stored, Declared, DecodeEntry;
    ExtLookup(lx, rt, drop, u, v);
    var attrs, c := FindSchema(rt.exts, u).value.attrs, ExtPart(lx, rt, drop, u, v).value;
    forall k <- c.Keys ensures CanonicalSlot(rt, Loc(u, k), c[k]) {
      EntryStored(lx, drop, attrs, k, v.members[k]);
    }
  }

  /** The attribute at a location is one a client may not supply. */
  predicate ServerOnly(rt: ResourceType, l: Loc) {
    Declared(rt, l).Some? && Declared(rt, l).value.access == ReadOnly
  }

  /** DropReadOnly loses exactly the metadata and the readOnly attributes: a body it decodes has
      none of them, every other attribute decodes as without it, and whatever decodes without it
      decodes with it. */
  lemma {:induction false} DropsReadOnly(lx: Lexicon, rt: ResourceType, m: Elem)
    requires StoreType(rt) && FoldedBody(m)
    ensures Decodes(lx, rt, false, m) ==> Decodes(lx, rt, true, m)
    ensures Decodes(lx, rt, true, m) ==>
              var kept := DecodedDoc(lx, rt, true, m);
              kept.meta == NO_META && forall l: Loc :: ServerOnly(rt, l) ==> Slot(kept, l).None?
    ensures Decodes(lx, rt, false, m) ==>
              var (full, kept) := (DecodedDoc(lx, rt, false, m), DecodedDoc(lx, rt, true, m));
              forall l: Loc :: !ServerOnly(rt, l) ==> Slot(kept, l) == Slot(full, l)
  {
    hide StoreType, AttrPart, ExtPart, MetaPart, Declared, ServerOnly, DecodedDoc;
    if Decodes(lx, rt, false, m) {
      forall k <- m.Keys ensures EntryOk(lx, rt, true, k, m[k]) {
        AttrLookup(lx, rt, false, k, m[k]);
        AttrLookup(lx, rt, true, k, m[k]);
        ExtDrops(lx, rt, k, m[k]);
      }
      forall l: Loc | !ServerOnly(rt, l) ensures Slot(DecodedDoc(lx, rt, true, m), l) == Slot(DecodedDoc(lx, rt, false, m), l) {
        SlotKept(lx, rt, m, l);
      }
    }
    if Decodes(lx, rt, true, m) {
      forall l: Loc | ServerOnly(rt, l) ensures Slot(DecodedDoc(lx, rt, true, m), l).None? {
        SlotDropped(lx, rt, m, l);
      }
      NoMetaKept(lx, rt, m);
    }
  }

  lemma {:induction false} NoMetaKept(lx: Lexicon, rt: ResourceType, m: Elem)
    ensures DecodedDoc(lx, rt, true, m).meta == NO_META
  {
    hide Attrs, Exts;
  }

  /** The container of an extension, with and without its readOnly attributes. */
  lemma {:induction false} ExtDrops(lx: Lexicon, rt: ResourceType, u: string, v: Value)
    ensures ExtPart(lx, rt, false, u, v).Ok? ==> ExtPart(lx, rt, true, u, v).Ok?
    ensures var ext := FindSchema(rt.exts, u);
            && (ExtPart(lx, rt, true, u, v).Ok? && ext.Some? ==>
                  forall k :: FindAttribute(ext.value.attrs, k).Some? && FindAttribute(ext.value.attrs, k).value.access == ReadOnly ==>
                    k !in ExtPart(lx, rt, true, u, v).value)
            && (ExtPart(lx, rt, false, u, v).Ok? ==>
                  forall k :: !(ext.Some? && FindAttribute(ext.value.attrs, k).Some? && FindAttribute(ext.value.attrs, k).value.access == ReadOnly) ==>
                    Lookup(ExtPart(lx, rt, true, u, v).value, k) == Lookup(ExtPart(lx, rt, false, u, v).value, k))
  {
    hide Coerce;
  }

  /** Slots of a decoded resource, by where they come from. */
  lemma {:induction false} DecodedSlot(lx: Lexicon, rt: ResourceType, drop: bool, m: Elem, l: Loc)
    requires Decodes(lx, rt, drop, m) && FoldedBody(m)
    ensures var d := DecodedDoc(lx, rt, drop, m);
            Slot(d, l) ==
            if l.urn == "" then
              if l.key in m && !AttrPart(lx, rt, drop, l.key, m[l.key]).value.Nil? then Some(AttrPart(lx, rt, drop, l.key, m[l.key]).value) else None
            else if l.urn in m then Lookup(ExtPart(lx, rt, drop, l.urn, m[l.urn]).value, l.key)
            else None
  {
    hide AttrPart, ExtPart, MetaEntry;
    if l.urn != "" && l.urn in m { assert EntryOk(lx, rt, drop, l.urn, m[l.urn]); }
    if l.urn == "" && l.key in m { assert EntryOk(lx, rt, drop, l.key, m[l.key]); }
  }

  lemma {:induction false} SlotKept(lx: Lexicon, rt: ResourceType, m: Elem, l: Loc)
    requires StoreType(rt) && FoldedBody(m) && Decodes(lx, rt, false, m) && Decodes(lx, rt, true, m) && !ServerOnly(rt, l)
    ensures Slot(DecodedDoc(lx, rt, true, m), l) == Slot(DecodedDoc(lx, rt, false, m), l)
  {
    hide StoreType, AttrPart, ExtPart, DecodedDoc, Slot, Coerce;
    DecodedSlot(lx, rt, false, m, l);
    DecodedSlot(lx, rt, true, m, l);
    if l.urn == "" && l.key in m {
      AttrLookup(lx, rt, false, l.key, m[l.key]);
      AttrLookup(lx, rt, true, l.key, m[l.key]);
    } else if l.urn != "" && l.urn in m {
      assert EntryOk(lx, rt, false, l.urn, m[l.urn]);
      ExtDrops(lx, rt, l.urn, m[l.urn]);
    }
  }

  lemma {:induction false} SlotDropped(lx: Lexicon, rt: ResourceType, m: Elem, l: Loc)
    requires StoreType(rt) && FoldedBody(m) && Decodes(lx, rt, true, m) && ServerOnly(rt, l)
    ensures Slot(DecodedDoc(lx, rt, true, m), l).None?
  {
    hide StoreType, AttrPart, ExtPart, DecodedDoc, Slot, Coerce;
    DecodedSlot(lx, rt, true, m, l);
    if l.urn == "" && l.key in m {
      AttrLookup(lx, rt, true, l.key, m[l.key]);
    } else if l.urn != "" && l.urn in m {
      assert EntryOk(lx, rt, true, l.urn, m[l.urn]);
      ExtDrops(lx, rt, l.urn, m[l.urn]);
    }
  }

  // ----- Encoding -----

  function EncodeContainer(pr: Printer, c: Elem): Elem {
    map k | k in c.Keys :: EncodeValue(pr, c[k])
  }

  function SchemasJson(rt: ResourceType, d: Doc): Value {
    EncodeValue(TEXT_ONLY, SchemasValue(rt, d))
  }

  /** The schemas attribute holds only text, so any printer will do for it. */
  const TEXT_ONLY: Printer := Printer(_ => "", _ => "", _ => "", _ => "")

  function MetaJson(pr: Printer, d: Doc): Elem {
    var v := MetaValue(d.meta);
    if v.None? then map[] else map[META := EncodeValue(pr, v.value)]
  }

  function ExtsJson(pr: Printer, d: Doc): Elem {
    map u | u in d.exts.Keys :: Obj(EncodeContainer(pr, d.exts[u]))
  }

  /** The members EncodeResource emits for a canonical resource. */
  function Encoded(pr: Printer, rt: ResourceType, d: Doc): Elem {
    map[SCHEMAS := SchemasJson(rt, d)] + EncodeContainer(pr, d.attrs) + ExtsJson(pr, d) + MetaJson(pr, d)
  }

  // ----- The round trip -----

  lemma {:induction false} AttrKey(rt: ResourceType, d: Doc, k: string)
    requires StoreType(rt) && Canonical(rt, d) && k in d.attrs
    ensures !UrnKey(k) && Fold(k) == k && k != SCHEMAS && k != META && Declared(rt, Loc("", k)).Some? && Stored(Declared(rt, Loc("", k)).value, d.attrs[k])
  {
    hide Stored, SeparateSchemas, FlatType, NamesValid, UrnKey;
    assert CanonicalSlot(rt, Loc("", k), d.attrs[k]);
    assert COMMON[2] in COMMON && COMMON[3] in COMMON;
    NamedApart(rt, k);
  }

  /** The attribute list decodeTopLevel looks a core member up in is the one that declares it. */
  lemma {:induction false} CoreLookup(rt: ResourceType, k: string)
    requires StoreType(rt) && Declared(rt, Loc("", k)).Some? && Fold(k) == k && k != SCHEMAS && k != META
    ensures FindAttribute(if k == ID || k == EXTERNAL_ID then COMMON else rt.core.attrs, k) == Declared(rt, Loc("", k))
  {
    hide Regular;
    CommonIds();
    if k == ID {
      assert COMMON[0] in COMMON;
    } else if k == EXTERNAL_ID {
      assert COMMON[1] in COMMON;
      FindByFold(rt.core.attrs, COMMON[1].name, k);
    } else if FindAttribute(rt.core.attrs, k).None? {
      OtherCommon(k);
    }
  }

  lemma CommonIds()
    ensures COMMON[0].name == ID && Fold(ID) == ID && Fold(COMMON[1].name) == EXTERNAL_ID && Fold(EXTERNAL_ID) == EXTERNAL_ID
  {
  }

  lemma {:induction false} OtherCommon(k: string)
    requires FindAttribute(COMMON, k).Some? && Fold(k) == k
    ensures k == ID || k == EXTERNAL_ID || k == SCHEMAS || k == META
  {
    assert Fold("id") == "id" && Fold("externalId") == EXTERNAL_ID && Fold("meta") == "meta" && Fold("schemas") == "schemas";
  }

  lemma {:induction false} AttrBack(pr: Printer, lx: Lexicon, rt: ResourceType, d: Doc, k: string)
    requires StoreType(rt) && Canonical(rt, d) && k in d.attrs
    ensures AttrPart(lx, rt, false, k, EncodeValue(pr, d.attrs[k])) == Ok(d.attrs[k]) <==> Reads(pr, lx, d.attrs[k])
    ensures !d.attrs[k].Nil? && ExtPart(lx, rt, false, k, EncodeValue(pr, d.attrs[k])) == Ok(map[])
  {
    hide Reads, StoreType, Canonical, Coerce, EncodeValue, Stored, Declared;
    AttrKey(rt, d, k);
    CoreLookup(rt, k);
    ValueBack(pr, lx, Declared(rt, Loc("", k)).value, d.attrs[k]);
  }

  lemma {:induction false} ExtKey(rt: ResourceType, d: Doc, u: string)
    requires StoreType(rt) && Canonical(rt, d) && u in d.exts
    ensures UrnKey(u) && Fold(u) == u && FindSchema(rt.exts, u).Some? && d.exts[u] != map[]
    ensures forall k <- d.exts[u].Keys :: FindAttribute(FindSchema(rt.exts, u).value.attrs, k).Some? &&
                                          Stored(FindAttribute(FindSchema(rt.exts, u).value.attrs, k).value, d.exts[u][k])
  {
    hide Stored, FlatType, NamesValid, TextsFree;
    assert CanonicalContainer(rt, u, d.exts[u]);
    var k :| k in d.exts[u];
    assert CanonicalSlot(rt, Loc(u, k), d.exts[u][k]);
    var x := FindSchema(rt.exts, u).value;
    assert UrnShaped(x.id);
  }

  lemma {:induction false} ExtBack(pr: Printer, lx: Lexicon, rt: ResourceType, d: Doc, u: string)
    requires StoreType(rt) && Canonical(rt, d) && u in d.exts
    ensures ExtPart(lx, rt, false, u, Obj(EncodeContainer(pr, d.exts[u]))) == Ok(d.exts[u]) <==> ReadsContainer(pr, lx, d.exts[u])
    ensures d.exts[u] != map[] && AttrPart(lx, rt, false, u, Obj(EncodeContainer(pr, d.exts[u]))) == Ok(Nil) && u != META && u != SCHEMAS
  {
    hide Reads, StoreType, Canonical, Coerce, EncodeValue, Stored;
    ExtKey(rt, d, u);
    var attrs, c := FindSchema(rt.exts, u).value.attrs, d.exts[u];
    var m := EncodeContainer(pr, c);
    forall k <- m.Keys ensures (DecodeEntry(lx, false, attrs, k, m[k]) == Ok(c[k]) <==> Reads(pr, lx, c[k])) && !c[k].Nil? {
      ValueBack(pr, lx, FindAttribute(attrs, k).value, c[k]);
    }
    EntriesBack(lx, attrs, m, c);
    UrnApart(u);
  }

  lemma {:induction false} EntriesBack(lx: Lexicon, attrs: seq<Attribute>, m: Elem, c: Elem)
    requires m.Keys == c.Keys && forall k <- c.Keys :: !c[k].Nil?
    ensures DecodeContainer(lx, false, attrs, m) == Ok(c) <==> forall k <- m.Keys :: DecodeEntry(lx, false, attrs, k, m[k]) == Ok(c[k])
  {
    hide DecodeEntry;
    var r := DecodeContainer(lx, false, attrs, m);
    if r == Ok(c) {
      forall k <- m.Keys ensures DecodeEntry(lx, false, attrs, k, m[k]) == Ok(c[k]) {
        assert k in r.value.Keys;
      }
    }
    if forall k <- m.Keys :: DecodeEntry(lx, false, attrs, k, m[k]) == Ok(c[k]) {
      assert r.Ok?;
      assert r.value == c;
    }
  }

  lemma {:induction false} UrnApart(u: string)
    requires UrnKey(u)
    ensures u != META && u != SCHEMAS && u != ID && u != EXTERNAL_ID
  {
    assert u[..4][0] == u[0] && u[..4][1] == u[1];
  }

  /** The fields of metaValue. */
  lemma MetaFields(m: Meta)
    requires MetaValue(m).Some?
    ensures MetaValue(m).value.Cplx?
    ensures var e := MetaValue(m).value.elem;
            && Lookup(e, "resourcetype") == (if m.resourceType == "" then None else Some(Str(m.resourceType)))
            && Lookup(e, "created") == (if m.created.None? then None else Some(Time(m.created.value)))
            && Lookup(e, "lastmodified") == (if m.lastModified.None? then None else Some(Time(m.lastModified.value)))
            && Lookup(e, "location") == (if m.location == "" then None else Some(Str(m.location)))
            && Lookup(e, "version") == (if m.version == "" then None else Some(Str(m.version)))
  {
  }

  lemma FieldBack(pr: Printer, lx: Lexicon, e: Elem, k: string)
    ensures var (v, w) := (Lookup(e, k), OrNil(Lookup(EncodeElem(pr, e).members, k)));
            && (v.None? ==> MetaText(w) == Ok("") && MetaTime(lx, w) == Ok(None))
            && (v.Some? && v.value.Str? ==> MetaText(w) == Ok(v.value.s))
            && (v.Some? && v.value.Time? ==> (MetaTime(lx, w) == Ok(Some(v.value.t)) <==> lx.rfc3339(pr.time(v.value.t)) == Some(v.value.t)))
  {
  }

  lemma {:induction false} NoFields(m: Meta)
    requires MetaValue(m).None?
    ensures m == NO_META
  {
    var e := MetaElem(m);
    assert m.resourceType != "" ==> "resourcetype" in e;
    assert m.created.Some? ==> "created" in e;
    assert m.lastModified.Some? ==> "lastmodified" in e;
    assert m.location != "" ==> "location" in e;
    assert m.version != "" ==> "version" in e;
  }

  lemma {:induction false} MetaBack(pr: Printer, lx: Lexicon, m: Meta)
    ensures var v := MetaValue(m);
            if v.None? then m == NO_META else MetaPart(lx, EncodeValue(pr, v.value)) == Ok(m) <==> ReadsMeta(pr, lx, m)
  {
    hide MetaValue, MetaText, MetaTime, EncodeSimple;
    var v := MetaValue(m);
    if v.None? {
      NoFields(m);
    } else {
      MetaFields(m);
      FieldBack(pr, lx, v.value.elem, "resourcetype");
      FieldBack(pr, lx, v.value.elem, "created");
      FieldBack(pr, lx, v.value.elem, "lastmodified");
      FieldBack(pr, lx, v.value.elem, "location");
      FieldBack(pr, lx, v.value.elem, "version");
    }
  }

  /** Core members, extension members and the derived ones never meet. */
  lemma {:induction false} KeysApart(rt: ResourceType, d: Doc)
    requires StoreType(rt) && Canonical(rt, d)
    ensures forall k <- d.attrs.Keys :: k !in d.exts && k != META && k != SCHEMAS
    ensures forall k <- d.exts.Keys :: k != META && k != SCHEMAS
  {
    hide StoreType, Canonical, UrnKey, Stored;
    forall k <- d.exts.Keys ensures k != META && k != SCHEMAS && UrnKey(k) {
      ExtKey(rt, d, k);
      UrnApart(k);
    }
    forall k <- d.attrs.Keys ensures !UrnKey(k) && k != META && k != SCHEMAS {
      AttrKey(rt, d, k);
    }
  }

  /** Where each member of the encoding comes from. */
  lemma {:induction false} EncodedAt(pr: Printer, rt: ResourceType, d: Doc, k: string)
    requires StoreType(rt) && Canonical(rt, d)
    ensures var m := Encoded(pr, rt, d);
            && (k in d.attrs ==> k in m && m[k] == EncodeValue(pr, d.attrs[k]) && k !in d.exts && k != META && k != SCHEMAS)
            && (k in d.exts ==> k in m && m[k] == Obj(EncodeContainer(pr, d.exts[k])) && k != META && k != SCHEMAS)
            && (k in m && k !in d.attrs && k !in d.exts ==> k == META || k == SCHEMAS)
            && (SCHEMAS in m && m[SCHEMAS] == SchemasJson(rt, d))
            && (META in m <==> MetaValue(d.meta).Some?)
            && (META in m ==> m[META] == EncodeValue(pr, MetaValue(d.meta).value))
  {
    hide StoreType, Canonical, EncodeValue, MetaValue, SchemasJson, Encoded, EncodeContainer, ExtsJson, MetaJson;
    KeysApart(rt, d);
    EncodedParts(pr, rt, d);
    PartsAt(pr, d, k);
    PartsAt(pr, d, SCHEMAS);
    PartsAt(pr, d, META);
  }

  lemma EncodedParts(pr: Printer, rt: ResourceType, d: Doc)
    ensures Encoded(pr, rt, d) == map[SCHEMAS := SchemasJson(rt, d)] + EncodeContainer(pr, d.attrs) + ExtsJson(pr, d) + MetaJson(pr, d)
    ensures SCHEMAS != META
  {
  }

  lemma {:induction false} PartsAt(pr: Printer, d: Doc, k: string)
    ensures Lookup(EncodeContainer(pr, d.attrs), k) == if k in d.attrs then Some(EncodeValue(pr, d.attrs[k])) else None
    ensures Lookup(ExtsJson(pr, d), k) == if k in d.exts then Some(Obj(EncodeContainer(pr, d.exts[k]))) else None
    ensures Lookup(MetaJson(pr, d), k) == if k == META && MetaValue(d.meta).Some? then Some(EncodeValue(pr, MetaValue(d.meta).value)) else None
  {
    hide EncodeValue, MetaValue;
  }

  /** What the resource holds at a member of its encoding reads back. */
  predicate ReadsAt(pr: Printer, lx: Lexicon, d: Doc, k: string) {
    && (k in d.attrs ==> Reads(pr, lx, d.attrs[k]))
    && (k in d.exts ==> ReadsContainer(pr, lx, d.exts[k]))
    && (k == META ==> ReadsMeta(pr, lx, d.meta))
  }

  /** The member decodes to what the resource holds there. */
  predicate EntryReads(lx: Lexicon, rt: ResourceType, d: Doc, k: string, v: Value) {
    && AttrPart(lx, rt, false, k, v) == Ok(if k in d.attrs then d.attrs[k] else Nil)
    && ExtPart(lx, rt, false, k, v) == Ok(if k in d.exts then d.exts[k] else map[])
    && (k == META ==> MetaPart(lx, v) == Ok(d.meta))
  }

  /** A member of the encoding decodes to what it came from exactly when that reads back. */
  lemma {:induction false} EntryBack(pr: Printer, lx: Lexicon, rt: ResourceType, d: Doc, k: string)
    requires StoreType(rt) && Canonical(rt, d) && k in Encoded(pr, rt, d)
    ensures EntryReads(lx, rt, d, k, Encoded(pr, rt, d)[k]) <==> ReadsAt(pr, lx, d, k)
    ensures (k in d.attrs ==> !d.attrs[k].Nil?) && (k in d.exts ==> d.exts[k] != map[])
  {
    hide Reads, ReadsContainer, ReadsMeta, StoreType, Canonical, EncodeValue, MetaValue, MetaPart, SchemasJson, Encoded, DecodeEntry, DecodeContainer;
    EncodedAt(pr, rt, d, k);
    if k in d.attrs {
      AttrBack(pr, lx, rt, d, k);
    } else if k in d.exts {
      ExtBack(pr, lx, rt, d, k);
    } else {
      MetaBack(pr, lx, d.meta);
      PlainKeys();
    }
  }

  lemma {:induction false} PlainKeys()
    ensures !UrnKey(META) && !UrnKey(SCHEMAS)
  {
    assert META[..4][0] == 'm' && SCHEMAS[..4][0] == 's' && "urn:"[0] == 'u';
  }

  /** The body the resource is encoded to decodes, and to that very resource. */
  predicate Returns(pr: Printer, lx: Lexicon, rt: ResourceType, d: Doc) {
    Decodes(lx, rt, false, Encoded(pr, rt, d)) && DecodedDoc(lx, rt, false, Encoded(pr, rt, d)) == d
  }

  /** Decoding what a canonical resource encodes to gives it back, attributes, extensions and
      metadata, whatever the order the members are visited in, exactly when every number,
      instant and byte string it holds reads back from its text. */
  lemma {:induction false} CodecRoundTrip(pr: Printer, lx: Lexicon, rt: ResourceType, d: Doc)
    requires StoreType(rt) && Canonical(rt, d)
    ensures Returns(pr, lx, rt, d) <==> ReadsDoc(pr, lx, d)
  {
    hide Returns, ReadsDoc;
    if ReadsDoc(pr, lx, d) {
      ReadsReturns(pr, lx, rt, d);
    }
    if Returns(pr, lx, rt, d) {
      ReturnsReads(pr, lx, rt, d);
    }
  }

  lemma {:induction false} ReadsReturns(pr: Printer, lx: Lexicon, rt: ResourceType, d: Doc)
    requires StoreType(rt) && Canonical(rt, d) && ReadsDoc(pr, lx, d)
    ensures Returns(pr, lx, rt, d)
  {
    hide Reads, ReadsMeta, StoreType, Canonical, Encoded, AttrPart, ExtPart, MetaPart, MetaValue;
    var m := Encoded(pr, rt, d);
    forall k <- m.Keys
      ensures EntryReads(lx, rt, d, k, m[k]) && (k in d.attrs ==> !d.attrs[k].Nil?) && (k in d.exts ==> d.exts[k] != map[])
    {
      EntryBack(pr, lx, rt, d, k);
    }
    forall k | k in d.attrs || k in d.exts ensures k in m {
      EncodedAt(pr, rt, d, k);
    }
    assert Attrs(lx, rt, false, m, m.Keys) == d.attrs;
    assert Exts(lx, rt, false, m, m.Keys) == d.exts;
    MetaRead(pr, lx, rt, d);
  }

  lemma {:induction false} ReturnsReads(pr: Printer, lx: Lexicon, rt: ResourceType, d: Doc)
    requires StoreType(rt) && Canonical(rt, d) && Returns(pr, lx, rt, d)
    ensures ReadsDoc(pr, lx, d)
  {
    hide Reads, ReadsMeta, StoreType, Canonical, Encoded, AttrPart, ExtPart, MetaPart, MetaValue, EncodeValue, EncodeContainer, MetaEntry;
    var m := Encoded(pr, rt, d);
    forall k <- d.attrs.Keys ensures Reads(pr, lx, d.attrs[k]) {
      EncodedAt(pr, rt, d, k);
      AttrBack(pr, lx, rt, d, k);
      assert k in Attrs(lx, rt, false, m, m.Keys);
    }
    forall u <- d.exts.Keys ensures ReadsContainer(pr, lx, d.exts[u]) {
      EncodedAt(pr, rt, d, u);
      ExtBack(pr, lx, rt, d, u);
      assert u in Exts(lx, rt, false, m, m.Keys);
    }
    MetaRead(pr, lx, rt, d);
    MetaDecodes(lx, rt, m);
  }

  lemma MetaDecodes(lx: Lexicon, rt: ResourceType, m: Elem)
    requires Decodes(lx, rt, false, m)
    ensures MetaEntry(lx, false, m).Ok?
  {
    hide AttrPart, ExtPart;
    if META in m { assert EntryOk(lx, rt, false, META, m[META]); }
  }

  lemma {:induction false} MetaRead(pr: Printer, lx: Lexicon, rt: ResourceType, d: Doc)
    requires StoreType(rt) && Canonical(rt, d)
    ensures MetaEntry(lx, false, Encoded(pr, rt, d)) == Ok(d.meta) <==> ReadsMeta(pr, lx, d.meta)
  {
    hide StoreType, Canonical, Encoded, MetaPart, MetaValue, EncodeValue;
    EncodedAt(pr, rt, d, META);
    MetaBack(pr, lx, d.meta);
    NoMeta(lx);
    var m := Encoded(pr, rt, d);
    if META in m {
      assert MetaEntry(lx, false, m) == MetaPart(lx, m[META]);
    } else {
      assert MetaEntry(lx, false, m) == MetaPart(lx, Nil);
    }
  }

  // ----- The encoder's loops -----

  /** The members of a container that the attributes visited declare. */
  function Emitted(pr: Printer, c: Elem, attrs: seq<Attribute>): Elem {
    map k | k in c.Keys && FindAttribute(attrs, k).Some? :: EncodeValue(pr, c[k])
  }

  /** appendSchemaFields: the declared attributes in declaration order. */
  method EncodeFields(pr: Printer, c: Elem, attrs: seq<Attribute>) returns (out: Elem)
    requires forall k <- c.Keys :: Fold(k) == k
    ensures out == Emitted(pr, c, attrs)
  {
    hide EncodeValue;
    out := map[];
    for i := 0 to |attrs|
      invariant out == Emitted(pr, c, attrs[..i])
    {
      assert attrs[..i + 1] == attrs[..i] + [attrs[i]];
      FindMore(attrs[..i], attrs[i], c.Keys);
      var key := Fold(attrs[i].name);
      if key in c { out := out[key := EncodeValue(pr, c[key])]; }
    }
    assert attrs[..|attrs|] == attrs;
  }

  lemma {:induction false} FindMore(attrs: seq<Attribute>, a: Attribute, keys: set<string>)
    requires forall k <- keys :: Fold(k) == k
    ensures forall k <- keys :: FindAttribute(attrs + [a], k).Some? <==> FindAttribute(attrs, k).Some? || k == Fold(a.name)
  {
    forall k <- keys ensures FindAttribute(attrs + [a], k).Some? <==> FindAttribute(attrs, k).Some? || k == Fold(a.name) {
      if FindAttribute(attrs + [a], k).Some? {
        assert FindAttribute(attrs + [a], k).value in attrs + [a];
      }
      if FindAttribute(attrs, k).Some? {
        assert FindAttribute(attrs, k).value in attrs + [a];
      }
      assert a in attrs + [a];
    }
  }

  lemma {:induction false} KeysFolded(rt: ResourceType, d: Doc)
    requires StoreType(rt) && Canonical(rt, d)
    ensures forall k <- d.attrs.Keys :: Fold(k) == k
    ensures forall u <- d.exts.Keys :: Fold(u) == u && FindSchema(rt.exts, u).Some? && forall k <- d.exts[u].Keys :: Fold(k) == k
  {
    hide StoreType, Stored, UrnKey, Declared;
    forall u <- d.exts.Keys ensures Fold(u) == u && FindSchema(rt.exts, u).Some? && forall k <- d.exts[u].Keys :: Fold(k) == k {
      ExtKey(rt, d, u);
      assert CanonicalContainer(rt, u, d.exts[u]);
      forall k <- d.exts[u].Keys ensures Fold(k) == k {
        assert CanonicalSlot(rt, Loc(u, k), d.exts[u][k]);
      }
    }
    forall k <- d.attrs.Keys ensures Fold(k) == k {
      assert CanonicalSlot(rt, Loc("", k), d.attrs[k]);
    }
  }

  lemma {:induction false} SchemaMore(exts: seq<SchemaDef>, x: SchemaDef, keys: set<string>)
    requires forall u <- keys :: Fold(u) == u
    ensures forall u <- keys :: FindSchema(exts + [x], u).Some? <==> FindSchema(exts, u).Some? || u == Fold(x.id)
  {
    forall u <- keys ensures FindSchema(exts + [x], u).Some? <==> FindSchema(exts, u).Some? || u == Fold(x.id) {
      if FindSchema(exts + [x], u).Some? {
        assert FindSchema(exts + [x], u).value in exts + [x];
      }
      if FindSchema(exts, u).Some? {
        assert FindSchema(exts, u).value in exts + [x];
      }
      assert x in exts + [x];
    }
  }

  /** Every member of a held extension is declared by it. */
  lemma {:induction false} OwnExt(pr: Printer, rt: ResourceType, d: Doc, x: SchemaDef)
    requires StoreType(rt) && Canonical(rt, d) && x in rt.exts && Fold(x.id) in d.exts
    ensures var c := d.exts[Fold(x.id)]; Emitted(pr, c, x.attrs) == EncodeContainer(pr, c) && c != map[]
  {
    hide Canonical, EncodeValue, Stored, FlatType, NamesValid, SeparateSchemas;
    var u := Fold(x.id);
    ExtKey(rt, d, u);
    OwnSchema(rt, x);
    FoldIdempotent(x.id);
    FindSchemaByFold(rt.exts, x.id, u);
  }

  /** The held extensions among those visited. */
  function ExtsEmitted(pr: Printer, d: Doc, exts: seq<SchemaDef>): Elem {
    map u | u in d.exts.Keys && FindSchema(exts, u).Some? :: Obj(EncodeContainer(pr, d.exts[u]))
  }

  lemma {:induction false} ExtsEmittedMore(pr: Printer, rt: ResourceType, d: Doc, exts: seq<SchemaDef>, x: SchemaDef)
    requires StoreType(rt) && Canonical(rt, d)
    ensures var (u, out) := (Fold(x.id), ExtsEmitted(pr, d, exts));
            ExtsEmitted(pr, d, exts + [x]) == if u in d.exts then out[u := Obj(EncodeContainer(pr, d.exts[u]))] else out
  {
    hide StoreType, Canonical, EncodeContainer, Fold;
    KeysFolded(rt, d);
    SchemaMore(exts, x, d.exts.Keys);
  }

  lemma {:induction false} ExtsEmittedAll(pr: Printer, rt: ResourceType, d: Doc)
    requires StoreType(rt) && Canonical(rt, d)
    ensures ExtsEmitted(pr, d, []) == map[] && ExtsEmitted(pr, d, rt.exts) == ExtsJson(pr, d)
  {
    hide StoreType, Canonical, EncodeContainer, Fold;
    KeysFolded(rt, d);
  }

  /** appendExtensionFields. */
  method EncodeExtensions(pr: Printer, rt: ResourceType, d: Doc) returns (out: Elem)
    requires StoreType(rt) && Canonical(rt, d)
    ensures out == ExtsJson(pr, d)
  {
    hide StoreType, Canonical, EncodeContainer, Emitted, ExtsEmitted, ExtsJson, Fold;
    out := map[];
    ExtsEmittedAll(pr, rt, d);
    KeysFolded(rt, d);
    assert rt.exts[..0] == [];
    for i := 0 to |rt.exts|
      invariant out == ExtsEmitted(pr, d, rt.exts[..i])
    {
      var x := rt.exts[i];
      var u := Fold(x.id);
      assert rt.exts[..i + 1] == rt.exts[..i] + [x];
      ExtsEmittedMore(pr, rt, d, rt.exts[..i], x);
      if u in d.exts {
        OwnExt(pr, rt, d, x);
        var fields := EncodeFields(pr, d.exts[u], x.attrs);
        ContainerKeys(pr, d.exts[u]);
        if fields != map[] { out := out[u := Obj(fields)]; }
      }
    }
    assert rt.exts[..|rt.exts|] == rt.exts;
  }

  lemma {:induction false} ContainerKeys(pr: Printer, c: Elem)
    ensures c != map[] ==> EncodeContainer(pr, c) != map[]
  {
    assert EncodeContainer(pr, c).Keys == c.Keys;
  }

  /** EncodeResource. */
  method EncodeResource(pr: Printer, rt: ResourceType, d: Doc) returns (body: Value)
    requires StoreType(rt) && Canonical(rt, d)
    ensures body == Obj(Encoded(pr, rt, d))
  {
    hide StoreType, Canonical, EncodeValue, Emitted, EncodeContainer, ExtsJson, SchemasJson, MetaValue;
    KeysFolded(rt, d);
    var common := EncodeFields(pr, d.attrs, COMMON[..2]);
    var core := EncodeFields(pr, d.attrs, rt.core.attrs);
    var exts := EncodeExtensions(pr, rt, d);
    var meta := MetaValue(d.meta);
    CoreFields(pr, rt, d);
    body := Obj(map[SCHEMAS := SchemasJson(rt, d)] + (common + core) + exts + if meta.None? then map[] else map[META := EncodeValue(pr, meta.value)]);
  }

  /** id, externalId and the core attributes are all a canonical resource's own map holds. */
  lemma {:induction false} CoreFields(pr: Printer, rt: ResourceType, d: Doc)
    requires StoreType(rt) && Canonical(rt, d)
    ensures Emitted(pr, d.attrs, COMMON[..2]) + Emitted(pr, d.attrs, rt.core.attrs) == EncodeContainer(pr, d.attrs)
  {
    hide StoreType, Canonical, EncodeValue, Stored, Declared;
    forall k <- d.attrs.Keys ensures FindAttribute(COMMON[..2], k).Some? || FindAttribute(rt.core.attrs, k).Some? {
      AttrKey(rt, d, k);
      CoreLookup(rt, k);
      CommonIds();
      assert COMMON[0] in COMMON[..2] && COMMON[1] in COMMON[..2];
    }
  }

  /** The body a canonical resource is encoded to decodes to that resource exactly when what it
      holds reads back. */
  method EncodeDecode(pr: Printer, lx: Lexicon, rt: ResourceType, d: Doc) returns (body: Value, r: Result<Doc>)
    requires StoreType(rt) && Canonical(rt, d)
    ensures body == Obj(Encoded(pr, rt, d))
    ensures r == Ok(d) <==> ReadsDoc(pr, lx, d)
  {
    hide ReadsDoc, StoreType, Canonical, Encoded, EntryOk, DecodedDoc;
    body := EncodeResource(pr, rt, d);
    CodecRoundTrip(pr, lx, rt, d);
    r := Decode(lx, rt, false, body);
  }
}
