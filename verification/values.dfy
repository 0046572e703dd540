/** Attribute values: decoded JSON, the stored forms, and the conversion between them
    (scim/value.go). */
module Values {
  import opened Text
  import opened Schema

  /** An instant with the offset it was written in; equality of instants ignores the offset. */
  datatype Moment = Moment(instant: int, offset: int)

  /** Go's dynamic values that the engine handles. Object and complex members are keyed by
      folded name, the only form in which the code ever looks them up. Slice is the typed
      slice of a multi-valued scalar. */
  datatype Value =
    | Nil
    | Str(s: string) | Bool(b: bool) | Int(i: int) | Dec(r: real)
    | Time(t: Moment) | Bin(bytes: seq<nat>) | Ref(uri: string)
    | Num(text: string)
    | Obj(members: map<string, Value>)
    | Arr(items: seq<Value>)
    | Cplx(elem: map<string, Value>)
    | Multi(elems: seq<map<string, Value>>)
    | Slice(typ: AttrType, scalars: seq<Value>)

  type Elem = map<string, Value>

  /** The text conversions the code takes from Go's libraries. */
  datatype Lexicon = Lexicon(
    int64: string -> Option<int>,
    float64: string -> Option<real>,
    rfc3339: string -> Option<Moment>,
    base64: string -> Option<seq<nat>>)

  const PRIMARY := "primary"
  const VALUE := "value"

  const MAX_INT64: int := 0x7fff_ffff_ffff_ffff
  const MIN_INT64: int := -0x8000_0000_0000_0000

  function FromText<T>(r: Option<T>, wrap: T -> Value): Result<Value> {
    if r.Some? then Ok(wrap(r.value)) else Err(InvalidValue)
  }

  /** coerceSingle for the scalar types. */
  function CoerceScalar(lx: Lexicon, typ: AttrType, v: Value): (r: Result<Value>)
    ensures r.Err? ==> r.kind == InvalidValue
    ensures r.Ok? ==> ScalarOf(typ, r.value)
    ensures ScalarOf(typ, v) ==> r == Ok(v)
  {
    match typ
    case TString => if v.Str? then Ok(v) else Err(InvalidValue)
    case TBoolean => if v.Bool? then Ok(v) else Err(InvalidValue)
    case TDecimal =>
      if v.Dec? then Ok(v)
      else if v.Int? then Ok(Dec(v.i as real))
      else if v.Num? then FromText(lx.float64(v.text), (x: real) => Dec(x))
      else Err(InvalidValue)
    case TInteger =>
      if v.Int? then Ok(v)
      else if v.Num? then FromText(lx.int64(v.text), (x: int) => Int(x))
      else if v.Dec? && v.r.Floor as real == v.r && MIN_INT64 <= v.r.Floor <= MAX_INT64 then Ok(Int(v.r.Floor))
      else Err(InvalidValue)
    case TDateTime =>
      if v.Time? then Ok(v)
      else if v.Str? then FromText(lx.rfc3339(v.s), (x: Moment) => Time(x))
      else Err(InvalidValue)
    case TBinary =>
      if v.Bin? then Ok(v)
      else if v.Str? then FromText(lx.base64(v.s), (x: seq<nat>) => Bin(x))
      else Err(InvalidValue)
    case TReference =>
      if v.Ref? then Ok(v) else if v.Str? then Ok(Ref(v.s)) else Err(InvalidValue)
    case TComplex => Err(InvalidValue)
  }

  /** The stored form of one scalar of the type. */
  predicate ScalarOf(typ: AttrType, v: Value) {
    match typ
    case TString => v.Str?
    case TBoolean => v.Bool?
    case TDecimal => v.Dec?
    case TInteger => v.Int?
    case TDateTime => v.Time?
    case TBinary => v.Bin?
    case TReference => v.Ref?
    case TComplex => false
  }

  /** coerceSlice: null items are skipped. */
  function CoerceScalars(lx: Lexicon, typ: AttrType, items: seq<Value>): (r: Result<seq<Value>>)
    ensures r.Err? ==> r.kind == InvalidValue
    ensures r.Ok? ==> forall i :: 0 <= i < |r.value| ==> ScalarOf(typ, r.value[i])
  {
    if items == [] then Ok([])
    else if items[0].Nil? then CoerceScalars(lx, typ, items[1..])
    else
      var head :- CoerceScalar(lx, typ, items[0]);
      var rest :- CoerceScalars(lx, typ, items[1..]);
      Ok([head] + rest)
  }

  function Boxed(elems: seq<Elem>): seq<Value> {
    seq(|elems|, i requires 0 <= i < |elems| => Cplx(elems[i]))
  }

  /** multiItems: the accepted shapes of a multi-value. A typed slice other than []string is
      not among them, stored form or not. */
  function MultiItems(v: Value): (r: Result<seq<Value>>)
    ensures r.Err? ==> r.kind == InvalidValue
  {
    match v
    case Arr(items) => Ok(items)
    case Slice(typ, items) => if typ == TString then Ok(items) else Err(InvalidValue)
    case Multi(elems) => Ok(Boxed(elems))
    case _ => Err(InvalidValue)
  }

  /** coerceValue on an attribute of scalar type. Nil stands for unassigned. */
  function CoerceSimple(lx: Lexicon, a: Attribute, v: Value): (r: Result<Value>)
    requires a.typ != TComplex
    ensures r.Err? ==> r.kind == InvalidValue
    ensures r.Ok? ==> r.value.Nil? || StoredSimple(a, r.value)
  {
    if v.Nil? then Ok(Nil)
    else if a.multi then
      var items :- MultiItems(v);
      var out :- CoerceScalars(lx, a.typ, items);
      Ok(if out == [] then Nil else Slice(a.typ, out))
    else CoerceScalar(lx, a.typ, v)
  }

  predicate StoredSimple(a: Attribute, v: Value) {
    if a.multi then
      v.Slice? && v.typ == a.typ && v.scalars != [] && forall i :: 0 <= i < |v.scalars| ==> ScalarOf(a.typ, v.scalars[i])
    else ScalarOf(a.typ, v)
  }

  /** The object or complex value coerceComplex reads members from. */
  function Source(v: Value): Option<Elem> {
    match v
    case Cplx(m) => Some(m)
    case Obj(m) => Some(m)
    case _ => None
  }

  /** One member of a complex value: unknown names vanish, a complex sub-attribute is an error. */
  function CoerceMember(lx: Lexicon, a: Attribute, key: string, v: Value): (r: Result<Value>)
    ensures r.Err? ==> r.kind == InvalidValue
    ensures r.Ok? && !r.value.Nil? ==>
              var sub := FindAttribute(a.subs, key);
              sub.Some? && sub.value.typ != TComplex && StoredSimple(sub.value, r.value)
  {
    var sub := FindAttribute(a.subs, key);
    if sub.None? then Ok(Nil)
    else if sub.value.typ == TComplex then Err(InvalidValue)
    else CoerceSimple(lx, sub.value, v)
  }

  predicate MembersCoerce(lx: Lexicon, a: Attribute, m: Elem) {
    forall k <- m.Keys :: CoerceMember(lx, a, k, m[k]).Ok?
  }

  /** The members of m that survive coercion, in stored form. */
  function CoercedElem(lx: Lexicon, a: Attribute, m: Elem): (r: Elem)
    requires MembersCoerce(lx, a, m)
  {
    map k | k in m.Keys && !CoerceMember(lx, a, k, m[k]).value.Nil? :: CoerceMember(lx, a, k, m[k]).value
  }

  /** coerceComplex; the empty map stands for unassigned. */
  function CoerceComplex(lx: Lexicon, a: Attribute, v: Value): (r: Result<Elem>)
    ensures r.Err? ==> r.kind == InvalidValue
  {
    if Source(v).None? || !MembersCoerce(lx, a, Source(v).value) then Err(InvalidValue)
    else Ok(CoercedElem(lx, a, Source(v).value))
  }

  predicate PrimaryTrue(e: Elem) {
    PRIMARY in e && e[PRIMARY] == Bool(true)
  }

  function PrimaryCount(elems: seq<Elem>): nat {
    if elems == [] then 0 else (if PrimaryTrue(elems[0]) then 1 else 0) + PrimaryCount(elems[1..])
  }

  /** The element loop of coerceMultiComplex: elements that coerce to nothing are dropped. */
  function CoerceElems(lx: Lexicon, a: Attribute, items: seq<Value>): (r: Result<seq<Elem>>)
    ensures r.Err? ==> r.kind == InvalidValue
  {
    if items == [] then Ok([])
    else
      var head :- CoerceComplex(lx, a, items[0]);
      var rest :- CoerceElems(lx, a, items[1..]);
      Ok(if head == map[] then rest else [head] + rest)
  }

  function CoerceMultiComplex(lx: Lexicon, a: Attribute, items: seq<Value>): (r: Result<Value>)
    ensures r.Err? ==> r.kind == InvalidValue
  {
    var out :- CoerceElems(lx, a, items);
    if 1 < PrimaryCount(out) then Err(InvalidValue)
    else Ok(if out == [] then Nil else Multi(out))
  }

  /** Coerce: the canonical stored form of v for the attribute, or Nil for unassigned. */
  function Coerce(lx: Lexicon, a: Attribute, v: Value): (r: Result<Value>)
    ensures r.Err? ==> r.kind == InvalidValue
  {
    if v.Nil? then Ok(Nil)
    else if a.typ != TComplex then CoerceSimple(lx, a, v)
    else if a.multi then
      var items :- MultiItems(v);
      CoerceMultiComplex(lx, a, items)
    else
      var m :- CoerceComplex(lx, a, v);
      Ok(if m == map[] then Nil else Cplx(m))
  }

  // ----- Stored forms -----

  predicate StoredElem(a: Attribute, m: Elem) {
    forall k <- m.Keys ::
      var sub := FindAttribute(a.subs, k);
      sub.Some? && sub.value.typ != TComplex && StoredSimple(sub.value, m[k])
  }

  /** The closed set of values a resource holds for the attribute: never empty, and at most
      one primary element. */
  predicate Stored(a: Attribute, v: Value) {
    if a.typ != TComplex then StoredSimple(a, v)
    else if a.multi then
      && v.Multi? && v.elems != []
      && (forall i :: 0 <= i < |v.elems| ==> v.elems[i] != map[] && StoredElem(a, v.elems[i]))
      && PrimaryCount(v.elems) <= 1
    else v.Cplx? && v.elem != map[] && StoredElem(a, v.elem)
  }

  lemma {:induction false} CoerceElemsStored(lx: Lexicon, a: Attribute, items: seq<Value>)
    ensures var r := CoerceElems(lx, a, items);
            r.Ok? ==> forall i :: 0 <= i < |r.value| ==> r.value[i] != map[] && StoredElem(a, r.value[i])
  {
    hide CoerceMember;
    if items != [] {
      CoerceElemsStored(lx, a, items[1..]);
    }
  }

  /** Coerce yields a stored form or nothing. */
  lemma {:induction false} CoerceStored(lx: Lexicon, a: Attribute, v: Value)
    ensures var r := Coerce(lx, a, v); r.Ok? ==> r.value.Nil? || Stored(a, r.value)
  {
    hide CoerceSimple, CoerceComplex, CoerceMultiComplex, StoredElem, PrimaryCount;
    if a.typ == TComplex {
      if !a.multi { ComplexStored(lx, a, v); } else if MultiItems(v).Ok? { ArrayStored(lx, a, MultiItems(v).value); }
    }
  }

  lemma {:induction false} ArrayStored(lx: Lexicon, a: Attribute, items: seq<Value>)
    requires a.typ == TComplex && a.multi
    ensures var r := CoerceMultiComplex(lx, a, items); r.Ok? ==> r.value.Nil? || Stored(a, r.value)
  {
    hide CoerceElems, StoredElem, PrimaryCount;
    CoerceElemsStored(lx, a, items);
    var r := CoerceMultiComplex(lx, a, items);
    if r.Ok? && !r.value.Nil? {
      var out := CoerceElems(lx, a, items).value;
      assert r.value == Multi(out) && out != [] && PrimaryCount(out) <= 1;
      assert forall i :: 0 <= i < |out| ==> out[i] != map[] && StoredElem(a, out[i]);
    }
  }

  lemma {:induction false} ComplexStored(lx: Lexicon, a: Attribute, v: Value)
    ensures CoerceComplex(lx, a, v).Ok? ==> StoredElem(a, CoerceComplex(lx, a, v).value)
  {
    hide MembersCoerce, CoercedElem, StoredElem;
    if Source(v).Some? && MembersCoerce(lx, a, Source(v).value) { CoercedStored(lx, a, Source(v).value); }
  }

  lemma {:induction false} CoercedStored(lx: Lexicon, a: Attribute, m: Elem)
    requires MembersCoerce(lx, a, m)
    ensures StoredElem(a, CoercedElem(lx, a, m))
  {
    hide CoerceMember, StoredSimple;
  }

  /** A stored simple value that Coerce accepts again: anything but a typed slice other than
      []string, which multiItems turns away. */
  predicate Recoercible(v: Value) {
    v.Slice? ==> v.typ == TString
  }

  lemma {:induction false} CoerceScalarsFixed(lx: Lexicon, typ: AttrType, items: seq<Value>)
    requires forall i :: 0 <= i < |items| ==> ScalarOf(typ, items[i])
    ensures CoerceScalars(lx, typ, items) == Ok(items)
  {
    hide CoerceScalar;
    if items != [] {
      assert ScalarOf(typ, items[0]);
      CoerceScalarsFixed(lx, typ, items[1..]);
      assert [items[0]] + items[1..] == items;
    }
  }

  lemma {:induction false} CoerceSimpleFixed(lx: Lexicon, a: Attribute, v: Value)
    requires a.typ != TComplex && StoredSimple(a, v)
    ensures CoerceSimple(lx, a, v) == if Recoercible(v) then Ok(v) else Err(InvalidValue)
  {
    if a.multi && v.typ == TString {
      CoerceScalarsFixed(lx, a.typ, v.scalars);
    }
  }

  predicate RecoercibleElem(m: Elem) {
    forall k <- m.Keys :: Recoercible(m[k])
  }

  lemma {:induction false} CoerceElemFixed(lx: Lexicon, a: Attribute, m: Elem)
    requires StoredElem(a, m)
    ensures MembersCoerce(lx, a, m) <==> RecoercibleElem(m)
    ensures RecoercibleElem(m) ==> CoercedElem(lx, a, m) == m
  {
    hide StoredSimple, CoerceSimple, Recoercible;
    forall k <- m.Keys
      ensures CoerceMember(lx, a, k, m[k]) == if Recoercible(m[k]) then Ok(m[k]) else Err(InvalidValue)
      ensures !m[k].Nil?
    {
      CoerceSimpleFixed(lx, FindAttribute(a.subs, k).value, m[k]);
      StoredNotNil(FindAttribute(a.subs, k).value, m[k]);
    }
  }

  lemma StoredNotNil(a: Attribute, v: Value)
    requires a.typ != TComplex && StoredSimple(a, v)
    ensures !v.Nil?
  {
  }

  /** The values Set accepts back unchanged. */
  predicate Writable(v: Value) {
    match v
    case Cplx(m) => RecoercibleElem(m)
    case Multi(l) => forall i :: 0 <= i < |l| ==> RecoercibleElem(l[i])
    case _ => Recoercible(v)
  }

  lemma {:induction false} CoerceElemsFixed(lx: Lexicon, a: Attribute, elems: seq<Elem>)
    requires forall i :: 0 <= i < |elems| ==> elems[i] != map[] && StoredElem(a, elems[i])
    ensures CoerceElems(lx, a, Boxed(elems)) ==
            if forall i :: 0 <= i < |elems| ==> RecoercibleElem(elems[i]) then Ok(elems) else Err(InvalidValue)
  {
    hide StoredElem, RecoercibleElem, MembersCoerce, CoercedElem;
    if elems != [] {
      CoerceElemFixed(lx, a, elems[0]);
      CoerceElemsFixed(lx, a, elems[1..]);
      assert Boxed(elems)[1..] == Boxed(elems[1..]);
      assert [elems[0]] + elems[1..] == elems;
      assert forall i :: 1 <= i < |elems| ==> elems[i] == elems[1..][i - 1];
    }
  }

  /** Coerce is the identity on a stored value exactly when the value holds no typed slice
      other than []string; on every other stored value it fails. */
  lemma {:induction false} CoerceFixedIff(lx: Lexicon, a: Attribute, v: Value)
    requires Stored(a, v)
    ensures Coerce(lx, a, v) == if Writable(v) then Ok(v) else Err(InvalidValue)
  {
    hide StoredElem, RecoercibleElem, StoredSimple, CoerceSimple, MembersCoerce, CoercedElem, PrimaryCount;
    if a.typ != TComplex {
      CoerceSimpleFixed(lx, a, v);
      SimpleShape(a, v);
    } else if a.multi {
      CoerceElemsFixed(lx, a, v.elems);
      assert MultiItems(v) == Ok(Boxed(v.elems));
    } else {
      CoerceElemFixed(lx, a, v.elem);
    }
  }

  lemma SimpleShape(a: Attribute, v: Value)
    requires a.typ != TComplex && StoredSimple(a, v)
    ensures !v.Nil? && !v.Cplx? && !v.Multi?
  {
  }

  // ----- Equality of stored values (patch/equal.go) -----

  predicate ScalarEqual(a: Value, b: Value) {
    if a.Time? then b.Time? && a.t.instant == b.t.instant
    else (a.Str? || a.Bool? || a.Int? || a.Dec? || a.Ref? || a.Bin?) && a == b
  }

  /** valuesEqual on the members of a complex value, which are never complex themselves. */
  predicate SimpleEqual(a: Value, b: Value) {
    match a
    case Nil => b.Nil?
    case Slice(t, l) => b.Slice? && t == b.typ && |l| == |b.scalars| && forall i :: 0 <= i < |l| ==> ScalarEqual(l[i], b.scalars[i])
    case _ => ScalarEqual(a, b)
  }

  /** complexEqual: as many members, and every member of a equal in b. */
  predicate ElemEqual(a: Elem, b: Elem) {
    |a| == |b| && forall k <- a.Keys :: k in b && SimpleEqual(a[k], b[k])
  }

  /** valuesEqual on stored values. */
  predicate ValuesEqual(a: Value, b: Value) {
    match a
    case Cplx(m) => b.Cplx? && ElemEqual(m, b.elem)
    case Multi(l) => b.Multi? && |l| == |b.elems| && forall i :: 0 <= i < |l| ==> ElemEqual(l[i], b.elems[i])
    case _ => SimpleEqual(a, b)
  }

  // ----- valuesEqual is an equivalence on stored values -----

  /** Values valuesEqual can compare: nothing, scalars, and slices of scalars. */
  predicate Comparable(v: Value) {
    v.Nil? || ScalarEqual(v, v) || (v.Slice? && forall i :: 0 <= i < |v.scalars| ==> ScalarEqual(v.scalars[i], v.scalars[i]))
  }

  lemma {:induction false} StoredComparable(a: Attribute, v: Value)
    requires a.typ != TComplex && StoredSimple(a, v)
    ensures Comparable(v)
  {
    if v.Slice? {
      forall i | 0 <= i < |v.scalars| ensures ScalarEqual(v.scalars[i], v.scalars[i]) {
        assert ScalarOf(a.typ, v.scalars[i]);
      }
    }
  }

  lemma {:induction false} StoredElemEqualSelf(a: Attribute, m: Elem)
    requires StoredElem(a, m)
    ensures ElemEqual(m, m)
  {
    hide StoredSimple;
    forall k <- m.Keys ensures SimpleEqual(m[k], m[k]) {
      StoredComparable(FindAttribute(a.subs, k).value, m[k]);
    }
  }

  lemma {:induction false} EqualSelf(a: Attribute, v: Value)
    requires v.Nil? || Stored(a, v)
    ensures ValuesEqual(v, v)
  {
    hide StoredSimple, StoredElem, ElemEqual;
    if v.Nil? {
    } else if a.typ != TComplex {
      StoredComparable(a, v);
      SimpleShape(a, v);
    } else if a.multi {
      forall i | 0 <= i < |v.elems| ensures ElemEqual(v.elems[i], v.elems[i]) {
        StoredElemEqualSelf(a, v.elems[i]);
      }
    } else {
      StoredElemEqualSelf(a, v.elem);
    }
  }

  lemma SimpleEqualSym(a: Value, b: Value)
    ensures SimpleEqual(a, b) == SimpleEqual(b, a)
  {
  }

  lemma {:induction false} SimpleEqualTrans(a: Value, b: Value, c: Value)
    requires SimpleEqual(a, b) && SimpleEqual(b, c)
    ensures SimpleEqual(a, c)
  {
    if a.Slice? {
      forall i | 0 <= i < |a.scalars| ensures ScalarEqual(a.scalars[i], c.scalars[i]) {
        assert ScalarEqual(a.scalars[i], b.scalars[i]);
      }
    }
  }

  lemma {:induction false} SubsetSameSize<T>(a: set<T>, b: set<T>)
    requires a <= b && |a| == |b|
    ensures a == b
  {
    if b - a != {} {
      var x :| x in b - a;
      SubsetSize(a, b - {x});
    }
  }

  lemma {:induction false} SubsetSize<T>(a: set<T>, b: set<T>)
    requires a <= b
    ensures |a| <= |b|
  {
    if a != {} {
      var x :| x in a;
      SubsetSize(a - {x}, b - {x});
    }
  }

  /** Equal complex values have the same members. */
  lemma {:induction false} ElemEqualKeys(a: Elem, b: Elem)
    requires ElemEqual(a, b)
    ensures a.Keys == b.Keys
  {
    hide SimpleEqual;
    assert |a.Keys| == |a| && |b.Keys| == |b|;
    SubsetSameSize(a.Keys, b.Keys);
  }

  lemma {:induction false} ElemEqualSym(a: Elem, b: Elem)
    requires ElemEqual(a, b)
    ensures ElemEqual(b, a)
  {
    hide SimpleEqual;
    ElemEqualKeys(a, b);
    forall k <- b.Keys ensures SimpleEqual(b[k], a[k]) {
      SimpleEqualSym(a[k], b[k]);
    }
  }

  lemma {:induction false} ElemEqualTrans(a: Elem, b: Elem, c: Elem)
    requires ElemEqual(a, b) && ElemEqual(b, c)
    ensures ElemEqual(a, c)
  {
    hide SimpleEqual;
    forall k <- a.Keys ensures k in c && SimpleEqual(a[k], c[k]) {
      SimpleEqualTrans(a[k], b[k], c[k]);
    }
  }

  lemma {:induction false} EqualSym(a: Value, b: Value)
    requires ValuesEqual(a, b)
    ensures ValuesEqual(b, a)
  {
    hide ElemEqual;
    match a
    case Cplx(m) => ElemEqualSym(m, b.elem);
    case Multi(l) =>
      forall i | 0 <= i < |l| ensures ElemEqual(b.elems[i], l[i]) {
        ElemEqualSym(l[i], b.elems[i]);
      }
    case _ => SimpleEqualSym(a, b);
  }

  lemma {:induction false} EqualTrans(a: Value, b: Value, c: Value)
    requires ValuesEqual(a, b) && ValuesEqual(b, c)
    ensures ValuesEqual(a, c)
  {
    hide ElemEqual;
    match a
    case Cplx(m) => ElemEqualTrans(m, b.elem, c.elem);
    case Multi(l) =>
      forall i | 0 <= i < |l| ensures ElemEqual(l[i], c.elems[i]) {
        ElemEqualTrans(l[i], b.elems[i], c.elems[i]);
      }
    case _ => SimpleEqualTrans(a, b, c);
  }

  // ----- What valuesEqual distinguishes -----

  /** The scalar with the offset of an instant forgotten. */
  function Instant(v: Value): Value {
    if v.Time? then Time(Moment(v.t.instant, 0)) else v
  }

  function InstantSimple(v: Value): Value {
    if v.Slice? then Slice(v.typ, seq(|v.scalars|, i requires 0 <= i < |v.scalars| => Instant(v.scalars[i]))) else Instant(v)
  }

  function InstantElem(m: Elem): Elem {
    map k | k in m.Keys :: InstantSimple(m[k])
  }

  /** The value with every offset forgotten. */
  function Instants(v: Value): Value {
    match v
    case Cplx(m) => Cplx(InstantElem(m))
    case Multi(l) => Multi(seq(|l|, i requires 0 <= i < |l| => InstantElem(l[i])))
    case _ => InstantSimple(v)
  }

  lemma ScalarEqualIff(typ: AttrType, x: Value, y: Value)
    requires ScalarOf(typ, x) && ScalarOf(typ, y)
    ensures ScalarEqual(x, y) <==> Instant(x) == Instant(y)
  {
  }

  lemma {:induction false} SimpleEqualIff(a: Attribute, x: Value, y: Value)
    requires a.typ != TComplex && StoredSimple(a, x) && StoredSimple(a, y)
    ensures SimpleEqual(x, y) <==> InstantSimple(x) == InstantSimple(y)
  {
    hide ScalarEqual, Instant, ScalarOf;
    if a.multi {
      var (l, m) := (x.scalars, y.scalars);
      forall i | 0 <= i < |l| && i < |m| ensures ScalarEqual(l[i], m[i]) <==> Instant(l[i]) == Instant(m[i]) {
        ScalarEqualIff(a.typ, l[i], m[i]);
      }
      if InstantSimple(x) == InstantSimple(y) {
        assert |l| == |InstantSimple(x).scalars| == |InstantSimple(y).scalars| == |m|;
        assert forall i :: 0 <= i < |l| ==> Instant(l[i]) == InstantSimple(x).scalars[i] == InstantSimple(y).scalars[i] == Instant(m[i]);
      }
    } else {
      ScalarEqualIff(a.typ, x, y);
      SingleScalars(a.typ, x, y);
    }
  }

  lemma SingleScalars(typ: AttrType, x: Value, y: Value)
    requires ScalarOf(typ, x) && ScalarOf(typ, y)
    ensures SimpleEqual(x, y) == ScalarEqual(x, y) && InstantSimple(x) == Instant(x) && InstantSimple(y) == Instant(y)
  {
  }

  lemma {:induction false} ElemEqualIff(a: Attribute, x: Elem, y: Elem)
    requires StoredElem(a, x) && StoredElem(a, y)
    ensures ElemEqual(x, y) <==> InstantElem(x) == InstantElem(y)
  {
    hide SimpleEqual, InstantSimple, StoredSimple;
    forall k | k in x && k in y ensures SimpleEqual(x[k], y[k]) <==> InstantSimple(x[k]) == InstantSimple(y[k]) {
      SimpleEqualIff(FindAttribute(a.subs, k).value, x[k], y[k]);
    }
    if ElemEqual(x, y) {
      ElemEqualKeys(x, y);
      assert InstantElem(x) == InstantElem(y);
    }
    if InstantElem(x) == InstantElem(y) {
      assert x.Keys == InstantElem(x).Keys == InstantElem(y).Keys == y.Keys;
      assert |x| == |x.Keys| == |y.Keys| == |y|;
      forall k <- x.Keys ensures k in y && SimpleEqual(x[k], y[k]) {
        assert InstantSimple(x[k]) == InstantElem(x)[k] == InstantElem(y)[k] == InstantSimple(y[k]);
      }
    }
  }

  /** valuesEqual on the stored values of an attribute is equality, up to the offsets dateTimes
      were written in. */
  lemma {:induction false} EqualIff(a: Attribute, x: Value, y: Value)
    requires Stored(a, x) && Stored(a, y)
    ensures ValuesEqual(x, y) <==> Instants(x) == Instants(y)
  {
    hide ElemEqual, InstantElem, StoredElem, SimpleEqual, InstantSimple, PrimaryCount, StoredSimple;
    if a.typ != TComplex {
      SimpleEqualIff(a, x, y);
      SimpleShape(a, x);
      SimpleShape(a, y);
    } else if a.multi {
      var (l, m) := (x.elems, y.elems);
      forall i | 0 <= i < |l| && i < |m| ensures ElemEqual(l[i], m[i]) <==> InstantElem(l[i]) == InstantElem(m[i]) {
        ElemEqualIff(a, l[i], m[i]);
      }
      if Instants(x) == Instants(y) {
        assert |l| == |Instants(x).elems| == |Instants(y).elems| == |m|;
        assert forall i :: 0 <= i < |l| ==> InstantElem(l[i]) == Instants(x).elems[i] == Instants(y).elems[i] == InstantElem(m[i]);
      }
    } else {
      ElemEqualIff(a, x.elem, y.elem);
    }
  }
}
