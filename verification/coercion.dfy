/** What Coerce makes of decoded JSON (scim/value.go): which values stand for which stored ones. */
module Coercion {
  import opened Text
  import opened Schema
  import opened Values

  /** The value stands for the stored scalar x of the type: it is x, a number that converts without
      loss, the text of a number, an instant or bytes, or the text of a reference. */
  predicate Denotes(lx: Lexicon, typ: AttrType, v: Value, x: Value) {
    ScalarOf(typ, x) &&
    match (x, v)
    case (Dec(r), Int(i)) => r == i as real
    case (Dec(r), Num(t)) => lx.float64(t) == Some(r)
    case (Int(i), Num(t)) => lx.int64(t) == Some(i)
    case (Int(i), Dec(r)) => r == i as real && MIN_INT64 <= i <= MAX_INT64
    case (Time(t), Str(s)) => lx.rfc3339(s) == Some(t)
    case (Bin(b), Str(s)) => lx.base64(s) == Some(b)
    case (Ref(u), Str(s)) => u == s
    case _ => v == x
  }

  /** A scalar coerces to exactly what it stands for, and fails if it stands for nothing. */
  lemma {:induction false} ScalarIff(lx: Lexicon, typ: AttrType, v: Value)
    ensures var r := CoerceScalar(lx, typ, v);
            && (forall x :: r == Ok(x) <==> Denotes(lx, typ, v, x))
            && (r.Err? ==> r == Err(InvalidValue) && forall x :: !Denotes(lx, typ, v, x))
  {
    forall x: Value ensures CoerceScalar(lx, typ, v) == Ok(x) <==> Denotes(lx, typ, v, x) {
      if typ == TInteger && v.Dec? && x.Int? { FloorIs(v.r, x.i); }
    }
  }

  lemma FloorIs(r: real, i: int)
    ensures r == i as real ==> r.Floor == i
  {
  }

  /** The items that are not null, in order. */
  function Given(items: seq<Value>): seq<Value> {
    if items == [] then [] else (if items[0].Nil? then [] else [items[0]]) + Given(items[1..])
  }

  /** Item by item, the values stand for the stored scalars. */
  predicate AllDenote(lx: Lexicon, typ: AttrType, items: seq<Value>, out: seq<Value>) {
    |items| == |out| && forall i :: 0 <= i < |items| ==> Denotes(lx, typ, items[i], out[i])
  }

  lemma {:induction false} ItemsIff(lx: Lexicon, typ: AttrType, items: seq<Value>, out: seq<Value>)
    ensures CoerceScalars(lx, typ, items) == Ok(out) <==> AllDenote(lx, typ, Given(items), out)
    decreases |items|
  {
    hide CoerceScalar, Denotes;
    if items != [] {
      var rest := items[1..];
      if items[0].Nil? {
        ItemsIff(lx, typ, rest, out);
        assert [] + Given(rest) == Given(rest);
      } else {
        ScalarIff(lx, typ, items[0]);
        if out != [] {
          ItemsIff(lx, typ, rest, out[1..]);
          DenoteFirst(lx, typ, items[0], Given(rest), out);
          assert [out[0]] + out[1..] == out;
        }
      }
    }
  }

  lemma {:induction false} DenoteFirst(lx: Lexicon, typ: AttrType, v: Value, rest: seq<Value>, out: seq<Value>)
    requires out != []
    ensures AllDenote(lx, typ, [v] + rest, out) <==> Denotes(lx, typ, v, out[0]) && AllDenote(lx, typ, rest, out[1..])
  {
    hide Denotes;
    var all := [v] + rest;
    assert all[0] == v && all[1..] == rest;
    if AllDenote(lx, typ, rest, out[1..]) && Denotes(lx, typ, v, out[0]) {
      forall i | 0 <= i < |all| ensures Denotes(lx, typ, all[i], out[i]) {
        if i > 0 { assert all[i] == rest[i - 1] && out[i] == out[1..][i - 1]; }
      }
    }
    if AllDenote(lx, typ, all, out) {
      forall i | 0 <= i < |rest| ensures Denotes(lx, typ, rest[i], out[1..][i]) {
        assert rest[i] == all[i + 1] && out[1..][i] == out[i + 1];
      }
    }
  }

  /** What a simple attribute stores for a value: nothing for null or a list of nulls, the scalar
      it stands for, or the list of those its items stand for. */
  predicate Stores(lx: Lexicon, a: Attribute, v: Value, x: Value) {
    if v.Nil? then x == Nil
    else if !a.multi then Denotes(lx, a.typ, v, x)
    else if !v.Arr? then MultiItems(v).Ok? && StoresItems(lx, a.typ, MultiItems(v).value, x)
    else StoresItems(lx, a.typ, v.items, x)
  }

  predicate StoresItems(lx: Lexicon, typ: AttrType, items: seq<Value>, x: Value) {
    if Given(items) == [] then x == Nil else x.Slice? && x.typ == typ && AllDenote(lx, typ, Given(items), x.scalars)
  }

  /** A simple attribute coerces a value to exactly what it stores for it. */
  lemma {:induction false} SimpleIff(lx: Lexicon, a: Attribute, v: Value)
    requires a.typ != TComplex
    ensures forall x :: Coerce(lx, a, v) == Ok(x) <==> Stores(lx, a, v, x)
    ensures a.multi && !v.Arr? && !v.Slice? && !v.Multi? && !v.Nil? ==> Coerce(lx, a, v) == Err(InvalidValue)
  {
    hide CoerceScalar, CoerceScalars, Denotes, Given, AllDenote;
    forall x: Value ensures Coerce(lx, a, v) == Ok(x) <==> Stores(lx, a, v, x) {
      if !v.Nil? {
        ScalarIff(lx, a.typ, v);
        if a.multi && MultiItems(v).Ok? {
          var items := MultiItems(v).value;
          ItemsIff(lx, a.typ, items, []);
          if x.Slice? { ItemsIff(lx, a.typ, items, x.scalars); }
          NoneGiven(lx, a.typ, items);
          SomeGiven(lx, a.typ, items);
        }
      }
    }
  }

  lemma NoneGiven(lx: Lexicon, typ: AttrType, items: seq<Value>)
    ensures AllDenote(lx, typ, Given(items), []) <==> Given(items) == []
  {
    hide Given;
  }

  lemma {:induction false} SomeGiven(lx: Lexicon, typ: AttrType, items: seq<Value>)
    ensures CoerceScalars(lx, typ, items).Ok? ==> AllDenote(lx, typ, Given(items), CoerceScalars(lx, typ, items).value)
  {
    hide CoerceScalars, Given, AllDenote;
    if CoerceScalars(lx, typ, items).Ok? { ItemsIff(lx, typ, items, CoerceScalars(lx, typ, items).value); }
  }

  /** An object or complex value stands for the element e of a complex attribute: every member
      that names a sub-attribute is one of a simple type and stands for what e stores there, and
      e stores nothing else. */
  ghost predicate StoresElem(lx: Lexicon, a: Attribute, m: Elem, e: Elem) {
    forall k: string ::
      var s := FindAttribute(a.subs, k);
      if k in m && s.Some? then s.value.typ != TComplex && Stores(lx, s.value, m[k], if k in e then e[k] else Nil) && (k in e ==> !e[k].Nil?)
      else k !in e
  }

  lemma {:induction false} MemberIff(lx: Lexicon, a: Attribute, k: string, v: Value)
    ensures var s := FindAttribute(a.subs, k);
            forall x :: CoerceMember(lx, a, k, v) == Ok(x) <==> if s.None? then x == Nil else s.value.typ != TComplex && Stores(lx, s.value, v, x)
  {
    hide Stores, CoerceSimple;
    var s := FindAttribute(a.subs, k);
    if s.Some? && s.value.typ != TComplex {
      SimpleIff(lx, s.value, v);
      assert forall x :: Coerce(lx, s.value, v) == Ok(x) <==> CoerceSimple(lx, s.value, v) == Ok(x) by { SimpleCoerces(lx, s.value, v); }
    }
  }

  lemma SimpleCoerces(lx: Lexicon, a: Attribute, v: Value)
    requires a.typ != TComplex
    ensures Coerce(lx, a, v) == CoerceSimple(lx, a, v)
  {
  }

  /** A complex value coerces to exactly the element its members stand for. */
  lemma {:induction false} ElementIff(lx: Lexicon, a: Attribute, v: Value, e: Elem)
    ensures CoerceComplex(lx, a, v) == Ok(e) <==> Source(v).Some? && StoresElem(lx, a, Source(v).value, e)
  {
    hide CoerceMember, Stores;
    if Source(v).Some? {
      var m := Source(v).value;
      forall k <- m.Keys
        ensures var s := FindAttribute(a.subs, k);
                forall x :: CoerceMember(lx, a, k, m[k]) == Ok(x) <==> if s.None? then x == Nil else s.value.typ != TComplex && Stores(lx, s.value, m[k], x)
      {
        MemberIff(lx, a, k, m[k]);
      }
      if StoresElem(lx, a, m, e) { ElementStored(lx, a, m, e); }
      if CoerceComplex(lx, a, v) == Ok(e) { StoredElement(lx, a, m, e); }
    }
  }

  lemma {:induction false} ElementStored(lx: Lexicon, a: Attribute, m: Elem, e: Elem)
    requires StoresElem(lx, a, m, e)
    ensures MembersCoerce(lx, a, m) && CoercedElem(lx, a, m) == e
  {
    hide CoerceMember, Stores, FindAttribute;
    forall k <- m.Keys ensures CoerceMember(lx, a, k, m[k]) == Ok(if k in e then e[k] else Nil) && (k in e ==> !e[k].Nil?) {
      MemberIff(lx, a, k, m[k]);
    }
    forall k <- e.Keys ensures k in m {
    }
    assert CoercedElem(lx, a, m) == e;
  }

  lemma {:induction false} StoredElement(lx: Lexicon, a: Attribute, m: Elem, e: Elem)
    requires MembersCoerce(lx, a, m) && CoercedElem(lx, a, m) == e
    ensures StoresElem(lx, a, m, e)
  {
    hide CoerceMember, Stores, FindAttribute;
    forall k: string
      ensures var s := FindAttribute(a.subs, k);
              if k in m && s.Some? then s.value.typ != TComplex && Stores(lx, s.value, m[k], if k in e then e[k] else Nil) && (k in e ==> !e[k].Nil?)
              else k !in e
    {
      if k in m {
        MemberIff(lx, a, k, m[k]);
        assert CoerceMember(lx, a, k, m[k]).Ok?;
        assert CoerceMember(lx, a, k, m[k]) == Ok(CoerceMember(lx, a, k, m[k]).value);
      }
    }
  }

  // ----- Lists of complex values -----

  /** Item by item, the values stand for elements, some of them empty. */
  ghost predicate AllStore(lx: Lexicon, a: Attribute, items: seq<Value>, elems: seq<Elem>) {
    |items| == |elems| && forall i :: 0 <= i < |items| ==> Source(items[i]).Some? && StoresElem(lx, a, Source(items[i]).value, elems[i])
  }

  function Nonempty(elems: seq<Elem>): seq<Elem> {
    if elems == [] then [] else (if elems[0] == map[] then [] else [elems[0]]) + Nonempty(elems[1..])
  }

  /** The loop over the items succeeds exactly when every item stands for an element, and keeps
      those that are not empty, in order. */
  lemma {:induction false} ElementsIff(lx: Lexicon, a: Attribute, items: seq<Value>)
    ensures var r := CoerceElems(lx, a, items);
            && (forall elems: seq<Elem> :: AllStore(lx, a, items, elems) ==> r == Ok(Nonempty(elems)))
            && (r.Ok? ==> exists elems: seq<Elem> :: AllStore(lx, a, items, elems))
    decreases |items|
  {
    hide CoerceComplex, StoresElem, Source;
    var r := CoerceElems(lx, a, items);
    if items == [] {
      assert AllStore(lx, a, items, []);
    } else {
      var rest := items[1..];
      ElementsIff(lx, a, rest);
      forall elems: seq<Elem> | AllStore(lx, a, items, elems) ensures r == Ok(Nonempty(elems)) {
        assert AllStore(lx, a, rest, elems[1..]);
        ElementIff(lx, a, items[0], elems[0]);
        assert [] + Nonempty(elems[1..]) == Nonempty(elems[1..]);
      }
      if r.Ok? {
        var e := CoerceComplex(lx, a, items[0]).value;
        ElementIff(lx, a, items[0], e);
        var more: seq<Elem> :| AllStore(lx, a, rest, more);
        assert AllStore(lx, a, items, [e] + more);
      }
    }
  }

  /** A multi-valued complex attribute coerces an array exactly when every item stands for an
      element and at most one of them is primary; it then stores those that are not empty, in
      order, or nothing when none is left. */
  lemma {:induction false} ArrayIff(lx: Lexicon, a: Attribute, items: seq<Value>, elems: seq<Elem>)
    requires a.typ == TComplex && a.multi
    ensures AllStore(lx, a, items, elems) ==>
              Coerce(lx, a, Arr(items)) == if PrimaryCount(Nonempty(elems)) > 1 then Err(InvalidValue) else Ok(if Nonempty(elems) == [] then Nil else Multi(Nonempty(elems)))
    ensures Coerce(lx, a, Arr(items)).Ok? ==> exists found: seq<Elem> :: AllStore(lx, a, items, found)
  {
    hide CoerceElems, AllStore, Nonempty, PrimaryCount;
    ElementsIff(lx, a, items);
  }
}
