/** Schema metadata: attributes, schemas and resource types (scim/schema.go, scim/path.go). */
module Schema {
  import opened Text

  datatype AttrType = TString | TBoolean | TDecimal | TInteger | TDateTime | TBinary | TReference | TComplex

  datatype Access = ReadOnly | ReadWrite | Immutable | WriteOnly

  datatype Attribute = Attribute(name: string, typ: AttrType, multi: bool, required: bool, caseExact: bool,
                                 access: Access, unique: bool, subs: seq<Attribute>)

  datatype SchemaDef = SchemaDef(id: string, attrs: seq<Attribute>)

  datatype ResourceType = ResourceType(core: SchemaDef, exts: seq<SchemaDef>)

  /** findAttribute: the first attribute whose name folds like the given one. */
  function FindAttribute(attrs: seq<Attribute>, name: string): (r: Option<Attribute>)
    ensures r.Some? ==> r.value in attrs && Fold(r.value.name) == Fold(name)
    ensures r.None? ==> forall a <- attrs :: Fold(a.name) != Fold(name)
  {
    if attrs == [] then None
    else if Fold(attrs[0].name) == Fold(name) then Some(attrs[0])
    else FindAttribute(attrs[1..], name)
  }

  /** The first extension declared with the URN, by folded comparison. */
  function FindSchema(exts: seq<SchemaDef>, urn: string): (r: Option<SchemaDef>)
    ensures r.Some? ==> r.value in exts && Fold(r.value.id) == Fold(urn)
    ensures r.None? ==> forall s <- exts :: Fold(s.id) != Fold(urn)
  {
    if exts == [] then None
    else if Fold(exts[0].id) == Fold(urn) then Some(exts[0])
    else FindSchema(exts[1..], urn)
  }

  function Plain(name: string, typ: AttrType, exact: bool, access: Access): Attribute {
    Attribute(name, typ, false, false, exact, access, false, [])
  }

  /** The common attributes of section 3.1 of RFC 7643. */
  const COMMON: seq<Attribute> := [
    Plain("id", TString, true, ReadOnly).(unique := true),
    Plain("externalId", TString, true, ReadWrite),
    Plain("meta", TComplex, false, ReadOnly).(subs := [
      Plain("resourceType", TString, true, ReadOnly),
      Plain("created", TDateTime, false, ReadOnly),
      Plain("lastModified", TDateTime, false, ReadOnly),
      Plain("location", TString, true, ReadOnly),
      Plain("version", TString, true, ReadOnly)]),
    Plain("schemas", TString, true, ReadWrite).(multi := true)
  ]

  lemma {:induction false} FindByFold(attrs: seq<Attribute>, a: string, b: string)
    requires Fold(a) == Fold(b)
    ensures FindAttribute(attrs, a) == FindAttribute(attrs, b)
  {
    if attrs != [] { FindByFold(attrs[1..], a, b); }
  }

  /** Complex values nest at most one level (section 2.3.8 of RFC 7643). */
  predicate Flat(attrs: seq<Attribute>) {
    forall a <- attrs, s <- a.subs :: s.typ != TComplex
  }

  predicate FlatType(rt: ResourceType) {
    Flat(rt.core.attrs) && forall x <- rt.exts :: Flat(x.attrs)
  }
}
