/** The deep value of a resource and what Get and Set do to it (scim/resource.go). The heap
    object that carries such a value is in module Resources. */
module Documents {
  import opened Text
  import opened Schema
  import opened Values
  import opened Paths

  datatype Meta = Meta(resourceType: string, created: Option<Moment>, lastModified: Option<Moment>,
                       location: string, version: string)

  const NO_META := Meta("", None, None, "", "")

  /** attrs maps folded attribute names to stored values; exts maps folded extension URNs to
      containers of the same shape. (The source keeps both in one map; a URN holds a colon and
      an attribute name does not, so the keys never meet.) */
  datatype Doc = Doc(attrs: Elem, exts: map<string, Elem>, meta: Meta)

  const SCHEMAS := "schemas"
  const META := "meta"

  /** Resource.Schemas: the core URN, then the extensions that hold data. */
  function ExtensionsHeld(exts: seq<SchemaDef>, d: Doc): seq<Value> {
    if exts == [] then []
    else (if Fold(exts[0].id) in d.exts then [Str(exts[0].id)] else []) + ExtensionsHeld(exts[1..], d)
  }

  function SchemasValue(rt: ResourceType, d: Doc): Value {
    Slice(TString, [Str(rt.core.id)] + ExtensionsHeld(rt.exts, d))
  }

  /** The assigned metadata fields. */
  function MetaElem(m: Meta): Elem {
    (if m.resourceType == "" then map[] else map["resourcetype" := Str(m.resourceType)]) +
    (if m.created.None? then map[] else map["created" := Time(m.created.value)]) +
    (if m.lastModified.None? then map[] else map["lastmodified" := Time(m.lastModified.value)]) +
    (if m.location == "" then map[] else map["location" := Str(m.location)]) +
    (if m.version == "" then map[] else map["version" := Str(m.version)])
  }

  /** metaValue: the metadata as a complex value, or nothing. */
  function MetaValue(m: Meta): Option<Value> {
    if MetaElem(m) == map[] then None else Some(Cplx(MetaElem(m)))
  }

  function Lookup(m: Elem, k: string): Option<Value> {
    if k in m then Some(m[k]) else None
  }

  /** subValue. */
  function SubValue(v: Option<Value>, sub: Option<Attribute>): Option<Value> {
    if v.None? || sub.None? then v
    else if !v.value.Cplx? then None
    else Lookup(v.value.elem, Fold(sub.value.name))
  }

  /** The container a resolved path lives in: the core one, or an extension's, if it exists. */
  function Container(d: Doc, rp: Resolved): Option<Elem> {
    if rp.urn == "" then Some(d.attrs)
    else if Fold(rp.urn) in d.exts then Some(d.exts[Fold(rp.urn)])
    else None
  }

  /** Resource.get for a path that names an attribute. */
  function GetResolved(rt: ResourceType, d: Doc, rp: Resolved): Option<Value>
    requires rp.attr.Some?
  {
    var key := Fold(rp.attr.value.name);
    if rp.common && key == SCHEMAS then Some(SchemasValue(rt, d))
    else if rp.common && key == META then SubValue(MetaValue(d.meta), rp.sub)
    else
      var c := Container(d, rp);
      if c.None? then None else SubValue(Lookup(c.value, key), rp.sub)
  }

  /** Resource.Get: unknown paths read as unassigned. A bare extension URN reads as the
      container's members. */
  function Get(rt: ResourceType, d: Doc, path: string): Option<Value> {
    var rp := ResolvePath(rt, path);
    if rp.Err? then None
    else if rp.value.attr.None? then
      var c := Container(d, rp.value);
      if c.None? then None else Some(Obj(c.value))
    else GetResolved(rt, d, rp.value)
  }

  /** Get as a plain Go value: nil when unassigned. */
  function GetOrNil(rt: ResourceType, d: Doc, path: string): Value {
    var v := Get(rt, d, path);
    if v.None? then Nil else v.value
  }

  /** setSub: writes one member of a single-valued complex value, deleting the parent when the
      last member goes. */
  function SetSub(lx: Lexicon, c: Elem, attr: Attribute, sub: Attribute, v: Value): (r: Result<Elem>)
    ensures r.Err? ==> r.kind == InvalidValue
  {
    var cv :- Coerce(lx, sub, v);
    var (key, subKey) := (Fold(attr.name), Fold(sub.name));
    var held := key in c && c[key].Cplx?;
    if cv.Nil? then
      if !held then Ok(c)
      else
        var rest := c[key].elem - {subKey};
        Ok(if rest == map[] then c - {key} else c[key := Cplx(rest)])
    else Ok(c[key := Cplx((if held then c[key].elem else map[])[subKey := cv])])
  }

  /** setInContainer. */
  function SetInContainer(lx: Lexicon, c: Elem, rp: Resolved, v: Value): (r: Result<Elem>)
    requires rp.attr.Some?
    ensures r.Err? ==> r.kind == InvalidValue
  {
    if rp.sub.Some? then SetSub(lx, c, rp.attr.value, rp.sub.value, v)
    else
      var cv :- Coerce(lx, rp.attr.value, v);
      var key := Fold(rp.attr.value.name);
      Ok(if cv.Nil? then c - {key} else c[key := cv])
  }

  /** commitExtension: an empty container is not kept. */
  function Commit(exts: map<string, Elem>, key: string, c: Elem): map<string, Elem> {
    if c == map[] then exts - {key} else exts[key := c]
  }

  function SetResolved(lx: Lexicon, d: Doc, rp: Resolved, v: Value): Result<Doc>
    requires rp.attr.Some?
  {
    var key := Fold(rp.attr.value.name);
    if rp.common && (key == SCHEMAS || key == META) then Err(Mutability)
    else if rp.urn == "" then
      var c :- SetInContainer(lx, d.attrs, rp, v);
      Ok(d.(attrs := c))
    else
      var held := Container(d, rp);
      var c :- SetInContainer(lx, if held.None? then map[] else held.value, rp, v);
      Ok(d.(exts := Commit(d.exts, Fold(rp.urn), c)))
  }

  /** The members of an object that an extension declares, coerced: setExtensionContainer. */
  function CoerceEntry(lx: Lexicon, attrs: seq<Attribute>, key: string, v: Value): Result<Value> {
    var a := FindAttribute(attrs, key);
    if a.None? then Ok(Nil) else Coerce(lx, a.value, v)
  }

  function CoerceContainer(lx: Lexicon, attrs: seq<Attribute>, m: Elem): Result<Elem> {
    if exists k <- m.Keys :: CoerceEntry(lx, attrs, k, m[k]).Err? then Err(InvalidValue)
    else Ok(map k | k in m.Keys && !CoerceEntry(lx, attrs, k, m[k]).value.Nil? :: CoerceEntry(lx, attrs, k, m[k]).value)
  }

  function SetExtension(lx: Lexicon, rt: ResourceType, d: Doc, urn: string, v: Value): Result<Doc> {
    var ext := FindSchema(rt.exts, urn);
    if v.Nil? then Ok(d.(exts := d.exts - {Fold(urn)}))
    else if Source(v).None? || ext.None? then Err(InvalidValue)
    else
      var c :- CoerceContainer(lx, ext.value.attrs, Source(v).value);
      Ok(d.(exts := Commit(d.exts, Fold(urn), c)))
  }

  /** Resource.Set; setting Nil unassigns. */
  function Set(lx: Lexicon, rt: ResourceType, d: Doc, path: string, v: Value): Result<Doc> {
    var rp :- ResolvePath(rt, path);
    if rp.attr.None? then SetExtension(lx, rt, d, rp.urn, v) else SetResolved(lx, d, rp, v)
  }

  // ----- Locations -----

  /** Where an attribute's value is kept: folded extension URN ("" for the core), folded name. */
  datatype Loc = Loc(urn: string, key: string)

  function Slot(d: Doc, l: Loc): Option<Value> {
    if l.urn == "" then Lookup(d.attrs, l.key)
    else if l.urn in d.exts then Lookup(d.exts[l.urn], l.key)
    else None
  }

  function LocOf(rp: Resolved): Loc
    requires rp.attr.Some?
  {
    Loc(Fold(rp.urn), Fold(rp.attr.value.name))
  }

  /** The attribute declared for a location. */
  function Declared(rt: ResourceType, l: Loc): Option<Attribute> {
    NamespaceAttr(rt, l.urn, l.key)
  }

  /** schemas and meta are derived; no location keeps them. */
  predicate DerivedLoc(rt: ResourceType, l: Loc) {
    l.urn == "" && FindAttribute(rt.core.attrs, l.key).None? && (l.key == SCHEMAS || l.key == META)
  }

  /** No container is empty and every value is the stored form of its declared attribute. */
  predicate Canonical(rt: ResourceType, d: Doc) {
    && (forall k <- d.attrs.Keys :: CanonicalSlot(rt, Loc("", k), d.attrs[k]))
    && (forall u <- d.exts.Keys :: u != "" && Fold(u) == u && d.exts[u] != map[] && CanonicalContainer(rt, u, d.exts[u]))
  }

  predicate CanonicalContainer(rt: ResourceType, u: string, c: Elem) {
    forall k <- c.Keys :: CanonicalSlot(rt, Loc(u, k), c[k])
  }

  predicate CanonicalSlot(rt: ResourceType, l: Loc, v: Value) {
    var a := Declared(rt, l);
    a.Some? && Fold(l.key) == l.key && !DerivedLoc(rt, l) && Stored(a.value, v)
  }

  /** Equality of resources as the engine sees it: value by value, dateTimes as instants. */
  ghost predicate SameDoc(a: Doc, b: Doc) {
    a.meta == b.meta && forall l: Loc :: SameSlot(Slot(a, l), Slot(b, l))
  }

  predicate SameSlot(a: Option<Value>, b: Option<Value>) {
    a.Some? == b.Some? && (a.Some? ==> ValuesEqual(a.value, b.value))
  }
}
