/** The presence-tracking resource as a heap object (scim/resource.go). A container is a map
    that Set edits in place, and so is a stored single-valued complex value. A stored list of
    complex values is an array of maps, and is replaced, never edited: copies share it. */
module Resources {
  import opened Text
  import opened Schema
  import opened Values
  import opened Paths
  import D = Documents

  /** A complex value: a single one, or an element of a list. */
  class Dict {
    var m: Elem

    constructor (m: Elem)
      ensures this.m == m
    {
      this.m := m;
    }
  }

  /** What a container maps a name to: a scalar or a slice of them, a live complex value, or a
      live list of complex values. */
  datatype Ref = Leaf(v: Value) | Single(d: Dict) | List(l: array<Dict>)

  function ElemsOf(s: seq<Dict>): (r: seq<Elem>)
    reads s
    ensures |r| == |s| && forall i :: 0 <= i < |s| ==> r[i] == s[i].m
  {
    if s == [] then [] else [s[0].m] + ElemsOf(s[1..])
  }

  /** The value a reference stands for now. */
  function Deref(r: Ref): Value
    reads if r.List? then {r.l} else {}, if r.List? then r.l[..] else [], if r.Single? then {r.d} else {}
  {
    match r
    case Leaf(v) => v
    case Single(d) => Cplx(d.m)
    case List(l) => Multi(ElemsOf(l[..]))
  }

  /** The array and the elements of a list; none for any other entry. */
  ghost function Listed(r: Ref): set<object>
    reads if r.List? then {r.l} else {}
  {
    if r.List? then {r.l} + (set d <- r.l[..] :: d as object) else {}
  }

  function Restrict<T>(m: map<string, T>, keys: set<string>): map<string, T> {
    map k | k in m.Keys && k in keys :: m[k]
  }

  lemma RestrictMore<T>(m: map<string, T>, keys: set<string>, k: string)
    requires k in m
    ensures Restrict(m, keys + {k}) == Restrict(m, keys)[k := m[k]]
  {
  }

  lemma RestrictAll<T>(m: map<string, T>)
    ensures Restrict(m, {}) == map[] && Restrict(m, m.Keys - {}) == m
  {
  }

  /** No complex value and no list hides in a leaf. */
  predicate PlainLeaf(r: Ref) {
    r.Leaf? ==> !r.v.Cplx? && !r.v.Multi?
  }

  /** Where the objects of an entry are: a live complex value among those edited in place, a
      list and its elements among those that never are. */
  ghost predicate Placed(r: Ref, own: set<object>, shared: set<object>)
    reads shared
  {
    match r
    case Leaf(_) => PlainLeaf(r)
    case Single(d) => d in own
    case List(l) => l in shared && forall d <- l[..] :: d in shared
  }

  /** The entry leads to nothing in own. */
  ghost predicate Foreign(r: Ref, own: set<object>)
    reads if r.List? then {r.l} else {}
  {
    match r
    case Leaf(_) => PlainLeaf(r)
    case Single(d) => d !in own
    case List(l) => l !in own && forall d <- l[..] :: d !in own
  }

  /** A copied entry: another live complex value, or the very same list or leaf. */
  predicate CopyOf(r: Ref, c: Ref) {
    if r.Single? then c.Single? && c.d != r.d else c == r
  }

  class Container {
    var m: map<string, Ref>
    /** The objects edited in place, and those that may be shared with copies and never are. */
    ghost var Repr: set<object>
    ghost var Shared: set<object>

    /** Every complex value is live, no two names lead to the same single one, and nothing that
        may be shared is edited. */
    ghost predicate Valid()
      reads this, Repr, Shared
    {
      && this in Repr && Repr !! Shared
      && (forall k <- m.Keys :: Placed(m[k], Repr, Shared))
      && (forall k, l :: k in m && l in m && k != l && m[k].Single? && m[l].Single? ==> m[k].d != m[l].d)
    }

    function View(): Elem
      requires Valid()
      reads this, Repr, Shared
    {
      map k | k in m.Keys :: Deref(m[k])
    }

    constructor ()
      ensures m == map[] && this in Repr && Shared == {} && Valid() && View() == map[] && fresh(Repr)
    {
      m, Repr, Shared := map[], {this}, {};
    }

    /** A coerced value as a container entry: complex values and lists come alive. */
    static method Wrap(v: Value) returns (r: Ref)
      ensures Deref(r) == v && PlainLeaf(r) && (r.Leaf? ==> r.v == v) && (r.Single? ==> fresh(r.d))
      ensures fresh(Listed(r)) && (r.List? ==> fresh(r.l) && forall d <- r.l[..] :: fresh(d))
    {
      match v {
        case Cplx(m) =>
          var d := new Dict(m);
          r := Single(d);
        case Multi(elems) =>
          var l := WrapList(elems);
          r := List(l);
        case _ =>
          r := Leaf(v);
      }
    }

    static method WrapList(elems: seq<Elem>) returns (l: array<Dict>)
      ensures fresh(l) && (forall d <- l[..] :: fresh(d)) && ElemsOf(l[..]) == elems
    {
      var all: seq<Dict> := [];
      for i := 0 to |elems|
        invariant |all| == i && (forall d <- all :: fresh(d)) && forall j :: 0 <= j < i ==> all[j].m == elems[j]
      {
        var d := new Dict(elems[i]);
        all := all + [d];
      }
      l := new Dict[|all|](i requires 0 <= i < |all| => all[i]);
      assert l[..] == all;
    }

    /** Puts an entry that no other name leads to. */
    method Put(key: string, cell: Ref)
      requires Valid() && Foreign(cell, Repr) && (cell.Single? ==> cell.d !in Shared)
      modifies this
      ensures Valid() && Repr == old(Repr) + (if cell.Single? then {cell.d} else {}) && Shared == old(Shared) + Listed(cell)
      ensures m == old(m)[key := cell] && View() == old(View())[key := old(Deref(cell))]
    {
      hide Deref, View;
      ViewAt();
      m := m[key := cell];
      if cell.Single? { Repr := Repr + {cell.d}; }
      Shared := Shared + Listed(cell);
      assert Valid();
      ViewAt();
    }

    lemma ViewAt()
      requires Valid()
      ensures View().Keys == m.Keys && forall k <- m.Keys :: View()[k] == Deref(m[k])
    {
      hide Deref;
    }

    method Remove(key: string)
      requires Valid()
      modifies this`m
      ensures Valid() && Repr == old(Repr) && Shared == old(Shared) && View() == old(View()) - {key}
    {
      hide Deref, Placed;
      m := m - {key};
    }

    /** setInContainer on a whole attribute: what was there is replaced, not edited. */
    method SetWhole(lx: Lexicon, attr: Attribute, v: Value) returns (fail: Option<Kind>)
      requires Valid()
      modifies this
      ensures Valid() && fresh(Repr - old(Repr)) && fresh(Shared - old(Shared))
      ensures var spec := D.SetInContainer(lx, old(View()), Resolved("", Some(attr), None, false), v);
              if spec.Ok? then fail.None? && View() == spec.value else fail == Some(spec.kind) && View() == old(View())
    {
      hide Coerce, View, Valid, Deref;
      var cv := Coerce(lx, attr, v);
      if cv.Err? { return Some(cv.kind); }
      var key := Fold(attr.name);
      Inside();
      if cv.value.Nil? {
        Remove(key);
      } else {
        var cell := Wrap(cv.value);
        Put(key, cell);
      }
      fail := None;
    }

    /** The members of the live complex value under key; none when there is no such value. */
    ghost function Held(key: string): Elem
      requires Valid()
      reads this, Repr, Shared
    {
      if key in m && m[key].Single? then m[key].d.m else map[]
    }

    /** Edits a live complex value. */
    method Edit(key: string, e: Elem)
      requires Valid() && key in m && m[key].Single?
      modifies m[key].d
      ensures Valid() && View() == old(View())[key := Cplx(e)]
    {
      m[key].d.m := e;
    }

    /** Deletes one member of a live complex value, and the value with its last member. */
    method DropMember(key: string, subKey: string)
      requires Valid() && key in m && m[key].Single?
      modifies this`m, m[key].d
      ensures Valid() && Shared == old(Shared)
      ensures var rest := old(Held(key)) - {subKey};
              View() == if rest == map[] then old(View()) - {key} else old(View())[key := Cplx(rest)]
    {
      hide View, Deref, Placed;
      var rest := m[key].d.m - {subKey};
      ghost var was := View();
      Edit(key, rest);
      if rest == map[] {
        Remove(key);
        assert was[key := Cplx(rest)] - {key} == was - {key};
      }
    }

    /** Writes one member of a live complex value, made first if need be. */
    method PutMember(key: string, subKey: string, cv: Value)
      requires Valid()
      modifies this, if key in m && m[key].Single? then {m[key].d} else {}
      ensures Valid() && fresh(Repr - old(Repr)) && Shared == old(Shared)
      ensures View() == old(View())[key := Cplx(old(Held(key))[subKey := cv])]
    {
      hide View, Deref;
      if key in m && m[key].Single? {
        Edit(key, m[key].d.m[subKey := cv]);
      } else {
        var parent := new Dict(map[subKey := cv]);
        Put(key, Single(parent));
        SingleShows(parent);
      }
    }

    lemma HeldView(key: string)
      requires Valid()
      ensures key in m && m[key].Single? <==> key in View() && View()[key].Cplx?
      ensures Held(key) == if key in View() && View()[key].Cplx? then View()[key].elem else map[]
    {
    }

    lemma ViewKeys()
      requires Valid()
      ensures View().Keys == m.Keys
    {
    }

    /** setSub: the parent complex value is edited in place, created when missing and deleted
        with its last member. */
    method SetSub(lx: Lexicon, attr: Attribute, sub: Attribute, v: Value) returns (fail: Option<Kind>)
      requires Valid()
      modifies Repr
      ensures Valid() && fresh(Repr - old(Repr)) && Shared == old(Shared)
      ensures var spec := D.SetSub(lx, old(View()), attr, sub, v);
              if spec.Ok? then fail.None? && View() == spec.value else fail == Some(spec.kind) && View() == old(View())
    {
      hide Coerce;
      var cv := Coerce(lx, sub, v);
      if cv.Err? { return Some(cv.kind); }
      var key, subKey := Fold(attr.name), Fold(sub.name);
      HeldView(key);
      fail := None;
      if !cv.value.Nil? {
        PutMember(key, subKey, cv.value);
      } else if key in m && m[key].Single? {
        DropMember(key, subKey);
      }
    }

    /** setInContainer. */
    method SetIn(lx: Lexicon, rp: Resolved, v: Value) returns (fail: Option<Kind>)
      requires Valid() && rp.attr.Some?
      modifies Repr
      ensures Valid() && this in Repr && fresh(Repr - old(Repr)) && fresh(Shared - old(Shared))
      ensures var spec := D.SetInContainer(lx, old(View()), rp, v);
              if spec.Ok? then fail.None? && View() == spec.value else fail == Some(spec.kind) && View() == old(View())
      ensures rp.sub.None? ==> forall d: Dict :: d in old(Repr) ==> d.m == old(d.m)
    {
      hide Coerce, D.SetSub;
      if rp.sub.Some? {
        fail := SetSub(lx, rp.attr.value, rp.sub.value, v);
      } else {
        fail := SetWhole(lx, rp.attr.value, v);
      }
    }

    /** c holds the copies of the entries under done, and edits nothing of this container's. */
    ghost predicate CopiedSo(done: set<string>, c: Container)
      requires Valid()
      reads this, Repr, Shared, c, c.Repr, c.Shared
    {
      && c.Valid() && c.Repr !! Repr && c.Repr !! Shared && c.Shared <= Shared
      && c.View() == Restrict(View(), done)
      && c.m.Keys == m.Keys * done && forall k <- c.m.Keys :: CopyOf(m[k], c.m[k])
    }

    /** A live complex value is copied, a list shared. */
    method CopyEntry(k: string) returns (cell: Ref)
      requires Valid() && k in m
      ensures k in View() && Deref(cell) == View()[k] && CopyOf(m[k], cell)
      ensures if cell.Single? then fresh(cell.d) else Placed(cell, {}, Shared) && Listed(cell) <= Shared
    {
      cell := m[k];
      if cell.Single? {
        var d := new Dict(cell.d.m);
        cell := Single(d);
      }
    }

    method CopyInto(c: Container, k: string, ghost done: set<string>)
      requires Valid() && CopiedSo(done, c) && k in m && k !in done
      modifies c
      ensures Valid() && m == old(m) && CopiedSo(done + {k}, c) && fresh(c.Repr - old(c.Repr))
    {
      hide Restrict, View, Valid, Deref, CopyOf;
      Inside();
      c.Inside();
      ViewKeys();
      RestrictMore(View(), done, k);
      var cell := CopyEntry(k);
      c.Put(k, cell);
    }

    lemma CopiedNone(c: Container)
      requires Valid() && c.Valid() && c.m == map[] && c.Repr !! Repr && c.Repr !! Shared && c.Shared == {}
      ensures CopiedSo({}, c)
    {
      RestrictAll(View());
    }

    lemma CopiedAll(c: Container)
      requires Valid() && CopiedSo(m.Keys, c)
      ensures c.Valid() && c.View() == View() && c.Shared <= Shared && SharedCopy(this, c)
    {
      ViewKeys();
      RestrictAll(View());
      assert View().Keys - {} == m.Keys;
    }

    /** Every entry in turn. */
    method CopyEntries(c: Container)
      requires Valid() && CopiedSo({}, c)
      modifies c
      ensures Valid() && m == old(m) && CopiedSo(m.Keys, c) && fresh(c.Repr - old(c.Repr))
    {
      hide *;
      var todo := m.Keys;
      assert m.Keys - todo == {};
      while todo != {}
        invariant Valid() && m == old(m) && todo <= m.Keys && fresh(c.Repr - old(c.Repr)) && CopiedSo(m.Keys - todo, c)
        decreases |todo|
      {
        var k :| k in todo;
        CopyInto(c, k, m.Keys - todo);
        assert m.Keys - (todo - {k}) == m.Keys - todo + {k};
        todo := todo - {k};
      }
      assert m.Keys - todo == m.Keys;
    }

    /** cloneContainer: the map and each live complex value are copied, every list is shared. */
    method Copy() returns (c: Container)
      requires Valid()
      ensures fresh(c.Repr) && c in c.Repr && c.Valid() && c.View() == View()
      ensures c.Shared <= Shared && SharedCopy(this, c)
    {
      hide Restrict, View, Valid, SharedCopy, CopiedSo;
      c := new Container();
      CopiedNone(c);
      CopyEntries(c);
      CopiedAll(c);
      c.Inside();
    }

    lemma Inside()
      requires Valid()
      ensures this in Repr && Repr !! Shared
    {
    }
  }

  /** The entries of one container are those of the other, complex values copied and lists the
      very same. */
  ghost predicate SharedCopy(was: Container, c: Container)
    reads was, c
  {
    c.m.Keys == was.m.Keys && forall k <- was.m.Keys :: CopyOf(was.m[k], c.m[k])
  }

  ghost predicate SharedCopies(was: map<string, Container>, es: map<string, Container>)
    reads was.Values, es.Values
  {
    es.Keys == was.Keys && forall u <- was.Keys :: SharedCopy(was[u], es[u])
  }

  ghost predicate Member(c: Container, own: set<object>, pool: set<object>)
    reads c, own, pool
  {
    c in c.Repr && c.Repr <= own && c.Shared <= pool && c.Valid()
  }

  /** Extension containers by folded URN: what they edit is theirs alone and within own, their
      lists are within pool. */
  ghost predicate Family(exts: map<string, Container>, own: set<object>, pool: set<object>)
    reads exts.Values, own, pool
  {
    && own !! pool
    && (forall u <- exts.Keys :: Member(exts[u], own, pool))
    && (forall u, x :: u in exts && x in exts && u != x ==> exts[u].Repr !! exts[x].Repr)
  }

  ghost function FamilyView(exts: map<string, Container>, own: set<object>, pool: set<object>): map<string, Elem>
    requires Family(exts, own, pool)
    reads exts.Values, own, pool
  {
    map u | u in exts.Keys :: exts[u].View()
  }

  /** c shares nothing with the containers but what stands under key. */
  ghost predicate Apart(exts: map<string, Container>, key: string, c: Container)
    reads c, exts.Values
  {
    forall u <- exts.Keys :: u != key ==> exts[u].Repr !! c.Repr
  }

  /** The extension containers once c is committed under key: an empty one is dropped. */
  function Committed(exts: map<string, Container>, key: string, c: Container): map<string, Container>
    reads c
  {
    if c.m == map[] then exts - {key} else exts[key := c]
  }

  lemma {:induction false} CommittedFamily(exts: map<string, Container>, own: set<object>, pool: set<object>, key: string, c: Container)
    requires Family(exts, own, pool) && c in c.Repr && c.Valid() && Apart(exts, key, c) && own + c.Repr !! pool + c.Shared
    ensures Family(Committed(exts, key, c), own + c.Repr, pool + c.Shared)
  {
    hide Container.View, Container.Valid;
  }

  lemma {:induction false} CommittedView(exts: map<string, Container>, own: set<object>, pool: set<object>, key: string, c: Container)
    requires Family(exts, own, pool) && c in c.Repr && c.Valid() && Apart(exts, key, c)
    requires Family(Committed(exts, key, c), own + c.Repr, pool + c.Shared)
    ensures FamilyView(Committed(exts, key, c), own + c.Repr, pool + c.Shared) == D.Commit(FamilyView(exts, own, pool), key, c.View())
  {
    hide Container.View, Container.Valid;
    c.ViewKeys();
  }

  /** What holds of the other containers when one of a family is edited. */
  ghost predicate OthersKept(exts: map<string, Container>, own: set<object>, pool: set<object>, key: string, views: map<string, Elem>)
    reads exts.Values, own, pool
  {
    && views.Keys == exts.Keys
    && (forall u <- exts.Keys :: u != key ==> Member(exts[u], own, pool) && exts[u].View() == views[u])
    && (forall u, x :: u in exts && x in exts && u != x && u != key && x != key ==> exts[u].Repr !! exts[x].Repr)
  }

  lemma {:induction false} FamilyParts(exts: map<string, Container>, own: set<object>, pool: set<object>, key: string)
    requires Family(exts, own, pool) && key in exts
    ensures own !! pool && Member(exts[key], own, pool)
    ensures Apart(exts, key, exts[key]) && OthersKept(exts, own, pool, key, FamilyView(exts, own, pool))
    ensures FamilyView(exts, own, pool)[key] == exts[key].View()
  {
    hide Container.View, Container.Valid;
  }

  lemma FamilyKeys(exts: map<string, Container>, own: set<object>, pool: set<object>)
    requires Family(exts, own, pool)
    ensures FamilyView(exts, own, pool).Keys == exts.Keys
  {
  }

  lemma {:induction false} FamilyEdited(exts: map<string, Container>, own: set<object>, pool: set<object>, key: string, views: map<string, Elem>)
    requires OthersKept(exts, own, pool, key, views) && key in exts && own + exts[key].Repr !! pool + exts[key].Shared
    requires exts[key] in exts[key].Repr && exts[key].Valid() && Apart(exts, key, exts[key])
    ensures Family(exts, own + exts[key].Repr, pool + exts[key].Shared)
    ensures FamilyView(exts, own + exts[key].Repr, pool + exts[key].Shared) == views[key := exts[key].View()]
  {
    hide Container.View, Container.Valid;
  }

  lemma MemberIs(c: Container, own: set<object>, pool: set<object>)
    ensures Member(c, own, pool) <==> c in c.Repr && c.Repr <= own && c.Shared <= pool && c.Valid()
  {
  }

  /** A write into one container of a family, in place. */
  method EditMember(lx: Lexicon, exts: map<string, Container>, ghost own: set<object>, ghost pool: set<object>, key: string, rp: Resolved, v: Value)
    returns (fail: Option<Kind>)
    requires Family(exts, own, pool) && key in exts && rp.attr.Some?
    modifies exts[key].Repr
    ensures key in old(FamilyView(exts, own, pool)) && fresh(exts[key].Repr - old(exts[key].Repr)) && fresh(exts[key].Shared - old(exts[key].Shared))
    ensures exts[key] in exts[key].Repr && exts[key].Valid() && Apart(exts, key, exts[key])
    ensures Family(exts, own + exts[key].Repr, pool + exts[key].Shared)
    ensures FamilyView(exts, own + exts[key].Repr, pool + exts[key].Shared) == old(FamilyView(exts, own, pool))[key := exts[key].View()]
    ensures var spec := D.SetInContainer(lx, old(FamilyView(exts, own, pool))[key], rp, v);
            if spec.Ok? then fail.None? && exts[key].View() == spec.value
            else fail == Some(spec.kind) && exts[key].View() == old(FamilyView(exts, own, pool))[key]
    ensures rp.sub.None? ==> forall d: Dict :: d in old(exts[key].Repr) ==> d.m == old(d.m)
  {
    hide Container.View, Container.Valid, D.SetInContainer, Coerce, FamilyView, Family;
    ghost var views := FamilyView(exts, own, pool);
    FamilyParts(exts, own, pool, key);
    fail := exts[key].SetIn(lx, rp, v);
    exts[key].Inside();
    assert OthersKept(exts, own, pool, key, views);
    assert Apart(exts, key, exts[key]);
    FamilyEdited(exts, own, pool, key, views);
  }

  lemma {:induction false} RemovedFamily(exts: map<string, Container>, own: set<object>, pool: set<object>, key: string)
    requires Family(exts, own, pool)
    ensures Family(exts - {key}, own, pool) && FamilyView(exts - {key}, own, pool) == FamilyView(exts, own, pool) - {key}
  {
    hide Container.View, Container.Valid;
  }

  lemma {:induction false} AddedFamily(exts: map<string, Container>, own: set<object>, pool: set<object>, key: string, c: Container)
    requires Family(exts, own, pool) && c in c.Repr && c.Valid() && c.Repr !! own && own + c.Repr !! pool + c.Shared
    ensures Family(exts[key := c], own + c.Repr, pool + c.Shared)
    ensures FamilyView(exts[key := c], own + c.Repr, pool + c.Shared) == FamilyView(exts, own, pool)[key := c.View()]
  {
    hide Container.View, Container.Valid;
  }

  /** The members an extension declares among those visited, coerced. */
  ghost function Built(lx: Lexicon, ext: seq<Attribute>, m: Elem, keys: set<string>): Elem {
    map k | k in m.Keys && k in keys && D.CoerceEntry(lx, ext, k, m[k]).Ok? && !D.CoerceEntry(lx, ext, k, m[k]).value.Nil? ::
      D.CoerceEntry(lx, ext, k, m[k]).value
  }

  lemma {:induction false} BuiltMore(lx: Lexicon, ext: seq<Attribute>, m: Elem, keys: set<string>, k: string)
    requires k in m && k !in keys && D.CoerceEntry(lx, ext, k, m[k]).Ok?
    ensures var cv := D.CoerceEntry(lx, ext, k, m[k]).value;
            Built(lx, ext, m, keys + {k}) == if cv.Nil? then Built(lx, ext, m, keys) else Built(lx, ext, m, keys)[k := cv]
  {
    hide D.CoerceEntry;
  }

  lemma {:induction false} BuiltAll(lx: Lexicon, ext: seq<Attribute>, m: Elem)
    ensures Built(lx, ext, m, {}) == map[]
    ensures (forall k <- m.Keys :: D.CoerceEntry(lx, ext, k, m[k]).Ok?) ==> D.CoerceContainer(lx, ext, m) == Ok(Built(lx, ext, m, m.Keys))
    ensures (exists k <- m.Keys :: D.CoerceEntry(lx, ext, k, m[k]).Err?) ==> D.CoerceContainer(lx, ext, m) == Err(InvalidValue)
  {
    hide D.CoerceEntry;
    if forall k <- m.Keys :: D.CoerceEntry(lx, ext, k, m[k]).Ok? {
      assert D.CoerceContainer(lx, ext, m).value == Built(lx, ext, m, m.Keys);
    }
  }

  /** The members visited so far all coerce, and the container holds them. */
  ghost predicate BuiltSo(lx: Lexicon, ext: seq<Attribute>, m: Elem, done: set<string>, c: Container)
    reads c, c.Repr, c.Shared
  {
    c.Valid() && c in c.Repr && (forall k <- done :: k in m ==> D.CoerceEntry(lx, ext, k, m[k]).Ok?) && c.View() == Built(lx, ext, m, done)
  }

  /** One member of the object, coerced into the container. */
  method BuildEntry(lx: Lexicon, ext: seq<Attribute>, m: Elem, ghost done: set<string>, k: string, c: Container) returns (fail: Option<Kind>)
    requires BuiltSo(lx, ext, m, done, c) && k in m && k !in done
    modifies c
    ensures fresh(c.Repr - old(c.Repr)) && fresh(c.Shared - old(c.Shared))
    ensures if D.CoerceEntry(lx, ext, k, m[k]).Ok? then fail.None? && BuiltSo(lx, ext, m, done + {k}, c) else fail == Some(InvalidValue)
  {
    hide Container.View, Coerce, Built;
    fail := None;
    var attr := FindAttribute(ext, k);
    var cv := if attr.None? then Ok(Nil) else Coerce(lx, attr.value, m[k]);
    if cv.Err? { return Some(cv.kind); }
    BuiltMore(lx, ext, m, done, k);
    if !cv.value.Nil? {
      var cell := Container.Wrap(cv.value);
      c.Put(k, cell);
    }
  }

  /** Every member of the object in turn. */
  method BuildMembers(lx: Lexicon, ext: seq<Attribute>, m: Elem, c: Container) returns (fail: Option<Kind>)
    requires BuiltSo(lx, ext, m, {}, c)
    modifies c
    ensures fresh(c.Repr - old(c.Repr)) && fresh(c.Shared - old(c.Shared))
    ensures if forall k <- m.Keys :: D.CoerceEntry(lx, ext, k, m[k]).Ok? then fail.None? && BuiltSo(lx, ext, m, m.Keys, c) else fail == Some(InvalidValue)
  {
    hide *;
    var todo := m.Keys;
    assert m.Keys - todo == {};
    while todo != {}
      invariant todo <= m.Keys && fresh(c.Repr - old(c.Repr)) && fresh(c.Shared - old(c.Shared))
      invariant BuiltSo(lx, ext, m, m.Keys - todo, c)
      decreases |todo|
    {
      var k :| k in todo;
      fail := BuildEntry(lx, ext, m, m.Keys - todo, k, c);
      if fail.Some? { return; }
      assert m.Keys - (todo - {k}) == m.Keys - todo + {k};
      todo := todo - {k};
    }
    assert m.Keys - todo == m.Keys;
    BuiltCoerced(lx, ext, m, c);
    fail := None;
  }

  lemma BuiltCoerced(lx: Lexicon, ext: seq<Attribute>, m: Elem, c: Container)
    requires BuiltSo(lx, ext, m, m.Keys, c)
    ensures forall k <- m.Keys :: D.CoerceEntry(lx, ext, k, m[k]).Ok?
  {
  }

  /** The container setExtensionContainer fills from an object. */
  method Build(lx: Lexicon, ext: seq<Attribute>, m: Elem) returns (c: Container, fail: Option<Kind>)
    ensures fresh(c.Repr) && fresh(c.Shared) && (fail.None? ==> c.Valid() && c in c.Repr)
    ensures var spec := D.CoerceContainer(lx, ext, m);
            if spec.Ok? then fail.None? && c.View() == spec.value else fail == Some(spec.kind)
  {
    hide *;
    c := new Container();
    BuiltNone(lx, ext, m, c);
    fail := BuildMembers(lx, ext, m, c);
    BuiltAll(lx, ext, m);
    if fail.None? { BuiltDone(lx, ext, m, c); }
  }

  lemma {:induction false} BuiltNone(lx: Lexicon, ext: seq<Attribute>, m: Elem, c: Container)
    requires c.Valid() && c in c.Repr && c.View() == map[]
    ensures BuiltSo(lx, ext, m, {}, c)
  {
    BuiltAll(lx, ext, m);
  }

  lemma {:induction false} BuiltDone(lx: Lexicon, ext: seq<Attribute>, m: Elem, c: Container)
    requires BuiltSo(lx, ext, m, m.Keys, c)
    ensures c.Valid() && c in c.Repr && D.CoerceContainer(lx, ext, m) == Ok(c.View())
  {
    hide D.CoerceEntry, D.CoerceContainer, Built;
    BuiltAll(lx, ext, m);
  }

  lemma CommitOver(exts: map<string, Elem>, key: string, c: Elem)
    requires key in exts
    ensures exts[key := exts[key]] == exts && D.Commit(exts[key := c], key, c) == D.Commit(exts, key, c)
  {
  }

  class Resource {
    const rt: ResourceType
    var attrs: Container
    var exts: map<string, Container>
    var meta: D.Meta
    ghost var extRepr: set<object>
    ghost var extShared: set<object>

    /** The objects the resource edits. */
    ghost function Repr(): set<object>
      reads this, attrs
    {
      {this} + attrs.Repr + extRepr
    }

    /** The arrays and the elements of its lists, which it may share and never edits. */
    ghost function Shared(): set<object>
      reads this, attrs
    {
      attrs.Shared + extShared
    }

    /** The containers share no object they edit, and nothing that may be shared is edited. */
    ghost predicate Valid()
      reads this, attrs, Repr(), Shared()
    {
      && attrs in attrs.Repr && this !in attrs.Repr && this !in extRepr && attrs.Repr !! extRepr
      && exts.Values <= extRepr && Repr() !! Shared()
      && attrs.Valid() && Family(exts, extRepr, extShared)
    }

    /** The resource's deep value. */
    ghost function View(): D.Doc
      requires Valid()
      reads this, attrs, Repr(), Shared()
    {
      D.Doc(attrs.View(), FamilyView(exts, extRepr, extShared), meta)
    }

    constructor (rt: ResourceType)
      ensures this.rt == rt && Valid() && fresh(Repr()) && Shared() == {} && View() == D.Doc(map[], map[], D.NO_META)
    {
      this.rt, exts, meta, extRepr, extShared := rt, map[], D.NO_META, {}, {};
      attrs := new Container();
    }

    /** A resource over containers of its own. */
    constructor Of(rt: ResourceType, attrs: Container, exts: map<string, Container>, ghost own: set<object>, ghost pool: set<object>, meta: D.Meta)
      requires attrs in attrs.Repr && attrs.Valid() && Family(exts, own, pool) && attrs.Repr !! own
      requires attrs.Repr !! pool && own !! attrs.Shared
      ensures this.rt == rt && this.attrs == attrs && this.exts == exts
      ensures Repr() == {this} + attrs.Repr + own && Shared() == attrs.Shared + pool
      ensures Valid() && View() == D.Doc(attrs.View(), FamilyView(exts, own, pool), meta)
    {
      this.rt, this.attrs, this.exts, this.extRepr, this.extShared, this.meta := rt, attrs, exts, own, pool, meta;
      FamilyWithin(exts, own, pool);
    }

    lemma Footprints()
      ensures Repr() == {this} + attrs.Repr + extRepr && Shared() == attrs.Shared + extShared
    {
    }

    lemma Parts()
      requires Valid()
      ensures Repr() == {this} + attrs.Repr + extRepr && Shared() == attrs.Shared + extShared && Repr() !! Shared()
      ensures attrs in attrs.Repr && this !in attrs.Repr && this !in extRepr && attrs.Repr !! extRepr
      ensures attrs.Valid() && Family(exts, extRepr, extShared)
      ensures View() == D.Doc(attrs.View(), FamilyView(exts, extRepr, extShared), meta)
    {
    }

    lemma Assembled()
      requires attrs in attrs.Repr && this !in attrs.Repr && this !in extRepr && attrs.Repr !! extRepr
      requires Repr() !! Shared() && attrs.Valid() && Family(exts, extRepr, extShared)
      ensures Valid() && View() == D.Doc(attrs.View(), FamilyView(exts, extRepr, extShared), meta)
    {
      FamilyWithin(exts, extRepr, extShared);
    }

    /** commitExtension. */
    method Commit(key: string, c: Container)
      requires Valid() && c in c.Repr && c.Valid() && this !in c.Repr && c.Repr !! attrs.Repr && Apart(exts, key, c)
      requires Repr() + c.Repr !! Shared() + c.Shared
      modifies this`exts, this`extRepr, this`extShared
      ensures Valid() && extRepr == old(extRepr) + c.Repr && extShared == old(extShared) + c.Shared
      ensures View() == old(View()).(exts := D.Commit(old(View()).exts, key, old(c.View())))
    {
      hide Container.View, Container.Valid, Family, FamilyView, Apart;
      CommittedFamily(exts, extRepr, extShared, key, c);
      CommittedView(exts, extRepr, extShared, key, c);
      exts, extRepr, extShared := Committed(exts, key, c), extRepr + c.Repr, extShared + c.Shared;
    }

    /** commitExtension of a container that has nothing to do with the resource yet. */
    method CommitApart(key: string, c: Container)
      requires Valid() && c in c.Repr && c.Valid() && c.Repr !! Repr() && c.Repr !! Shared() && c.Shared !! Repr()
      modifies this`exts, this`extRepr, this`extShared
      ensures Valid() && extRepr == old(extRepr) + c.Repr && extShared == old(extShared) + c.Shared
      ensures View() == old(View()).(exts := D.Commit(old(View()).exts, key, old(c.View())))
    {
      hide Container.View, Container.Valid, Family, FamilyView, Apart;
      c.Inside();
      FreshApart(exts, extRepr, extShared, key, c);
      Commit(key, c);
    }

    /** Writes into an extension container that exists, in place. */
    method EditExtension(lx: Lexicon, key: string, rp: Resolved, v: Value) returns (fail: Option<Kind>)
      requires Valid() && key in exts && rp.attr.Some?
      modifies this`extRepr, this`extShared, exts[key].Repr
      ensures Valid() && fresh(Repr() - old(Repr())) && fresh(Shared() - old(Shared())) && key in old(View()).exts
      ensures Member(exts[key], extRepr, extShared) && exts[key].Repr !! attrs.Repr && Apart(exts, key, exts[key])
      ensures var spec := D.SetInContainer(lx, old(View()).exts[key], rp, v);
              && (if spec.Ok? then fail.None? && exts[key].View() == spec.value
                  else fail == Some(spec.kind) && exts[key].View() == old(View()).exts[key])
              && View() == old(View()).(exts := old(View()).exts[key := exts[key].View()])
      ensures rp.sub.None? ==> forall d: Dict :: d in old(Repr()) ==> d.m == old(d.m)
    {
      hide *;
      Parts();
      FamilyParts(exts, extRepr, extShared, key);
      MemberIs(exts[key], extRepr, extShared);
      fail := EditMember(lx, exts, extRepr, extShared, key, rp, v);
      exts[key].Inside();
      extRepr, extShared := extRepr + exts[key].Repr, extShared + exts[key].Shared;
      Footprints();
      Assembled();
      MemberIs(exts[key], extRepr, extShared);
    }

    /** setExtension for an attribute: the container is edited in place, or made for the
        occasion, and dropped when it ends up empty. */
    method SetExtension(lx: Lexicon, rp: Resolved, v: Value) returns (fail: Option<Kind>)
      requires Valid() && rp.attr.Some? && rp.urn != "" && !rp.common
      modifies Repr()
      ensures Valid() && fresh(Repr() - old(Repr())) && fresh(Shared() - old(Shared()))
      ensures var spec := D.SetResolved(lx, old(View()), rp, v);
              if spec.Ok? then fail.None? && View() == spec.value else fail == Some(spec.kind) && View() == old(View())
      ensures rp.sub.None? ==> forall d: Dict :: d in old(Repr()) ==> d.m == old(d.m)
    {
      hide Container.View, Container.Valid, D.SetInContainer, Coerce, Family, Apart;
      var key := Fold(rp.urn);
      FamilyKeys(exts, extRepr, extShared);
      if key in exts {
        FamilyParts(exts, extRepr, extShared, key);
        fail := RewriteExtension(lx, key, rp, v);
      } else {
        fail := MakeExtension(lx, key, rp, v);
      }
    }

    method RewriteExtension(lx: Lexicon, key: string, rp: Resolved, v: Value) returns (fail: Option<Kind>)
      requires Valid() && key in exts && rp.attr.Some?
      modifies this`exts, this`extRepr, this`extShared, exts[key].Repr
      ensures Valid() && fresh(Repr() - old(Repr())) && fresh(Shared() - old(Shared())) && key in old(View()).exts
      ensures var spec := D.SetInContainer(lx, old(View()).exts[key], rp, v);
              if spec.Ok? then fail.None? && View() == old(View()).(exts := D.Commit(old(View()).exts, key, spec.value))
              else fail == Some(spec.kind) && View() == old(View())
      ensures rp.sub.None? ==> forall d: Dict :: d in old(Repr()) ==> d.m == old(d.m)
    {
      hide Container.View, Container.Valid, D.SetInContainer, D.Commit, Coerce, Family, Apart, FamilyView;
      ghost var before := View();
      FamilyParts(exts, extRepr, extShared, key);
      fail := EditExtension(lx, key, rp, v);
      CommitOver(before.exts, key, exts[key].View());
      if fail.None? { Commit(key, exts[key]); }
    }

    method MakeExtension(lx: Lexicon, key: string, rp: Resolved, v: Value) returns (fail: Option<Kind>)
      requires Valid() && key !in exts && rp.attr.Some?
      modifies this`exts, this`extRepr, this`extShared
      ensures Valid() && fresh(Repr() - old(Repr())) && fresh(Shared() - old(Shared()))
      ensures var spec := D.SetInContainer(lx, map[], rp, v);
              if spec.Ok? then fail.None? && View() == old(View()).(exts := D.Commit(old(View()).exts, key, spec.value))
              else fail == Some(spec.kind) && View() == old(View())
    {
      hide Container.View, Container.Valid, D.SetInContainer, Coerce, Family, FamilyView;
      var c;
      c, fail := MakeContainer(lx, rp, v);
      if fail.None? { CommitApart(key, c); }
    }

    static method MakeContainer(lx: Lexicon, rp: Resolved, v: Value) returns (c: Container, fail: Option<Kind>)
      requires rp.attr.Some?
      ensures fresh(c.Repr) && fresh(c.Shared) && c in c.Repr && c.Valid()
      ensures var spec := D.SetInContainer(lx, map[], rp, v);
              if spec.Ok? then fail.None? && c.View() == spec.value else fail == Some(spec.kind)
    {
      hide Container.View, Container.Valid, D.SetInContainer;
      c := new Container();
      fail := c.SetIn(lx, rp, v);
    }

    /** Set on the core container. */
    method SetCore(lx: Lexicon, rp: Resolved, v: Value) returns (fail: Option<Kind>)
      requires Valid() && rp.attr.Some? && rp.urn == "" && (rp.common ==> Fold(rp.attr.value.name) != D.SCHEMAS && Fold(rp.attr.value.name) != D.META)
      modifies attrs.Repr
      ensures Valid() && fresh(Repr() - old(Repr())) && fresh(Shared() - old(Shared()))
      ensures var spec := D.SetResolved(lx, old(View()), rp, v);
              if spec.Ok? then fail.None? && View() == spec.value else fail == Some(spec.kind) && View() == old(View())
      ensures rp.sub.None? ==> forall d: Dict :: d in old(Repr()) ==> d.m == old(d.m)
    {
      hide Container.View, Container.Valid, D.SetInContainer, Coerce, Family, FamilyView;
      fail := attrs.SetIn(lx, rp, v);
      attrs.Inside();
    }

    /** setExtensionContainer: the whole container is replaced. */
    method SetContainer(lx: Lexicon, urn: string, v: Value) returns (fail: Option<Kind>)
      requires Valid()
      modifies this`exts, this`extRepr, this`extShared
      ensures Valid() && fresh(Repr() - old(Repr())) && fresh(Shared() - old(Shared()))
      ensures var spec := D.SetExtension(lx, rt, old(View()), urn, v);
              if spec.Ok? then fail.None? && View() == spec.value else fail == Some(spec.kind) && View() == old(View())
    {
      hide Container.View, Container.Valid, D.CoerceContainer, Family, FamilyView, Apart;
      var ext := FindSchema(rt.exts, urn);
      if v.Nil? {
        RemovedFamily(exts, extRepr, extShared, Fold(urn));
        exts := exts - {Fold(urn)};
        return None;
      }
      if Source(v).None? || ext.None? { return Some(InvalidValue); }
      var c;
      c, fail := Build(lx, ext.value.attrs, Source(v).value);
      if fail.None? {
        CommitApart(Fold(urn), c);
      }
    }

    method SetCommon(lx: Lexicon, rp: Resolved, v: Value) returns (fail: Option<Kind>)
      requires Valid() && rp.attr.Some? && rp.urn == "" && rp.common
      modifies attrs.Repr
      ensures Valid() && fresh(Repr() - old(Repr())) && fresh(Shared() - old(Shared()))
      ensures var spec := D.SetResolved(lx, old(View()), rp, v);
              if spec.Ok? then fail.None? && View() == spec.value else fail == Some(spec.kind) && View() == old(View())
      ensures rp.sub.None? ==> forall d: Dict :: d in old(Repr()) ==> d.m == old(d.m)
    {
      hide Container.View, Container.Valid, D.SetResolved, Family, FamilyView;
      if Fold(rp.attr.value.name) == D.SCHEMAS || Fold(rp.attr.value.name) == D.META {
        DerivedRefused(lx, View(), rp, v);
        return Some(Mutability);
      }
      fail := SetCore(lx, rp, v);
    }

    /** Set. Setting Nil unassigns; a failed Set changes nothing. A whole attribute is replaced:
        no complex value handed out before is edited. */
    method Set(lx: Lexicon, path: string, v: Value) returns (fail: Option<Kind>)
      requires Valid()
      modifies Repr()
      ensures Valid() && fresh(Repr() - old(Repr())) && fresh(Shared() - old(Shared()))
      ensures var spec := D.Set(lx, rt, old(View()), path, v);
              if spec.Ok? then fail.None? && View() == spec.value else fail == Some(spec.kind) && View() == old(View())
      ensures ResolvePath(rt, path).Ok? && ResolvePath(rt, path).value.sub.None? ==> forall d: Dict :: d in old(Repr()) ==> d.m == old(d.m)
    {
      hide Container.View, Container.Valid, D.SetInContainer, D.SetExtension, D.SetResolved, Coerce, Family, FamilyView, ResolvePath;
      var r := ResolvePath(rt, path);
      if r.Err? { return Some(r.kind); }
      var rp := r.value;
      ResolvedShape(rt, path);
      if rp.common {
        fail := SetCommon(lx, rp, v);
      } else if rp.urn != "" {
        if rp.attr.None? {
          fail := SetContainer(lx, rp.urn, v);
        } else {
          fail := SetExtension(lx, rp, v);
        }
      } else {
        fail := SetCore(lx, rp, v);
      }
    }

    /** Get: what a path names, by reference to the live objects. */
    method Get(path: string) returns (got: Got)
      requires Valid()
      ensures got.Absent? ==> D.Get(rt, View(), path).None?
      ensures got.Held? ==> ResolvePath(rt, path).Ok? && D.Get(rt, View(), path) == Some(Deref(got.ref))
      ensures got.Held? ==> PlainLeaf(got.ref)
      ensures got.Held? && got.ref.Single? ==> fresh(got.ref.d) || (got.ref.d in Repr() && ResolvePath(rt, path).value.sub.None?)
      ensures got.Held? && got.ref.List? ==>
                Foreign(got.ref, Repr()) && (ResolvePath(rt, path).value.sub.None? ==> Placed(got.ref, {}, Shared()))
      ensures got.Extension? ==> got.c.Repr <= Repr() && got.c.Valid() && D.Get(rt, View(), path) == Some(Obj(got.c.View()))
    {
      hide ResolvePath, Family, FamilyView, Container.View, Container.Valid, Deref, Foreign, Placed, D.SubValue, D.MetaValue;
      var r := ResolvePath(rt, path);
      if r.Err? { return Absent; }
      var rp := r.value;
      ResolvedShape(rt, path);
      if rp.common && Fold(rp.attr.value.name) == D.SCHEMAS {
        var urns := Schemas();
        LeafShows(urns);
        got := Held(Leaf(urns));
      } else if rp.common && Fold(rp.attr.value.name) == D.META {
        got := GetMeta(rp.sub);
      } else if rp.urn == "" {
        got := Read(attrs, rp);
        if got.Held? && got.ref.List? { LiveList(got.ref, attrs.Shared, rp); }
      } else {
        got := GetExtension(rp);
      }
    }

    /** The extension branch of get. */
    method GetExtension(rp: Resolved) returns (got: Got)
      requires Valid() && rp.urn != "" && (rp.attr.None? ==> rp.sub.None?)
      ensures var c := D.Container(View(), rp);
              var spec := if c.None? then None else if rp.attr.None? then Some(Obj(c.value)) else D.SubValue(D.Lookup(c.value, Fold(rp.attr.value.name)), rp.sub);
              match got
              case Absent => spec.None?
              case Held(ref) => rp.attr.Some? && spec == Some(Deref(ref))
              case Extension(c) => rp.attr.None? && c.Repr <= Repr() && c.Valid() && spec == Some(Obj(c.View()))
      ensures got.Held? ==> PlainLeaf(got.ref)
      ensures got.Held? && got.ref.Single? ==> fresh(got.ref.d) || (got.ref.d in Repr() && rp.sub.None?)
      ensures got.Held? && got.ref.List? ==> Foreign(got.ref, Repr()) && (rp.sub.None? ==> Placed(got.ref, {}, Shared()))
    {
      hide Family, FamilyView, Container.View, Container.Valid, Deref, Foreign, Placed, D.SubValue;
      FamilyKeys(exts, extRepr, extShared);
      if Fold(rp.urn) !in exts { return Absent; }
      FamilyParts(exts, extRepr, extShared, Fold(rp.urn));
      var c := exts[Fold(rp.urn)];
      if rp.attr.None? { return Extension(c); }
      got := Read(c, rp);
      if got.Held? && got.ref.List? { LiveList(got.ref, c.Shared, rp); }
    }

    /** A list is edited by nobody, the live one as little as one read off a member. */
    lemma LiveList(r: Ref, pool: set<object>, rp: Resolved)
      requires Valid() && r.List? && pool <= Shared()
      requires if rp.sub.None? then Placed(r, {}, pool) else r.l !in Repr() && forall d <- r.l[..] :: d !in Repr()
      ensures Foreign(r, Repr()) && (rp.sub.None? ==> Placed(r, {}, Shared()))
    {
    }

    /** SetMeta. */
    method SetMeta(m: D.Meta)
      requires Valid()
      modifies this`meta
      ensures Valid() && Repr() == old(Repr()) && View() == old(View()).(meta := m)
    {
      hide Container.View, Container.Valid, Family, FamilyView;
      meta := m;
    }

    /** Get, read at once. */
    method Fetch(path: string) returns (v: Option<Value>)
      requires Valid()
      ensures v == D.Get(rt, View(), path)
    {
      hide ResolvePath, D.Get;
      var got := Get(path);
      match got {
        case Absent => v := None;
        case Held(ref) => v := Some(Deref(ref));
        case Extension(c) => v := Some(Obj(c.View()));
      }
    }

    /** Get as one reference: an extension container is read at once, anything else stays live. */
    method Find(path: string) returns (r: Option<Ref>)
      requires Valid()
      ensures D.Get(rt, View(), path) == if r.Some? then Some(Deref(r.value)) else None
      ensures r.Some? ==> PlainLeaf(r.value) && (r.value.Single? ==> fresh(r.value.d) || r.value.d in Repr()) && (r.value.List? ==> Foreign(r.value, Repr()))
    {
      hide ResolvePath, D.Get, Deref, Foreign, Placed, Container.View, Container.Valid, Family, FamilyView;
      var got := Get(path);
      match got {
        case Absent => r := None;
        case Held(ref) => r := Some(ref);
        case Extension(c) => r := Some(Leaf(Obj(c.View()))); LeafShows(Obj(c.View()));
      }
    }

    /** Schemas: the core URN, then the extensions that hold data, in declaration order. */
    method Schemas() returns (v: Value)
      requires Valid()
      ensures v == D.SchemasValue(rt, View())
    {
      hide Family, FamilyView, Container.View;
      FamilyKeys(exts, extRepr, extShared);
      var out := [Str(rt.core.id)];
      for i := 0 to |rt.exts|
        invariant [Str(rt.core.id)] + D.ExtensionsHeld(rt.exts, View()) == out + D.ExtensionsHeld(rt.exts[i..], View())
      {
        assert rt.exts[i..][1..] == rt.exts[i + 1..];
        if Fold(rt.exts[i].id) in exts { out := out + [Str(rt.exts[i].id)]; }
      }
      v := Slice(TString, out);
    }

    /** metaValue and its projection. */
    method GetMeta(sub: Option<Attribute>) returns (got: Got)
      ensures !got.Extension? && (got.Held? ==> PlainLeaf(got.ref) && !got.ref.List? && (got.ref.Single? ==> fresh(got.ref.d)))
      ensures D.SubValue(D.MetaValue(meta), sub) == if got.Held? then Some(Deref(got.ref)) else None
    {
      var v := D.SubValue(D.MetaValue(meta), sub);
      if v.None? { return Absent; }
      MetaPlain(meta, sub);
      hide D.MetaElem, D.MetaValue, D.SubValue;
      var ref := Container.Wrap(v.value);
      got := Held(ref);
    }

    /** The lookup in one container, and subValue. */
    method Read(c: Container, rp: Resolved) returns (got: Got)
      requires c.Valid() && rp.attr.Some?
      ensures !got.Extension? && (got.Held? ==> PlainLeaf(got.ref))
      ensures got.Held? && got.ref.Single? ==> if rp.sub.None? then got.ref.d in c.Repr else fresh(got.ref.d)
      ensures got.Held? && got.ref.List? ==> if rp.sub.None? then Placed(got.ref, {}, c.Shared) else fresh(got.ref.l) && forall d <- got.ref.l[..] :: fresh(d)
      ensures D.SubValue(D.Lookup(c.View(), Fold(rp.attr.value.name)), rp.sub) == if got.Held? then Some(Deref(got.ref)) else None
    {
      var key := Fold(rp.attr.value.name);
      if key !in c.m { return Absent; }
      var cell := c.m[key];
      if rp.sub.None? { return Held(cell); }
      var subKey := Fold(rp.sub.value.name);
      if cell.Single? && subKey in cell.d.m {
        var ref := Container.Wrap(cell.d.m[subKey]);
        got := Held(ref);
      } else {
        got := Absent;
      }
    }

    /** CloneShared: the copy has its own containers and single complex values, and the very
        same lists. */
    method CloneShared() returns (c: Resource)
      requires Valid()
      ensures fresh(c) && fresh(c.Repr()) && c.rt == rt && c.Valid() && c.View() == View()
      ensures c.Shared() <= Shared() && SharedCopy(attrs, c.attrs) && SharedCopies(exts, c.exts)
    {
      hide *;
      Parts();
      var copied := attrs.Copy();
      ghost var own;
      var es;
      es, own := CopyFamily(exts, extRepr, extShared);
      c := new Resource.Of(rt, copied, es, own, extShared, meta);
    }
  }

  lemma SingleShows(d: Dict)
    ensures Deref(Single(d)) == Cplx(d.m) && Listed(Single(d)) == {}
  {
  }

  lemma LeafShows(v: Value)
    ensures Deref(Leaf(v)) == v
  {
  }

  /** The metadata hold no list. */
  lemma MetaPlain(m: D.Meta, sub: Option<Attribute>)
    ensures var v := D.SubValue(D.MetaValue(m), sub); v.Some? ==> !v.value.Multi?
  {
  }

  lemma {:induction false} FamilyWithin(exts: map<string, Container>, own: set<object>, pool: set<object>)
    requires Family(exts, own, pool)
    ensures exts.Values <= own
  {
    hide Container.Valid;
  }

  /** es holds the copies of the containers under done. */
  ghost predicate FamilyCopied(exts: map<string, Container>, own: set<object>, pool: set<object>, done: set<string>, es: map<string, Container>, esOwn: set<object>)
    requires Family(exts, own, pool)
    reads exts.Values, own, pool, es.Values, esOwn
  {
    && Family(es, esOwn, pool) && es.Keys == exts.Keys * done && (forall u <- es.Keys :: SharedCopy(exts[u], es[u]))
    && FamilyView(es, esOwn, pool) == Restrict(FamilyView(exts, own, pool), done)
  }

  /** The extension branch of cloneContainer. */
  method CopyFamily(exts: map<string, Container>, ghost own: set<object>, ghost pool: set<object>) returns (es: map<string, Container>, ghost esOwn: set<object>)
    requires Family(exts, own, pool)
    ensures fresh(esOwn) && Family(exts, own, pool) && Family(es, esOwn, pool) && FamilyView(es, esOwn, pool) == FamilyView(exts, own, pool)
    ensures SharedCopies(exts, es)
  {
    hide Container.View, Container.Valid, Family, FamilyView, FamilyCopied, SharedCopy, SharedCopies;
    es, esOwn := map[], {};
    CopiedNothing(exts, own, pool);
    var todo := exts.Keys;
    assert exts.Keys - todo == {};
    while todo != {}
      invariant todo <= exts.Keys && Family(exts, own, pool) && fresh(esOwn) && FamilyCopied(exts, own, pool, exts.Keys - todo, es, esOwn)
      decreases |todo|
    {
      var u :| u in todo;
      var e := CopyMember(exts, own, pool, exts.Keys - todo, u, es, esOwn);
      es, esOwn := es[u := e], esOwn + e.Repr;
      assert exts.Keys - (todo - {u}) == exts.Keys - todo + {u};
      todo := todo - {u};
    }
    assert exts.Keys - todo == exts.Keys;
    CopiedFamily(exts, own, pool, es, esOwn);
  }

  method CopyMember(exts: map<string, Container>, ghost own: set<object>, ghost pool: set<object>, ghost done: set<string>, u: string,
      ghost es: map<string, Container>, ghost esOwn: set<object>)
    returns (e: Container)
    requires Family(exts, own, pool) && FamilyCopied(exts, own, pool, done, es, esOwn) && u in exts && u !in done
    ensures fresh(e.Repr) && Family(exts, own, pool) && FamilyCopied(exts, own, pool, done + {u}, es[u := e], esOwn + e.Repr)
  {
    hide *;
    FamilyPart(exts, own, pool, u);
    e := exts[u].Copy();
    CopiedMore(exts, own, pool, done, u, es, esOwn, e);
  }

  lemma FamilyPart(exts: map<string, Container>, own: set<object>, pool: set<object>, u: string)
    requires Family(exts, own, pool) && u in exts
    ensures exts[u].Valid() && exts[u].Shared <= pool
  {
  }

  lemma {:induction false} CopiedMore(exts: map<string, Container>, own: set<object>, pool: set<object>, done: set<string>, u: string,
      es: map<string, Container>, esOwn: set<object>, e: Container)
    requires Family(exts, own, pool) && FamilyCopied(exts, own, pool, done, es, esOwn) && u in exts && u !in done
    requires e in e.Repr && e.Valid() && e.Repr !! esOwn && e.Repr !! pool && e.Shared <= pool
    requires exts[u].Valid() && e.View() == exts[u].View() && SharedCopy(exts[u], e)
    ensures FamilyCopied(exts, own, pool, done + {u}, es[u := e], esOwn + e.Repr)
  {
    hide Container.View, Container.Valid, Family, FamilyView, SharedCopy, Restrict;
    FamilyParts(exts, own, pool, u);
    FamilyKeys(exts, own, pool);
    FamilyApart(es, esOwn, pool);
    assert pool + e.Shared == pool;
    AddedFamily(es, esOwn, pool, u, e);
    RestrictMore(FamilyView(exts, own, pool), done, u);
  }

  lemma FamilyApart(exts: map<string, Container>, own: set<object>, pool: set<object>)
    requires Family(exts, own, pool)
    ensures own !! pool
  {
  }

  lemma {:induction false} CopiedNothing(exts: map<string, Container>, own: set<object>, pool: set<object>)
    requires Family(exts, own, pool)
    ensures FamilyCopied(exts, own, pool, {}, map[], {})
  {
    RestrictAll(FamilyView(exts, own, pool));
  }

  lemma {:induction false} CopiedFamily(exts: map<string, Container>, own: set<object>, pool: set<object>, es: map<string, Container>, esOwn: set<object>)
    requires Family(exts, own, pool) && FamilyCopied(exts, own, pool, exts.Keys, es, esOwn)
    ensures Family(es, esOwn, pool) && FamilyView(es, esOwn, pool) == FamilyView(exts, own, pool)
    ensures SharedCopies(exts, es)
  {
    hide Family, SharedCopy;
    FamilyKeys(exts, own, pool);
    var v := FamilyView(exts, own, pool);
    RestrictAll(v);
    assert v.Keys - {} == exts.Keys;
  }

  /** What Get finds: nothing, a stored value, or a live extension container. */
  datatype Got = Absent | Held(ref: Ref) | Extension(c: Container)

  lemma DerivedRefused(lx: Lexicon, d: D.Doc, rp: Resolved, v: Value)
    requires rp.attr.Some? && rp.common && (Fold(rp.attr.value.name) == D.SCHEMAS || Fold(rp.attr.value.name) == D.META)
    ensures D.SetResolved(lx, d, rp, v) == Err(Mutability)
  {
  }

  lemma {:induction false} ResolvedShape(rt: ResourceType, path: string)
    ensures var r := ResolvePath(rt, path);
            r.Ok? ==> (r.value.attr.None? ==> r.value.urn != "" && !r.value.common && r.value.sub.None?) && (r.value.common ==> r.value.urn == "")
  {
    hide SplitUrnPrefix, SplitAttrExpr, NamespaceAttr;
  }

  lemma FreshApart(exts: map<string, Container>, own: set<object>, pool: set<object>, key: string, c: Container)
    requires Family(exts, own, pool) && own !! c.Repr
    ensures Apart(exts, key, c)
  {
  }

  // ----- Two resources written in turn -----

  /** One later write to either of two resources; a Nil value unassigns. */
  datatype Write = Write(toFirst: bool, path: string, value: Value)

  function Wrote(lx: Lexicon, rt: ResourceType, d: D.Doc, w: Write): D.Doc {
    var r := D.Set(lx, rt, d, w.path, w.value);
    if r.Ok? then r.value else d
  }

  /** What the writes addressed to one of the resources make of its value alone. */
  function Alone(lx: Lexicon, rt: ResourceType, d: D.Doc, script: seq<Write>, first: bool): D.Doc
    decreases |script|
  {
    if script == [] then d
    else Alone(lx, rt, if script[0].toFirst == first then Wrote(lx, rt, d, script[0]) else d, script[1..], first)
  }

  /** Neither of the two edits an object of the other; their lists may be the same. */
  ghost predicate Independent(a: Resource, b: Resource)
    reads a, b, a.attrs, b.attrs
  {
    a.Repr() !! b.Repr() && a.Repr() !! b.Shared() && b.Repr() !! a.Shared()
  }

  lemma IndependentIs(a: Resource, b: Resource)
    ensures Independent(a, b) <==> a.Repr() !! b.Repr() && a.Repr() !! b.Shared() && b.Repr() !! a.Shared()
  {
  }

  /** A write to one resource is no write to the other. */
  method WriteOne(lx: Lexicon, a: Resource, b: Resource, w: Write)
    requires a.Valid() && b.Valid() && Independent(a, b)
    modifies a.Repr()
    ensures a.Valid() && b.Valid() && Independent(a, b) && fresh(a.Repr() - old(a.Repr())) && b.Repr() == old(b.Repr())
    ensures a.View() == Wrote(lx, a.rt, old(a.View()), w) && b.View() == old(b.View())
  {
    hide Container.View, Container.Valid, Family, FamilyView, D.Set;
    var _ := a.Set(lx, w.path, w.value);
  }

  /** Two resources that edit nothing of each other, such as a resource and its CloneShared,
      stay independent under every interleaving of later writes, failing ones included: each
      ends up as if the other did not exist, although every list may be the same object in
      both. */
  method Interleave(lx: Lexicon, a: Resource, b: Resource, script: seq<Write>)
    requires a.Valid() && b.Valid() && Independent(a, b)
    modifies a.Repr(), b.Repr()
    ensures a.Valid() && b.Valid() && Independent(a, b)
    ensures a.View() == Alone(lx, a.rt, old(a.View()), script, true)
    ensures b.View() == Alone(lx, b.rt, old(b.View()), script, false)
    decreases |script|
  {
    hide Resource.View, Resource.Valid, Wrote;
    if script != [] {
      var w := script[0];
      if w.toFirst { WriteOne(lx, a, b, w); } else { WriteOne(lx, b, a, w); }
      Interleave(lx, a, b, script[1..]);
    }
  }
}
