/** The PatchOp message as a JSON tree: what EncodeOps writes, Decode under the strict profile
    reads back (patch/encode.go, patch/decode.go). */
module PatchCodec {
  import opened Text
  import opened Values
  import opened PatchRules
  import opened Codec
  import S = FilterScanner
  import F = FilterAst
  import G = FilterGrammar
  import A = FilterAccepts
  import R = FilterRoundTrip

  const MESSAGE_URN := "urn:ietf:params:scim:api:messages:2.0:PatchOp"
  const MAX_OPERATIONS := 1000

  const SCHEMAS := "schemas"
  const OPERATIONS := "operations"
  const OP := "op"
  const PATH := "path"
  const VALUE := "value"

  function KindText(k: OpKind): string {
    match k
    case Add => "add" case Remove => "remove" case Replace => "replace" case Unknown => "unknown"
  }

  /** opKind, exact case. */
  function KindOf(s: string): Result<OpKind> {
    if s == "add" then Ok(Add)
    else if s == "remove" then Ok(Remove)
    else if s == "replace" then Ok(Replace)
    else Err(InvalidSyntax)
  }

  // ----- JSON values -----

  /** A value decoding JSON yields: numbers keep their text. */
  predicate IsJson(v: Value) {
    match v
    case Nil => true
    case Str(_) => true
    case Bool(_) => true
    case Num(t) => S.ValidNumber(t)
    case Obj(m) => forall k <- m.Keys :: IsJson(m[k])
    case Arr(l) => forall i :: 0 <= i < |l| ==> IsJson(l[i])
    case _ => false
  }

  /** encoding/json takes every value but a number whose text is none. */
  predicate Marshals(v: Value) {
    match v
    case Num(t) => t == "" || S.ValidNumber(t)
    case Obj(m) => forall k <- m.Keys :: Marshals(m[k])
    case Arr(l) => forall i :: 0 <= i < |l| ==> Marshals(l[i])
    case _ => true
  }

  /** What it writes, as the JSON value read back. */
  function Marshal(pr: Printer, v: Value): Value {
    match v
    case Num(t) => if t == "" then Num("0") else v
    case Obj(m) => Obj(map k | k in m.Keys :: Marshal(pr, m[k]))
    case Arr(l) => Arr(seq(|l|, i requires 0 <= i < |l| => Marshal(pr, l[i])))
    case _ => EncodeValue(pr, v)
  }

  /** Exactly the JSON values come back as they were. */
  lemma {:induction false} MarshalFixed(pr: Printer, v: Value)
    ensures Marshals(v) && Marshal(pr, v) == v <==> IsJson(v)
  {
    hide S.ValidNumber;
    match v {
      case Obj(m) =>
        forall k <- m.Keys ensures Marshals(m[k]) && Marshal(pr, m[k]) == m[k] <==> IsJson(m[k]) { MarshalFixed(pr, m[k]); }
        if Marshal(pr, v) == v { assert forall k <- m.Keys :: Marshal(pr, v).members[k] == m[k]; }
        if forall k <- m.Keys :: Marshal(pr, m[k]) == m[k] { assert Marshal(pr, v).members == m; }
      case Arr(l) =>
        forall i | 0 <= i < |l| ensures Marshals(l[i]) && Marshal(pr, l[i]) == l[i] <==> IsJson(l[i]) { MarshalFixed(pr, l[i]); }
        if Marshal(pr, v) == v { assert forall i :: 0 <= i < |l| ==> Marshal(pr, v).items[i] == l[i]; }
        if forall i :: 0 <= i < |l| ==> Marshal(pr, l[i]) == l[i] { assert Marshal(pr, v).items == l; }
      case Num(_) => EmptyNoNumber();
      case _ =>
    }
  }

  lemma EmptyNoNumber()
    ensures !S.ValidNumber("")
  {
  }

  // ----- One operation -----

  /** encodeOp and the marshalling of its outcome; a member that is omitted when empty is left
      out. */
  function EncodeOp(pr: Printer, op: Op): Result<Value> {
    if op.kind.Unknown? then Err(InvalidSyntax)
    else if op.kind.Remove? && op.path.None? then Err(InvalidSyntax)
    else if !op.kind.Remove? && (op.value.Nil? || !Marshals(op.value)) then Err(InvalidSyntax)
    else
      var text := if op.path.Some? then F.PathText(op.path.value) else "";
      Ok(Obj(map[OP := Str(KindText(op.kind))] +
             (if text == "" then map[] else map[PATH := Str(text)]) +
             (if op.kind.Remove? then map[] else map[VALUE := Marshal(pr, op.value)])))
  }

  /** A raw operation: its members by presence. */
  datatype RawOp = RawOp(op: string, path: Option<string>, value: Option<Value>)

  /** What parseRawOp makes of an operation, its op judged before its path. */
  function ParseRaw(v: Value): Result<RawOp> {
    if !v.Obj? then Err(InvalidSyntax)
    else
      var m := v.members;
      if OP in m && !m[OP].Str? then Err(InvalidSyntax)
      else if PATH in m && !m[PATH].Str? then Err(InvalidPath)
      else if OP !in m then Err(InvalidSyntax)
      else Ok(RawOp(m[OP].s, if PATH in m then Some(m[PATH].s) else None, if VALUE in m then Some(m[VALUE]) else None))
  }

  /** Both the op and the path are malformed: whichever is visited first is reported. */
  predicate Ambiguous(v: Value) {
    v.Obj? && OP in v.members && !v.members[OP].Str? && PATH in v.members && !v.members[PATH].Str?
  }

  function TextAt(m: Elem, k: string, todo: set<string>): Option<string> {
    if k in m && k !in todo && m[k].Str? then Some(m[k].s) else None
  }

  /** parseRawOp: the members are visited in arbitrary order. */
  method ParseRawOp(v: Value) returns (r: Result<RawOp>)
    ensures var spec := ParseRaw(v);
            if spec.Ok? then r == spec else r.Err? && (r.kind == spec.kind || (Ambiguous(v) && r.kind == InvalidPath))
  {
    if !v.Obj? { return Err(InvalidSyntax); }
    var m, todo := v.members, v.members.Keys;
    var op: Option<string>, path: Option<string>, value: Option<Value> := None, None, None;
    NamesApart();
    while todo != {}
      invariant todo <= m.Keys
      invariant op == TextAt(m, OP, todo) && path == TextAt(m, PATH, todo)
      invariant OP in m && OP !in todo ==> op.Some?
      invariant PATH in m && PATH !in todo ==> path.Some?
      invariant value == if VALUE in m && VALUE !in todo then Some(m[VALUE]) else None
      decreases |todo|
    {
      var k :| k in todo;
      if k == OP {
        if !m[k].Str? { return Err(InvalidSyntax); }
        op := Some(m[k].s);
      } else if k == PATH {
        if !m[k].Str? { return Err(InvalidPath); }
        path := Some(m[k].s);
      } else if k == VALUE {
        value := Some(m[k]);
      }
      todo := todo - {k};
    }
    r := if op.None? then Err(InvalidSyntax) else Ok(RawOp(op.value, path, value));
  }

  lemma NamesApart()
    ensures OP != PATH && OP != VALUE && PATH != VALUE
  {
    assert |OP| == 2 && PATH[0] == 'p' && VALUE[0] == 'v';
  }

  /** buildOp. */
  function BuildOp(raw: RawOp): Result<Op> {
    var k :- KindOf(raw.op);
    var p :- if raw.path.None? then Ok(None) else ParsedTo(G.ParsePatchPath(raw.path.value));
    if k.Remove? then (if raw.value.Some? then Err(InvalidValue) else Ok(Op(k, p, Nil)))
    else if raw.value.None? || raw.value.value.Nil? then Err(InvalidValue)
    else Ok(Op(k, p, raw.value.value))
  }

  function ParsedTo(r: Result<F.Path>): Result<Option<F.Path>> {
    if r.Ok? then Ok(Some(r.value)) else Err(r.kind)
  }

  /** What a single operation decodes to. */
  function DecodeOp(v: Value): Result<Op> {
    var raw :- ParseRaw(v);
    BuildOp(raw)
  }

  /** The operations Decode yields. */
  predicate Decoded(op: Op) {
    && !op.kind.Unknown?
    && (op.path.Some? ==> A.WellFormedPath(op.path.value))
    && (op.kind.Remove? <==> op.value.Nil?)
  }

  /** What a message can carry: a JSON value, and not a remove without a path, which Decode lets
      through and Apply then refuses. */
  predicate Carried(op: Op) {
    Decoded(op) && IsJson(op.value) && (op.kind.Remove? ==> op.path.Some?)
  }

  lemma {:induction false} PathNotEmpty(p: F.Path)
    ensures A.WellFormedPath(p) ==> F.PathText(p) != ""
  {
    hide F.ExprText, G.WellFormed, F.Nesting;
  }

  lemma {:induction false} DecodedIs(v: Value)
    ensures DecodeOp(v).Ok? ==> Decoded(DecodeOp(v).value) && (IsJson(v) ==> IsJson(DecodeOp(v).value.value))
  {
    hide G.ParsePatchPath, A.WellFormedPath;
    if v.Obj? && PATH in v.members && v.members[PATH].Str? { A.ParsePatchPathAccepts(v.members[PATH].s); }
  }

  /** What decoding the encoding of op gives. */
  function Recoded(pr: Printer, op: Op): Result<Op> {
    var v :- EncodeOp(pr, op);
    DecodeOp(v)
  }

  /** An operation survives encoding and decoding exactly when a strict message can carry it. */
  lemma {:induction false} OpRoundTrip(pr: Printer, op: Op)
    ensures Recoded(pr, op) == Ok(op) <==> Carried(op)
  {
    hide G.ParsePatchPath, A.WellFormedPath, F.PathText, KindText, KindOf, EncodeOp, Marshal, Marshals, IsJson;
    NilIsJson(pr);
    EncodableIff(pr, op);
    if op.path.Some? {
      R.ParsePrintedPath(op.path.value);
      PathNotEmpty(op.path.value);
    }
    if Carried(op) { MarshalFixed(pr, op.value); }
    if EncodeOp(pr, op).Ok? {
      DecodedIs(EncodeOp(pr, op).value);
      EncodedMembers(pr, op);
      MarshalFixed(pr, op.value);
      KindTexts(op.kind);
    }
  }

  lemma NilIsJson(pr: Printer)
    ensures IsJson(Nil)
  {
  }

  lemma EncodableIff(pr: Printer, op: Op)
    ensures EncodeOp(pr, op).Ok? <==> !op.kind.Unknown? && (if op.kind.Remove? then op.path.Some? else !op.value.Nil? && Marshals(op.value))
  {
  }

  lemma KindTexts(k: OpKind)
    ensures !k.Unknown? ==> KindOf(KindText(k)) == Ok(k)
  {
  }

  lemma {:induction false} EncodedMembers(pr: Printer, op: Op)
    requires EncodeOp(pr, op).Ok?
    ensures EncodeOp(pr, op).value.Obj?
    ensures var m := EncodeOp(pr, op).value.members;
            && OP in m && m[OP] == Str(KindText(op.kind))
            && (if op.path.Some? && F.PathText(op.path.value) != "" then PATH in m && m[PATH] == Str(F.PathText(op.path.value)) else PATH !in m)
            && (if op.kind.Remove? then VALUE !in m else VALUE in m && m[VALUE] == Marshal(pr, op.value))
  {
    hide F.PathText, KindText;
  }

  // ----- The message -----

  function EncodeAll(pr: Printer, ops: seq<Op>): Result<seq<Value>> {
    if ops == [] then Ok([])
    else
      var head :- EncodeOp(pr, ops[0]);
      var rest :- EncodeAll(pr, ops[1..]);
      Ok([head] + rest)
  }

  /** The shapes of all operations are checked before any is built. */
  function ParseRaws(list: seq<Value>): Result<seq<RawOp>> {
    if list == [] then Ok([])
    else
      var head :- ParseRaw(list[0]);
      var rest :- ParseRaws(list[1..]);
      Ok([head] + rest)
  }

  function BuildAll(raws: seq<RawOp>): Result<seq<Op>> {
    if raws == [] then Ok([])
    else
      var head :- BuildOp(raws[0]);
      var rest :- BuildAll(raws[1..]);
      Ok([head] + rest)
  }

  /** The operations one by one: the outcome, when there is one. */
  function DecodeAll(list: seq<Value>): Result<seq<Op>> {
    if list == [] then Ok([])
    else
      var head :- DecodeOp(list[0]);
      var rest :- DecodeAll(list[1..]);
      Ok([head] + rest)
  }

  function Message(list: seq<Value>): Value {
    Obj(map[SCHEMAS := Arr([Str(MESSAGE_URN)]), OPERATIONS := Arr(list)])
  }

  function After<T>(done: seq<T>, rest: Result<seq<T>>): Result<seq<T>> {
    if rest.Ok? then Ok(done + rest.value) else rest
  }

  /** EncodeOps. */
  method EncodeOps(pr: Printer, ops: seq<Op>) returns (r: Result<Value>)
    ensures if ops == [] then r == Err(InvalidSyntax)
            else if EncodeAll(pr, ops).Ok? then r == Ok(Message(EncodeAll(pr, ops).value))
            else r == Err(EncodeAll(pr, ops).kind)
  {
    hide EncodeOp;
    if ops == [] { return Err(InvalidSyntax); }
    var out: seq<Value> := [];
    AfterNone(EncodeAll(pr, ops));
    assert ops[0..] == ops;
    for i := 0 to |ops|
      invariant EncodeAll(pr, ops) == After(out, EncodeAll(pr, ops[i..]))
    {
      assert ops[i..][1..] == ops[i + 1..];
      var op := EncodeOp(pr, ops[i]);
      if op.Err? { return Err(op.kind); }
      AfterMore(out, op.value, EncodeAll(pr, ops[i + 1..]));
      out := out + [op.value];
    }
    assert ops[|ops|..] == [] && out + [] == out;
    r := Ok(Message(out));
  }

  lemma {:induction false} AfterNone<T>(r: Result<seq<T>>)
    ensures After([], r) == r
  {
    if r.Ok? { assert [] + r.value == r.value; }
  }

  lemma {:induction false} AfterMore<T>(done: seq<T>, x: T, rest: Result<seq<T>>)
    ensures After(done + [x], rest) == After(done, After([x], rest))
  {
    if rest.Ok? { assert done + ([x] + rest.value) == done + [x] + rest.value; }
  }

  /** The checks of parseEnvelope, up to the operations themselves. */
  function Operations(body: Value): Result<seq<Value>> {
    if !body.Obj? then Err(InvalidSyntax)
    else
      var m := body.members;
      if SCHEMAS !in m || !m[SCHEMAS].Arr? then Err(InvalidSyntax)
      else if !(exists s <- m[SCHEMAS].items :: s.Str? && Fold(s.s) == Fold(MESSAGE_URN)) then Err(InvalidSyntax)
      else if OPERATIONS !in m || !m[OPERATIONS].Arr? then Err(InvalidSyntax)
      else if m[OPERATIONS].items == [] || |m[OPERATIONS].items| > MAX_OPERATIONS then Err(InvalidSyntax)
      else Ok(m[OPERATIONS].items)
  }

  function DecodeMessage(body: Value): Result<seq<Op>> {
    var list :- Operations(body);
    var raws :- ParseRaws(list);
    BuildAll(raws)
  }

  /** Both passes succeed exactly when every operation decodes, with the same outcome. */
  lemma {:induction false} TwoPasses(list: seq<Value>)
    ensures var raws := ParseRaws(list);
            if DecodeAll(list).Ok? then raws.Ok? && BuildAll(raws.value) == DecodeAll(list)
            else raws.Err? || BuildAll(raws.value).Err?
  {
    hide ParseRaw, BuildOp;
    if list != [] {
      TwoPasses(list[1..]);
      var head, rest := ParseRaw(list[0]), ParseRaws(list[1..]);
      if head.Ok? && rest.Ok? { assert ([head.value] + rest.value)[1..] == rest.value; }
    }
  }

  /** The failure reported is the one specified, but for operations that are malformed twice. */
  predicate Reports(list: seq<Value>, k: Kind, spec: Kind) {
    k == spec || (k == InvalidPath && exists v <- list :: Ambiguous(v))
  }

  /** The shape pass of parseEnvelope. */
  method ParseAll(list: seq<Value>) returns (r: Result<seq<RawOp>>)
    ensures var spec := ParseRaws(list); if spec.Ok? then r == spec else r.Err? && Reports(list, r.kind, spec.kind)
  {
    hide ParseRaw, Ambiguous;
    var raws: seq<RawOp> := [];
    AfterNone(ParseRaws(list));
    assert list[0..] == list;
    for i := 0 to |list|
      invariant ParseRaws(list) == After(raws, ParseRaws(list[i..]))
    {
      assert list[i..][1..] == list[i + 1..];
      var raw := ParseRawOp(list[i]);
      if raw.Err? { return Err(raw.kind); }
      AfterMore(raws, raw.value, ParseRaws(list[i + 1..]));
      raws := raws + [raw.value];
    }
    assert list[|list|..] == [] && raws + [] == raws;
    r := Ok(raws);
  }

  /** Decode under the strict profile. */
  method Decode(body: Value) returns (r: Result<seq<Op>>)
    ensures var spec := DecodeMessage(body);
            if spec.Ok? then r == spec else r.Err? && Reports(if Operations(body).Ok? then Operations(body).value else [], r.kind, spec.kind)
  {
    hide BuildOp, ParseRaws, Operations, Ambiguous;
    var list := Operations(body);
    if list.Err? { return Err(list.kind); }
    var parsed := ParseAll(list.value);
    if parsed.Err? { return Err(parsed.kind); }
    var raws := parsed.value;
    var ops: seq<Op> := [];
    AfterNone(BuildAll(raws));
    assert raws[0..] == raws;
    for i := 0 to |raws|
      invariant BuildAll(raws) == After(ops, BuildAll(raws[i..]))
    {
      assert raws[i..][1..] == raws[i + 1..];
      var op := BuildOp(raws[i]);
      if op.Err? { return Err(op.kind); }
      AfterMore(ops, op.value, BuildAll(raws[i + 1..]));
      ops := ops + [op.value];
    }
    assert raws[|raws|..] == [] && ops + [] == ops;
    r := Ok(ops);
  }

  lemma {:induction false} AllRoundTrip(pr: Printer, ops: seq<Op>)
    requires forall op <- ops :: Carried(op)
    ensures EncodeAll(pr, ops).Ok? && |EncodeAll(pr, ops).value| == |ops| && DecodeAll(EncodeAll(pr, ops).value) == Ok(ops)
  {
    hide EncodeOp, DecodeOp, Carried;
    if ops != [] {
      assert ops[0] in ops;
      OpRoundTrip(pr, ops[0]);
      assert EncodeOp(pr, ops[0]).Ok? && DecodeOp(EncodeOp(pr, ops[0]).value) == Ok(ops[0]);
      AllRoundTrip(pr, ops[1..]);
      assert EncodeAll(pr, ops).value[1..] == EncodeAll(pr, ops[1..]).value;
      assert [ops[0]] + ops[1..] == ops;
    }
  }

  lemma {:induction false} AllDecoded(list: seq<Value>)
    ensures var r := DecodeAll(list);
            r.Ok? ==>
              && |r.value| == |list| && (forall op <- r.value :: Decoded(op))
              && ((forall i :: 0 <= i < |list| ==> IsJson(list[i])) ==> forall op <- r.value :: IsJson(op.value))
  {
    hide DecodeOp, Decoded, IsJson;
    if list != [] {
      DecodedIs(list[0]);
      AllDecoded(list[1..]);
      assert forall i :: 1 <= i < |list| ==> list[1..][i - 1] == list[i];
    }
  }

  /** What decoding the message EncodeOps writes gives. */
  function Sent(pr: Printer, ops: seq<Op>): Result<seq<Op>> {
    var list :- EncodeAll(pr, ops);
    DecodeMessage(Message(list))
  }

  /** A sequence of operations makes the trip, with the same kinds, paths and values in the
      same order, exactly when it has 1 to 1000 of them and a strict message can carry each. */
  lemma {:induction false} MessageRoundTrip(pr: Printer, ops: seq<Op>)
    ensures Sent(pr, ops) == Ok(ops) <==> 1 <= |ops| <= MAX_OPERATIONS && forall op <- ops :: Carried(op)
  {
    hide EncodeAll, DecodeAll, Fold, Operations, Carried, ParseRaws, BuildAll;
    if EncodeAll(pr, ops).Ok? {
      var list := EncodeAll(pr, ops).value;
      TwoPasses(list);
      SchemasPass(list);
      AllBack(pr, ops);
    }
    if forall op <- ops :: Carried(op) { AllRoundTrip(pr, ops); }
  }

  /** When the whole sequence comes back, each operation does. */
  lemma {:induction false} AllBack(pr: Printer, ops: seq<Op>)
    requires EncodeAll(pr, ops).Ok?
    ensures |EncodeAll(pr, ops).value| == |ops|
    ensures DecodeAll(EncodeAll(pr, ops).value) == Ok(ops) ==> forall op <- ops :: Carried(op)
  {
    hide EncodeOp, DecodeOp, Carried;
    if ops != [] {
      AllBack(pr, ops[1..]);
      OpRoundTrip(pr, ops[0]);
      assert EncodeAll(pr, ops).value[1..] == EncodeAll(pr, ops[1..]).value;
      assert forall op <- ops :: op == ops[0] || op in ops[1..];
    }
  }

  lemma {:induction false} SchemasPass(list: seq<Value>)
    ensures Operations(Message(list)) == if list == [] || |list| > MAX_OPERATIONS then Err(InvalidSyntax) else Ok(list)
  {
    hide Fold;
    assert Message(list).members[SCHEMAS].items[0] == Str(MESSAGE_URN);
  }

  /** The operations of a JSON body are JSON values. */
  lemma {:induction false} OperationsJson(body: Value)
    requires IsJson(body) && Operations(body).Ok?
    ensures forall i :: 0 <= i < |Operations(body).value| ==> IsJson(Operations(body).value[i])
  {
    hide Fold;
    assert IsJson(body.members[OPERATIONS]);
  }

  /** What Decode accepts can be sent on unchanged exactly when it holds no remove without a
      path. */
  lemma {:induction false} DecodedAgain(pr: Printer, body: Value)
    ensures var r := DecodeMessage(body);
            r.Ok? && IsJson(body) ==> (Sent(pr, r.value) == r <==> forall op <- r.value :: op.kind.Remove? ==> op.path.Some?)
  {
    hide EncodeAll, DecodeAll, Fold, Decoded, Sent, ParseRaws, BuildAll, IsJson, Operations;
    var r := DecodeMessage(body);
    if r.Ok? && IsJson(body) {
      OperationsJson(body);
      OperationsCount(body);
      AllDecoded(Operations(body).value);
      TwoPasses(Operations(body).value);
      MessageRoundTrip(pr, r.value);
    }
  }

  lemma OperationsCount(body: Value)
    ensures Operations(body).Ok? ==> 1 <= |Operations(body).value| <= MAX_OPERATIONS
  {
  }
}
