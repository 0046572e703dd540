/** Which JSON bodies are PATCH messages, member by member (patch/decode.go under the strict
    profile, section 3.5.2 of RFC 7644). */
module PatchWire {
  import opened Text
  import opened Values
  import opened PatchRules
  import opened PatchCodec
  import G = FilterGrammar

  /** The object says op: the kind in lower case, the path as its text when there is one, and a
      value exactly for an add or a replace, where it is not null. */
  predicate Says(v: Value, op: Op) {
    v.Obj? && "op" in v.members && v.members["op"].Str?
    && (match v.members["op"].s
        case "add" => op.kind == Add
        case "replace" => op.kind == Replace
        case "remove" => op.kind == Remove
        case _ => false)
    && (if "path" in v.members
        then v.members["path"].Str? && op.path.Some? && G.ParsePatchPath(v.members["path"].s) == Ok(op.path.value)
        else op.path.None?)
    && (if op.kind == Remove then "value" !in v.members && op.value == Nil else "value" in v.members && v.members["value"] == op.value && op.value != Nil)
  }

  /** An operation decodes exactly from the objects that say it. */
  lemma {:induction false} OpIff(v: Value, op: Op)
    ensures DecodeOp(v) == Ok(op) <==> Says(v, op)
  {
    hide G.ParsePatchPath;
    if v.Obj? {
      KindIff(if OP in v.members && v.members[OP].Str? then v.members[OP].s else "");
    }
  }

  lemma {:induction false} KindIff(s: string)
    ensures KindOf(s) == (match s case "add" => Ok(Add) case "replace" => Ok(Replace) case "remove" => Ok(Remove) case _ => Err(InvalidSyntax))
  {
  }

  predicate AllSay(list: seq<Value>, ops: seq<Op>) {
    |list| == |ops| && forall i :: 0 <= i < |list| ==> Says(list[i], ops[i])
  }

  lemma {:induction false} AllIff(list: seq<Value>, ops: seq<Op>)
    ensures DecodeAll(list) == Ok(ops) <==> AllSay(list, ops)
    decreases |list|
  {
    hide DecodeOp, Says;
    if list != [] && ops != [] {
      OpIff(list[0], ops[0]);
      AllIff(list[1..], ops[1..]);
      assert ops == [ops[0]] + ops[1..];
      if AllSay(list, ops) {
        forall i | 0 <= i < |list| - 1 ensures Says(list[1..][i], ops[1..][i]) {
          assert list[1..][i] == list[i + 1] && ops[1..][i] == ops[i + 1];
        }
      }
      if AllSay(list[1..], ops[1..]) && Says(list[0], ops[0]) {
        forall i | 0 <= i < |list| ensures Says(list[i], ops[i]) {
          assert i > 0 ==> list[i] == list[1..][i - 1] && ops[i] == ops[1..][i - 1];
        }
      }
    }
  }

  /** The list names the message schema, in any case, among whatever else. */
  predicate Declares(schemas: seq<Value>) {
    exists i :: 0 <= i < |schemas| && schemas[i].Str? && Fold(schemas[i].s) == Fold("urn:ietf:params:scim:api:messages:2.0:PatchOp")
  }

  /** The body is a message of these operations. */
  predicate IsMessage(body: Value, ops: seq<Op>) {
    && body.Obj? && "schemas" in body.members && body.members["schemas"].Arr? && Declares(body.members["schemas"].items)
    && "operations" in body.members && body.members["operations"].Arr?
    && 1 <= |body.members["operations"].items| <= 1000 && AllSay(body.members["operations"].items, ops)
  }

  /** A body decodes to operations exactly when it is a message of them. */
  lemma {:induction false} MessageIff(body: Value, ops: seq<Op>)
    ensures DecodeMessage(body) == Ok(ops) <==> IsMessage(body, ops)
  {
    hide DecodeAll, AllSay, ParseRaws, BuildAll, Operations, Fold;
    EnvelopeIff(body);
    if Operations(body).Ok? {
      var list := Operations(body).value;
      TwoPasses(list);
      AllIff(list, ops);
    }
  }

  lemma {:induction false} EnvelopeIff(body: Value)
    ensures var r := Operations(body);
            r.Ok? <==> (&& body.Obj? && "schemas" in body.members && body.members["schemas"].Arr? && Declares(body.members["schemas"].items)
                        && "operations" in body.members && body.members["operations"].Arr? && 1 <= |body.members["operations"].items| <= 1000)
    ensures Operations(body).Ok? ==> Operations(body).value == body.members["operations"].items
  {
    hide Fold;
    if body.Obj? && "schemas" in body.members && body.members["schemas"].Arr? {
      var list := body.members["schemas"].items;
      forall i | 0 <= i < |list| ensures list[i] in list {
      }
    }
  }
}
