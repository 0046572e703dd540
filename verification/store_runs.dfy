/** Runs of the store: its operations as steps on an abstract state, what holds along every
    run, and the step methods that tie the store to it. */
module StoreRuns {
  import opened Text
  import opened Schema
  import opened Values
  import opened Documents
  import opened PatchRules
  import opened PatchFacts
  import PS = PatchSpec
  import opened Versions
  import opened StoreState
  import opened Memstore

  /** What a client of the store can observe, and the version counters behind it. */
  datatype State = State(items: Items, versions: map<string, nat>, order: seq<string>)

  /** One request to the store. generated is the id Create falls back on, now the clock. */
  datatype Action =
    | CreateA(res: Doc, generated: string)
    | ReplaceA(id: string, res: Doc)
    | DeleteA(id: string)
    | PatchA(id: string, ops: seq<Op>, now: Moment)

  datatype Outcome = Outcome(next: State, reply: Result<Option<Doc>>)

  function Refused(s: State, k: Kind): Outcome {
    Outcome(s, Err(k))
  }

  /** A resource under a new version. */
  function Wrote(s: State, id: string, d: Doc, n: nat): Outcome {
    Outcome(State(s.items[id := d], s.versions[id := n], if id in s.items then s.order else s.order + [id]), Ok(Some(d)))
  }

  function VersionOf(s: State, id: string): nat {
    if id in s.versions then s.versions[id] else 0
  }

  function Step(env: Env, s: State, a: Action): Outcome {
    var unique := UniqueNames(env.rt.core.attrs);
    match a
    case CreateA(res, generated) =>
      var id := CreatedId(res, generated);
      var d := WithId(res, id);
      if id in s.items || Clash(env.rt, unique, s.items, id, d) then Refused(s, Uniqueness) else Wrote(s, id, Stamped(d, 1), 1)
    case ReplaceA(id, res) =>
      var d := WithId(res, id);
      var n := VersionOf(s, id) + 1;
      if id !in s.items then Refused(s, NotFound)
      else if !VersionMatches(res.meta.version, s.items[id].meta.version) then Refused(s, PreconditionFailed)
      else if Clash(env.rt, unique, s.items, id, d) then Refused(s, Uniqueness)
      else Wrote(s, id, Stamped(d, n), n)
    case DeleteA(id) =>
      if id !in s.items then Refused(s, NotFound)
      else Outcome(State(s.items - {id}, s.versions - {id}, Without(s.order, id)), Ok(None))
    case PatchA(id, ops, now) =>
      if id !in s.items then Refused(s, NotFound)
      else
        var n := VersionOf(s, id) + 1;
        var p := Patched(env, s.items[id], ops, now, n);
        if p.Err? then Refused(s, p.kind)
        else if p.value.None? then Outcome(s, Ok(Some(s.items[id])))
        else if Clash(env.rt, unique, s.items, id, p.value.value) then Refused(s, Uniqueness)
        else Wrote(s, id, p.value.value, n)
  }

  function Run(env: Env, s: State, log: seq<Action>): State
    decreases |log|
  {
    if log == [] then s else Run(env, Step(env, s, log[0]).next, log[1..])
  }

  lemma {:induction false} RunThen(env: Env, s: State, log: seq<Action>, more: seq<Action>)
    ensures Run(env, s, log + more) == Run(env, Run(env, s, log), more)
    decreases |log|
  {
    hide Step;
    if log == [] {
      assert log + more == more;
    } else {
      RunThen(env, Step(env, s, log[0]).next, log[1..], more);
      assert (log + more)[1..] == log[1..] + more;
    }
  }

  // ----- Lifetimes -----

  /** A Create under id that is not refused. */
  predicate Creates(env: Env, s: State, a: Action, id: string) {
    a.CreateA? && CreatedId(a.res, a.generated) == id && Step(env, s, a).reply.Ok?
  }

  /** No request of the run creates id anew. */
  predicate OneLifetime(env: Env, s: State, log: seq<Action>, id: string)
    decreases |log|
  {
    log == [] || (!Creates(env, s, log[0], id) && OneLifetime(env, Step(env, s, log[0]).next, log[1..], id))
  }

  /** While id is not created anew its version never goes back, and a resource that still has the
      same version is the same resource. */
  predicate Evolved(id: string, s: State, t: State) {
    && (id !in s.items ==> id !in t.items)
    && (id in s.items && id in t.items ==>
          && VersionOf(s, id) <= VersionOf(t, id)
          && (VersionOf(s, id) == VersionOf(t, id) ==> s.items[id] == t.items[id]))
  }

  lemma {:induction false} StepEvolves(env: Env, s: State, a: Action, id: string)
    requires !Creates(env, s, a, id)
    ensures Evolved(id, s, Step(env, s, a).next)
  {
    hide Clash, Patched, VersionMatches, Canonical, UniqueNames, Without;
  }

  lemma EvolvedThen(id: string, s: State, t: State, u: State)
    requires Evolved(id, s, t) && Evolved(id, t, u)
    ensures Evolved(id, s, u)
  {
  }

  /** The stored resource carries the version of its counter. */
  predicate Current(s: State, id: string) {
    id in s.items ==> id in s.versions && s.items[id].meta.version == VersionString(s.versions[id])
  }

  /** The steps of a run that change the resource. */
  function Changes(env: Env, s: State, log: seq<Action>, id: string): nat
    decreases |log|
  {
    if log == [] then 0
    else
      var t := Step(env, s, log[0]).next;
      (if id in s.items && id in t.items && t.items[id] != s.items[id] then 1 else 0) + Changes(env, t, log[1..], id)
  }

  /** A step that changes the resource advances its version by one, any other leaves it. */
  lemma {:induction false} ChangeAdvances(env: Env, s: State, a: Action, id: string)
    requires Current(s, id)
    ensures var t := Step(env, s, a).next;
            && Current(t, id)
            && (id in s.items && id in t.items ==> VersionOf(t, id) == VersionOf(s, id) + if t.items[id] != s.items[id] then 1 else 0)
  {
    hide Clash, PS.ApplyOps, VersionMatches, UniqueNames, Without, Canonical, VersionString;
    VersionsDiffer(VersionOf(s, id));
  }

  lemma {:induction false} VersionsDiffer(n: nat)
    ensures VersionString(n) != VersionString(n + 1)
  {
    OpaqueVersion(n);
    OpaqueVersion(n + 1);
    if VersionString(n) == VersionString(n + 1) { DecimalInjective(n, n + 1); }
  }

  /** Along every run in which id is not created anew, its version grows by one with each change
      and tells its states apart. */
  lemma {:induction false} RunEvolves(env: Env, s: State, log: seq<Action>, id: string)
    requires OneLifetime(env, s, log, id)
    ensures Evolved(id, s, Run(env, s, log))
    ensures Current(s, id) && id in s.items && id in Run(env, s, log).items ==>
              VersionOf(Run(env, s, log), id) == VersionOf(s, id) + Changes(env, s, log, id)
    decreases |log|
  {
    hide Step, Evolved, Creates, Current;
    if log == [] {
      EvolvedSelf(id, s);
    } else {
      var t := Step(env, s, log[0]).next;
      StepEvolves(env, s, log[0], id);
      if Current(s, id) { ChangeAdvances(env, s, log[0], id); }
      RunEvolves(env, t, log[1..], id);
      EvolvedThen(id, s, t, Run(env, s, log));
      NeverBack(id, s, t, Run(env, s, log));
    }
  }

  lemma {:induction false} RunCurrent(env: Env, s: State, log: seq<Action>, id: string)
    requires Current(s, id)
    ensures Current(Run(env, s, log), id)
    decreases |log|
  {
    hide Step, Current;
    if log != [] {
      ChangeAdvances(env, s, log[0], id);
      RunCurrent(env, Step(env, s, log[0]).next, log[1..], id);
    }
  }

  lemma NeverBack(id: string, s: State, t: State, u: State)
    requires Evolved(id, s, t) && Evolved(id, t, u)
    ensures id in u.items ==> id in t.items
  {
  }

  lemma EvolvedSelf(id: string, s: State)
    ensures Evolved(id, s, s)
  {
  }

  /** The restriction is needed: deleting a resource drops its counter, so one created again
      under the same id starts over at version one. */
  lemma {:induction false} VersionStartsOver(env: Env, s: State, id: string, res: Doc)
    requires id in s.items && id != "" && Lookup(res.attrs, ID) == Some(Str(id))
    requires !Clash(env.rt, UniqueNames(env.rt.core.attrs), s.items - {id}, id, WithId(res, id))
    ensures var t := Run(env, s, [DeleteA(id), CreateA(res, "")]);
            id in t.items && VersionOf(t, id) == 1
  {
    hide Clash, UniqueNames, Without;
    var log := [DeleteA(id), CreateA(res, "")];
    assert log[1..] == [CreateA(res, "")] && log[1..][1..] == [];
    assert WithId(res, id) == WithId(res, CreatedId(res, ""));
    var t1 := Step(env, s, log[0]).next;
    assert Run(env, s, log) == Run(env, t1, log[1..]) == Run(env, Step(env, t1, log[1]).next, []);
  }

  // ----- The store takes these steps -----

  ghost function StateOf(st: Store): State
    reads st
  {
    State(st.items, st.versions, st.order)
  }

  predicate WellFormed(rt: ResourceType, a: Action) {
    match a
    case CreateA(res, _) => Canonical(rt, res)
    case ReplaceA(_, res) => Canonical(rt, res)
    case DeleteA(_) => true
    case PatchA(_, ops, _) => forall op <- ops :: ParsedOp(op)
  }

  lemma {:induction false} VersionKeys(st: Store)
    requires st.Valid()
    ensures st.versions.Keys == st.items.Keys && st.unique == UniqueNames(st.env.rt.core.attrs)
  {
    hide StoreType, Identified, IndexAgrees, UniqueHeld, UniqueNames;
  }

  /** Every method of the store is the step of the same name. */
  method Perform(st: Store, a: Action) returns (reply: Result<Option<Doc>>)
    requires st.Valid() && WellFormed(st.env.rt, a)
    modifies st
    ensures st.Valid() && Outcome(StateOf(st), reply) == Step(st.env, old(StateOf(st)), a)
  {
    hide Clash, Patched, VersionMatches, Canonical, UniqueNames, Without, Stamped, WithId, CreatedId, Store.Valid;
    VersionKeys(st);
    match a {
      case CreateA(res, generated) =>
        var r := st.Create(res, generated);
        reply := if r.Ok? then Ok(Some(r.value)) else Err(r.kind);
      case ReplaceA(id, res) =>
        var r := st.Replace(id, res);
        reply := if r.Ok? then Ok(Some(r.value)) else Err(r.kind);
      case DeleteA(id) =>
        var fail := st.Delete(id);
        reply := if fail.None? then Ok(None) else Err(fail.value);
      case PatchA(id, ops, now) =>
        var r := st.Patch(id, ops, now);
        reply := if r.Ok? then Ok(Some(r.value)) else Err(r.kind);
    }
  }

  lemma {:induction false} StoreCurrent(st: Store)
    requires st.Valid()
    ensures forall id :: Current(StateOf(st), id)
  {
    hide StoreType, Canonical, IndexAgrees, UniqueHeld, UniqueNames, OrderAgrees, VersionString;
  }

  /** So every reachable state is a run of steps, all the store's structures agree in it, and
      every resource carries the version of its counter. */
  method PerformAll(st: Store, log: seq<Action>)
    requires st.Valid() && forall a <- log :: WellFormed(st.env.rt, a)
    modifies st
    ensures st.Valid() && StateOf(st) == Run(st.env, old(StateOf(st)), log)
    ensures forall id :: Current(StateOf(st), id)
  {
    hide Step, WellFormed, OrderAgrees, IndexAgrees, UniqueHeld, StoreType, Identified, Current;
    for i := 0 to |log|
      invariant st.Valid() && Run(st.env, old(StateOf(st)), log) == Run(st.env, StateOf(st), log[i..])
    {
      assert log[i..][1..] == log[i + 1..];
      var _ := Perform(st, log[i]);
    }
    assert log[|log|..] == [];
    StoreCurrent(st);
  }
}
