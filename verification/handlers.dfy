/** The server's read-modify-write handlers against a store that other parties write to in
    between (server/handler_patch.go, server/handler_crud.go). Whatever the others do, short of
    deleting and creating the resource anew between a read and the swap that follows it, a PATCH
    through the compare-and-swap fallback is one atomic native Patch, and a PUT overwrites
    exactly the resource it read. */
module Handlers {
  import opened Text
  import opened Schema
  import opened Values
  import opened Documents
  import opened PatchRules
  import opened PatchSpec
  import opened PatchFacts
  import opened Versions
  import opened StoreState
  import opened Memstore
  import opened StoreRuns
  import M = MergePut

  /** patchRetries. */
  const PATCH_RETRIES := 3

  /** checkIfMatch: a missing header passes. */
  predicate IfMatchPasses(header: string, cur: Doc) {
    header == "" || EtagMatch(header, cur.meta.version)
  }

  /** A request without a header passes, one with a header exactly when it admits the version. */
  lemma {:induction false} PassesIff(tokens: seq<string>, cur: Doc, n: nat)
    requires tokens != [] && (forall i :: 0 <= i < |tokens| ==> ',' !in tokens[i]) && Joined(tokens) != ""
    requires cur.meta.version == VersionString(n)
    ensures IfMatchPasses("", cur)
    ensures IfMatchPasses(Joined(tokens), cur) <==> (exists i :: 0 <= i < |tokens| && Names(tokens[i], n)) || IsStar(Joined(tokens))
  {
    hide EtagMatch, Joined, Names, IsStar, VersionString;
    HeaderIff(tokens, n);
  }

  /** The requests of others that have happened once the first n gaps are over. */
  function Before(gaps: nat -> seq<Action>, n: nat): seq<Action> {
    if n == 0 then [] else Before(gaps, n - 1) + gaps(n - 1)
  }

  ghost predicate WellFormedGaps(rt: ResourceType, gaps: nat -> seq<Action>) {
    forall k: nat, a :: a in gaps(k) ==> WellFormed(rt, a)
  }

  /** The state before gap k, when the handler itself has written nothing. */
  function StateAt(env: Env, s0: State, gaps: nat -> seq<Action>, k: nat): State {
    Run(env, s0, Before(gaps, k))
  }

  /** Nobody creates id anew in gap k. */
  predicate Unremade(env: Env, s0: State, gaps: nat -> seq<Action>, id: string, k: nat) {
    OneLifetime(env, StateAt(env, s0, gaps, k), gaps(k), id)
  }

  /** The gaps lie alternately before a read and between the read and its swap; in the latter
      nobody creates id anew. */
  ghost predicate SwapsUnremade(env: Env, s0: State, gaps: nat -> seq<Action>, id: string) {
    forall k: nat :: k % 2 == 1 && k < 2 * PATCH_RETRIES ==> Unremade(env, s0, gaps, id, k)
  }

  /** Nobody creates id anew once the handler has read it. */
  ghost predicate NeverRemade(env: Env, s0: State, gaps: nat -> seq<Action>, id: string) {
    forall k: nat :: k > 0 ==> Unremade(env, s0, gaps, id, k)
  }

  /** Others change the resource in gap k. */
  predicate Raced(env: Env, s0: State, gaps: nat -> seq<Action>, id: string, k: nat) {
    var (read, swap) := (StateAt(env, s0, gaps, k), StateAt(env, s0, gaps, k + 1));
    id in read.items && id in swap.items && swap.items[id] != read.items[id]
  }

  lemma {:induction false} NextState(env: Env, s0: State, gaps: nat -> seq<Action>, k: nat)
    ensures StateAt(env, s0, gaps, k + 1) == Run(env, StateAt(env, s0, gaps, k), gaps(k))
  {
    hide Run;
    RunThen(env, s0, Before(gaps, k), gaps(k));
  }

  lemma {:induction false} GapEvolves(env: Env, s0: State, gaps: nat -> seq<Action>, id: string, k: nat)
    requires Unremade(env, s0, gaps, id, k)
    ensures Evolved(id, StateAt(env, s0, gaps, k), StateAt(env, s0, gaps, k + 1))
  {
    hide StateAt, OneLifetime, Evolved, Run;
    NextState(env, s0, gaps, k);
    RunEvolves(env, StateAt(env, s0, gaps, k), gaps(k), id);
  }

  lemma {:induction false} GapsEvolve(env: Env, s0: State, gaps: nat -> seq<Action>, id: string, m: nat, n: nat)
    requires NeverRemade(env, s0, gaps, id) && 0 < m <= n
    ensures Evolved(id, StateAt(env, s0, gaps, m), StateAt(env, s0, gaps, n))
    decreases n - m
  {
    hide StateAt, Unremade, Evolved;
    if m == n {
      EvolvedSelf(id, StateAt(env, s0, gaps, m));
    } else {
      GapEvolves(env, s0, gaps, id, m);
      GapsEvolve(env, s0, gaps, id, m + 1, n);
      EvolvedThen(id, StateAt(env, s0, gaps, m), StateAt(env, s0, gaps, m + 1), StateAt(env, s0, gaps, n));
    }
  }

  /** While id is not created anew, a resource changed in the gap after the first read never again
      has a version that a header with the version first read admits. */
  lemma {:induction false} RacedTagStale(env: Env, s0: State, gaps: nat -> seq<Action>, id: string, n: nat)
    requires Current(s0, id) && NeverRemade(env, s0, gaps, id) && Raced(env, s0, gaps, id, 1) && 2 <= n
    requires id in StateAt(env, s0, gaps, n).items
    ensures !EtagMatch(StateAt(env, s0, gaps, 1).items[id].meta.version, StateAt(env, s0, gaps, n).items[id].meta.version)
  {
    hide EtagMatch, VersionString, Unremade, Run;
    var (first, last) := (StateAt(env, s0, gaps, 1), StateAt(env, s0, gaps, n));
    GapsEvolve(env, s0, gaps, id, 1, 2);
    GapsEvolve(env, s0, gaps, id, 2, n);
    RunCurrent(env, s0, Before(gaps, 1), id);
    RunCurrent(env, s0, Before(gaps, n), id);
    EtagMatchIff(VersionOf(first, id), VersionOf(last, id));
  }

  /** Other parties write: the state runs on by their next gap. */
  method Interfere(st: Store, gaps: nat -> seq<Action>, k: nat, ghost s0: State)
    requires st.Valid() && WellFormedGaps(st.env.rt, gaps) && StateOf(st) == StateAt(st.env, s0, gaps, k)
    modifies st
    ensures st.Valid() && StateOf(st) == StateAt(st.env, s0, gaps, k + 1)
  {
    hide WellFormed, Step, Run, StateAt, Store.Valid;
    NextState(st.env, s0, gaps, k);
    PerformAll(st, gaps(k));
  }

  /** The stored resource, as Get hands it out: canonical, carrying its id and its counter. */
  lemma {:induction false} StoredFacts(st: Store, id: string)
    requires st.Valid() && id in st.items
    ensures Canonical(st.env.rt, st.items[id]) && Lookup(st.items[id].attrs, ID) == Some(Str(id))
    ensures id in st.versions && st.items[id].meta.version == VersionString(st.versions[id])
    ensures StoreType(st.env.rt) && st.unique == UniqueNames(st.env.rt.core.attrs)
  {
    hide Canonical, StoreType, IndexAgrees, UniqueHeld, OrderAgrees, UniqueNames;
  }

  /** A token read from an earlier state of the resource matches that very state alone. */
  lemma {:induction false} TokenPins(id: string, s: State, t: State, token: string)
    requires Evolved(id, s, t) && id in s.items && id in t.items
    requires s.items[id].meta.version == VersionString(VersionOf(s, id)) && t.items[id].meta.version == VersionString(VersionOf(t, id))
    requires token == s.items[id].meta.version
    ensures VersionMatches(token, t.items[id].meta.version) <==> t.items[id] == s.items[id]
  {
    VersionMatchesIff(VersionOf(s, id), VersionOf(t, id));
  }

  /** Swapping in the patched resource over the state it was computed from is the native Patch. */
  lemma {:induction false} SwapIsPatch(env: Env, s: State, id: string, ops: seq<Op>, now: Moment, next: Doc)
    requires StoreType(env.rt) && (forall op <- ops :: ParsedOp(op)) && id in s.items
    requires Canonical(env.rt, s.items[id]) && Lookup(s.items[id].attrs, ID) == Some(Str(id))
    requires var r := Apply(env, s.items[id], ops); r.Ok? && r.value.changed && next == Touched(r.value.doc, now)
    requires Step(env, s, ReplaceA(id, next)).reply.Ok?
    ensures Step(env, s, ReplaceA(id, next)) == Step(env, s, PatchA(id, ops, now))
  {
    hide Canonical, StoreType, ParsedOp, ApplyOps, Clash, VersionMatches, UniqueNames, VersionString;
    PatchKeepsId(env, s.items[id], ops);
    assert WithId(next, id) == next by { SameId(next, id); }
    StoreRegular(env.rt);
    ClashApart(env.rt, s.items, id, next, Stamped(next, VersionOf(s, id) + 1).meta);
  }

  lemma StoreRegular(rt: ResourceType)
    requires StoreType(rt)
    ensures Regular(rt)
  {
  }

  lemma {:induction false} SameId(d: Doc, id: string)
    requires Lookup(d.attrs, ID) == Some(Str(id))
    ensures WithId(d, id) == d
  {
    assert d.attrs[ID := Str(id)] == d.attrs;
  }

  /** One native Patch in state s ends in t and replies d. */
  ghost predicate IsPatch(env: Env, s: State, id: string, ops: seq<Op>, now: Moment, t: State, d: Doc) {
    Step(env, s, PatchA(id, ops, now)) == Outcome(t, Ok(Some(d)))
  }

  /** One swap of patchFallback: others write, then the patched resource goes out under the
      token of the resource it was computed from. It fails as a lost race exactly when others
      changed the resource. */
  method SwapAttempt(st: Store, id: string, ops: seq<Op>, now: Moment, gaps: nat -> seq<Action>, k: nat, cur: Doc, patched: Doc, ghost s0: State)
    returns (r: Result<Doc>)
    requires st.Valid() && (forall op <- ops :: ParsedOp(op)) && WellFormedGaps(st.env.rt, gaps) && Unremade(st.env, s0, gaps, id, k)
    requires StateOf(st) == StateAt(st.env, s0, gaps, k) && id in st.items && cur == st.items[id]
    requires Apply(st.env, cur, ops) == Ok(Work(patched, true))
    modifies st
    ensures st.Valid()
    ensures r.Ok? ==> IsPatch(st.env, StateAt(st.env, s0, gaps, k + 1), id, ops, now, StateOf(st), r.value)
    ensures r.Ok? ==> var at := StateAt(st.env, s0, gaps, k + 1); id in at.items && at.items[id] == cur
    ensures r.Err? ==> StateOf(st) == StateAt(st.env, s0, gaps, k + 1)
    ensures r == Err(PreconditionFailed) <==> Raced(st.env, s0, gaps, id, k)
  {
    hide WellFormedGaps, Unremade, Step, StateAt, Evolved, Store.Valid, Canonical, StoreType, ParsedOp, ApplyOps, VersionMatches, VersionString, UniqueNames;
    StoredFacts(st, id);
    GapEvolves(st.env, s0, gaps, id, k);
    ghost var read := StateOf(st);
    var next := Touched(patched, now);
    PatchKeepsId(st.env, cur, ops);
    MetaApart(st.env.rt, patched, next.meta);
    Interfere(st, gaps, k, s0);
    ghost var mid := StateOf(st);
    if id in st.items {
      StoredFacts(st, id);
      TokenPins(id, read, mid, next.meta.version);
    }
    ReplaceMatched(st.env, mid, id, next);
    var reply := StoreRuns.Perform(st, ReplaceA(id, next));
    if reply.Err? {
      RefusedKeeps(st.env, mid, ReplaceA(id, next));
      return Err(reply.kind);
    }
    SwapIsPatch(st.env, mid, id, ops, now, next);
    r := Ok(reply.value.value);
  }

  lemma {:induction false} RefusedKeeps(env: Env, s: State, a: Action)
    requires Step(env, s, a).reply.Err?
    ensures Step(env, s, a).next == s
  {
    hide Clash, Patched, VersionMatches, UniqueNames, Without;
  }

  /** A Replace goes through only if it finds the resource under a matching token; one refused
      for its token found the resource under another. */
  lemma {:induction false} ReplaceMatched(env: Env, s: State, id: string, res: Doc)
    ensures var reply := Step(env, s, ReplaceA(id, res)).reply;
            && (reply.Ok? ==> reply.value.Some? && id in s.items && VersionMatches(res.meta.version, s.items[id].meta.version))
            && (reply == Err(PreconditionFailed) <==> id in s.items && !VersionMatches(res.meta.version, s.items[id].meta.version))
  {
    hide Clash, VersionMatches, UniqueNames;
  }

  /** patchFallback. Against every interleaving of other requests that do not create the
      resource anew between a read and its swap, an accepted PATCH is one native Patch at the
      point where it took effect: no committed write of others is lost or overwritten unseen. A
      refused one changes nothing. A swap is tried again, three times at most, exactly when
      others changed the resource between the read and the swap. The If-Match precondition,
      checked against the first read, held there. It holds of the resource overwritten when no
      swap was retried; a header with the version first read does so only then, unless the
      resource is created anew. valid is the schema validation, clock the time. */
  method PatchFallback(st: Store, id: string, ops: seq<Op>, ifMatch: string, clock: nat -> Moment, valid: Doc -> Option<Kind>, gaps: nat -> seq<Action>)
    returns (r: Result<Doc>, swaps: nat, ghost seen: nat, ghost attempt: nat)
    requires st.Valid() && (forall op <- ops :: ParsedOp(op)) && WellFormedGaps(st.env.rt, gaps)
    requires SwapsUnremade(st.env, StateOf(st), gaps, id)
    modifies st
    ensures st.Valid() && swaps <= 3
    ensures r.Ok? ==> IsPatch(st.env, StateAt(st.env, old(StateOf(st)), gaps, seen), id, ops, clock(attempt), StateOf(st), r.value)
    ensures r.Err? ==> StateOf(st) == StateAt(st.env, old(StateOf(st)), gaps, seen)
    ensures forall k: nat :: k % 2 == 1 && k + 1 < 2 * swaps ==> Raced(st.env, old(StateOf(st)), gaps, id, k)
    ensures seen == 2 * swaps > 0 || (seen == 2 * swaps + 1 && swaps < 3)
    ensures seen == 2 * swaps ==>
              && (r == Err(PreconditionFailed) <==> Raced(st.env, old(StateOf(st)), gaps, id, seen - 1))
              && (r == Err(PreconditionFailed) ==> swaps == 3)
    ensures r.Ok? ==> Admitted(st.env, old(StateOf(st)), gaps, id, ifMatch, seen, attempt)
    ensures r.Ok? && NeverRemade(st.env, old(StateOf(st)), gaps, id) ==>
              (EtagMatch(TagAt(st.env, old(StateOf(st)), gaps, id, 1), TagAt(st.env, old(StateOf(st)), gaps, id, seen)) <==> attempt == 0)
  {
    hide WellFormedGaps, NeverRemade, Raced, Step, StateAt, Evolved, Current, Store.Valid, ParsedOp, ApplyOps, EtagMatch;
    ghost var s0 := StateOf(st);
    StateNow(st.env, s0, gaps);
    StoreCurrent(st);
    swaps := 0;
    while true
      invariant st.Valid() && swaps < PATCH_RETRIES
      invariant StateOf(st) == StateAt(st.env, s0, gaps, 2 * swaps)
      invariant swaps > 0 ==> var first := StateAt(st.env, s0, gaps, 1); id in first.items && IfMatchPasses(ifMatch, first.items[id])
      invariant forall k: nat :: k % 2 == 1 && k < 2 * swaps ==> Raced(st.env, s0, gaps, id, k)
      decreases PATCH_RETRIES - swaps
    {
      attempt, seen := swaps, 2 * swaps + 1;
      Interfere(st, gaps, 2 * swaps, s0);
      var current := st.Get(id);
      if current.Err? { return Err(current.kind), swaps, seen, attempt; }
      if swaps == 0 && !IfMatchPasses(ifMatch, current.value) { return Err(PreconditionFailed), swaps, seen, attempt; }
      var result := Apply(st.env, current.value, ops);
      if result.Err? { return Err(result.kind), swaps, seen, attempt; }
      if !result.value.changed {
        NoopIsPatch(st.env, StateOf(st), id, ops, clock(attempt));
        TagAdmits(st.env, s0, gaps, id, seen, attempt);
        return current, swaps, seen, attempt;
      }
      var verdict := valid(result.value.doc);
      if verdict.Some? { return Err(verdict.value), swaps, seen, attempt; }
      seen := seen + 1;
      r := SwapAttempt(st, id, ops, clock(swaps), gaps, 2 * swaps + 1, current.value, result.value.doc, s0);
      if r.Ok? { TagAdmits(st.env, s0, gaps, id, seen, attempt); }
      swaps := swaps + 1;
      if r.Ok? || r.kind != PreconditionFailed || swaps >= PATCH_RETRIES { return; }
    }
  }

  /** The resource overwritten after seen gaps, its precondition checked at the first read: the
      header admits the resource first read, and that is the resource overwritten when no swap
      was retried. */
  ghost predicate Admitted(env: Env, s0: State, gaps: nat -> seq<Action>, id: string, ifMatch: string, seen: nat, attempt: nat) {
    var (first, last) := (StateAt(env, s0, gaps, 1), StateAt(env, s0, gaps, seen));
    && id in first.items && IfMatchPasses(ifMatch, first.items[id])
    && id in last.items && (attempt == 0 ==> last.items[id] == first.items[id])
  }

  /** The version the resource carries after n gaps. */
  function TagAt(env: Env, s0: State, gaps: nat -> seq<Action>, id: string, n: nat): string {
    var s := StateAt(env, s0, gaps, n);
    if id in s.items then s.items[id].meta.version else ""
  }

  lemma {:induction false} TagAdmits(env: Env, s0: State, gaps: nat -> seq<Action>, id: string, seen: nat, attempt: nat)
    requires Current(s0, id) && id in StateAt(env, s0, gaps, 1).items && id in StateAt(env, s0, gaps, seen).items
    requires if attempt == 0 then TagAt(env, s0, gaps, id, seen) == TagAt(env, s0, gaps, id, 1) else Raced(env, s0, gaps, id, 1) && 2 <= seen
    ensures NeverRemade(env, s0, gaps, id) ==> (EtagMatch(TagAt(env, s0, gaps, id, 1), TagAt(env, s0, gaps, id, seen)) <==> attempt == 0)
  {
    hide NeverRemade, Raced, StateAt, EtagMatch, VersionString;
    if attempt == 0 {
      FirstCurrent(env, s0, gaps, id);
      EtagMatchIff(VersionOf(StateAt(env, s0, gaps, 1), id), VersionOf(StateAt(env, s0, gaps, 1), id));
    } else if NeverRemade(env, s0, gaps, id) {
      RacedTagStale(env, s0, gaps, id, seen);
    }
  }

  lemma {:induction false} FirstCurrent(env: Env, s0: State, gaps: nat -> seq<Action>, id: string)
    requires Current(s0, id)
    ensures Current(StateAt(env, s0, gaps, 1), id)
  {
    hide Run, Current;
    RunCurrent(env, s0, Before(gaps, 1), id);
  }

  lemma StateNow(env: Env, s: State, gaps: nat -> seq<Action>)
    ensures StateAt(env, s, gaps, 0) == s
  {
  }

  lemma {:induction false} NoopIsPatch(env: Env, s: State, id: string, ops: seq<Op>, now: Moment)
    requires id in s.items && Apply(env, s.items[id], ops).Ok? && !Apply(env, s.items[id], ops).value.changed
    ensures Step(env, s, PatchA(id, ops, now)) == Outcome(s, Ok(Some(s.items[id])))
  {
    hide ApplyOps, Clash, UniqueNames;
  }

  /** In state s a PUT of the merged resource over cur goes through, ending in t. */
  ghost predicate PutOver(env: Env, s: State, id: string, cur: Doc, merged: Doc, t: State, d: Doc) {
    id in s.items && s.items[id] == cur && Step(env, s, ReplaceA(id, merged)) == Outcome(t, Ok(Some(d)))
  }

  /** replaceLocked. Against every interleaving of other requests that do not create the
      resource anew between the read and the write, an accepted PUT overwrites exactly the resource it
      was merged with, whose version the If-Match header admits: everywhere the request's value,
      except for that resource's id and its readOnly and immutable values. A refused one changes nothing, and the write is refused as
      a lost race exactly when others changed the resource. */
  method ReplaceLocked(st: Store, id: string, incoming: Doc, ifMatch: string, now: Moment, valid: Doc -> Option<Kind>, gaps: nat -> seq<Action>)
    returns (r: Result<Doc>, ghost seen: nat)
    requires st.Valid() && Canonical(st.env.rt, incoming) && WellFormedGaps(st.env.rt, gaps)
    requires Unremade(st.env, StateOf(st), gaps, id, 1)
    modifies st
    ensures st.Valid()
    ensures r.Err? ==> StateOf(st) == StateAt(st.env, old(StateOf(st)), gaps, seen)
    ensures seen == 2 ==> (r == Err(PreconditionFailed) <==> Raced(st.env, old(StateOf(st)), gaps, id, 1))
    ensures r.Ok? ==>
              var s := StateAt(st.env, old(StateOf(st)), gaps, 2);
              && id in s.items && IfMatchPasses(ifMatch, s.items[id])
              && var merged := M.Merge(st.env.lx, st.env.rt, incoming, s.items[id], now);
              && merged.Ok? && PutOver(st.env, s, id, s.items[id], merged.value, StateOf(st), r.value)
              && forall l: Loc :: Slot(merged.value, l) == M.PutSlot(st.env.rt, incoming, s.items[id], l)
  {
    hide WellFormedGaps, Unremade, Step, StateAt, Evolved, Store.Valid, StoreType, Canonical, EtagMatch, VersionString, VersionMatches, UniqueNames,
      M.Merge, M.PutSlot, Slot;
    ghost var s0 := StateOf(st);
    StateNow(st.env, s0, gaps);
    GapEvolves(st.env, s0, gaps, id, 1);
    Interfere(st, gaps, 0, s0);
    seen := 1;
    ghost var read := StateOf(st);
    var current := st.Get(id);
    if current.Err? { return Err(current.kind), seen; }
    var cur := current.value;
    if !IfMatchPasses(ifMatch, cur) { return Err(PreconditionFailed), seen; }
    var merged := M.Merge(st.env.lx, st.env.rt, incoming, cur, now);
    if merged.Err? { return Err(merged.kind), seen; }
    var verdict := valid(merged.value);
    if verdict.Some? { return Err(verdict.value), seen; }
    StoredFacts(st, id);
    M.MergeRetains(st.env.lx, st.env.rt, incoming, cur, now, id);
    Interfere(st, gaps, 1, s0);
    seen := 2;
    ghost var mid := StateOf(st);
    if id in st.items {
      StoredFacts(st, id);
      TokenPins(id, read, mid, merged.value.meta.version);
    }
    ReplaceMatched(st.env, mid, id, merged.value);
    var reply := StoreRuns.Perform(st, ReplaceA(id, merged.value));
    if reply.Err? {
      RefusedKeeps(st.env, mid, ReplaceA(id, merged.value));
      return Err(reply.kind), seen;
    }
    r := Ok(reply.value.value);
  }
}
