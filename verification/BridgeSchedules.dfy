/** Schedules of overlapping calls that go wrong. */
module BridgeSchedules {
  import opened Prelude
  import opened BridgeChain
  import opened BridgeSource
  import opened BridgeCache
  import opened BridgeConcurrency

  ghost predicate Reachable(s: System, lookahead: nat, oneScript: bool, t: System) {
    exists acts :: AllowedRun(s, lookahead, acts, oneScript) && Run(s, lookahead, acts) == t
  }

  lemma ReachSelf(s: System, lookahead: nat, oneScript: bool)
    ensures Reachable(s, lookahead, oneScript, s)
  {
    assert AllowedRun(s, lookahead, [], oneScript) && Run(s, lookahead, []) == s;
  }

  lemma ReachNext(s: System, lookahead: nat, oneScript: bool, t: System, a: Action)
    requires Reachable(s, lookahead, oneScript, t) && Allowed(t, a, oneScript)
    ensures Reachable(s, lookahead, oneScript, Next(t, lookahead, a))
  {
    var acts :| AllowedRun(s, lookahead, acts, oneScript) && Run(s, lookahead, acts) == t;
    RunSnoc(s, lookahead, acts, a, oneScript);
  }

  lemma ReachBoth(s: System, lookahead: nat, oneScript: bool, x: Query, y: Query)
    requires s.calls == [] && Fits(x) && Fits(y) && (oneScript ==> x.scripts == y.scripts)
    ensures Reachable(s, lookahead, oneScript, System(s.chain, s.cache, [Call(x, Begin), Call(y, Begin)]))
  {
    ReachSelf(s, lookahead, oneScript);
    ReachNext(s, lookahead, oneScript, s, Submit(x));
    ReachNext(s, lookahead, oneScript, System(s.chain, s.cache, [Call(x, Begin)]), Submit(y));
  }

  /** Call `i` makes a step. */
  lemma StepAt(
    s: System, lookahead: nat, oneScript: bool, c: MainChain, k: Cache, xs: seq<Call>, i: nat, latest: Option<nat>)
    requires i < |xs| && Reachable(s, lookahead, oneScript, System(c, k, xs))
    requires latest.Some? ==> latest.value <= c.tip
    ensures
      var (k', stage) := StepCall(c, k, xs[i], lookahead, latest);
      Reachable(s, lookahead, oneScript, System(c, k', xs[i := xs[i].(stage := stage)]))
  {
    ReachNext(s, lookahead, oneScript, System(c, k, xs), Advance(i, latest));
  }

  /** A query after a block checkpoint that the chain can answer. */
  predicate Plain(c: MainChain, q: Query) {
    q.checkpoint.Block? && q.checkpoint.number < U32_SPAN && q.mcBlock in c.blocks && 0 < c.blocks[q.mcBlock]
  }

  function To(c: MainChain, q: Query): nat
    requires Plain(c, q)
  {
    c.blocks[q.mcBlock]
  }

  function At(q: Query): Resolved
    requires q.checkpoint.Block?
  {
    AtBlock(q.checkpoint.number)
  }

  /** The call with its rows loaded. */
  function LoadedCall(c: MainChain, q: Query, lookahead: nat, latest: Option<nat>): Call
    requires Plain(c, q)
  {
    var end := FillEnd(To(c, q), lookahead, latest);
    Call(q, Loaded(To(c, q), At(q), end, FillRows(c, q.scripts, q.checkpoint.number, end)))
  }

  lemma UpdateTwice<T>(xs: seq<T>, i: nat, a: T, b: T)
    requires i < |xs|
    ensures xs[i := a][i := b] == xs[i := b]
  {
  }

  /** Call `i` from having set its scripts to having located its checkpoint. */
  lemma CallLocates(
    s: System, lookahead: nat, oneScript: bool, c: MainChain, k: Cache, xs: seq<Call>, i: nat, q: Query,
    latest: Option<nat>)
    requires i < |xs| && xs[i] == Call(q, Scripted) && Plain(c, q) && (latest.Some? ==> latest.value <= c.tip)
    requires Reachable(s, lookahead, oneScript, System(c, k, xs))
    ensures Reachable(s, lookahead, oneScript, System(c, k, xs[i := Call(q, Located(To(c, q), At(q)))]))
  {
    StepAt(s, lookahead, oneScript, c, k, xs, i, latest);
    var ys := xs[i := Call(q, Referenced(To(c, q)))];
    StepAt(s, lookahead, oneScript, c, k, ys, i, latest);
    UpdateTwice(xs, i, Call(q, Referenced(To(c, q))), Call(q, Located(To(c, q), At(q))));
  }

  /** Call `i` from its start to the rows it has loaded, when the cached range ends before its reference. */
  lemma CallLoads(
    s: System, lookahead: nat, oneScript: bool, c: MainChain, k: Cache, xs: seq<Call>, i: nat, q: Query,
    latest: Option<nat>)
    requires i < |xs| && xs[i] == Call(q, Begin) && Plain(c, q) && (latest.Some? ==> latest.value <= c.tip)
    requires Reachable(s, lookahead, oneScript, System(c, k, xs)) && SetScripts(k, q.scripts).end < To(c, q)
    ensures Reachable(s, lookahead, oneScript,
      System(c, SetScripts(k, q.scripts), xs[i := LoadedCall(c, q, lookahead, latest)]))
  {
    var k', located, missed := SetScripts(k, q.scripts), Call(q, Located(To(c, q), At(q))), Call(q, Missed(To(c, q), At(q)));
    StepAt(s, lookahead, oneScript, c, k, xs, i, latest);
    CallLocates(s, lookahead, oneScript, c, k', xs[i := Call(q, Scripted)], i, q, latest);
    UpdateTwice(xs, i, Call(q, Scripted), located);
    StepAt(s, lookahead, oneScript, c, k', xs[i := located], i, latest);
    UpdateTwice(xs, i, located, missed);
    StepAt(s, lookahead, oneScript, c, k', xs[i := missed], i, latest);
    UpdateTwice(xs, i, missed, LoadedCall(c, q, lookahead, latest));
  }

  /** The cache after a call for `q` stored its rows. */
  function Stored(c: MainChain, k: Cache, q: Query, lookahead: nat, latest: Option<nat>): Cache
    requires Plain(c, q)
  {
    var end := FillEnd(To(c, q), lookahead, latest);
    SetCached(k, q.checkpoint.number, end, FillRows(c, q.scripts, q.checkpoint.number, end))
  }

  lemma CallStores(
    s: System, lookahead: nat, oneScript: bool, c: MainChain, k: Cache, xs: seq<Call>, i: nat, q: Query,
    latest: Option<nat>)
    requires i < |xs| && Plain(c, q) && xs[i] == LoadedCall(c, q, lookahead, latest)
    requires (latest.Some? ==> latest.value <= c.tip) && Reachable(s, lookahead, oneScript, System(c, k, xs))
    ensures Reachable(s, lookahead, oneScript,
      System(c, Stored(c, k, q, lookahead, latest), xs[i := Call(q, Refilled(To(c, q), At(q)))]))
  {
    StepAt(s, lookahead, oneScript, c, k, xs, i, latest);
  }

  /** A located or refilled call at the checkpoint and reference of `q` is served the rows stored for `q`. */
  lemma CallServed(
    s: System, lookahead: nat, oneScript: bool, c: MainChain, k: Cache, xs: seq<Call>, i: nat, q: Query, own: Scripts,
    latest: Option<nat>)
    requires c.Valid() && i < |xs| && Plain(c, q) && latest == Some(To(c, q))
    requires xs[i].query == q.(scripts := own)
    requires xs[i].stage == Located(To(c, q), At(q)) || xs[i].stage == Refilled(To(c, q), At(q))
    requires Reachable(s, lookahead, oneScript, System(c, Stored(c, k, q, lookahead, latest), xs))
    ensures Reachable(s, lookahead, oneScript,
      System(c, Stored(c, k, q, lookahead, latest), xs[i := Call(q.(scripts := own), Done(CachedFetch(c, q)))]))
  {
    var k' := Stored(c, k, q, lookahead, latest);
    FillKeepsOk(k.(scripts := q.scripts), c, q.checkpoint.number, FillEnd(To(c, q), lookahead, latest));
    assert k'.(scripts := q.scripts) == Stored(c, k.(scripts := q.scripts), q, lookahead, latest);
    assert Serve(k', At(q), To(c, q), q.limit).Some?;
    ServedAnswer(c, k', q.scripts, xs[i].query, To(c, q), At(q));
    assert xs[i].query.(scripts := q.scripts) == q;
    StepAt(s, lookahead, oneScript, c, k', xs, i, latest);
  }

  /** Answers for other scripts: call 0 sets its scripts and locates its checkpoint, call 1 then refills the
      cache for the other scripts, and call 0 is given that answer. For any query and any other scripts. */
  lemma OverlapMixesScripts(c: MainChain, q: Query, other: Scripts, defaultScripts: Scripts, lookahead: nat)
    requires c.Valid() && Plain(c, q) && q.scripts != other
    ensures exists t ::
      && Reachable(Fresh(c, defaultScripts), lookahead, false, t)
      && |t.calls| == 2 && t.calls[0] == Call(q, Done(CachedFetch(c, q.(scripts := other))))
  {
    var s, q', latest := Fresh(c, defaultScripts), q.(scripts := other), Some(To(c, q));
    var k, k' := EmptyCache(q.scripts), EmptyCache(other);
    var xs := [Call(q, Begin), Call(q', Begin)];
    ReachBoth(s, lookahead, false, q, q');
    StepAt(s, lookahead, false, c, s.cache, xs, 0, latest);
    xs := xs[0 := Call(q, Scripted)];
    CallLocates(s, lookahead, false, c, k, xs, 0, q, latest);
    xs := xs[0 := Call(q, Located(To(c, q), At(q)))];
    CallLoads(s, lookahead, false, c, k, xs, 1, q', latest);
    xs := xs[1 := LoadedCall(c, q', lookahead, latest)];
    CallStores(s, lookahead, false, c, k', xs, 1, q', latest);
    xs := xs[1 := Call(q', Refilled(To(c, q), At(q)))];
    CallServed(s, lookahead, false, c, k', xs, 0, q', q.scripts, latest);
  }

  /** Rows stored late stay under the wrong label: call 0 loads its rows, call 1 sets other scripts, call 0
      stores. When all calls are done, a later call for the other scripts, running alone, is still given
      the answer for the scripts of call 0. For any query and any other scripts. */
  lemma LateRowsMislabelled(c: MainChain, q: Query, other: Scripts, defaultScripts: Scripts, lookahead: nat)
    requires c.Valid() && Plain(c, q) && q.scripts != other
    ensures exists t, u ::
      && Reachable(Fresh(c, defaultScripts), lookahead, false, t)
      && |t.calls| == 2 && t.calls[0].stage.Done? && t.calls[1].stage.Done?
      && Reachable(t, lookahead, true, u)
      && |u.calls| == 3 && u.calls[2] == Call(q.(scripts := other), Done(CachedFetch(c, q)))
  {
    var s, q', latest := Fresh(c, defaultScripts), q.(scripts := other), Some(To(c, q));
    var k, k' := EmptyCache(q.scripts), EmptyCache(other);
    var filled := Stored(c, k', q, lookahead, latest);
    var refilled, located := Refilled(To(c, q), At(q)), Located(To(c, q), At(q));
    var done := Done(CachedFetch(c, q));
    var xs := [Call(q, Begin), Call(q', Begin)];
    ReachBoth(s, lookahead, false, q, q');
    CallLoads(s, lookahead, false, c, s.cache, xs, 0, q, latest);
    xs := xs[0 := LoadedCall(c, q, lookahead, latest)];
    StepAt(s, lookahead, false, c, k, xs, 1, latest);
    xs := xs[1 := Call(q', Scripted)];
    CallStores(s, lookahead, false, c, k', xs, 0, q, latest);
    xs := xs[0 := Call(q, refilled)];
    CallServed(s, lookahead, false, c, k', xs, 0, q, q.scripts, latest);
    xs := xs[0 := Call(q, done)];
    CallLocates(s, lookahead, false, c, filled, xs, 1, q', latest);
    xs := xs[1 := Call(q', located)];
    CallServed(s, lookahead, false, c, k', xs, 1, q, other, latest);
    xs := xs[1 := Call(q', done)];
    var t := System(c, filled, xs);
    LoneCallMisled(t, c, k', q, other, lookahead, latest);
  }

  /** A call submitted to an idle system whose cache holds rows of `q` under the label `other`. */
  lemma LoneCallMisled(
    t: System, c: MainChain, k: Cache, q: Query, other: Scripts, lookahead: nat, latest: Option<nat>)
    requires c.Valid() && Plain(c, q) && latest == Some(To(c, q)) && k.scripts == other
    requires t.chain == c && t.cache == Stored(c, k, q, lookahead, latest)
    requires |t.calls| == 2 && t.calls[0].stage.Done? && t.calls[1].stage.Done?
    ensures exists u ::
      && Reachable(t, lookahead, true, u)
      && |u.calls| == 3 && u.calls[2] == Call(q.(scripts := other), Done(CachedFetch(c, q)))
  {
    var q', ys := q.(scripts := other), t.calls + [Call(q.(scripts := other), Begin)];
    ReachSelf(t, lookahead, true);
    ReachNext(t, lookahead, true, t, Submit(q'));
    StepAt(t, lookahead, true, c, t.cache, ys, 2, latest);
    ys := ys[2 := Call(q', Scripted)];
    CallLocates(t, lookahead, true, c, t.cache, ys, 2, q', latest);
    ys := ys[2 := Call(q', Located(To(c, q), At(q)))];
    CallServed(t, lookahead, true, c, k, ys, 2, q, other, latest);
  }

  /** Failing although the uncached source answers: two calls for the same scripts load, the first stores
      its range, the second overwrites it with one that starts beyond the first one's checkpoint. For any
      two queries whose block checkpoints are more than one block apart. */
  lemma OverlapMayFail(
    c: MainChain, q: Query, later: Query, defaultScripts: Scripts, lookahead: nat, latest: Option<nat>)
    requires c.Valid() && Plain(c, q) && Plain(c, later) && q.scripts == later.scripts
    requires (latest.Some? ==> latest.value <= c.tip) && q.checkpoint.number + 1 < later.checkpoint.number
    ensures Fetch(c, q).Ok?
    ensures exists t ::
      && Reachable(Fresh(c, defaultScripts), lookahead, true, t)
      && |t.calls| == 2 && t.calls[0] == Call(q, Done(Err(CacheNotFilled)))
  {
    var s, k := Fresh(c, defaultScripts), EmptyCache(q.scripts);
    var xs := [Call(q, Begin), Call(later, Begin)];
    ReachBoth(s, lookahead, true, q, later);
    CallLoads(s, lookahead, true, c, s.cache, xs, 0, q, latest);
    xs := xs[0 := LoadedCall(c, q, lookahead, latest)];
    CallLoads(s, lookahead, true, c, k, xs, 1, later, latest);
    xs := xs[1 := LoadedCall(c, later, lookahead, latest)];
    CallStores(s, lookahead, true, c, k, xs, 0, q, latest);
    xs := xs[0 := Call(q, Refilled(To(c, q), At(q)))];
    CallStores(s, lookahead, true, c, Stored(c, k, q, lookahead, latest), xs, 1, later, latest);
    xs := xs[1 := Call(later, Refilled(To(c, later), At(later)))];
    StepAt(s, lookahead, true, c, Stored(c, Stored(c, k, q, lookahead, latest), later, lookahead, latest), xs, 0, latest);
  }
}
