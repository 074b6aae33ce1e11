/** Concurrent use of the caching data source. The lock is held for single cache operations only, so
    the steps of several `get_transfers` calls interleave freely while the main chain grows. */
module BridgeConcurrency {
  import opened Prelude
  import opened BridgeChain
  import opened BridgeSource
  import opened BridgeCache

  /** How far one call has come. */
  datatype Stage =
    | Begin
    | Scripted
    | Referenced(to: nat)
    | Located(to: nat, cp: Resolved)
    | Missed(to: nat, cp: Resolved)
    | Loaded(to: nat, cp: Resolved, end: nat, rows: seq<BridgeUtxo>)
    | Refilled(to: nat, cp: Resolved)
    | Done(result: Result<Batch, SourceError>)

  datatype Call = Call(query: Query, stage: Stage)

  datatype System = System(chain: MainChain, cache: Cache, calls: seq<Call>)

  datatype Action =
    | Submit(query: Query)
    | Advance(call: nat, latest: Option<nat>)
    | Grow(chain: MainChain)

  function Answer(served: Option<seq<BridgeUtxo>>, to: nat, limit: nat, otherwise: Stage): Stage {
    if served.Some? then Done(Ok(Batch(served.value, NextCheckpoint(served.value, limit, to)))) else otherwise
  }

  /** Next atomic step of one call. */
  function StepCall(c: MainChain, k: Cache, x: Call, lookahead: nat, latest: Option<nat>): (Cache, Stage) {
    var q := x.query;
    match x.stage
    case Begin => (SetScripts(k, q.scripts), Scripted)
    case Scripted =>
      if q.mcBlock !in c.blocks then (k, Done(Err(UnknownBlock))) else (k, Referenced(c.blocks[q.mcBlock]))
    case Referenced(to) =>
      (match ResolveWith(c, k, q.checkpoint)
       case None => (k, Done(Err(UnknownCheckpoint)))
       case Some(cp) => (k, Located(to, cp)))
    case Located(to, cp) => (k, Answer(Serve(k, cp, to, q.limit), to, q.limit, Missed(to, cp)))
    case Missed(to, cp) =>
      var end := FillEnd(to, lookahead, latest);
      (k, Loaded(to, cp, end, FillRows(c, q.scripts, cp.BlockNumber(), end)))
    case Loaded(to, cp, end, rows) => (SetCached(k, cp.BlockNumber(), end, rows), Refilled(to, cp))
    case Refilled(to, cp) => (k, Answer(Serve(k, cp, to, q.limit), to, q.limit, Done(Err(CacheNotFilled))))
    case Done(_) => (k, x.stage)
  }

  function Next(s: System, lookahead: nat, a: Action): System {
    match a
    case Submit(q) => s.(calls := s.calls + [Call(q, Begin)])
    case Grow(c) => s.(chain := c)
    case Advance(i, latest) =>
      if i >= |s.calls| then s
      else
        var (k, stage) := StepCall(s.chain, s.cache, s.calls[i], lookahead, latest);
        s.(cache := k, calls := s.calls[i := s.calls[i].(stage := stage)])
  }

  function Run(s: System, lookahead: nat, acts: seq<Action>): System
    decreases |acts|
  {
    if acts == [] then s else Run(Next(s, lookahead, acts[0]), lookahead, acts[1..])
  }

  /** Scanning backwards: the chain the indexer has reached. */
  function LastGrown(c: MainChain, acts: seq<Action>): MainChain {
    if acts == [] then c
    else if Last(acts).Grow? then Last(acts).chain
    else LastGrown(c, acts[..|acts| - 1])
  }

  function Submitted(acts: seq<Action>): seq<Query> {
    if acts == [] then [] else (if acts[0].Submit? then [acts[0].query] else []) + Submitted(acts[1..])
  }

  lemma {:induction false} LastGrownCons(c: MainChain, acts: seq<Action>)
    requires acts != []
    ensures LastGrown(c, acts) == LastGrown(if acts[0].Grow? then acts[0].chain else c, acts[1..])
    decreases |acts|
  {
    if 1 < |acts| {
      var init := acts[..|acts| - 1];
      LastGrownCons(c, init);
      assert acts[1..][..|acts| - 2] == init[1..];
    }
  }

  /** After every run: the chain is the one reached last, and the calls are the submitted queries in order. */
  lemma {:induction false} RunShape(s: System, lookahead: nat, acts: seq<Action>)
    ensures Run(s, lookahead, acts).chain == LastGrown(s.chain, acts)
    ensures
      var calls, queries := Run(s, lookahead, acts).calls, Submitted(acts);
      && |calls| == |s.calls| + |queries|
      && (forall i :: 0 <= i < |s.calls| ==> calls[i].query == s.calls[i].query)
      && (forall i :: 0 <= i < |queries| ==> calls[|s.calls| + i].query == queries[i])
    decreases |acts|
  {
    if acts != [] {
      LastGrownCons(s.chain, acts);
      RunShape(Next(s, lookahead, acts[0]), lookahead, acts[1..]);
    }
  }

  /** Block numbers have 32 bits. */
  predicate Fits(q: Query) {
    q.checkpoint.Block? ==> q.checkpoint.number < U32_SPAN
  }

  /** The main chain only grows and its reported stable block exists; `oneScript` adds that a call is
      submitted only while every unfinished call observes the same scripts. */
  ghost predicate Allowed(s: System, a: Action, oneScript: bool) {
    match a
    case Submit(q) =>
      && Fits(q)
      && (oneScript ==>
            forall i :: 0 <= i < |s.calls| && !s.calls[i].stage.Done? ==> s.calls[i].query.scripts == q.scripts)
    case Grow(c) => c.Valid() && Extends(s.chain, c)
    case Advance(_, latest) => latest.Some? ==> latest.value <= s.chain.tip
  }

  ghost predicate AllowedRun(s: System, lookahead: nat, acts: seq<Action>, oneScript: bool)
    decreases |acts|
  {
    acts == [] || (Allowed(s, acts[0], oneScript) &&
                   AllowedRun(Next(s, lookahead, acts[0]), lookahead, acts[1..], oneScript))
  }

  // ----- Whose rows the cache holds -----

  /** The scripts whose rows are cached change with a refill, to those of the refilling call, and with a
      call that sets other scripts. They need not be the scripts the cache is labelled with. */
  function NextOwner(k: Cache, owner: Scripts, x: Call): Scripts {
    match x.stage
    case Begin => if k.scripts == x.query.scripts then owner else x.query.scripts
    case Loaded(_, _, _, _) => x.query.scripts
    case _ => owner
  }

  function OwnerBy(s: System, owner: Scripts, a: Action): Scripts {
    if a.Advance? && a.call < |s.calls| then NextOwner(s.cache, owner, s.calls[a.call]) else owner
  }

  /** The owner after a run that starts with rows of `owner`. */
  function Owner(s: System, lookahead: nat, acts: seq<Action>, owner: Scripts): Scripts
    decreases |acts|
  {
    if acts == [] then owner
    else Owner(Next(s, lookahead, acts[0]), lookahead, acts[1..], OwnerBy(s, owner, acts[0]))
  }

  ghost predicate LocatedAt(c: MainChain, q: Query, to: nat, cp: Resolved) {
    && q.mcBlock in c.blocks && to == c.blocks[q.mcBlock]
    && Resolve(c, q.checkpoint) == Some(cp)
  }

  ghost predicate CallOk(c: MainChain, x: Call) {
    && Fits(x.query)
    && match x.stage
       case Begin => true
       case Scripted => true
       case Referenced(to) => x.query.mcBlock in c.blocks && to == c.blocks[x.query.mcBlock]
       case Located(to, cp) => LocatedAt(c, x.query, to, cp)
       case Missed(to, cp) => LocatedAt(c, x.query, to, cp)
       case Refilled(to, cp) => LocatedAt(c, x.query, to, cp)
       case Loaded(to, cp, end, rows) =>
         && LocatedAt(c, x.query, to, cp) && end <= c.tip
         && rows == FillRows(c, x.query.scripts, cp.BlockNumber(), end)
       case Done(_) => true
  }

  /** The cache holds the owner's rows of its range, and every call in flight is on its way. */
  ghost predicate Inv(s: System, owner: Scripts) {
    && s.chain.Valid() && CacheOk(s.cache.(scripts := owner), s.chain)
    && forall i :: 0 <= i < |s.calls| ==> CallOk(s.chain, s.calls[i])
  }

  /** The block range stored by one refill of the cache. */
  datatype Fill = Fill(start: nat, end: nat)

  /** The range ends before the reference or starts beyond the checkpoint. */
  predicate Misses(f: Fill, to: nat, cp: Resolved) {
    || f.end < to
    || match cp
       case AtBlock(n) => SatAdd(n, 1) < f.start
       case AtUtxo(b, _, _) => b < f.start
  }

  /** What a call may end with: the answer for the scripts whose rows are cached, the error the uncached
      source gives at that moment or, after its refill, a failure because the cached range misses it. */
  ghost predicate Justified(c: MainChain, k: Cache, owner: Scripts, x: Call, r: Result<Batch, SourceError>) {
    match r
    case Ok(_) => r == CachedFetch(c, x.query.(scripts := owner))
    case Err(e) =>
      if x.stage.Refilled? then e == CacheNotFilled && Misses(Fill(k.start, k.end), x.stage.to, x.stage.cp)
      else r == Fetch(c, x.query)
  }

  lemma ServedAnswer(c: MainChain, k: Cache, owner: Scripts, q: Query, to: nat, cp: Resolved)
    requires c.Valid() && CacheOk(k.(scripts := owner), c) && LocatedAt(c, q, to, cp)
    requires Serve(k, cp, to, q.limit).Some?
    ensures
      var rows := Serve(k, cp, to, q.limit).value;
      Ok(Batch(rows, NextCheckpoint(rows, q.limit, to))) == CachedFetch(c, q.(scripts := owner))
  {
    ServeIsServedRows(k.(scripts := owner), c, cp, to, q.limit);
  }

  /** One step keeps cache and call correct, and what it ends with is justified. */
  lemma StepCallOk(c: MainChain, k: Cache, owner: Scripts, x: Call, lookahead: nat, latest: Option<nat>)
    requires c.Valid() && CacheOk(k.(scripts := owner), c) && CallOk(c, x)
    requires latest.Some? ==> latest.value <= c.tip
    ensures
      var (k', stage) := StepCall(c, k, x, lookahead, latest);
      && CacheOk(k'.(scripts := NextOwner(k, owner, x)), c)
      && CallOk(c, x.(stage := stage))
      && (!x.stage.Done? && stage.Done? ==> Justified(c, k, owner, x, stage.result))
  {
    match x.stage
    case Begin => EmptyRange(c.View(x.query.scripts));
    case Scripted =>
    case Referenced(_) => ResolveWithAgrees(c, k.(scripts := owner), x.query.checkpoint);
    case Located(to, cp) =>
      if Serve(k, cp, to, x.query.limit).Some? { ServedAnswer(c, k, owner, x.query, to, cp); }
    case Missed(to, cp) =>
    case Loaded(to, cp, end, rows) => FillKeepsOk(k.(scripts := x.query.scripts), c, cp.BlockNumber(), end);
    case Refilled(to, cp) =>
      if Serve(k, cp, to, x.query.limit).Some? { ServedAnswer(c, k, owner, x.query, to, cp); }
    case Done(_) =>
  }

  lemma CallOkStable(c: MainChain, later: MainChain, x: Call)
    requires c.Valid() && Extends(c, later) && CallOk(c, x)
    ensures CallOk(later, x)
  {
    if x.stage.Loaded? {
      var us, us' := c.View(x.query.scripts), later.View(x.query.scripts);
      assert Appended(us, us', c.tip);
      assert us' == us + us'[|us|..];
      WindowStable(us, us'[|us|..], AtBlock(SatPred(x.stage.cp.BlockNumber())), x.stage.end);
    }
  }

  lemma NextKeepsInv(s: System, owner: Scripts, lookahead: nat, a: Action, oneScript: bool)
    requires Inv(s, owner) && Allowed(s, a, oneScript)
    ensures Inv(Next(s, lookahead, a), OwnerBy(s, owner, a))
  {
    match a
    case Submit(q) =>
    case Grow(c) =>
      OkStable(s.cache.(scripts := owner), s.chain, c);
      forall i | 0 <= i < |s.calls| ensures CallOk(c, s.calls[i]) {
        CallOkStable(s.chain, c, s.calls[i]);
      }
    case Advance(i, latest) =>
      if i < |s.calls| {
        StepCallOk(s.chain, s.cache, owner, s.calls[i], lookahead, latest);
      }
  }

  lemma {:induction false} RunKeepsInv(s: System, owner: Scripts, lookahead: nat, acts: seq<Action>, oneScript: bool)
    requires Inv(s, owner) && AllowedRun(s, lookahead, acts, oneScript)
    ensures Inv(Run(s, lookahead, acts), Owner(s, lookahead, acts, owner))
    decreases |acts|
  {
    if acts != [] {
      NextKeepsInv(s, owner, lookahead, acts[0], oneScript);
      RunKeepsInv(Next(s, lookahead, acts[0]), OwnerBy(s, owner, acts[0]), lookahead, acts[1..], oneScript);
    }
  }

  function EmptyCache(s: Scripts): Cache {
    Cache(s, 0, 0, [], map[])
  }

  function Fresh(c: MainChain, defaultScripts: Scripts): System {
    System(c, EmptyCache(defaultScripts), [])
  }

  lemma FreshInv(c: MainChain, defaultScripts: Scripts)
    requires c.Valid()
    ensures Inv(Fresh(c, defaultScripts), defaultScripts)
  {
    EmptyRange(c.View(defaultScripts));
  }

  lemma {:induction false} RunSnoc(s: System, lookahead: nat, acts: seq<Action>, a: Action, oneScript: bool)
    ensures Run(s, lookahead, acts + [a]) == Next(Run(s, lookahead, acts), lookahead, a)
    ensures AllowedRun(s, lookahead, acts + [a], oneScript)
            <==> AllowedRun(s, lookahead, acts, oneScript) && Allowed(Run(s, lookahead, acts), a, oneScript)
    decreases |acts|
  {
    if acts == [] {
      assert acts + [a] == [a];
      assert [a][1..] == [];
    } else {
      RunSnoc(Next(s, lookahead, acts[0]), lookahead, acts[1..], a, oneScript);
      assert (acts + [a])[1..] == acts[1..] + [a];
    }
  }

  // ----- Every answer -----

  /** After every run, whatever scripts the calls observe: a call that is answered next gets the answer for
      the scripts whose rows are cached then. That answer is the uncached one for those scripts, block 0
      apart, so the call is answered rightly exactly if its own scripts have the same answer. */
  lemma AnsweredForOwner(
    s: System, owner: Scripts, lookahead: nat, acts: seq<Action>, oneScript: bool, i: nat, latest: Option<nat>)
    requires Inv(s, owner) && AllowedRun(s, lookahead, acts, oneScript)
    requires Allowed(Run(s, lookahead, acts), Advance(i, latest), oneScript)
    requires
      var t := Run(s, lookahead, acts);
      && i < |t.calls| && !t.calls[i].stage.Done?
      && var stage := Next(t, lookahead, Advance(i, latest)).calls[i].stage;
         stage.Done? && stage.result.Ok?
    ensures
      var t, o := Run(s, lookahead, acts), Owner(s, lookahead, acts, owner);
      var q, r := t.calls[i].query, Next(t, lookahead, Advance(i, latest)).calls[i].stage.result;
      && r == CachedFetch(t.chain, q.(scripts := o))
      && Fetch(t.chain, q.(scripts := o)).Ok?
      && (r == Fetch(t.chain, q.(scripts := o))
          <==> !MissesBlockZero(t.chain.View(o), Resolve(t.chain, q.checkpoint).value, q.limit))
  {
    RunKeepsInv(s, owner, lookahead, acts, oneScript);
    var t, o := Run(s, lookahead, acts), Owner(s, lookahead, acts, owner);
    StepCallOk(t.chain, t.cache, o, t.calls[i], lookahead, latest);
    CachedFetchIff(t.chain, t.calls[i].query.(scripts := o));
  }

  /** A completed call gave the answer of a correct cache for its own scripts: the uncached answer, block 0
      apart. */
  ghost predicate Faithful(c: MainChain, q: Query, r: Result<Batch, SourceError>) {
    r.Ok? ==> r == CachedFetch(c, q)
  }

  ghost predicate Safe(s: System) {
    forall i :: 0 <= i < |s.calls| && s.calls[i].stage.Done? ==>
      Faithful(s.chain, s.calls[i].query, s.calls[i].stage.result)
  }

  /** The cache is labelled with its owner, and all unfinished calls observe the same scripts; those that
      have begun observe the owner's. */
  ghost predicate OneScript(s: System, owner: Scripts) {
    && s.cache.scripts == owner
    && (forall i :: 0 <= i < |s.calls| && !s.calls[i].stage.Done? && !s.calls[i].stage.Begin? ==>
          s.calls[i].query.scripts == owner)
    && (forall i, j :: 0 <= i < |s.calls| && 0 <= j < |s.calls| && !s.calls[i].stage.Done? && !s.calls[j].stage.Done? ==>
          s.calls[i].query.scripts == s.calls[j].query.scripts)
  }

  lemma NextKeepsOneScript(s: System, owner: Scripts, lookahead: nat, a: Action)
    requires OneScript(s, owner) && Allowed(s, a, true)
    ensures OneScript(Next(s, lookahead, a), OwnerBy(s, owner, a))
  {
  }

  lemma NextKeepsSafe(s: System, owner: Scripts, lookahead: nat, a: Action)
    requires Inv(s, owner) && OneScript(s, owner) && Safe(s) && Allowed(s, a, true)
    ensures Safe(Next(s, lookahead, a))
  {
    match a
    case Submit(q) =>
    case Grow(c) =>
      forall i | 0 <= i < |s.calls| && s.calls[i].stage.Done? && s.calls[i].stage.result.Ok?
        ensures CachedFetch(c, s.calls[i].query) == CachedFetch(s.chain, s.calls[i].query)
      {
        CachedFetchStable(s.chain, c, s.calls[i].query);
      }
    case Advance(i, latest) =>
      if i < |s.calls| {
        StepCallOk(s.chain, s.cache, owner, s.calls[i], lookahead, latest);
        assert !s.calls[i].stage.Begin? && !s.calls[i].stage.Done? ==> s.calls[i].query.(scripts := owner) == s.calls[i].query;
      }
  }

  /** Whatever the interleaving, no completed call gave a wrong answer, as long as calls in flight
      together observe the same scripts. */
  lemma {:induction false} EveryInterleavingIsSafe(s: System, owner: Scripts, lookahead: nat, acts: seq<Action>)
    requires Inv(s, owner) && OneScript(s, owner) && Safe(s) && AllowedRun(s, lookahead, acts, true)
    ensures Safe(Run(s, lookahead, acts))
    decreases |acts|
  {
    if acts != [] {
      NextKeepsInv(s, owner, lookahead, acts[0], true);
      NextKeepsOneScript(s, owner, lookahead, acts[0]);
      NextKeepsSafe(s, owner, lookahead, acts[0]);
      EveryInterleavingIsSafe(Next(s, lookahead, acts[0]), OwnerBy(s, owner, acts[0]), lookahead, acts[1..]);
    }
  }

  // ----- When a call fails -----

  /** The range a step stores: that of a refill, or the empty one when other scripts are set. */
  function FillBy(s: System, a: Action): Option<Fill> {
    if !a.Advance? || a.call >= |s.calls| then None
    else
      var x := s.calls[a.call];
      match x.stage
      case Loaded(_, cp, end, _) => Some(Fill(cp.BlockNumber(), end))
      case Begin => if s.cache.scripts == x.query.scripts then None else Some(Fill(0, 0))
      case _ => None
  }

  /** The last range stored in a run, by whichever call; `earlier` is the last one before it. */
  function LastFill(s: System, lookahead: nat, acts: seq<Action>, earlier: Option<Fill>): Option<Fill>
    decreases |acts|
  {
    if acts == [] then earlier
    else
      var fill := FillBy(s, acts[0]);
      LastFill(Next(s, lookahead, acts[0]), lookahead, acts[1..], if fill.Some? then fill else earlier)
  }

  /** While some call stands between its refill and its second serve, the cached range is the last one
      stored. */
  ghost predicate FillKnown(t: System, last: Option<Fill>) {
    forall i :: 0 <= i < |t.calls| && t.calls[i].stage.Refilled? ==> last == Some(Fill(t.cache.start, t.cache.end))
  }

  lemma FillKnownNext(t: System, lookahead: nat, a: Action, last: Option<Fill>)
    requires FillKnown(t, last)
    ensures FillKnown(Next(t, lookahead, a), if FillBy(t, a).Some? then FillBy(t, a) else last)
  {
  }

  lemma {:induction false} FillTracked(s: System, lookahead: nat, acts: seq<Action>, earlier: Option<Fill>)
    requires FillKnown(s, earlier)
    ensures FillKnown(Run(s, lookahead, acts), LastFill(s, lookahead, acts, earlier))
    decreases |acts|
  {
    if acts != [] {
      FillKnownNext(s, lookahead, acts[0], earlier);
      var fill := FillBy(s, acts[0]);
      FillTracked(Next(s, lookahead, acts[0]), lookahead, acts[1..], if fill.Some? then fill else earlier);
    }
  }

  /** The second serve fails exactly if the cached range misses the call. */
  lemma SecondServe(t: System, lookahead: nat, i: nat, latest: Option<nat>)
    requires i < |t.calls| && t.calls[i].stage.Refilled?
    ensures
      var stage := Next(t, lookahead, Advance(i, latest)).calls[i].stage;
      && stage.Done?
      && (stage.result.Err? <==> Misses(Fill(t.cache.start, t.cache.end), t.calls[i].stage.to, t.calls[i].stage.cp))
      && (stage.result.Err? ==> stage.result.error == CacheNotFilled)
  {
  }

  /** After every run, the second serve of a call fails if and only if the last range stored, by its own
      refill, another's or a change of scripts, ends before the call's reference or starts beyond its
      checkpoint. */
  lemma NotFilledIff(s: System, lookahead: nat, acts: seq<Action>, i: nat, latest: Option<nat>)
    requires FillKnown(s, None)
    requires i < |Run(s, lookahead, acts).calls| && Run(s, lookahead, acts).calls[i].stage.Refilled?
    ensures
      var t, last := Run(s, lookahead, acts), LastFill(s, lookahead, acts, None);
      var stage := Next(t, lookahead, Advance(i, latest)).calls[i].stage;
      && last.Some? && stage.Done?
      && (stage.result.Err? <==> Misses(last.value, t.calls[i].stage.to, t.calls[i].stage.cp))
      && (stage.result.Err? ==> stage.result.error == CacheNotFilled)
  {
    FillTracked(s, lookahead, acts, None);
    SecondServe(Run(s, lookahead, acts), lookahead, i, latest);
  }

  /** Before that, a call fails exactly when the uncached source fails at that moment, with its error. */
  lemma SourceErrorIff(c: MainChain, k: Cache, owner: Scripts, x: Call, lookahead: nat, latest: Option<nat>)
    requires CacheOk(k.(scripts := owner), c) && CallOk(c, x) && !x.stage.Refilled? && !x.stage.Done?
    ensures
      var stage := StepCall(c, k, x, lookahead, latest).1;
      && (x.stage.Scripted? ==> (stage.Done? <==> Fetch(c, x.query) == Err(UnknownBlock)))
      && (x.stage.Referenced? ==> (stage.Done? <==> Fetch(c, x.query) == Err(UnknownCheckpoint)))
      && (stage.Done? && stage.result.Err? ==> stage.result == Fetch(c, x.query))
  {
    ResolveWithAgrees(c, k.(scripts := owner), x.query.checkpoint);
  }

  /** The step at position `n` ended call `i` with `r`: the answer for the scripts whose rows were cached,
      the uncached source's error, or a failure because the last range stored missed the call. */
  ghost predicate Explains(
    s: System, owner: Scripts, lookahead: nat, acts: seq<Action>, i: nat, r: Result<Batch, SourceError>, n: nat)
  {
    && n < |acts| && acts[n].Advance? && acts[n].call == i
    && var t, last := Run(s, lookahead, acts[..n]), LastFill(s, lookahead, acts[..n], None);
       && i < |t.calls|
       && if r.Ok? then r == CachedFetch(t.chain, t.calls[i].query.(scripts := Owner(s, lookahead, acts[..n], owner)))
          else if t.calls[i].stage.Refilled? then
            r == Err(CacheNotFilled) && last.Some? && Misses(last.value, t.calls[i].stage.to, t.calls[i].stage.cp)
          else r == Fetch(t.chain, t.calls[i].query)
  }

  lemma ResultExplained(
    s: System, owner: Scripts, lookahead: nat, acts: seq<Action>, a: Action, oneScript: bool, i: nat)
    requires Inv(s, owner) && FillKnown(s, None) && AllowedRun(s, lookahead, acts + [a], oneScript)
    requires
      var t := Run(s, lookahead, acts);
      i < |t.calls| && !t.calls[i].stage.Done? && Next(t, lookahead, a).calls[i].stage.Done?
    ensures
      var t' := Next(Run(s, lookahead, acts), lookahead, a);
      Explains(s, owner, lookahead, acts + [a], i, t'.calls[i].stage.result, |acts|)
  {
    RunSnoc(s, lookahead, acts, a, oneScript);
    RunKeepsInv(s, owner, lookahead, acts, oneScript);
    var t, o := Run(s, lookahead, acts), Owner(s, lookahead, acts, owner);
    assert (acts + [a])[..|acts|] == acts;
    StepCallOk(t.chain, t.cache, o, t.calls[i], lookahead, a.latest);
    if t.calls[i].stage.Refilled? {
      NotFilledIff(s, lookahead, acts, i, a.latest);
    }
  }

  lemma ExplainsLonger(
    s: System, owner: Scripts, lookahead: nat, acts: seq<Action>, a: Action, i: nat, r: Result<Batch, SourceError>,
    n: nat)
    requires Explains(s, owner, lookahead, acts, i, r, n)
    ensures Explains(s, owner, lookahead, acts + [a], i, r, n)
  {
    assert (acts + [a])[..n] == acts[..n];
  }

  lemma FinishedBefore(t: System, lookahead: nat, a: Action, i: nat)
    requires i < |Next(t, lookahead, a).calls| && Next(t, lookahead, a).calls[i].stage.Done?
    requires i < |t.calls| ==> t.calls[i].stage.Done?
    ensures i < |t.calls| && t.calls[i] == Next(t, lookahead, a).calls[i]
  {
  }

  /** In every run and for any scripts, every completed call was completed by one of its own steps, with a
      result that is explained by the state at that moment. */
  lemma {:induction false} EveryResultExplained(
    s: System, owner: Scripts, lookahead: nat, acts: seq<Action>, oneScript: bool, i: nat)
    requires Inv(s, owner) && FillKnown(s, None) && AllowedRun(s, lookahead, acts, oneScript)
    requires i < |s.calls| ==> !s.calls[i].stage.Done?
    requires i < |Run(s, lookahead, acts).calls| && Run(s, lookahead, acts).calls[i].stage.Done?
    ensures
      var r := Run(s, lookahead, acts).calls[i].stage.result;
      exists n: nat :: Explains(s, owner, lookahead, acts, i, r, n)
    decreases |acts|
  {
    var init, a := acts[..|acts| - 1], Last(acts);
    assert acts == init + [a];
    RunSnoc(s, lookahead, init, a, oneScript);
    var t := Run(s, lookahead, init);
    if i < |t.calls| && !t.calls[i].stage.Done? {
      ResultExplained(s, owner, lookahead, init, a, oneScript, i);
    } else {
      FinishedBefore(t, lookahead, a, i);
      EveryResultExplained(s, owner, lookahead, init, oneScript, i);
      var n: nat :| Explains(s, owner, lookahead, init, i, t.calls[i].stage.result, n);
      ExplainsLonger(s, owner, lookahead, init, a, i, t.calls[i].stage.result, n);
    }
  }

  /** Started with an empty cache: every result of every run is explained, and with one set of scripts at a
      time no answer is wrong. */
  lemma FreshRuns(c: MainChain, defaultScripts: Scripts, lookahead: nat, acts: seq<Action>, oneScript: bool)
    requires c.Valid() && AllowedRun(Fresh(c, defaultScripts), lookahead, acts, oneScript)
    ensures
      var s, t := Fresh(c, defaultScripts), Run(Fresh(c, defaultScripts), lookahead, acts);
      && (oneScript ==> Safe(t))
      && forall i :: 0 <= i < |t.calls| && t.calls[i].stage.Done? ==>
           exists n: nat :: Explains(s, defaultScripts, lookahead, acts, i, t.calls[i].stage.result, n)
  {
    var s, t := Fresh(c, defaultScripts), Run(Fresh(c, defaultScripts), lookahead, acts);
    FreshInv(c, defaultScripts);
    if oneScript {
      EveryInterleavingIsSafe(s, defaultScripts, lookahead, acts);
    }
    forall i | 0 <= i < |t.calls| && t.calls[i].stage.Done?
      ensures exists n: nat :: Explains(s, defaultScripts, lookahead, acts, i, t.calls[i].stage.result, n)
    {
      EveryResultExplained(s, defaultScripts, lookahead, acts, oneScript, i);
    }
  }

  /** No step of call `i`. */
  ghost predicate Idle(acts: seq<Action>, i: nat) {
    forall j :: 0 <= j < |acts| && acts[j].Advance? ==> acts[j].call != i
  }

  lemma {:induction false} IdleKeepsCall(s: System, lookahead: nat, acts: seq<Action>, i: nat)
    requires i < |s.calls| && Idle(acts, i)
    ensures i < |Run(s, lookahead, acts).calls| && Run(s, lookahead, acts).calls[i] == s.calls[i]
    decreases |acts|
  {
    if acts != [] {
      IdleKeepsCall(Next(s, lookahead, acts[0]), lookahead, acts[1..], i);
    }
  }

  lemma {:induction false} LastFillSome(s: System, lookahead: nat, acts: seq<Action>, earlier: Option<Fill>)
    requires earlier.Some?
    ensures LastFill(s, lookahead, acts, earlier).Some?
    decreases |acts|
  {
    if acts != [] {
      var fill := FillBy(s, acts[0]);
      LastFillSome(Next(s, lookahead, acts[0]), lookahead, acts[1..], if fill.Some? then fill else earlier);
    }
  }

  lemma {:induction false} NoFillKeepsLast(s: System, lookahead: nat, acts: seq<Action>, earlier: Option<Fill>)
    requires LastFill(s, lookahead, acts, None) == None
    ensures LastFill(s, lookahead, acts, earlier) == earlier
    decreases |acts|
  {
    if acts != [] {
      if FillBy(s, acts[0]).Some? {
        LastFillSome(Next(s, lookahead, acts[0]), lookahead, acts[1..], FillBy(s, acts[0]));
      }
      NoFillKeepsLast(Next(s, lookahead, acts[0]), lookahead, acts[1..], earlier);
    }
  }

  /** The range a call itself stores serves it unless the stable block it was told is behind its
      reference. */
  lemma OwnFillMissesIff(c: MainChain, q: Query, to: nat, cp: Resolved, lookahead: nat, latest: Option<nat>)
    requires c.Valid() && LocatedAt(c, q, to, cp) && Fits(q)
    ensures Misses(Fill(cp.BlockNumber(), FillEnd(to, lookahead, latest)), to, cp)
            <==> latest.Some? && latest.value < to
  {
  }

  /** Without another range being stored, a refilled call fails exactly if the range cached now misses it. */
  lemma HeldCallFailsIff(s: System, lookahead: nat, i: nat, holding: seq<Action>, latest: Option<nat>)
    requires FillKnown(s, Some(Fill(s.cache.start, s.cache.end))) && i < |s.calls| && s.calls[i].stage.Refilled?
    requires Idle(holding, i) && LastFill(s, lookahead, holding, None) == None
    ensures i < |Run(s, lookahead, holding).calls|
    ensures
      var stage := Next(Run(s, lookahead, holding), lookahead, Advance(i, latest)).calls[i].stage;
      && stage.Done?
      && (stage.result.Err? <==> Misses(Fill(s.cache.start, s.cache.end), s.calls[i].stage.to, s.calls[i].stage.cp))
      && (stage.result.Err? ==> stage.result.error == CacheNotFilled)
  {
    IdleKeepsCall(s, lookahead, holding, i);
    var own := Some(Fill(s.cache.start, s.cache.end));
    NoFillKeepsLast(s, lookahead, holding, own);
    FillTracked(s, lookahead, holding, own);
    SecondServe(Run(s, lookahead, holding), lookahead, i, latest);
  }

  /** A missed call loads its rows, stores them and serves again, with any steps of others in between, but
      none that stores a range between its own refill and its serve: it fails if and only if the stable
      block it was told is behind its reference. */
  lemma UndisturbedCallFailsIff(
    s: System, owner: Scripts, lookahead: nat, i: nat, latest: Option<nat>, waiting: seq<Action>, holding: seq<Action>,
    l1: Option<nat>, l2: Option<nat>)
    requires Inv(s, owner) && i < |s.calls| && s.calls[i].stage.Missed? && Idle(waiting, i) && Idle(holding, i)
    requires
      var loaded := Run(Next(s, lookahead, Advance(i, latest)), lookahead, waiting);
      LastFill(Next(loaded, lookahead, Advance(i, l1)), lookahead, holding, None) == None
    ensures
      var loaded := Run(Next(s, lookahead, Advance(i, latest)), lookahead, waiting);
      var held := Run(Next(loaded, lookahead, Advance(i, l1)), lookahead, holding);
      && i < |held.calls|
      && var stage := Next(held, lookahead, Advance(i, l2)).calls[i].stage;
         && stage.Done?
         && (stage.result.Err? <==> latest.Some? && latest.value < s.calls[i].stage.to)
         && (stage.result.Err? ==> stage.result.error == CacheNotFilled)
  {
    var to, cp := s.calls[i].stage.to, s.calls[i].stage.cp;
    var missed := Next(s, lookahead, Advance(i, latest));
    assert CallOk(s.chain, s.calls[i]);
    OwnFillMissesIff(s.chain, s.calls[i].query, to, cp, lookahead, latest);
    IdleKeepsCall(missed, lookahead, waiting, i);
    var loaded := Run(missed, lookahead, waiting);
    HeldCallFailsIff(Next(loaded, lookahead, Advance(i, l1)), lookahead, i, holding, l2);
  }
}
