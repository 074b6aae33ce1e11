/** The caching data source: answers bridge queries from a block range kept in memory and refines the
    uncached source. */
module BridgeCache {
  import opened Prelude
  import opened BridgeChain
  import opened BridgeSource

  datatype Cache = Cache(
    scripts: Scripts,
    start: nat,
    end: nat,
    transfers: seq<BridgeUtxo>,
    index: map<UtxoId, BridgeUtxo>)

  function SatAdd(a: nat, b: nat): nat {
    Min(a + b, U32_SPAN - 1)
  }

  function SatPred(a: nat): nat {
    if a == 0 then 0 else a - 1
  }

  function SkipCovered(us: seq<BridgeUtxo>, cp: Resolved): seq<BridgeUtxo> {
    if us == [] || After(us[0], cp) then us else SkipCovered(us[1..], cp)
  }

  function TakeUpTo(us: seq<BridgeUtxo>, to: nat): seq<BridgeUtxo> {
    if us == [] || to < us[0].block then [] else [us[0]] + TakeUpTo(us[1..], to)
  }

  function IndexOf(us: seq<BridgeUtxo>): map<UtxoId, BridgeUtxo> {
    if us == [] then map[] else IndexOf(us[..|us| - 1])[Last(us).Id() := Last(us)]
  }

  /** The index knows every row by its id, the last one if an id repeats. */
  lemma {:induction false} IndexOfIff(us: seq<BridgeUtxo>, id: UtxoId, u: BridgeUtxo)
    ensures id in IndexOf(us) <==> exists i :: 0 <= i < |us| && us[i].Id() == id
    ensures id in IndexOf(us) && IndexOf(us)[id] == u <==>
      exists i :: 0 <= i < |us| && us[i] == u && u.Id() == id && forall j :: i < j < |us| ==> us[j].Id() != id
  {
    if us != [] {
      var n := |us| - 1;
      IndexOfIff(us[..n], id, u);
      assert forall j :: 0 <= j < n ==> us[..n][j] == us[j];
      assert us[n] == Last(us);
    }
  }

  lemma {:induction false} TakeUpToIsPrefix(us: seq<BridgeUtxo>, to: nat)
    ensures |TakeUpTo(us, to)| <= |us| && TakeUpTo(us, to) == us[..|TakeUpTo(us, to)|]
  {
    if us != [] && us[0].block <= to {
      TakeUpToIsPrefix(us[1..], to);
    }
  }

  /** Changing the scripts empties the range but leaves the UTXO index as it was. */
  function SetScripts(k: Cache, s: Scripts): Cache {
    if k.scripts == s then k else k.(scripts := s, start := 0, end := 0, transfers := [])
  }

  function SetCached(k: Cache, start: nat, end: nat, us: seq<BridgeUtxo>): Cache {
    k.(start := start, end := end, transfers := us, index := IndexOf(us))
  }

  /** The cached range begins early enough for the checkpoint. */
  predicate Covers(k: Cache, cp: Resolved) {
    match cp
    case AtBlock(n) => k.start <= SatAdd(n, 1)
    case AtUtxo(b, _, _) => k.start <= b
  }

  function Serve(k: Cache, cp: Resolved, to: nat, limit: nat): Option<seq<BridgeUtxo>> {
    if k.end < to || !Covers(k, cp) then None
    else Some(Limit(TakeUpTo(SkipCovered(k.transfers, cp), to), limit))
  }

  function ResolveCached(k: Cache, id: UtxoId): Option<Resolved> {
    if id in k.index then Some(AtUtxo(k.index[id].block, k.index[id].txIx, k.index[id].outIx)) else None
  }

  function ResolveWith(c: MainChain, k: Cache, cp: Checkpoint): Option<Resolved> {
    if cp.Utxo? && ResolveCached(k, cp.id).Some? then ResolveCached(k, cp.id) else Resolve(c, cp)
  }

  /** Last block loaded by a refresh; `latest` is the newest stable block, if the indexer knows one. */
  function FillEnd(to: nat, lookahead: nat, latest: Option<nat>): nat {
    Min(SatAdd(to, lookahead), if latest.Some? then latest.value else to)
  }

  /** What a refresh is good for: it serves every checkpoint from its own block on, up to the lookahead and
      the newest stable block. */
  lemma RefreshServesIff(
    k: Cache, start: nat, to: nat, lookahead: nat, latest: Option<nat>, us: seq<BridgeUtxo>, cp: Resolved, upTo: nat,
    limit: nat)
    requires start < U32_SPAN
    ensures Serve(SetCached(k, start, FillEnd(to, lookahead, latest), us), cp, upTo, limit).Some? <==>
      && start <= (match cp case AtBlock(n) => n + 1 case AtUtxo(b, _, _) => b)
      && upTo < U32_SPAN && upTo <= to + lookahead
      && upTo <= (if latest.Some? then latest.value else to)
  {
  }

  /** Rows of one refresh: every UTXO from the checkpoint's block on, that block included. */
  function FillRows(c: MainChain, s: Scripts, from: nat, end: nat): seq<BridgeUtxo> {
    Window(c.View(s), AtBlock(SatPred(from)), end)
  }

  /** The cache holds exactly the chain's UTXOs of its range, and its index tells the truth. */
  ghost predicate CacheOk(k: Cache, c: MainChain) {
    && k.transfers == FillRows(c, k.scripts, k.start, k.end)
    && k.end <= c.tip
    && IndexOk(k.index, c)
  }

  ghost predicate IndexOk(index: map<UtxoId, BridgeUtxo>, c: MainChain) {
    forall id :: id in index ==>
      && index[id].Id() == id
      && id.txHash in c.txs
      && c.txs[id.txHash] == TxInfo(index[id].block, index[id].txIx)
  }

  lemma {:induction false} EmptyRange(us: seq<BridgeUtxo>)
    ensures Window(us, AtBlock(0), 0) == []
  {
    if us != [] {
      EmptyRange(us[1..]);
    }
  }

  lemma SetScriptsKeepsOk(k: Cache, c: MainChain, s: Scripts)
    requires CacheOk(k, c)
    ensures CacheOk(SetScripts(k, s), c)
  {
    EmptyRange(c.View(s));
  }

  lemma {:induction false} IndexOfOk(us: seq<BridgeUtxo>, c: MainChain)
    requires c.Recorded(us)
    ensures IndexOk(IndexOf(us), c)
  {
    if us != [] {
      IndexOfOk(us[..|us| - 1], c);
    }
  }

  lemma {:induction false} WindowMembers(us: seq<BridgeUtxo>, cp: Resolved, to: nat)
    ensures forall u :: u in Window(us, cp, to) ==> u in us && After(u, cp) && u.block <= to
  {
    if us != [] {
      WindowMembers(us[1..], cp, to);
    }
  }

  lemma FillKeepsOk(k: Cache, c: MainChain, from: nat, end: nat)
    requires c.Valid() && end <= c.tip
    ensures CacheOk(SetCached(k, from, end, FillRows(c, k.scripts, from, end)), c)
  {
    ViewValid(c, k.scripts);
    var rows := FillRows(c, k.scripts, from, end);
    WindowMembers(c.View(k.scripts), AtBlock(SatPred(from)), end);
    assert forall i :: 0 <= i < |rows| ==> rows[i] in rows;
    IndexOfOk(rows, c);
  }

  /** A cache filled from the chain stays correct when blocks are added on top. */
  lemma OkStable(k: Cache, c: MainChain, later: MainChain)
    requires CacheOk(k, c) && Extends(c, later)
    ensures CacheOk(k, later)
  {
    var us, us' := c.View(k.scripts), later.View(k.scripts);
    assert Appended(us, us', c.tip);
    assert us' == us + us'[|us|..];
    WindowStable(us, us'[|us|..], AtBlock(SatPred(k.start)), k.end);
  }

  lemma {:induction false} SkipTakeIsWindow(us: seq<BridgeUtxo>, cp: Resolved, to: nat)
    requires Sorted(us)
    ensures TakeUpTo(SkipCovered(us, cp), to) == Window(us, cp, to)
  {
    if us != [] {
      SkipTakeIsWindow(us[1..], cp, to);
      if After(us[0], cp) {
        if us[1..] != [] {
          assert After(us[1], cp);
        }
        if to < us[0].block {
          WindowIsSlice(us, cp, to);
        }
      }
    }
  }

  /** Cutting a window out of a wider one is the same as cutting it out of the whole stream. */
  lemma {:induction false} WindowTwice(us: seq<BridgeUtxo>, lo: nat, hi: nat, cp: Resolved, to: nat)
    requires to <= hi
    requires forall u :: u in us && After(u, cp) ==> lo < u.block
    ensures Window(Window(us, AtBlock(lo), hi), cp, to) == Window(us, cp, to)
  {
    if us != [] {
      WindowTwice(us[1..], lo, hi, cp, to);
      var inner := Window(us[1..], AtBlock(lo), hi);
      if After(us[0], AtBlock(lo)) && us[0].block <= hi {
        assert ([us[0]] + inner)[1..] == inner;
      } else {
        assert [] + inner == inner;
      }
    }
  }

  lemma WindowSorted(us: seq<BridgeUtxo>, cp: Resolved, to: nat)
    requires Sorted(us)
    ensures Sorted(Window(us, cp, to))
  {
    WindowIsSlice(us, cp, to);
  }

  /** The one case the cache gets wrong: the refresh loads from block 0 exclusively, so a checkpoint
      UTXO in block 0 hides the later bridge UTXOs of that block. */
  ghost predicate MissesBlockZero(us: seq<BridgeUtxo>, cp: Resolved, limit: nat) {
    && cp.AtUtxo? && cp.block == 0 && 0 < limit
    && exists u :: u in us && u.block == 0 && After(u, cp)
  }

  lemma MissedRowsStartInBlockZero(us: seq<BridgeUtxo>, cp: Resolved, to: nat, limit: nat)
    requires Sorted(us) && MissesBlockZero(us, cp, limit)
    ensures Window(us, cp, to) != [] && Limit(Window(us, cp, to), limit) != []
    ensures Limit(Window(us, cp, to), limit)[0].block == 0
  {
    var u :| u in us && u.block == 0 && After(u, cp);
    var i :| 0 <= i < |us| && us[i] == u;
    WindowIsSlice(us, cp, to);
    PosSplits(us, cp);
    PosSplits(us, AtBlock(to));
    var p := Pos(us, cp);
    if p < i {
      assert KeyLt(us[p].block, us[p].txIx, us[p].outIx, us[i]);
    }
  }

  /** Rows the caching source gives: those of the query, without the UTXOs of block 0. */
  function ServedRows(c: MainChain, s: Scripts, cp: Resolved, to: nat, limit: nat): seq<BridgeUtxo> {
    Limit(Window(Window(c.View(s), AtBlock(0), to), cp, to), limit)
  }

  /** Two windows that agree on what follows the checkpoint up to `to` may be cut alike. */
  lemma {:induction false} WindowsAgree(
    us: seq<BridgeUtxo>, lo: nat, hi: nat, lo': nat, hi': nat, cp: Resolved, to: nat)
    requires forall u :: u in us && After(u, cp) && u.block <= to ==> (lo < u.block <= hi <==> lo' < u.block <= hi')
    ensures Window(Window(us, AtBlock(lo), hi), cp, to) == Window(Window(us, AtBlock(lo'), hi'), cp, to)
  {
    if us != [] {
      WindowsAgree(us[1..], lo, hi, lo', hi', cp, to);
      WindowCons(us[0], us[1..], lo, hi, cp, to);
      WindowCons(us[0], us[1..], lo', hi', cp, to);
      assert us == [us[0]] + us[1..];
    }
  }

  lemma WindowCons(u: BridgeUtxo, us: seq<BridgeUtxo>, lo: nat, hi: nat, cp: Resolved, to: nat)
    ensures Window(Window([u] + us, AtBlock(lo), hi), cp, to) ==
            (if lo < u.block <= hi && After(u, cp) && u.block <= to then [u] else [])
            + Window(Window(us, AtBlock(lo), hi), cp, to)
  {
    assert ([u] + us)[1..] == us;
    var inner := Window(us, AtBlock(lo), hi);
    if lo < u.block <= hi {
      assert ([u] + inner)[1..] == inner;
    } else {
      assert [] + inner == inner;
    }
  }

  /** Whenever a correct cache answers, it gives exactly these rows. */
  lemma ServeIsServedRows(k: Cache, c: MainChain, cp: Resolved, to: nat, limit: nat)
    requires c.Valid() && CacheOk(k, c) && Serve(k, cp, to, limit).Some?
    ensures Serve(k, cp, to, limit).value == ServedRows(c, k.scripts, cp, to, limit)
  {
    var us, lo := c.View(k.scripts), SatPred(k.start);
    ViewValid(c, k.scripts);
    WindowSorted(us, AtBlock(lo), k.end);
    SkipTakeIsWindow(k.transfers, cp, to);
    WindowsAgree(us, lo, k.end, 0, to, cp, to);
  }

  /** These are the query's rows if and only if the checkpoint is not a UTXO of block 0 followed by bridge
      UTXOs of that same block. */
  lemma ServedRowsIff(c: MainChain, s: Scripts, cp: Resolved, to: nat, limit: nat)
    requires c.Valid()
    ensures ServedRows(c, s, cp, to, limit) == Rows(c, s, cp, to, limit) <==> !MissesBlockZero(c.View(s), cp, limit)
  {
    var us := c.View(s);
    ViewValid(c, s);
    if MissesBlockZero(us, cp, limit) {
      MissedRowsStartInBlockZero(us, cp, to, limit);
      var served := ServedRows(c, s, cp, to, limit);
      WindowMembers(us, AtBlock(0), to);
      WindowMembers(Window(us, AtBlock(0), to), cp, to);
      assert served != [] ==> served[0] in Window(Window(us, AtBlock(0), to), cp, to);
    } else if 0 < limit {
      WindowTwice(us, 0, to, cp, to);
    }
  }

  /** Whenever the cache answers, it answers exactly like the query, block 0 apart. */
  lemma ServeRefinesQueryIff(k: Cache, c: MainChain, cp: Resolved, to: nat, limit: nat)
    requires c.Valid() && CacheOk(k, c)
    requires Serve(k, cp, to, limit).Some?
    ensures Serve(k, cp, to, limit).value == Rows(c, k.scripts, cp, to, limit)
            <==> !MissesBlockZero(c.View(k.scripts), cp, limit)
  {
    ServeIsServedRows(k, c, cp, to, limit);
    ServedRowsIff(c, k.scripts, cp, to, limit);
  }

  /** The answer of a caching source whose cache is correct. */
  function CachedFetch(c: MainChain, q: Query): Result<Batch, SourceError> {
    if q.mcBlock !in c.blocks then Err(UnknownBlock)
    else match Resolve(c, q.checkpoint)
      case None => Err(UnknownCheckpoint)
      case Some(cp) =>
        var to := c.blocks[q.mcBlock];
        var utxos := ServedRows(c, q.scripts, cp, to, q.limit);
        Ok(Batch(utxos, NextCheckpoint(utxos, q.limit, to)))
  }

  /** It fails like the query and answers like it, block 0 apart and exactly then. */
  lemma CachedFetchIff(c: MainChain, q: Query)
    requires c.Valid()
    ensures Fetch(c, q).Err? ==> CachedFetch(c, q) == Fetch(c, q)
    ensures Fetch(c, q).Ok? ==>
      (CachedFetch(c, q) == Fetch(c, q)
       <==> !MissesBlockZero(c.View(q.scripts), Resolve(c, q.checkpoint).value, q.limit))
  {
    if Fetch(c, q).Ok? {
      ServedRowsIff(c, q.scripts, Resolve(c, q.checkpoint).value, c.blocks[q.mcBlock], q.limit);
    }
  }

  lemma CachedFetchStable(c: MainChain, later: MainChain, q: Query)
    requires c.Valid() && Extends(c, later) && CachedFetch(c, q).Ok?
    ensures CachedFetch(later, q) == CachedFetch(c, q)
  {
    var us, us' := c.View(q.scripts), later.View(q.scripts);
    assert Appended(us, us', c.tip);
    assert us' == us + us'[|us|..];
    WindowStable(us, us'[|us|..], AtBlock(0), c.blocks[q.mcBlock]);
  }

  /** Two bridge UTXOs of block 0, the first one the checkpoint: a freshly filled cache answers that
      nothing follows, the query returns the second. */
  lemma BlockZeroHidesUtxo(u: BridgeUtxo, v: BridgeUtxo, s: Scripts, mcBlock: BlockHash)
    requires u.block == 0 && v.block == 0 && KeyLt(0, u.txIx, u.outIx, v)
    requires u.txHash == v.txHash ==> u.txIx == v.txIx
    ensures
      var txs := map[u.txHash := TxInfo(0, u.txIx), v.txHash := TxInfo(0, v.txIx)];
      var c := MainChain(0, txs, map[mcBlock := 0], map[s := [u, v]]);
      var k := SetCached(Cache(s, 0, 0, [], map[]), 0, 0, FillRows(c, s, 0, 0));
      var cp := AtUtxo(0, u.txIx, u.outIx);
      && c.Valid() && CacheOk(k, c)
      && Serve(k, cp, 0, 1) == Some([]) && Rows(c, s, cp, 0, 1) == [v]
  {
    var txs := map[u.txHash := TxInfo(0, u.txIx), v.txHash := TxInfo(0, v.txIx)];
    var c := MainChain(0, txs, map[mcBlock := 0], map[s := [u, v]]);
    FillKeepsOk(Cache(s, 0, 0, [], map[]), c, 0, 0);
    EmptyRange([u, v]);
    var cp := AtUtxo(0, u.txIx, u.outIx);
    assert [u, v][1..] == [v];
    OneUtxoStream(v, cp, 0);
    assert Window([u, v], cp, 0) == Window([v], cp, 0);
  }

  /** The mutable cache behind the data source's lock. */
  class TokenUtxoCache {
    var scripts: Scripts
    var startBlock: nat
    var endBlock: nat
    var transfers: seq<BridgeUtxo>
    var utxoCache: map<UtxoId, BridgeUtxo>

    function State(): Cache
      reads this
    {
      Cache(scripts, startBlock, endBlock, transfers, utxoCache)
    }

    constructor (defaultScripts: Scripts)
      ensures State() == Cache(defaultScripts, 0, 0, [], map[])
    {
      scripts, startBlock, endBlock := defaultScripts, 0, 0;
      transfers, utxoCache := [], map[];
    }

    method SetMcScripts(s: Scripts)
      modifies this
      ensures State() == SetScripts(old(State()), s)
    {
      if scripts != s {
        scripts := s;
        transfers := [];
        startBlock := 0;
        endBlock := 0;
      }
    }

    method SetCachedTransfers(start: nat, end: nat, us: seq<BridgeUtxo>)
      modifies this
      ensures State() == SetCached(old(State()), start, end, us)
    {
      startBlock := start;
      endBlock := end;
      var index: map<UtxoId, BridgeUtxo> := map[];
      for i := 0 to |us|
        invariant index == IndexOf(us[..i])
      {
        index := index[us[i].Id() := us[i]];
        assert us[..i + 1][..i] == us[..i];
      }
      assert us[..|us|] == us;
      utxoCache := index;
      transfers := us;
    }

    method ServeFromCache(cp: Resolved, to: nat, limit: nat) returns (r: Option<seq<BridgeUtxo>>)
      ensures r == Serve(State(), cp, to, limit)
    {
      if endBlock < to || !Covers(State(), cp) {
        return None;
      }
      var rest := SkipWhileCovered(transfers, cp);
      var taken := TakeWhileUpTo(rest, to, limit);
      return Some(taken);
    }

    static method SkipWhileCovered(us: seq<BridgeUtxo>, cp: Resolved) returns (rest: seq<BridgeUtxo>)
      ensures rest == SkipCovered(us, cp)
    {
      rest := us;
      while rest != [] && !After(rest[0], cp)
        invariant SkipCovered(us, cp) == SkipCovered(rest, cp)
        decreases |rest|
      {
        rest := rest[1..];
      }
    }

    static method TakeWhileUpTo(us: seq<BridgeUtxo>, to: nat, limit: nat) returns (taken: seq<BridgeUtxo>)
      ensures taken == Limit(TakeUpTo(us, to), limit)
    {
      var n := 0;
      assert us[0..] == us;
      while n < |us| && us[n].block <= to && n < limit
        invariant n <= |us| && n <= limit
        invariant |TakeUpTo(us, to)| == n + |TakeUpTo(us[n..], to)|
      {
        assert us[n..][1..] == us[n + 1..];
        n := n + 1;
      }
      TakeUpToIsPrefix(us, to);
      taken := us[..n];
    }

    method TryResolve(id: UtxoId) returns (r: Option<Resolved>)
      ensures r == ResolveCached(State(), id)
    {
      if id in utxoCache {
        var u := utxoCache[id];
        return Some(AtUtxo(u.block, u.txIx, u.outIx));
      }
      return None;
    }
  }

  /** The indexed resolution agrees with the chain even for entries kept across a script change. */
  lemma ResolveWithAgrees(c: MainChain, k: Cache, cp: Checkpoint)
    requires CacheOk(k, c)
    ensures ResolveWith(c, k, cp) == Resolve(c, cp)
  {
  }

  /** Serve, and on a miss refill and serve again; only a stable block behind the reference defeats it. */
  method ServeOrFill(
    cache: TokenUtxoCache, lookahead: nat, c: MainChain, latest: Option<nat>, q: Query, cp: Resolved, to: nat)
    returns (served: Option<seq<BridgeUtxo>>)
    requires c.Valid() && CacheOk(cache.State(), c) && cache.scripts == q.scripts
    requires to <= c.tip && (latest.Some? ==> latest.value <= c.tip)
    requires cp.AtBlock? ==> cp.number < U32_SPAN
    modifies cache
    ensures CacheOk(cache.State(), c) && cache.scripts == q.scripts
    ensures served == Serve(cache.State(), cp, to, q.limit)
    ensures served.None? ==> latest.Some? && latest.value < to
  {
    served := cache.ServeFromCache(cp, to, q.limit);
    if served.None? {
      var end := FillEnd(to, lookahead, latest);
      FillKeepsOk(cache.State(), c, cp.BlockNumber(), end);
      cache.SetCachedTransfers(cp.BlockNumber(), end, FillRows(c, q.scripts, cp.BlockNumber(), end));
      served := cache.ServeFromCache(cp, to, q.limit);
    }
  }

  /** `get_transfers` without interleaving; the chain and its newest stable block are what the indexer
      returns during the call. */
  method GetTransfers(cache: TokenUtxoCache, lookahead: nat, c: MainChain, latest: Option<nat>, q: Query)
    returns (r: Result<Batch, SourceError>)
    requires c.Valid() && CacheOk(cache.State(), c)
    requires latest.Some? ==> latest.value <= c.tip
    requires q.checkpoint.Block? ==> q.checkpoint.number < U32_SPAN
    modifies cache
    ensures CacheOk(cache.State(), c)
    ensures Fetch(c, q).Err? ==> r == Err(Fetch(c, q).error)
    ensures Fetch(c, q).Ok? && r.Err? ==>
      r.error == CacheNotFilled && latest.Some? && latest.value < c.blocks[q.mcBlock]
    ensures r.Ok? ==> Fetch(c, q).Ok?
    ensures r.Ok? ==>
      (r == Fetch(c, q) <==> !MissesBlockZero(c.View(q.scripts), Resolve(c, q.checkpoint).value, q.limit))
  {
    SetScriptsKeepsOk(cache.State(), c, q.scripts);
    cache.SetMcScripts(q.scripts);
    if q.mcBlock !in c.blocks {
      return Err(UnknownBlock);
    }
    var to := c.blocks[q.mcBlock];
    ResolveWithAgrees(c, cache.State(), q.checkpoint);
    var resolved: Option<Resolved> := None;
    if q.checkpoint.Utxo? {
      resolved := cache.TryResolve(q.checkpoint.id);
    }
    if resolved.None? {
      resolved := Resolve(c, q.checkpoint);
    }
    if resolved.None? {
      return Err(UnknownCheckpoint);
    }
    var cp := resolved.value;
    var served := ServeOrFill(cache, lookahead, c, latest, q, cp, to);
    if served.None? {
      return Err(CacheNotFilled);
    }
    ServeRefinesQueryIff(cache.State(), c, cp, to, q.limit);
    return Ok(Batch(served.value, NextCheckpoint(served.value, q.limit, to)));
  }
}
