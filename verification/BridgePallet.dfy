/** The bridge pallet, its inherent data provider and whole runs of partner-chain blocks. */
module BridgePallet {
  import opened Prelude
  import opened BridgeChain
  import opened BridgeSource
  import opened BridgeCache
  import opened BridgeConcurrency

  datatype PalletState = PalletState(
    scripts: Option<Scripts>,
    checkpoint: Option<Checkpoint>,
    handled: seq<Transfer>)

  datatype TransferData = TransferData(transfers: seq<Transfer>, checkpoint: Checkpoint)

  datatype HandleCall = HandleTransfers(transfers: seq<Transfer>, checkpoint: Checkpoint)

  datatype ProviderError = DataSourceError(error: SourceError) | UnsupportedPalletVersion(version: nat)

  datatype Provider = Inert | ActiveV1(data: TransferData)

  datatype Creation = NoCall | Created(call: HandleCall) | Panicked

  datatype InherentError = InherentRequired | InherentNotExpected | IncorrectInherent

  /** `TransferHandler` receives the transfers in order; `handled` records them. */
  class Pallet {
    var scripts: Option<Scripts>
    var checkpoint: Option<Checkpoint>
    var handled: seq<Transfer>

    function State(): PalletState
      reads this
    {
      PalletState(scripts, checkpoint, handled)
    }

    constructor Genesis(initialScripts: Option<Scripts>, initialCheckpoint: Option<UtxoId>)
      ensures State() == PalletState(
        initialScripts, if initialCheckpoint.Some? then Some(Utxo(initialCheckpoint.value)) else None, [])
    {
      scripts := initialScripts;
      checkpoint := if initialCheckpoint.Some? then Some(Utxo(initialCheckpoint.value)) else None;
      handled := [];
    }

    method HandleTransfers(transfers: seq<Transfer>, dataCheckpoint: Checkpoint)
      modifies this
      ensures State() == Handle(old(State()), transfers, dataCheckpoint)
    {
      for i := 0 to |transfers|
        invariant handled == old(handled) + transfers[..i]
        invariant scripts == old(scripts) && checkpoint == old(checkpoint)
      {
        handled := handled + [transfers[i]];
      }
      assert transfers[..|transfers|] == transfers;
      checkpoint := Some(dataCheckpoint);
    }

    method SetMainChainScripts(governance: bool, newScripts: Scripts, dataCheckpoint: Checkpoint)
      returns (ok: bool)
      modifies this
      ensures ok == governance
      ensures State() == if ok then PalletState(Some(newScripts), Some(dataCheckpoint), old(handled)) else old(State())
    {
      if !governance {
        return false;
      }
      scripts := Some(newScripts);
      checkpoint := Some(dataCheckpoint);
      return true;
    }
  }

  function Handle(st: PalletState, transfers: seq<Transfer>, cp: Checkpoint): PalletState {
    st.(handled := st.handled + transfers, checkpoint := Some(cp))
  }

  /** The query a node makes for the block built on `st`, if the pallet is configured. */
  function QueryOf(st: PalletState, limit: nat, mcBlock: BlockHash): Option<Query> {
    if st.checkpoint.Some? && st.scripts.Some?
    then Some(Query(st.scripts.value, st.checkpoint.value, limit, mcBlock)) else None
  }

  /** The provider built from the runtime's API version and the data source's answer. */
  function NewProvider(version: Option<nat>, q: Option<Query>, answer: Result<Batch, SourceError>)
    : Result<Provider, ProviderError>
  {
    match version
    case None => Ok(Inert)
    case Some(v) =>
      if v != 1 then Err(UnsupportedPalletVersion(v))
      else if q.None? then Ok(Inert)
      else match answer
        case Err(e) => Err(DataSourceError(e))
        case Ok(b) => Ok(ActiveV1(TransferData(Transfers(b.utxos), b.checkpoint)))
  }

  function InherentOf(p: Provider): Option<TransferData> {
    if p.ActiveV1? then Some(p.data) else None
  }

  function CreateInherent(data: Option<TransferData>, bound: nat): Creation {
    if data.None? then NoCall
    else if |data.value.transfers| > bound then Panicked
    else Created(HandleTransfers(data.value.transfers, data.value.checkpoint))
  }

  /** None when the expected call cannot even be created. */
  function CheckInherent(call: HandleCall, data: Option<TransferData>, bound: nat): Option<Result<(), InherentError>> {
    match CreateInherent(data, bound)
    case Panicked => None
    case NoCall => Some(Err(InherentNotExpected))
    case Created(expected) => Some(if call != expected then Err(IncorrectInherent) else Ok(()))
  }

  predicate InherentIsRequired(data: Option<TransferData>) {
    data.Some?
  }

  /** One partner-chain block; a failing provider means that no block is produced. */
  function ExecBlock(st: PalletState, c: MainChain, limit: nat, mcBlock: BlockHash): PalletState {
    match QueryOf(st, limit, mcBlock)
    case None => st
    case Some(q) =>
      match NewProvider(Some(1), Some(q), Fetch(c, q))
      case Err(_) => st
      case Ok(p) =>
        match CreateInherent(InherentOf(p), limit)
        case Created(call) => Handle(st, call.transfers, call.checkpoint)
        case _ => st
  }

  /** The main chain as the producing node saw it, and the main-chain block it referenced. */
  datatype Tick = Tick(chain: MainChain, mcBlock: BlockHash)

  function RunBlocks(st: PalletState, limit: nat, ticks: seq<Tick>): PalletState
    decreases |ticks|
  {
    if ticks == [] then st
    else RunBlocks(ExecBlock(st, ticks[0].chain, limit, ticks[0].mcBlock), limit, ticks[1..])
  }

  /** Every node saw a prefix of the same main chain. */
  ghost predicate SeenOn(c: MainChain, ticks: seq<Tick>) {
    forall i :: 0 <= i < |ticks| ==> ticks[i].chain.Valid() && Extends(ticks[i].chain, c)
  }

  /** References never go back, and start no earlier than `floor`. */
  ghost predicate RefsFrom(c: MainChain, ticks: seq<Tick>, floor: nat) {
    && (forall i :: 0 <= i < |ticks| && ticks[i].mcBlock in c.blocks ==> floor <= c.blocks[ticks[i].mcBlock])
    && (forall i, j :: 0 <= i < j < |ticks| && ticks[i].mcBlock in c.blocks && ticks[j].mcBlock in c.blocks ==>
          c.blocks[ticks[i].mcBlock] <= c.blocks[ticks[j].mcBlock])
  }

  ghost predicate Configured(c: MainChain, st: PalletState) {
    st.scripts.Some? && st.checkpoint.Some? && Resolve(c, st.checkpoint.value).Some?
  }

  ghost function At(c: MainChain, st: PalletState): nat
    requires Configured(c, st)
  {
    Position(c, st.scripts.value, st.checkpoint.value)
  }

  /** `st'` has handled exactly the stretch of the stream between the two checkpoints. */
  ghost predicate Delivered(c: MainChain, st: PalletState, st': PalletState) {
    && Configured(c, st) && Configured(c, st') && st'.scripts == st.scripts
    && At(c, st) <= At(c, st') <= |c.View(st.scripts.value)|
    && st'.handled == st.handled + Transfers(c.View(st.scripts.value)[At(c, st)..At(c, st')])
  }

  lemma CreationNeverPanics(c: MainChain, q: Query, version: Option<nat>)
    requires NewProvider(version, Some(q), Fetch(c, q)).Ok?
    ensures !CreateInherent(InherentOf(NewProvider(version, Some(q), Fetch(c, q)).value), q.limit).Panicked?
  {
    if version == Some(1) {
      assert |Fetch(c, q).value.utxos| <= q.limit;
    }
  }

  lemma {:induction false} CheckpointNotAhead(us: seq<BridgeUtxo>, cp: Resolved, to: nat)
    requires cp.BlockNumber() <= to
    ensures Pos(us, cp) <= End(us, to)
  {
    if us != [] && !After(us[0], cp) {
      CheckpointNotAhead(us[1..], cp, to);
    }
  }

  /** A block delivers the next stretch and moves the checkpoint past exactly that stretch. */
  lemma BlockDelivers(c: MainChain, st: PalletState, limit: nat, tick: Tick)
    requires c.Valid() && tick.chain.Valid() && Extends(tick.chain, c)
    requires Configured(c, st) && 0 < limit
    requires tick.mcBlock in c.blocks ==>
      Resolve(c, st.checkpoint.value).value.BlockNumber() <= c.blocks[tick.mcBlock]
    ensures
      var st' := ExecBlock(st, tick.chain, limit, tick.mcBlock);
      && Delivered(c, st, st')
      && (st' == st || (tick.mcBlock in c.blocks &&
            Resolve(c, st'.checkpoint.value).value.BlockNumber() <= c.blocks[tick.mcBlock]))
      && (Fetch(tick.chain, QueryOf(st, limit, tick.mcBlock).value).Ok? ==>
            At(c, st') == Min(End(c.View(st.scripts.value), c.blocks[tick.mcBlock]), At(c, st) + limit))
  {
    var q := QueryOf(st, limit, tick.mcBlock).value;
    var us := c.View(q.scripts);
    assert us[At(c, st)..At(c, st)] == [];
    if Fetch(tick.chain, q).Ok? {
      FetchStable(tick.chain, c, q);
      FetchAdvances(c, q);
      CreationNeverPanics(c, q, Some(1));
      var to := c.blocks[tick.mcBlock];
      CheckpointNotAhead(us, Resolve(c, q.checkpoint).value, to);
      assert Position(c, q.scripts, q.checkpoint) <= End(us, to);
      var st' := ExecBlock(st, tick.chain, limit, tick.mcBlock);
      assert st'.checkpoint == Some(Fetch(c, q).value.checkpoint);
      assert Slice(us, At(c, st), At(c, st')) == us[At(c, st)..At(c, st')];
    } else {
      assert st.handled + Transfers(us[At(c, st)..At(c, st)]) == st.handled;
    }
  }

  lemma DeliveredCompose(c: MainChain, a: PalletState, b: PalletState, d: PalletState)
    requires Delivered(c, a, b) && Delivered(c, b, d)
    ensures Delivered(c, a, d)
  {
    var us := c.View(a.scripts.value);
    var x, y := us[At(c, a)..At(c, b)], us[At(c, b)..At(c, d)];
    assert us[At(c, a)..At(c, d)] == x + y;
    TransfersAppend(x, y);
    ConcatAssoc(a.handled, Transfers(x), Transfers(y));
  }

  /** Exactly-once delivery over every run: whatever the growth of the main chain, failing blocks and
      switches between block and UTXO checkpoints, the handler has received the contiguous, in-order
      stretch of the stream between the first and the last checkpoint. */
  lemma {:induction false} ExactlyOnce(c: MainChain, st: PalletState, limit: nat, ticks: seq<Tick>)
    requires c.Valid() && Configured(c, st) && 0 < limit
    requires SeenOn(c, ticks)
    requires RefsFrom(c, ticks, Resolve(c, st.checkpoint.value).value.BlockNumber())
    ensures Delivered(c, st, RunBlocks(st, limit, ticks))
    decreases |ticks|
  {
    if ticks == [] {
      var us := c.View(st.scripts.value);
      assert us[At(c, st)..At(c, st)] == [];
      assert st.handled + Transfers([]) == st.handled;
    } else {
      var st' := ExecBlock(st, ticks[0].chain, limit, ticks[0].mcBlock);
      BlockDelivers(c, st, limit, ticks[0]);
      ExactlyOnce(c, st', limit, ticks[1..]);
      DeliveredCompose(c, st, st', RunBlocks(st', limit, ticks[1..]));
    }
  }

  lemma {:induction false} TokensAppend(a: seq<Transfer>, b: seq<Transfer>)
    ensures Tokens(a + b) == Tokens(a) + Tokens(b)
  {
    if a == [] {
      assert a + b == b;
    } else {
      TokensAppend(a[1..], b);
      assert (a + b)[1..] == a[1..] + b;
    }
  }

  /** Tokens handed to the handler over a run are the tokens that arrived between the checkpoints. */
  lemma TokensConserved(c: MainChain, st: PalletState, limit: nat, ticks: seq<Tick>)
    requires c.Valid() && Configured(c, st) && 0 < limit
    requires SeenOn(c, ticks)
    requires RefsFrom(c, ticks, Resolve(c, st.checkpoint.value).value.BlockNumber())
    ensures
      var st' := RunBlocks(st, limit, ticks);
      && Delivered(c, st, st')
      && Tokens(st'.handled) == Tokens(st.handled) + Deltas(c.View(st.scripts.value)[At(c, st)..At(c, st')])
  {
    ExactlyOnce(c, st, limit, ticks);
    var st' := RunBlocks(st, limit, ticks);
    var part := c.View(st.scripts.value)[At(c, st)..At(c, st')];
    TokensAppend(st.handled, Transfers(part));
    TransfersConserveTokens(part);
  }

  /** The same per destination: over every run each recipient and the reserve are handed exactly the tokens of
      the UTXOs between the checkpoints that are addressed to them, and the invalid transfers are exactly
      the other UTXOs that brought tokens, in order and under their own ids. */
  lemma DestinationsConserved(c: MainChain, st: PalletState, limit: nat, ticks: seq<Tick>, recipient: nat)
    requires c.Valid() && Configured(c, st) && 0 < limit
    requires SeenOn(c, ticks)
    requires RefsFrom(c, ticks, Resolve(c, st.checkpoint.value).value.BlockNumber())
    ensures
      var st' := RunBlocks(st, limit, ticks);
      && Configured(c, st') && At(c, st) <= At(c, st') <= |c.View(st.scripts.value)|
      && var stretch := c.View(st.scripts.value)[At(c, st)..At(c, st')];
         && ToUser(st'.handled, recipient)
              == ToUser(st.handled, recipient) + BroughtWith(stretch, UserDatum(Some(recipient)))
         && ToReserve(st'.handled) == ToReserve(st.handled) + BroughtWith(stretch, ReserveDatum)
         && Invalid(st'.handled) == Invalid(st.handled) + Unaddressed(stretch)
  {
    ExactlyOnce(c, st, limit, ticks);
    var st' := RunBlocks(st, limit, ticks);
    var stretch := c.View(st.scripts.value)[At(c, st)..At(c, st')];
    DestinationsAppend(st.handled, Transfers(stretch), recipient);
    TransfersReachDestinations(stretch, recipient);
  }

  lemma MinInSteps(e: nat, p: nat, limit: nat, n: nat)
    requires 0 < n
    ensures Min(e, Min(e, p + limit) + (n - 1) * limit) == Min(e, p + n * limit)
  {
    assert n * limit == limit + (n - 1) * limit;
    assert 0 <= (n - 1) * limit;
  }

  function Stalled(c: MainChain, mcBlock: BlockHash, n: nat): seq<Tick> {
    Repeat(Tick(c, mcBlock), n)
  }

  /** With the tip fixed, `n` blocks bring the backlog down by `n` times the limit, or to nothing. */
  lemma {:induction false} BacklogDrains(c: MainChain, st: PalletState, limit: nat, mcBlock: BlockHash, n: nat)
    requires c.Valid() && Configured(c, st) && 0 < limit
    requires mcBlock in c.blocks && Resolve(c, st.checkpoint.value).value.BlockNumber() <= c.blocks[mcBlock]
    ensures
      var st' := RunBlocks(st, limit, Stalled(c, mcBlock, n));
      && Configured(c, st')
      && At(c, st') == Min(End(c.View(st.scripts.value), c.blocks[mcBlock]), At(c, st) + n * limit)
    decreases n
  {
    if n == 0 {
      CheckpointNotAhead(c.View(st.scripts.value), Resolve(c, st.checkpoint.value).value, c.blocks[mcBlock]);
    } else {
      var t := Tick(c, mcBlock);
      BlockDelivers(c, st, limit, t);
      var st' := ExecBlock(st, c, limit, mcBlock);
      BacklogDrains(c, st', limit, mcBlock, n - 1);
      assert Stalled(c, mcBlock, n)[1..] == Stalled(c, mcBlock, n - 1);
      MinInSteps(End(c.View(st.scripts.value), c.blocks[mcBlock]), At(c, st), limit, n);
    }
  }

  /** A pallet without scripts or checkpoint, or whose runtime has no such interface: no call is made or
      required, any call is refused, and blocks change nothing. */
  lemma InertPalletRefusesCalls(
    c: MainChain, st: PalletState, limit: nat, mcBlock: BlockHash, version: Option<nat>,
    answer: Result<Batch, SourceError>, call: HandleCall)
    requires version.None? || (version == Some(1) && (st.scripts.None? || st.checkpoint.None?))
    ensures
      var provider := NewProvider(version, QueryOf(st, limit, mcBlock), answer);
      && provider.Ok?
      && var data := InherentOf(provider.value);
         && CreateInherent(data, limit) == NoCall && !InherentIsRequired(data)
         && CheckInherent(call, data, limit) == Some(Err(InherentNotExpected))
    ensures version == Some(1) ==> ExecBlock(st, c, limit, mcBlock) == st
  {
  }

  /** A source that fails, or a runtime of another version, is reported and no block is built. */
  lemma FailuresAreReported(q: Query, version: nat, answer: Result<Batch, SourceError>)
    ensures version != 1 ==> NewProvider(Some(version), Some(q), answer) == Err(UnsupportedPalletVersion(version))
    ensures version == 1 && answer.Err? ==> NewProvider(Some(version), Some(q), answer) == Err(DataSourceError(answer.error))
  {
  }

  /** A verifier whose own source answered faithfully, cached or not, and whose main chain may have
      grown meanwhile, accepts the proposer's call and no other. */
  lemma VerifierAgrees(
    c: MainChain, later: MainChain, st: PalletState, limit: nat, mcBlock: BlockHash,
    own: Result<Batch, SourceError>, call: HandleCall)
    requires c.Valid() && Extends(c, later) && Configured(c, st)
    requires Fetch(c, QueryOf(st, limit, mcBlock).value).Ok?
    requires own.Ok? && Faithful(later, QueryOf(st, limit, mcBlock).value, own)
    requires !MissesBlockZero(later.View(st.scripts.value), Resolve(later, st.checkpoint.value).value, limit)
    ensures
      var q := QueryOf(st, limit, mcBlock).value;
      var data := InherentOf(NewProvider(Some(1), Some(q), own).value);
      var b := Fetch(c, q).value;
      && InherentIsRequired(data)
      && CheckInherent(call, data, limit) ==
           Some(if call == HandleTransfers(Transfers(b.utxos), b.checkpoint) then Ok(()) else Err(IncorrectInherent))
  {
    var q := QueryOf(st, limit, mcBlock).value;
    FetchStable(c, later, q);
    CachedFetchStable(c, later, q);
    assert Appended(c.View(q.scripts), later.View(q.scripts), c.tip);
    CachedFetchIff(c, q);
    CreationNeverPanics(later, q, Some(1));
  }
}
