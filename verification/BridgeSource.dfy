/** The uncached data source: one query per partner-chain block, limited, resumed by checkpoint. */
module BridgeSource {
  import opened Prelude
  import opened BridgeChain

  datatype SourceError = UnknownBlock | UnknownCheckpoint | CacheNotFilled

  datatype Query = Query(scripts: Scripts, checkpoint: Checkpoint, limit: nat, mcBlock: BlockHash)

  datatype Batch = Batch(utxos: seq<BridgeUtxo>, checkpoint: Checkpoint)

  function Resolve(c: MainChain, cp: Checkpoint): Option<Resolved> {
    match cp
    case Block(n) => Some(AtBlock(n))
    case Utxo(id) =>
      if id.txHash in c.txs then Some(AtUtxo(c.txs[id.txHash].block, c.txs[id.txHash].txIx, id.index))
      else None
  }

  /** Where the next query resumes: after the last UTXO if the limit was reached, else after the block. */
  function NextCheckpoint(utxos: seq<BridgeUtxo>, limit: nat, to: nat): Checkpoint {
    if utxos == [] then Block(to)
    else if |utxos| < limit then Block(to)
    else Utxo(Last(utxos).Id())
  }

  function Rows(c: MainChain, s: Scripts, cp: Resolved, to: nat, limit: nat): seq<BridgeUtxo> {
    Limit(Window(c.View(s), cp, to), limit)
  }

  function Fetch(c: MainChain, q: Query): Result<Batch, SourceError> {
    if q.mcBlock !in c.blocks then Err(UnknownBlock)
    else match Resolve(c, q.checkpoint)
      case None => Err(UnknownCheckpoint)
      case Some(cp) =>
        var to := c.blocks[q.mcBlock];
        var utxos := Rows(c, q.scripts, cp, to, q.limit);
        Ok(Batch(utxos, NextCheckpoint(utxos, q.limit, to)))
  }

  /** Tokens that reached the address, as the 64-bit amount the transfer carries. */
  function Delta(u: BridgeUtxo): nat {
    if u.tokensOut <= u.tokensIn then 0 else (u.tokensOut - u.tokensIn) % U64_SPAN
  }

  function ToTransfer(u: BridgeUtxo): Option<Transfer> {
    if u.tokensOut <= u.tokensIn then None
    else
      match u.datum
      case NoDatum => Some(InvalidTransfer(Delta(u), u.Id()))
      case Undecodable => Some(InvalidTransfer(Delta(u), u.Id()))
      case ReserveDatum => Some(ReserveTransfer(Delta(u)))
      case UserDatum(None) => Some(InvalidTransfer(Delta(u), u.Id()))
      case UserDatum(Some(r)) => Some(UserTransfer(Delta(u), r))
  }

  function Emit(u: BridgeUtxo): (ts: seq<Transfer>)
    ensures |ts| <= 1
  {
    if ToTransfer(u).Some? then [ToTransfer(u).value] else []
  }

  function Transfers(us: seq<BridgeUtxo>): (ts: seq<Transfer>)
    ensures |ts| <= |us|
  {
    if us == [] then [] else Emit(us[0]) + Transfers(us[1..])
  }

  function Tokens(ts: seq<Transfer>): nat {
    if ts == [] then 0 else ts[0].amount + Tokens(ts[1..])
  }

  function Deltas(us: seq<BridgeUtxo>): nat {
    if us == [] then 0 else Delta(us[0]) + Deltas(us[1..])
  }

  lemma {:induction false} TransfersAppend(a: seq<BridgeUtxo>, b: seq<BridgeUtxo>)
    ensures Transfers(a + b) == Transfers(a) + Transfers(b)
  {
    if a == [] {
      assert a + b == b;
    } else {
      TransfersAppend(a[1..], b);
      assert (a + b)[1..] == a[1..] + b;
      ConcatAssoc(Emit(a[0]), Transfers(a[1..]), Transfers(b));
    }
  }

  /** Dropping UTXOs that bring no tokens and classifying the rest loses no token. */
  lemma {:induction false} TransfersConserveTokens(us: seq<BridgeUtxo>)
    ensures Tokens(Transfers(us)) == Deltas(us)
  {
    if us != [] {
      TransfersConserveTokens(us[1..]);
      if ToTransfer(us[0]).Some? {
        assert Transfers(us)[1..] == Transfers(us[1..]);
      } else {
        assert Transfers(us) == Transfers(us[1..]);
      }
    }
  }

  // ----- Where the tokens go, read off the UTXOs -----

  /** Tokens that user transfers bring to one recipient. */
  function ToUser(ts: seq<Transfer>, recipient: nat): nat {
    if ts == [] then 0
    else (if ts[0].UserTransfer? && ts[0].recipient == recipient then ts[0].amount else 0) + ToUser(ts[1..], recipient)
  }

  function ToReserve(ts: seq<Transfer>): nat {
    if ts == [] then 0 else (if ts[0].ReserveTransfer? then ts[0].amount else 0) + ToReserve(ts[1..])
  }

  function Invalid(ts: seq<Transfer>): seq<Transfer> {
    if ts == [] then []
    else if ts[0].InvalidTransfer? then [ts[0]] + Invalid(ts[1..])
    else Invalid(ts[1..])
  }

  /** Tokens of the UTXOs whose datum is `datum`, each amount cut to 64 bits. */
  function BroughtWith(us: seq<BridgeUtxo>, datum: Datum): nat {
    if us == [] then 0
    else
      (if us[0].datum == datum && us[0].tokensIn < us[0].tokensOut
       then (us[0].tokensOut - us[0].tokensIn) % U64_SPAN else 0)
      + BroughtWith(us[1..], datum)
  }

  /** For each UTXO that brings tokens without naming the reserve or a recipient, its amount and id. */
  function Unaddressed(us: seq<BridgeUtxo>): seq<Transfer> {
    if us == [] then []
    else
      var u, rest := us[0], Unaddressed(us[1..]);
      if u.tokensOut <= u.tokensIn || u.datum == ReserveDatum || (u.datum.UserDatum? && u.datum.recipient.Some?) then rest
      else [InvalidTransfer((u.tokensOut - u.tokensIn) % U64_SPAN, UtxoId(u.txHash, u.outIx))] + rest
  }

  /** Every recipient and the reserve get exactly what the UTXOs addressed to them brought, and every other
      UTXO that brought tokens is passed on, in order, as an invalid transfer under its own id. */
  lemma {:induction false} TransfersReachDestinations(us: seq<BridgeUtxo>, recipient: nat)
    ensures ToUser(Transfers(us), recipient) == BroughtWith(us, UserDatum(Some(recipient)))
    ensures ToReserve(Transfers(us)) == BroughtWith(us, ReserveDatum)
    ensures Invalid(Transfers(us)) == Unaddressed(us)
  {
    if us != [] {
      TransfersReachDestinations(us[1..], recipient);
      if us[0].tokensOut <= us[0].tokensIn {
        assert Transfers(us) == Transfers(us[1..]);
      } else {
        assert Transfers(us)[1..] == Transfers(us[1..]);
      }
    }
  }

  lemma {:induction false} DestinationsAppend(a: seq<Transfer>, b: seq<Transfer>, recipient: nat)
    ensures ToUser(a + b, recipient) == ToUser(a, recipient) + ToUser(b, recipient)
    ensures ToReserve(a + b) == ToReserve(a) + ToReserve(b)
    ensures Invalid(a + b) == Invalid(a) + Invalid(b)
  {
    if a == [] {
      assert a + b == b;
    } else {
      DestinationsAppend(a[1..], b, recipient);
      assert (a + b)[1..] == a[1..] + b;
      if a[0].InvalidTransfer? {
        ConcatAssoc([a[0]], Invalid(a[1..]), Invalid(b));
      }
    }
  }

  /** The transfer carries the tokens of the UTXO to whom its datum says. */
  predicate Carries(t: Transfer, u: BridgeUtxo) {
    && u.tokensIn < u.tokensOut && t.amount == (u.tokensOut - u.tokensIn) % U64_SPAN
    && match t
       case UserTransfer(_, r) => u.datum == UserDatum(Some(r))
       case ReserveTransfer(_) => u.datum == ReserveDatum
       case InvalidTransfer(_, id) =>
         u.datum in {NoDatum, Undecodable, UserDatum(None)} && id.txHash == u.txHash && id.index == u.outIx
  }

  predicate BringsTokens(u: BridgeUtxo) {
    u.tokensIn < u.tokensOut
  }

  lemma EmitCarries(u: BridgeUtxo)
    ensures |Emit(u)| == if BringsTokens(u) then 1 else 0
    ensures BringsTokens(u) ==> Carries(Emit(u)[0], u)
  {
  }

  /** One transfer for each UTXO that brings tokens, in their order. */
  lemma TransfersInOrder(us: seq<BridgeUtxo>)
    ensures
      var ix, ts := Hits(BringsTokens, us), Transfers(us);
      |ts| == |ix| && forall i :: 0 <= i < |ix| ==> Carries(ts[i], us[ix[i]])
  {
    forall i | 0 <= i < |us| ensures |Emit(us[i])| == if BringsTokens(us[i]) then 1 else 0 {
      EmitCarries(us[i]);
    }
    FlatMapInOrder(Emit, BringsTokens, us);
    TransfersFlatMap(us);
    var ix, ts := Hits(BringsTokens, us), FlatMap(Emit, us);
    forall i | 0 <= i < |ix| ensures Carries(ts[i], us[ix[i]]) {
      OnlyOne(ts[i], Emit(us[ix[i]]));
      EmitCarries(us[ix[i]]);
    }
  }

  lemma OnlyOne<T>(x: T, s: seq<T>)
    requires [x] == s
    ensures |s| == 1 && s[0] == x
  {
  }

  lemma {:induction false} TransfersFlatMap(us: seq<BridgeUtxo>)
    ensures Transfers(us) == FlatMap(Emit, us)
  {
    if us != [] {
      TransfersFlatMap(us[1..]);
    }
  }

  /** Tokens that really arrived, before the amount is cut to 64 bits. */
  function Arrived(us: seq<BridgeUtxo>): nat {
    if us == [] then 0
    else (if us[0].tokensOut <= us[0].tokensIn then 0 else us[0].tokensOut - us[0].tokensIn) + Arrived(us[1..])
  }

  /** The transfers carry every token that arrived if and only if no single UTXO brings 2^64 or more. */
  lemma {:induction false} NothingTruncatedIff(us: seq<BridgeUtxo>)
    ensures Deltas(us) <= Arrived(us)
    ensures Deltas(us) == Arrived(us) <==> forall u :: u in us ==> u.tokensOut < u.tokensIn + U64_SPAN
  {
    if us != [] {
      NothingTruncatedIff(us[1..]);
      assert us[0].tokensOut >= us[0].tokensIn + U64_SPAN ==> Delta(us[0]) < U64_SPAN;
      assert forall u :: u in us <==> u == us[0] || u in us[1..];
    }
  }

  /** A UTXO that brings 2^64 tokens or more loses some; one that brings exactly 2^64 loses all. */
  lemma HugeUtxoLosesTokens(u: BridgeUtxo)
    requires u.tokensIn + U64_SPAN <= u.tokensOut
    ensures Deltas([u]) < Arrived([u])
    ensures u.tokensOut == u.tokensIn + U64_SPAN ==> Deltas([u]) == 0
  {
    assert [u][1..] == [];
  }

  /** Position of a resolvable checkpoint in the stream of `s`. */
  ghost function Position(c: MainChain, s: Scripts, cp: Checkpoint): nat
    requires Resolve(c, cp).Some?
  {
    Pos(c.View(s), Resolve(c, cp).value)
  }

  lemma LimitSlice<T>(s: seq<T>, lo: nat, hi: nat, limit: nat)
    requires lo <= |s| && hi <= |s|
    ensures Limit(Slice(s, lo, hi), limit) == Slice(s, lo, Min(hi, lo + limit))
  {
  }

  lemma RowsAreSlice(c: MainChain, s: Scripts, cp: Resolved, to: nat, limit: nat)
    requires c.Valid()
    ensures
      var us := c.View(s);
      Rows(c, s, cp, to, limit) == Slice(us, Pos(us, cp), Min(End(us, to), Pos(us, cp) + limit))
  {
    var us := c.View(s);
    ViewValid(c, s);
    WindowIsSlice(us, cp, to);
    LimitSlice(us, Pos(us, cp), End(us, to), limit);
  }

  /** Position of the checkpoint that follows a batch. */
  lemma NextCheckpointAt(c: MainChain, s: Scripts, p: nat, to: nat, limit: nat)
    requires c.Valid() && p <= |c.View(s)|
    ensures
      var us := c.View(s);
      var e := End(us, to);
      var next := NextCheckpoint(Slice(us, p, Min(e, p + limit)), limit, to);
      && Resolve(c, next).Some?
      && Resolve(c, next).value.BlockNumber() <= to
      && Position(c, s, next) == (if p <= e && 0 < limit then Min(e, p + limit) else e)
  {
    var us := c.View(s);
    var e := End(us, to);
    var next := NextCheckpoint(Slice(us, p, Min(e, p + limit)), limit, to);
    if next.Utxo? {
      var last := p + limit - 1;
      ViewValid(c, s);
      assert next.id == us[last].Id();
      PosOfMember(us, last);
      PosSplits(us, AtBlock(to));
    }
  }

  /** What one query delivers and where it leaves the checkpoint, for every input that is answered. */
  lemma FetchAdvances(c: MainChain, q: Query)
    requires c.Valid()
    requires Fetch(c, q).Ok?
    ensures
      var us := c.View(q.scripts);
      var to := c.blocks[q.mcBlock];
      var b := Fetch(c, q).value;
      var p, e := Position(c, q.scripts, q.checkpoint), End(us, to);
      && b.utxos == Slice(us, p, Min(e, p + q.limit))
      && Resolve(c, b.checkpoint).Some?
      && Resolve(c, b.checkpoint).value.BlockNumber() <= to
      && Position(c, q.scripts, b.checkpoint) == (if p <= e && 0 < q.limit then Min(e, p + q.limit) else e)
  {
    var us, to := c.View(q.scripts), c.blocks[q.mcBlock];
    var cp := Resolve(c, q.checkpoint).value;
    RowsAreSlice(c, q.scripts, cp, to, q.limit);
    NextCheckpointAt(c, q.scripts, Pos(us, cp), to, q.limit);
  }

  /** The checkpoint moves by exactly what was delivered if and only if the main-chain reference is
      not behind it and, when something is waiting, the limit is positive. */
  lemma AdvancesExactlyIff(c: MainChain, q: Query)
    requires c.Valid()
    requires Fetch(c, q).Ok?
    ensures
      var p, e := Position(c, q.scripts, q.checkpoint), End(c.View(q.scripts), c.blocks[q.mcBlock]);
      && Resolve(c, Fetch(c, q).value.checkpoint).Some?
      && (Position(c, q.scripts, Fetch(c, q).value.checkpoint) == p + |Fetch(c, q).value.utxos|
          <==> p == e || (p < e && 0 < q.limit))
  {
    FetchAdvances(c, q);
  }

  /** A main chain with a single bridge UTXO and one referenced block. */
  function OneUtxoChain(u: BridgeUtxo, s: Scripts, mcBlock: BlockHash, number: nat): MainChain {
    MainChain(u.block, map[u.txHash := TxInfo(u.block, u.txIx)], map[mcBlock := number], map[s := [u]])
  }

  lemma OneUtxoStream(u: BridgeUtxo, cp: Resolved, to: nat)
    ensures Window([u], cp, to) == if After(u, cp) && u.block <= to then [u] else []
    ensures Pos([u], cp) == if After(u, cp) then 0 else 1
  {
    assert [u][1..] == [];
  }

  /** Without a limit of at least one the waiting UTXO is passed over and never delivered. */
  lemma ZeroLimitSkips(u: BridgeUtxo, s: Scripts, mcBlock: BlockHash)
    requires 0 < u.block < U32_SPAN
    ensures
      var c := OneUtxoChain(u, s, mcBlock, u.block);
      && c.Valid()
      && Fetch(c, Query(s, Block(u.block - 1), 0, mcBlock)) == Ok(Batch([], Block(u.block)))
      && Position(c, s, Block(u.block - 1)) == 0 && Position(c, s, Block(u.block)) == 1
  {
    OneUtxoStream(u, AtBlock(u.block - 1), u.block);
    OneUtxoStream(u, AtBlock(u.block), u.block);
  }

  /** A reference behind the checkpoint takes the checkpoint back before the UTXO delivered already. */
  lemma ReferenceBehindGoesBack(u: BridgeUtxo, s: Scripts, mcBlock: BlockHash, limit: nat)
    requires 0 < u.block < U32_SPAN
    ensures
      var c := OneUtxoChain(u, s, mcBlock, u.block - 1);
      && c.Valid()
      && Fetch(c, Query(s, Utxo(u.Id()), limit, mcBlock)) == Ok(Batch([], Block(u.block - 1)))
      && Position(c, s, Utxo(u.Id())) == 1 && Position(c, s, Block(u.block - 1)) == 0
  {
    OneUtxoStream(u, AtUtxo(u.block, u.txIx, u.outIx), u.block - 1);
    OneUtxoStream(u, AtBlock(u.block - 1), u.block - 1);
  }

  lemma {:induction false} WindowStable(us: seq<BridgeUtxo>, more: seq<BridgeUtxo>, cp: Resolved, to: nat)
    requires forall i :: 0 <= i < |more| ==> to < more[i].block
    ensures Window(us + more, cp, to) == Window(us, cp, to)
  {
    if us != [] {
      WindowStable(us[1..], more, cp, to);
      assert (us + more)[1..] == us[1..] + more;
    } else {
      assert us + more == more;
      if more != [] {
        assert more[0].block > to;
        WindowStable(us, more[1..], cp, to);
        assert us + more[1..] == more[1..];
      }
    }
  }

  /** An answered query is answered the same for ever after, however far the main chain has grown. */
  lemma FetchStable(c: MainChain, later: MainChain, q: Query)
    requires c.Valid() && Extends(c, later)
    requires Fetch(c, q).Ok?
    ensures Fetch(later, q) == Fetch(c, q)
  {
    var us, us' := c.View(q.scripts), later.View(q.scripts);
    assert Appended(us, us', c.tip);
    assert us' == us + us'[|us|..];
    WindowStable(us, us'[|us|..], Resolve(c, q.checkpoint).value, c.blocks[q.mcBlock]);
  }
}
