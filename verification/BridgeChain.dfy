/** What the token bridge observes on the main chain: the ordered stream of UTXOs at the illiquid
    supply address, and the checkpoints that point into it. */
module BridgeChain {
  import opened Prelude

  /** Token policy, asset name and validator address; compared, never looked into. */
  type Scripts = nat
  type BlockHash = nat

  datatype UtxoId = UtxoId(txHash: nat, index: nat)

  /** Outcome of decoding a UTXO's datum; a user datum may name bytes that are no recipient. */
  datatype Datum = NoDatum | Undecodable | ReserveDatum | UserDatum(recipient: Option<nat>)

  datatype BridgeUtxo = BridgeUtxo(
    block: nat, txIx: nat, txHash: nat, outIx: nat, tokensOut: nat, tokensIn: nat, datum: Datum)
  {
    function Id(): UtxoId {
      UtxoId(txHash, outIx)
    }
  }

  datatype Transfer =
    | UserTransfer(amount: nat, recipient: nat)
    | ReserveTransfer(amount: nat)
    | InvalidTransfer(amount: nat, utxo: UtxoId)

  datatype Checkpoint = Utxo(id: UtxoId) | Block(number: nat)

  /** A checkpoint whose UTXO has been located on the main chain. */
  datatype Resolved = AtUtxo(block: nat, txIx: nat, outIx: nat) | AtBlock(number: nat) {
    function BlockNumber(): nat {
      if AtUtxo? then block else number
    }
  }

  datatype TxInfo = TxInfo(block: nat, txIx: nat)

  /** The stable part of the main chain as the indexer sees it. */
  datatype MainChain = MainChain(
    tip: nat,
    txs: map<nat, TxInfo>,
    blocks: map<BlockHash, nat>,
    utxos: map<Scripts, seq<BridgeUtxo>>)
  {
    function View(s: Scripts): seq<BridgeUtxo> {
      if s in utxos then utxos[s] else []
    }

    ghost predicate Valid() {
      && tip < U32_SPAN
      && (forall h :: h in blocks ==> blocks[h] <= tip)
      && (forall h :: h in txs ==> txs[h].block <= tip)
      && (forall s :: s in utxos ==> Sorted(utxos[s]) && Recorded(utxos[s]))
    }

    /** Every UTXO of the stream sits where its transaction does. */
    ghost predicate Recorded(us: seq<BridgeUtxo>) {
      forall i :: 0 <= i < |us| ==>
        us[i].txHash in txs && txs[us[i].txHash] == TxInfo(us[i].block, us[i].txIx)
    }
  }

  predicate KeyLt(b: nat, t: nat, o: nat, u: BridgeUtxo) {
    b < u.block || (b == u.block && (t < u.txIx || (t == u.txIx && o < u.outIx)))
  }

  ghost predicate Sorted(us: seq<BridgeUtxo>) {
    forall i, j :: 0 <= i < j < |us| ==> KeyLt(us[i].block, us[i].txIx, us[i].outIx, us[j])
  }

  /** `later` is the same chain with further blocks on top. */
  ghost predicate Extends(c: MainChain, later: MainChain) {
    && c.tip <= later.tip
    && (forall h :: h in c.blocks ==> h in later.blocks && later.blocks[h] == c.blocks[h])
    && (forall h :: h in c.txs ==> h in later.txs && later.txs[h] == c.txs[h])
    && (forall s: Scripts :: Appended(c.View(s), later.View(s), c.tip))
  }

  ghost predicate Appended(us: seq<BridgeUtxo>, later: seq<BridgeUtxo>, tip: nat) {
    && us <= later
    && forall i :: |us| <= i < |later| ==> tip < later[i].block
  }

  /** The UTXO lies strictly after the checkpoint. */
  predicate After(u: BridgeUtxo, cp: Resolved) {
    match cp
    case AtUtxo(b, t, o) => KeyLt(b, t, o, u)
    case AtBlock(n) => n < u.block
  }

  /** The rows selected by the observability query, before its limit. */
  function Window(us: seq<BridgeUtxo>, cp: Resolved, to: nat): seq<BridgeUtxo> {
    if us == [] then []
    else (if After(us[0], cp) && us[0].block <= to then [us[0]] else []) + Window(us[1..], cp, to)
  }

  /** Number of UTXOs already covered by a checkpoint. */
  function Pos(us: seq<BridgeUtxo>, cp: Resolved): (p: nat)
    ensures p <= |us|
  {
    if us == [] || After(us[0], cp) then 0 else 1 + Pos(us[1..], cp)
  }

  /** Number of UTXOs in blocks up to `to`. */
  function End(us: seq<BridgeUtxo>, to: nat): nat {
    Pos(us, AtBlock(to))
  }

  function Slice<T>(s: seq<T>, lo: nat, hi: nat): seq<T>
    requires hi <= |s|
  {
    if lo <= hi then s[lo..hi] else []
  }

  lemma {:induction false} PosSplits(us: seq<BridgeUtxo>, cp: Resolved)
    requires Sorted(us)
    ensures forall i :: 0 <= i < |us| ==> (After(us[i], cp) <==> Pos(us, cp) <= i)
  {
    if us != [] {
      PosSplits(us[1..], cp);
      forall i | 0 <= i < |us| ensures After(us[i], cp) <==> Pos(us, cp) <= i {
        if 0 < i {
          assert us[i] == us[1..][i - 1];
        }
      }
    }
  }

  /** Positions are characterised by what lies on their two sides. */
  lemma {:induction false} PosUnique(us: seq<BridgeUtxo>, cp: Resolved, p: nat)
    requires p <= |us|
    requires forall i :: 0 <= i < p ==> !After(us[i], cp)
    requires p < |us| ==> After(us[p], cp)
    ensures Pos(us, cp) == p
  {
    if us != [] && !After(us[0], cp) {
      assert p != 0;
      PosUnique(us[1..], cp, p - 1);
    }
  }

  lemma SliceShift<T>(s: seq<T>, lo: nat, hi: nat)
    requires 0 < lo && 0 < hi <= |s|
    ensures Slice(s, lo, hi) == Slice(s[1..], lo - 1, hi - 1)
  {
  }

  lemma SliceHead<T>(s: seq<T>, hi: nat)
    requires 0 < hi <= |s|
    ensures Slice(s, 0, hi) == [s[0]] + Slice(s[1..], 0, hi - 1)
  {
  }

  lemma TailFollows(us: seq<BridgeUtxo>, cp: Resolved)
    requires Sorted(us) && us != [] && After(us[0], cp)
    ensures Pos(us[1..], cp) == 0
  {
    if 1 < |us| {
      assert KeyLt(us[0].block, us[0].txIx, us[0].outIx, us[1]);
    }
  }

  /** On a sorted stream the query's filter is one contiguous slice. */
  lemma {:induction false} WindowIsSlice(us: seq<BridgeUtxo>, cp: Resolved, to: nat)
    requires Sorted(us)
    ensures Window(us, cp, to) == Slice(us, Pos(us, cp), End(us, to))
  {
    if us != [] {
      WindowIsSlice(us[1..], cp, to);
      if to < us[0].block {
        TailFollows(us, AtBlock(to));
      } else if After(us[0], cp) {
        TailFollows(us, cp);
        SliceHead(us, End(us, to));
      } else {
        SliceShift(us, Pos(us, cp), End(us, to));
      }
    }
  }

  lemma SortedPrefix(us: seq<BridgeUtxo>, later: seq<BridgeUtxo>)
    requires us <= later && Sorted(later)
    ensures Sorted(us)
  {
    forall i, j | 0 <= i < j < |us| ensures KeyLt(us[i].block, us[i].txIx, us[i].outIx, us[j]) {
      assert us[i] == later[i] && us[j] == later[j];
    }
  }

  /** New blocks never move a checkpoint that lies in an old one. */
  lemma PosStable(us: seq<BridgeUtxo>, later: seq<BridgeUtxo>, cp: Resolved, tip: nat)
    requires Sorted(later) && Appended(us, later, tip)
    requires cp.BlockNumber() <= tip
    ensures Pos(us, cp) == Pos(later, cp)
  {
    SortedPrefix(us, later);
    PosSplits(us, cp);
    var p := Pos(us, cp);
    assert forall i :: 0 <= i < |us| ==> us[i] == later[i];
    PosUnique(later, cp, p);
  }

  lemma ViewValid(c: MainChain, s: Scripts)
    requires c.Valid()
    ensures Sorted(c.View(s)) && c.Recorded(c.View(s))
  {
  }

  /** Pointing at a UTXO of the stream covers exactly the stream up to and including it. */
  lemma PosOfMember(us: seq<BridgeUtxo>, i: nat)
    requires Sorted(us) && i < |us|
    ensures Pos(us, AtUtxo(us[i].block, us[i].txIx, us[i].outIx)) == i + 1
  {
    PosUnique(us, AtUtxo(us[i].block, us[i].txIx, us[i].outIx), i + 1);
  }
}
