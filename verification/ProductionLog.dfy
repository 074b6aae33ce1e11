/** The block production log pallet: one producer noted per block, consumed by slot prefix. */
module ProductionLog {
  import opened Prelude

  datatype Entry<P> = Entry(slot: nat, producer: P)

  datatype LogError = BlockNumberNotIncreased

  ghost predicate SlotSorted<P>(log: seq<Entry<P>>) {
    forall i, j :: 0 <= i < j < |log| ==> log[i].slot <= log[j].slot
  }

  /** Linear scan: the longest prefix of entries up to `slot`. */
  function PeekPrefix<P>(log: seq<Entry<P>>, slot: nat): (r: seq<Entry<P>>)
    ensures |r| <= |log| && r == log[..|r|]
  {
    if log == [] || slot < log[0].slot then [] else [log[0]] + PeekPrefix(log[1..], slot)
  }

  function DropPrefix<P>(log: seq<Entry<P>>, slot: nat): seq<Entry<P>> {
    log[|PeekPrefix(log, slot)|..]
  }

  /** `pos` is a boundary of `slot` in the log. */
  ghost predicate Boundary<P>(log: seq<Entry<P>>, slot: nat, pos: nat) {
    && pos <= |log|
    && (0 < pos ==> log[pos - 1].slot <= slot)
    && (pos < |log| ==> slot < log[pos].slot)
  }

  /** On a sorted log there is one boundary, and the linear scan ends there. */
  lemma {:induction false} BoundaryIsPeek<P>(log: seq<Entry<P>>, slot: nat, pos: nat)
    requires SlotSorted(log) && Boundary(log, slot, pos)
    ensures PeekPrefix(log, slot) == log[..pos] && DropPrefix(log, slot) == log[pos..]
  {
    if log == [] || slot < log[0].slot {
      assert pos == 0;
    } else {
      assert 0 < pos;
      BoundaryIsPeek(log[1..], slot, pos - 1);
      assert [log[0]] + log[1..][..pos - 1] == log[..pos];
      assert |PeekPrefix(log, slot)| == |log[..pos]|;
    }
  }

  /** The prefix holds exactly the entries up to `slot`, the rest exactly the later ones. */
  lemma {:induction false} PeekSplits<P>(log: seq<Entry<P>>, slot: nat)
    requires SlotSorted(log)
    ensures forall e :: e in PeekPrefix(log, slot) ==> e.slot <= slot
    ensures forall e :: e in DropPrefix(log, slot) ==> slot < e.slot
  {
    if log != [] && log[0].slot <= slot {
      PeekSplits(log[1..], slot);
      assert DropPrefix(log, slot) == DropPrefix(log[1..], slot);
    }
  }

  function Middle(lo: nat, hi: nat): (mid: nat)
    requires lo < hi
    ensures lo <= mid < hi
  {
    lo + (hi - lo) / 2
  }

  /** Where halving the interval ends, on a sorted log or not. */
  function Bisect<P>(log: seq<Entry<P>>, slot: nat, lo: nat, hi: nat): (pos: nat)
    requires lo <= hi <= |log|
    ensures lo <= pos <= hi
    decreases hi - lo
  {
    if lo == hi then lo
    else
      var mid := Middle(lo, hi);
      if log[mid].slot <= slot then Bisect(log, slot, mid + 1, hi) else Bisect(log, slot, lo, mid)
  }

  lemma {:induction false} BisectFindsBoundary<P>(log: seq<Entry<P>>, slot: nat, lo: nat, hi: nat)
    requires lo <= hi <= |log|
    requires (0 < lo ==> log[lo - 1].slot <= slot) && (hi < |log| ==> slot < log[hi].slot)
    ensures Boundary(log, slot, Bisect(log, slot, lo, hi))
    decreases hi - lo
  {
    if lo < hi {
      var mid := Middle(lo, hi);
      if log[mid].slot <= slot {
        BisectFindsBoundary(log, slot, mid + 1, hi);
      } else {
        BisectFindsBoundary(log, slot, lo, mid);
      }
    }
  }

  /** Binary search, as `partition_point` does it. */
  method PartitionPoint<P>(log: seq<Entry<P>>, slot: nat) returns (pos: nat)
    ensures pos == Bisect(log, slot, 0, |log|) && Boundary(log, slot, pos)
    ensures SlotSorted(log) ==> pos == |PeekPrefix(log, slot)|
  {
    ghost var target := Bisect(log, slot, 0, |log|);
    var lo, hi := 0, |log|;
    while lo < hi
      invariant 0 <= lo <= hi <= |log|
      invariant Bisect(log, slot, lo, hi) == target
    {
      var mid := Middle(lo, hi);
      if log[mid].slot <= slot {
        lo := mid + 1;
      } else {
        hi := mid;
      }
    }
    pos := lo;
    BisectFindsBoundary(log, slot, 0, |log|);
    if SlotSorted(log) {
      BoundaryIsPeek(log, slot, pos);
    }
  }

  /** The slot order is needed: on an unsorted log of two entries the search drops both where the scan
      sees none. */
  lemma UnsortedLogSplits<P>(late: Entry<P>, early: Entry<P>, slot: nat)
    requires early.slot <= slot < late.slot
    ensures Bisect([late, early], slot, 0, 2) == 2 && PeekPrefix([late, early], slot) == []
  {
    var log := [late, early];
    assert Bisect(log, slot, 0, 2) == Bisect(log, slot, 2, 2);
  }

  class Log<P(==)> {
    var log: seq<Entry<P>>
    var currentProducer: Option<P>
    var latestBlock: Option<nat>

    constructor ()
      ensures log == [] && currentProducer == None && latestBlock == None
    {
      log, currentProducer, latestBlock := [], None, None;
    }

    method Append(blockNumber: nat, producer: P) returns (r: Result<(), LogError>)
      modifies this
      ensures r.Err? <==> old(latestBlock).Some? && blockNumber <= old(latestBlock).value
      ensures log == old(log)
      ensures if r.Ok? then latestBlock == Some(blockNumber) && currentProducer == Some(producer)
              else latestBlock == old(latestBlock) && currentProducer == old(currentProducer)
    {
      if latestBlock.Some? && latestBlock.value >= blockNumber {
        return Err(BlockNumberNotIncreased);
      }
      latestBlock := Some(blockNumber);
      currentProducer := Some(producer);
      return Ok(());
    }

    method OnFinalize(currentSlot: nat)
      modifies this
      ensures currentProducer == None && latestBlock == old(latestBlock)
      ensures log == if old(currentProducer).Some?
                     then old(log) + [Entry(currentSlot, old(currentProducer).value)] else old(log)
    {
      if currentProducer.Some? {
        log := log + [Entry(currentSlot, currentProducer.value)];
        currentProducer := None;
      }
    }

    method TakePrefix(slot: nat) returns (removed: seq<Entry<P>>)
      modifies this
      ensures removed + log == old(log) && |removed| == Bisect(old(log), slot, 0, |old(log)|)
      ensures SlotSorted(old(log)) ==> removed == PeekPrefix(old(log), slot)
      ensures currentProducer == old(currentProducer) && latestBlock == old(latestBlock)
    {
      var pos := PartitionPoint(log, slot);
      removed := log[..pos];
      log := log[pos..];
    }

    method Drop(slot: nat)
      modifies this
      ensures SlotSorted(old(log)) ==> log == DropPrefix(old(log), slot)
      ensures log == old(log)[Bisect(old(log), slot, 0, |old(log)|)..]
      ensures currentProducer == old(currentProducer) && latestBlock == old(latestBlock)
    {
      var position := PartitionPoint(log, slot);
      log := log[position..];
    }

    method Peek(slot: nat) returns (entries: seq<Entry<P>>)
      ensures entries == PeekPrefix(log, slot)
    {
      var n := 0;
      while n < |log| && log[n].slot <= slot
        invariant n <= |log|
        invariant |PeekPrefix(log, slot)| == n + |PeekPrefix(log[n..], slot)|
      {
        assert log[n..][1..] == log[n + 1..];
        n := n + 1;
      }
      entries := log[..n];
    }

    /** Once one entry has been noted, every later block must bring one. */
    predicate InherentRequired(hasData: bool)
      reads this
    {
      hasData || latestBlock.Some?
    }
  }
}
