/** The block participation pallet on top of the production log, over whole runs of blocks. */
module ReleaseRuns {
  import opened Prelude
  import opened Sorting
  import opened ProductionLog
  import opened ParticipationOrder
  import opened ParticipationProvider

  /** What the binary search of `drop_prefix` leaves behind, on any log. */
  function Dropped<P>(log: seq<Entry<P>>, slot: nat): seq<Entry<P>> {
    log[Bisect(log, slot, 0, |log|)..]
  }

  lemma SplitAtBoundary<P>(log: seq<Entry<P>>, slot: nat, pos: nat)
    requires SlotSorted(log) && Boundary(log, slot, pos)
    ensures log[pos..] == DropPrefix(log, slot) && log == PeekPrefix(log, slot) + log[pos..]
  {
    BoundaryIsPeek(log, slot, pos);
    assert log == log[..pos] + log[pos..];
  }

  lemma DroppedIsDropPrefix<P>(log: seq<Entry<P>>, slot: nat)
    requires SlotSorted(log)
    ensures Dropped(log, slot) == DropPrefix(log, slot) && log == PeekPrefix(log, slot) + Dropped(log, slot)
  {
    BisectFindsBoundary(log, slot, 0, |log|);
    SplitAtBoundary(log, slot, Bisect(log, slot, 0, |log|));
  }

  datatype ParticipationError = UpToSlotNotIncreased

  class ParticipationPallet {
    var processedUpToSlot: nat

    constructor ()
      ensures processedUpToSlot == 0
    {
      processedUpToSlot := 0;
    }

    /** Wired to `Log.Drop`, as the runtime does. */
    method NoteProcessing<P(==)>(log: Log<P>, upTo: nat) returns (r: Result<(), ParticipationError>)
      modifies this, log
      ensures r.Err? <==> upTo <= old(processedUpToSlot)
      ensures processedUpToSlot == if r.Ok? then upTo else old(processedUpToSlot)
      ensures r.Err? ==> log.log == old(log.log)
      ensures r.Ok? ==> log.log == Dropped(old(log.log), upTo)
      ensures log.currentProducer == old(log.currentProducer) && log.latestBlock == old(log.latestBlock)
    {
      if upTo <= processedUpToSlot {
        return Err(UpToSlotNotIncreased);
      }
      log.Drop(upTo);
      processedUpToSlot := upTo;
      return Ok(());
    }
  }

  datatype State<P> = State(log: seq<Entry<P>>, latestBlock: Option<nat>, processed: nat)

  /** A proposed block: its number and slot, its author if the runtime names one, and the slot that
      `should_release_data` answered. */
  datatype Block<P> = Block(number: nat, slot: nat, author: Option<P>, release: Option<nat>)

  /** Mandatory inherents that are missing or fail make the block invalid. */
  predicate Accepts<P>(st: State<P>, b: Block<P>) {
    && (b.author.None? ==> st.latestBlock.None?)
    && (b.author.Some? && st.latestBlock.Some? ==> st.latestBlock.value < b.number)
    && (b.release.Some? ==> st.processed < b.release.value)
  }

  /** Entries released by a block: peeked from the parent state. */
  function ReleasedBy<P>(st: State<P>, b: Block<P>): seq<Entry<P>> {
    if b.release.Some? then PeekPrefix(st.log, b.release.value) else []
  }

  function Written<P>(b: Block<P>): seq<Entry<P>> {
    if b.author.Some? then [Entry(b.slot, b.author.value)] else []
  }

  /** Inherents drop the released prefix, finalisation appends the block's own entry. */
  function Execute<P>(st: State<P>, b: Block<P>): State<P> {
    State(
      (if b.release.Some? then Dropped(st.log, b.release.value) else st.log) + Written(b),
      if b.author.Some? then Some(b.number) else st.latestBlock,
      if b.release.Some? then b.release.value else st.processed)
  }

  /** The pallets, run in the order the runtime runs them, do what `Execute` says. */
  method RunPallets<P(==)>(log: Log<P>, pallet: ParticipationPallet, b: Block<P>) returns (valid: bool)
    requires log.currentProducer == None
    modifies log, pallet
    ensures valid == Accepts(State(old(log.log), old(log.latestBlock), old(pallet.processedUpToSlot)), b)
    ensures valid ==>
      && State(log.log, log.latestBlock, pallet.processedUpToSlot)
           == Execute(State(old(log.log), old(log.latestBlock), old(pallet.processedUpToSlot)), b)
      && log.currentProducer == None
  {
    if b.author.Some? {
      var appended := log.Append(b.number, b.author.value);
      if appended.Err? {
        return false;
      }
    } else if log.InherentRequired(false) {
      return false;
    }
    if b.release.Some? {
      var noted := pallet.NoteProcessing(log, b.release.value);
      if noted.Err? {
        return false;
      }
    }
    log.OnFinalize(b.slot);
    return true;
  }

  /** The state with all releases so far, the slot each was made up to, and all entries ever written. */
  datatype History<P> = History(
    state: State<P>, released: seq<seq<Entry<P>>>, slots: seq<nat>, appended: seq<Entry<P>>)

  function Step<P>(h: History<P>, b: Block<P>): History<P> {
    if !Accepts(h.state, b) then h
    else History(
      Execute(h.state, b),
      if b.release.Some? then h.released + [ReleasedBy(h.state, b)] else h.released,
      if b.release.Some? then h.slots + [b.release.value] else h.slots,
      h.appended + Written(b))
  }

  function Run<P>(h: History<P>, blocks: seq<Block<P>>): History<P>
    decreases |blocks|
  {
    if blocks == [] then h else Run(Step(h, blocks[0]), blocks[1..])
  }

  function Genesis<P>(): History<P> {
    History(State([], None, 0), [], [], [])
  }

  ghost predicate SlotsFrom<P>(blocks: seq<Block<P>>, floor: nat) {
    && (forall i :: 0 <= i < |blocks| ==> floor <= blocks[i].slot)
    && (forall i, j :: 0 <= i < j < |blocks| ==> blocks[i].slot <= blocks[j].slot)
  }

  ghost predicate LogUpTo<P>(log: seq<Entry<P>>, slot: nat) {
    SlotSorted(log) && forall i :: 0 <= i < |log| ==> log[i].slot <= slot
  }

  /** Everything ever written is either released, once and in order, or still in the log. */
  ghost predicate Accounted<P>(h: History<P>) {
    Flatten(h.released) + h.state.log == h.appended && |h.slots| == |h.released|
  }

  lemma StepKeepsSorted<P>(h: History<P>, b: Block<P>, floor: nat)
    requires LogUpTo(h.state.log, floor) && floor <= b.slot
    ensures LogUpTo(Step(h, b).state.log, b.slot)
  {
  }

  lemma Regroup<T>(a: seq<T>, b: seq<T>, c: seq<T>, d: seq<T>)
    ensures (a + b) + (c + d) == (a + (b + c)) + d
  {
  }

  lemma StepAccounts<P>(h: History<P>, b: Block<P>)
    requires Accounted(h) && SlotSorted(h.state.log)
    ensures Accounted(Step(h, b))
  {
    if Accepts(h.state, b) {
      var log, w := h.state.log, Written(b);
      if b.release.Some? {
        var taken, rest := ReleasedBy(h.state, b), Dropped(log, b.release.value);
        DroppedIsDropPrefix(log, b.release.value);
        FlattenAppend(h.released, [taken]);
        assert Flatten([taken]) == taken;
        Regroup(Flatten(h.released), taken, rest, w);
      } else {
        ConcatAssoc(Flatten(h.released), log, w);
      }
    }
  }

  /** Exactly-once release: from genesis, for every sequence of proposed blocks with non-decreasing
      slots, whatever slots are released and whichever blocks are rejected. */
  lemma {:induction false} ExactlyOnceFrom<P>(h: History<P>, blocks: seq<Block<P>>, floor: nat)
    requires Accounted(h) && LogUpTo(h.state.log, floor) && SlotsFrom(blocks, floor)
    ensures Accounted(Run(h, blocks)) && SlotSorted(Run(h, blocks).state.log)
    decreases |blocks|
  {
    if blocks != [] {
      StepKeepsSorted(h, blocks[0], floor);
      StepAccounts(h, blocks[0]);
      ExactlyOnceFrom(Step(h, blocks[0]), blocks[1..], blocks[0].slot);
    }
  }

  /** An accepted release takes every entry behind its boundary, also those that landed behind the
      previous boundary because their block released at or beyond its own slot. */
  lemma ReleaseLeavesNothingBehind<P>(st: State<P>, b: Block<P>)
    requires SlotSorted(st.log) && Accepts(st, b) && b.release.Some?
    ensures forall e :: e in st.log && e.slot <= st.processed ==> e in ReleasedBy(st, b)
    ensures forall e :: e in Execute(st, b).log && e.slot <= Execute(st, b).processed ==> e in Written(b)
  {
    PeekSplits(st.log, b.release.value);
    DroppedIsDropPrefix(st.log, b.release.value);
  }

  /** Releases move forward: their slots increase, the last one is remembered, and no release takes an
      entry beyond its slot. */
  ghost predicate Boundaries<P>(h: History<P>) {
    && |h.slots| == |h.released|
    && h.state.processed == (if h.slots == [] then 0 else Last(h.slots))
    && (forall i, j :: 0 <= i < j < |h.slots| ==> h.slots[i] < h.slots[j])
    && (forall i, k :: 0 <= i < |h.slots| && 0 <= k < |h.released[i]| ==> h.released[i][k].slot <= h.slots[i])
  }

  lemma {:induction false} PeekedUpTo<P>(log: seq<Entry<P>>, slot: nat)
    ensures forall k :: 0 <= k < |PeekPrefix(log, slot)| ==> PeekPrefix(log, slot)[k].slot <= slot
  {
    if log != [] && log[0].slot <= slot {
      PeekedUpTo(log[1..], slot);
    }
  }

  lemma StepMovesForward<P>(h: History<P>, b: Block<P>)
    requires Boundaries(h)
    ensures Boundaries(Step(h, b))
  {
    if b.release.Some? {
      PeekedUpTo(h.state.log, b.release.value);
      assert forall i :: 0 <= i < |h.slots| ==> h.slots[i] <= Last(h.slots);
    }
  }

  lemma {:induction false} ReleasesMoveForward<P>(h: History<P>, blocks: seq<Block<P>>)
    requires Boundaries(h)
    ensures Boundaries(Run(h, blocks))
    decreases |blocks|
  {
    if blocks != [] {
      StepMovesForward(h, blocks[0]);
      ReleasesMoveForward(Step(h, blocks[0]), blocks[1..]);
    }
  }

  lemma GenesisMovesForward<P>(blocks: seq<Block<P>>)
    ensures Boundaries(Run(Genesis(), blocks))
  {
    ReleasesMoveForward<P>(Genesis(), blocks);
  }

  lemma {:induction false} LatestNeverFalls<P>(h: History<P>, blocks: seq<Block<P>>)
    requires h.state.latestBlock.Some?
    ensures Run(h, blocks).state.latestBlock.Some?
    ensures h.state.latestBlock.value <= Run(h, blocks).state.latestBlock.value
    decreases |blocks|
  {
    if blocks != [] {
      LatestNeverFalls(Step(h, blocks[0]), blocks[1..]);
    }
  }

  /** Once a block is logged, no later run accepts a block with its number or a smaller one, and none
      without an author. */
  lemma LoggedOncePerNumber<P>(h: History<P>, b: Block<P>, blocks: seq<Block<P>>, again: Block<P>)
    requires Accepts(h.state, b) && b.author.Some?
    requires again.author.None? || again.number <= b.number
    ensures !Accepts(Run(Step(h, b), blocks).state, again)
  {
    LatestNeverFalls(Step(h, b), blocks);
  }

  // ----- Credits over a run -----

  ghost predicate ReleasesPublished<P, D>(
    leP: (P, P) -> bool, leD: (D, D) -> bool, ctx: Context<P, D>, released: seq<seq<Entry<P>>>, slots: seq<nat>,
    published: seq<ProductionData<P, D>>)
  {
    && |published| == |released| == |slots|
    && forall i :: 0 <= i < |released| ==>
         |released[i]| < U32_SPAN && Released(leP, leD, ctx, slots[i], released[i]) == Some(published[i])
  }

  function CreditedOverall<P, D>(published: seq<ProductionData<P, D>>, p: P -> bool): nat {
    if published == [] then 0 else Credited(published[0].participation, p) + CreditedOverall(published[1..], p)
  }

  lemma {:induction false} BlocksByAppend<P>(a: seq<Entry<P>>, b: seq<Entry<P>>, p: P -> bool)
    ensures BlocksBy(a + b, p) == BlocksBy(a, p) + BlocksBy(b, p)
  {
    if b == [] {
      assert a + b == a;
    } else {
      BlocksByAppend(a, b[..|b| - 1], p);
      assert (a + b)[..|a + b| - 1] == a + b[..|b| - 1];
    }
  }

  lemma {:induction false} PublishedCredits<P, D>(
    leP: (P, P) -> bool, leD: (D, D) -> bool, ctx: Context<P, D>, released: seq<seq<Entry<P>>>, slots: seq<nat>,
    published: seq<ProductionData<P, D>>, p: P -> bool)
    requires ReleasesPublished(leP, leD, ctx, released, slots, published)
    ensures CreditedOverall(published, p) == BlocksBy(Flatten(released), p)
  {
    if released != [] {
      PublishedCredits(leP, leD, ctx, released[1..], slots[1..], published[1..], p);
      ReleasedCredits(leP, leD, ctx, slots[0], released[0], p);
      BlocksByAppend(released[0], Flatten(released[1..]), p);
    }
  }

  lemma ReleasedUpTo<P, D>(
    leP: (P, P) -> bool, leD: (D, D) -> bool, ctx: Context<P, D>, upTo: nat, log: seq<Entry<P>>)
    requires Released(leP, leD, ctx, upTo, log).Some?
    ensures Released(leP, leD, ctx, upTo, log).value.upToSlot == upTo
  {
  }

  /** Each published record carries the slot of the release it was made for. */
  lemma PublishedSlots<P, D>(
    leP: (P, P) -> bool, leD: (D, D) -> bool, ctx: Context<P, D>, released: seq<seq<Entry<P>>>, slots: seq<nat>,
    published: seq<ProductionData<P, D>>)
    requires ReleasesPublished(leP, leD, ctx, released, slots, published)
    ensures forall i :: 0 <= i < |published| ==> published[i].upToSlot == slots[i]
  {
    forall i | 0 <= i < |published| ensures published[i].upToSlot == slots[i] {
      ReleasedUpTo(leP, leD, ctx, slots[i], released[i]);
    }
  }

  /** Over every run from genesis and for every group of producers (one of them, or all): the credits in
      all released data, plus the blocks still in the log, are exactly the blocks produced. */
  lemma EveryBlockCreditedOnce<P, D>(
    leP: (P, P) -> bool, leD: (D, D) -> bool, ctx: Context<P, D>, blocks: seq<Block<P>>,
    published: seq<ProductionData<P, D>>, p: P -> bool)
    requires SlotsFrom(blocks, 0)
    requires ReleasesPublished(
      leP, leD, ctx, Run(Genesis(), blocks).released, Run(Genesis(), blocks).slots, published)
    ensures
      var h := Run(Genesis(), blocks);
      CreditedOverall(published, p) + BlocksBy(h.state.log, p) == BlocksBy(h.appended, p)
  {
    var h := Run(Genesis(), blocks);
    ExactlyOnceFrom(Genesis(), blocks, 0);
    PublishedCredits(leP, leD, ctx, h.released, h.slots, published, p);
    BlocksByAppend(Flatten(h.released), h.state.log, p);
  }
}
