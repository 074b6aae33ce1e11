/** The inherent data provider of block participation: counts logged blocks per main-chain epoch and
    producer in hash maps, joins them with stake, and canonicalises. */
module ParticipationProvider {
  import opened Prelude
  import opened Sorting
  import opened Permutation
  import opened ProductionLog
  import opened ParticipationOrder

  const DATA_MC_EPOCH_OFFSET := 2

  datatype EpochConfig = EpochConfig(
    firstEpochTimestamp: nat, epochDuration: nat, firstEpochNumber: nat, slotDuration: nat)

  /** `Panic` stands for the `expect`s on timestamps that cannot be converted. */
  datatype ProviderError<P> =
    | Panic
    | McEpochBelowOffset(epoch: nat)
    | DataSourceError(epoch: nat)
    | DataMissing(epoch: nat, producer: P)

  function DataEpochAfter<P>(cfg: EpochConfig, passed: nat): Result<nat, ProviderError<P>> {
    if passed > 0x7fff_ffff then Err(Panic)
    else
      var epoch := Min(cfg.firstEpochNumber + passed, U32_SPAN - 1);
      if epoch < DATA_MC_EPOCH_OFFSET then Err(McEpochBelowOffset(epoch))
      else Ok(epoch - DATA_MC_EPOCH_OFFSET)
  }

  function DataEpochAt<P>(cfg: EpochConfig, timestamp: nat): Result<nat, ProviderError<P>> {
    if timestamp >= U64_SPAN || timestamp < cfg.firstEpochTimestamp || cfg.epochDuration == 0 then Err(Panic)
    else DataEpochAfter(cfg, (timestamp - cfg.firstEpochTimestamp) / cfg.epochDuration)
  }

  /** Data epoch of a slot: the main-chain epoch containing it, shifted back by the offset. */
  function DataEpoch<P>(cfg: EpochConfig, slot: nat): Result<nat, ProviderError<P>> {
    DataEpochAt(cfg, slot * cfg.slotDuration)
  }

  lemma QuotientIff(x: nat, d: nat, k: nat)
    requires 0 < d
    ensures x / d == k <==> k * d <= x < (k + 1) * d
  {
    var q := x / d;
    assert x == q * d + x % d;
    assert (k + 1) * d == k * d + d && (q + 1) * d == q * d + d;
    if q < k {
      MulMonotone(q + 1, k, d);
    } else if k < q {
      MulMonotone(k + 1, q, d);
    }
  }

  lemma MulMonotone(a: nat, b: nat, d: nat)
    requires a <= b
    ensures a * d <= b * d
  {
  }

  lemma DataEpochAfterIff<P>(cfg: EpochConfig, passed: nat, e: nat)
    requires e + DATA_MC_EPOCH_OFFSET < U32_SPAN - 1
    ensures DataEpochAfter<P>(cfg, passed) == Ok(e)
            <==> passed <= 0x7fff_ffff && cfg.firstEpochNumber + passed == e + DATA_MC_EPOCH_OFFSET
  {
  }

  /** The slot's timestamp falls into main-chain epoch `e` plus the offset. */
  predicate InDataEpoch(cfg: EpochConfig, slot: nat, e: nat) {
    var timestamp, k := slot * cfg.slotDuration, e + DATA_MC_EPOCH_OFFSET - cfg.firstEpochNumber;
    && timestamp < U64_SPAN && cfg.firstEpochTimestamp <= timestamp && 0 <= k <= 0x7fff_ffff
    && k * cfg.epochDuration <= timestamp - cfg.firstEpochTimestamp < (k + 1) * cfg.epochDuration
  }

  /** Below the saturation point, a slot is counted in data epoch `e` exactly when its timestamp falls
      into main-chain epoch `e` plus the offset. */
  lemma DataEpochIff<P>(cfg: EpochConfig, slot: nat, e: nat)
    requires 0 < cfg.epochDuration && e + DATA_MC_EPOCH_OFFSET < U32_SPAN - 1
    ensures DataEpoch<P>(cfg, slot) == Ok(e) <==> InDataEpoch(cfg, slot, e)
  {
    var timestamp := slot * cfg.slotDuration;
    var k := e + DATA_MC_EPOCH_OFFSET - cfg.firstEpochNumber;
    if timestamp < U64_SPAN && cfg.firstEpochTimestamp <= timestamp {
      var since := timestamp - cfg.firstEpochTimestamp;
      DataEpochAfterIff<P>(cfg, since / cfg.epochDuration, e);
      if 0 <= k {
        QuotientIff(since, cfg.epochDuration, k);
      }
    }
  }

  /** Every other slot: no data epoch if the timestamp cannot be converted or falls into one of the first
      two main-chain epochs, and the same last one from the saturation point on. */
  lemma OtherSlots<P>(cfg: EpochConfig, slot: nat)
    requires 0 < cfg.epochDuration && cfg.firstEpochNumber < U32_SPAN
    ensures
      var since := slot * cfg.slotDuration - cfg.firstEpochTimestamp;
      var passed := since / cfg.epochDuration;
      var converts := slot * cfg.slotDuration < U64_SPAN && 0 <= since && passed < 0x8000_0000;
      var r := DataEpoch<P>(cfg, slot);
      && (r.Err? <==> !converts || cfg.firstEpochNumber + passed < 2)
      && (r.Err? ==> r.error == if !converts then Panic else McEpochBelowOffset(cfg.firstEpochNumber + passed))
      && (r == Ok(U32_SPAN - 3) <==> converts && U32_SPAN - 1 <= cfg.firstEpochNumber + passed)
  {
    var since := slot * cfg.slotDuration - cfg.firstEpochTimestamp;
    if slot * cfg.slotDuration < U64_SPAN && 0 <= since {
      OtherEpochs<P>(cfg, since / cfg.epochDuration);
    }
  }

  lemma OtherEpochs<P>(cfg: EpochConfig, passed: nat)
    requires cfg.firstEpochNumber < U32_SPAN
    ensures
      var r := DataEpochAfter<P>(cfg, passed);
      && (r.Err? <==> 0x8000_0000 <= passed || cfg.firstEpochNumber + passed < 2)
      && (r.Err? ==> r.error == if 0x8000_0000 <= passed then Panic else McEpochBelowOffset(cfg.firstEpochNumber + passed))
      && (r == Ok(U32_SPAN - 3) <==> passed < 0x8000_0000 && U32_SPAN - 1 <= cfg.firstEpochNumber + passed)
  {
  }

  datatype Stake = Stake(key: nat, amount: nat)

  datatype PoolDelegation = PoolDelegation(totalStake: nat, delegators: seq<Stake>)

  /** What the provider asks of its surroundings. The stake query's answer depends on which pools are
      asked for, not on the order they are listed in. */
  datatype Context<!P, !D> = Context(
    epoch: nat -> Result<nat, ProviderError<P>>,
    spo: P -> Option<nat>,
    delegator: nat -> D,
    stake: (nat, set<nat>) -> Option<map<nat, PoolDelegation>>)

  /** A block of the log with the epoch it is counted in. */
  datatype Tag<P> = Tag(epoch: nat, producer: P)

  type EpochOf<P> = nat -> Result<nat, ProviderError<P>>

  predicate EpochsOk<P>(epoch: EpochOf<P>, log: seq<Entry<P>>) {
    forall i :: 0 <= i < |log| ==> epoch(log[i].slot).Ok?
  }

  function Tags<P>(epoch: EpochOf<P>, log: seq<Entry<P>>): (r: seq<Tag<P>>)
    requires EpochsOk(epoch, log)
    ensures |r| == |log|
    ensures forall i :: 0 <= i < |log| ==> r[i] == Tag(epoch(log[i].slot).value, log[i].producer)
  {
    seq(|log|, i requires 0 <= i < |log| => Tag(epoch(log[i].slot).value, log[i].producer))
  }

  /** The epoch calculation the provider is run with. */
  function EpochBy<P>(cfg: EpochConfig): EpochOf<P> {
    slot => DataEpoch(cfg, slot)
  }

  /** Blocks of one producer in one data epoch, read off the timestamps. */
  function BlocksIn<P(==)>(cfg: EpochConfig, log: seq<Entry<P>>, e: nat, p: P): nat {
    if log == [] then 0
    else
      BlocksIn(cfg, log[..|log| - 1], e, p)
      + if Last(log).producer == p && InDataEpoch(cfg, Last(log).slot, e) then 1 else 0
  }

  type Counts<P> = map<nat, map<P, nat>>

  predicate Has<P>(m: Counts<P>, t: Tag<P>) {
    t.epoch in m && t.producer in m[t.epoch]
  }

  function CountOf<P>(m: Counts<P>, t: Tag<P>): nat {
    if Has(m, t) then m[t.epoch][t.producer] else 0
  }

  /** The nested map counts exactly the given tags, modulo 2^32. */
  ghost predicate Tallies<P(!new)>(m: Counts<P>, tags: seq<Tag<P>>) {
    && (forall e :: e in m ==> m[e].Keys != {})
    && (forall t :: Has(m, t) <==> t in tags)
    && (forall t :: CountOf(m, t) == multiset(tags)[t] % U32_SPAN)
  }

  function Bump<P>(m: Counts<P>, t: Tag<P>): Counts<P> {
    var inner := if t.epoch in m then m[t.epoch] else map[];
    m[t.epoch := inner[t.producer := (CountOf(m, t) + 1) % U32_SPAN]]
  }

  lemma BumpOne<P>(m: Counts<P>, t: Tag<P>, x: Tag<P>)
    ensures Has(Bump(m, t), x) <==> Has(m, x) || x == t
    ensures CountOf(Bump(m, t), x) == if x == t then (CountOf(m, x) + 1) % U32_SPAN else CountOf(m, x)
  {
  }

  lemma BumpNonEmpty<P>(m: Counts<P>, t: Tag<P>)
    requires forall e :: e in m ==> m[e].Keys != {}
    ensures forall e :: e in Bump(m, t) ==> Bump(m, t)[e].Keys != {}
  {
    assert t.producer in Bump(m, t)[t.epoch].Keys;
  }

  lemma SnocCount<T>(s: seq<T>, t: T, x: T)
    ensures multiset(s + [t])[x] == multiset(s)[x] + if x == t then 1 else 0
    ensures x in s + [t] <==> x in s || x == t
  {
  }

  lemma AddOneMod(n: nat)
    ensures (n % U32_SPAN + 1) % U32_SPAN == (n + 1) % U32_SPAN
  {
  }

  lemma BumpTallies<P(!new)>(m: Counts<P>, tags: seq<Tag<P>>, t: Tag<P>)
    requires Tallies(m, tags)
    ensures Tallies(Bump(m, t), tags + [t])
  {
    var m' := Bump(m, t);
    BumpNonEmpty(m, t);
    forall x ensures Has(m', x) <==> x in tags + [t] {
      BumpOne(m, t, x);
      SnocCount(tags, t, x);
    }
    forall x ensures CountOf(m', x) == multiset(tags + [t])[x] % U32_SPAN {
      BumpOne(m, t, x);
      SnocCount(tags, t, x);
      assert CountOf(m, x) == multiset(tags)[x] % U32_SPAN;
      AddOneMod(multiset(tags)[x]);
    }
  }

  ghost predicate FirstBadEpoch<P>(epoch: EpochOf<P>, log: seq<Entry<P>>, error: ProviderError<P>) {
    exists i ::
      && 0 <= i < |log| && epoch(log[i].slot) == Err(error)
      && forall j :: 0 <= j < i ==> epoch(log[j].slot).Ok?
  }

  /** Counts are 32-bit: exact for fewer than 2^32 blocks, modulo 2^32 beyond. */
  method CountBlocks<P(==, !new)>(epoch: EpochOf<P>, log: seq<Entry<P>>)
    returns (r: Result<Counts<P>, ProviderError<P>>)
    ensures r.Ok? <==> EpochsOk(epoch, log)
    ensures r.Ok? ==> Tallies(r.value, Tags(epoch, log))
    ensures r.Err? ==> FirstBadEpoch(epoch, log, r.error)
  {
    var counts: Counts<P> := map[];
    ghost var tags: seq<Tag<P>> := [];
    for i := 0 to |log|
      invariant |tags| == i && Tallies(counts, tags)
      invariant forall j :: 0 <= j < i ==>
        epoch(log[j].slot).Ok? && tags[j] == Tag(epoch(log[j].slot).value, log[j].producer)
    {
      var dataEpoch := epoch(log[i].slot);
      if dataEpoch.Err? {
        return Err(dataEpoch.error);
      }
      var t := Tag(dataEpoch.value, log[i].producer);
      BumpTallies(counts, tags, t);
      counts, tags := Bump(counts, t), tags + [t];
    }
    assert tags == Tags(epoch, log);
    return Ok(counts);
  }

  function Shares<D>(delegator: nat -> D, ds: seq<Stake>): seq<Delegator<D>> {
    if ds == [] then [] else [Delegator(delegator(ds[0].key), ds[0].amount)] + Shares(delegator, ds[1..])
  }

  function Breakdown<P, D>(ctx: Context<P, D>, epoch: nat, producer: P, count: nat, dist: map<nat, PoolDelegation>)
    : Result<Production<P, D>, ProviderError<P>>
  {
    match ctx.spo(producer)
    case None => Ok(Production(producer, count, 0, []))
    case Some(pool) =>
      if pool !in dist then Err(DataMissing(epoch, producer))
      else Ok(Production(producer, count, dist[pool].totalStake, Shares(ctx.delegator, dist[pool].delegators)))
  }

  /** Pools asked for in one epoch. */
  ghost function PoolsOf<P, D>(ctx: Context<P, D>, tags: seq<Tag<P>>, epoch: nat): set<nat> {
    set i | 0 <= i < |tags| && tags[i].epoch == epoch && ctx.spo(tags[i].producer).Some?
      :: ctx.spo(tags[i].producer).value
  }

  /** The entry released for one epoch and producer. */
  ghost function EntryFor<P, D>(ctx: Context<P, D>, tags: seq<Tag<P>>, t: Tag<P>): Result<Production<P, D>, ProviderError<P>> {
    match ctx.stake(t.epoch, PoolsOf(ctx, tags, t.epoch))
    case None => Err(DataSourceError(t.epoch))
    case Some(dist) => Breakdown(ctx, t.epoch, t.producer, multiset(tags)[t] % U32_SPAN, dist)
  }

  ghost predicate EntriesOk<P, D>(ctx: Context<P, D>, tags: seq<Tag<P>>) {
    forall i :: 0 <= i < |tags| ==> EntryFor(ctx, tags, tags[i]).Ok?
  }

  ghost function Entries<P, D>(ctx: Context<P, D>, tags: seq<Tag<P>>, ts: seq<Tag<P>>): (r: seq<Production<P, D>>)
    requires forall t :: t in ts ==> EntryFor(ctx, tags, t).Ok?
    ensures |r| == |ts| && forall i :: 0 <= i < |ts| ==> r[i] == EntryFor(ctx, tags, ts[i]).value
  {
    if ts == [] then [] else [EntryFor(ctx, tags, ts[0]).value] + Entries(ctx, tags, ts[1..])
  }

  // ----- What an entry says, read off the log and the stake answers -----

  /** Blocks of one producer that fall into one epoch. */
  function BlocksOf<P(==)>(epoch: EpochOf<P>, log: seq<Entry<P>>, e: nat, p: P): nat {
    if log == [] then 0
    else
      BlocksOf(epoch, log[..|log| - 1], e, p)
      + if Last(log).producer == p && epoch(Last(log).slot) == Ok(e) then 1 else 0
  }

  ghost predicate Produced<P>(epoch: EpochOf<P>, log: seq<Entry<P>>, e: nat, p: P) {
    exists j :: 0 <= j < |log| && log[j].producer == p && epoch(log[j].slot) == Ok(e)
  }

  /** The source was asked for exactly the pools of the epoch's producers, and answered `answer`. */
  ghost predicate StakeAnswer<P, D>(
    ctx: Context<P, D>, log: seq<Entry<P>>, e: nat, pools: set<nat>, answer: Option<map<nat, PoolDelegation>>)
  {
    && ctx.stake(e, pools) == answer
    && forall pool :: pool in pools <==>
         exists j :: 0 <= j < |log| && ctx.epoch(log[j].slot) == Ok(e) && ctx.spo(log[j].producer) == Some(pool)
  }

  /** The delegators of a pool under their own ids, with their stakes as shares. */
  ghost predicate Listed<D>(delegator: nat -> D, stakes: seq<Stake>, ds: seq<Delegator<D>>) {
    |ds| == |stakes| && forall j :: 0 <= j < |stakes| ==> ds[j].id == delegator(stakes[j].key) && ds[j].share == stakes[j].amount
  }

  /** Total and delegators of an entry: nothing for a producer that is no pool, and otherwise the pool's
      total stake and exactly its delegators, in some order. */
  ghost predicate StakeIs<P, D(!new)>(ctx: Context<P, D>, dist: map<nat, PoolDelegation>, x: Production<P, D>) {
    match ctx.spo(x.producer)
    case None => x.totalShares == 0 && x.delegators == []
    case Some(pool) =>
      && pool in dist && x.totalShares == dist[pool].totalStake
      && exists ds :: Listed(ctx.delegator, dist[pool].delegators, ds) && multiset(x.delegators) == multiset(ds)
  }

  /** The entry of one epoch for the producer it names. */
  ghost predicate EntryIs<P, D(!new)>(ctx: Context<P, D>, log: seq<Entry<P>>, e: nat, x: Production<P, D>) {
    && Produced(ctx.epoch, log, e, x.producer)
    && x.blockCount == BlocksOf(ctx.epoch, log, e, x.producer) % U32_SPAN
    && exists pools, dist :: StakeAnswer(ctx, log, e, pools, Some(dist)) && StakeIs(ctx, dist, x)
  }

  lemma {:induction false} BlocksByTimestamp<P>(cfg: EpochConfig, log: seq<Entry<P>>, e: nat, p: P)
    requires 0 < cfg.epochDuration && e + DATA_MC_EPOCH_OFFSET < U32_SPAN - 1
    ensures BlocksOf(EpochBy(cfg), log, e, p) == BlocksIn(cfg, log, e, p)
  {
    if log != [] {
      BlocksByTimestamp(cfg, log[..|log| - 1], e, p);
      DataEpochIff<P>(cfg, Last(log).slot, e);
    }
  }

  /** With the epochs of a chain configuration, an entry counts the producer's blocks whose timestamps lie
      in its epoch plus the offset. */
  lemma EntryCountsBlocks<P, D(!new)>(
    ctx: Context<P, D>, cfg: EpochConfig, log: seq<Entry<P>>, e: nat, x: Production<P, D>)
    requires ctx.epoch == EpochBy(cfg) && EntryIs(ctx, log, e, x)
    requires 0 < cfg.epochDuration && e + DATA_MC_EPOCH_OFFSET < U32_SPAN - 1
    ensures x.blockCount == BlocksIn(cfg, log, e, x.producer) % U32_SPAN
  {
    BlocksByTimestamp(cfg, log, e, x.producer);
  }

  /** Why stake data was not complete: an epoch was not answered, or a pool is not in the answer. */
  ghost predicate StakeMissing<P(!new), D>(ctx: Context<P, D>, log: seq<Entry<P>>, error: ProviderError<P>) {
    match error
    case Panic => false
    case McEpochBelowOffset(_) => false
    case DataSourceError(e) =>
      (exists p :: Produced(ctx.epoch, log, e, p)) && exists pools :: StakeAnswer(ctx, log, e, pools, None)
    case DataMissing(e, p) =>
      && Produced(ctx.epoch, log, e, p) && ctx.spo(p).Some?
      && exists pools, dist :: StakeAnswer(ctx, log, e, pools, Some(dist)) && ctx.spo(p).value !in dist
  }

  lemma {:induction false} SharesListed<D>(delegator: nat -> D, stakes: seq<Stake>)
    ensures Listed(delegator, stakes, Shares(delegator, stakes))
  {
    if stakes != [] {
      SharesListed(delegator, stakes[1..]);
    }
  }

  lemma {:induction false} TagsCount<P>(epoch: EpochOf<P>, log: seq<Entry<P>>, t: Tag<P>)
    requires EpochsOk(epoch, log)
    ensures multiset(Tags(epoch, log))[t] == BlocksOf(epoch, log, t.epoch, t.producer)
    ensures t in Tags(epoch, log) <==> Produced(epoch, log, t.epoch, t.producer)
  {
    var tags := Tags(epoch, log);
    if t in tags {
      var j :| 0 <= j < |tags| && tags[j] == t;
      assert log[j].producer == t.producer && epoch(log[j].slot) == Ok(t.epoch);
    }
    if j :| 0 <= j < |log| && log[j].producer == t.producer && epoch(log[j].slot) == Ok(t.epoch) {
      assert tags[j] == t;
    }
    if log != [] {
      TagsCount(epoch, log[..|log| - 1], t);
      assert tags == Tags(epoch, log[..|log| - 1]) + [Last(tags)];
    }
  }

  /** The pools asked for are those of the epoch's producers, and no other set is. */
  lemma PoolsAnswer<P, D>(ctx: Context<P, D>, log: seq<Entry<P>>, e: nat)
    requires EpochsOk(ctx.epoch, log)
    ensures
      var pools := PoolsOf(ctx, Tags(ctx.epoch, log), e);
      && StakeAnswer(ctx, log, e, pools, ctx.stake(e, pools))
      && forall ps, answer :: StakeAnswer(ctx, log, e, ps, answer) ==> ps == pools
  {
    var tags := Tags(ctx.epoch, log);
    var pools := PoolsOf(ctx, tags, e);
    forall pool ensures pool in pools <==>
      exists j :: 0 <= j < |log| && ctx.epoch(log[j].slot) == Ok(e) && ctx.spo(log[j].producer) == Some(pool)
    {
      if pool in pools {
        var j :| 0 <= j < |tags| && tags[j].epoch == e && ctx.spo(tags[j].producer).Some?
                 && ctx.spo(tags[j].producer).value == pool;
        assert ctx.epoch(log[j].slot) == Ok(e) && ctx.spo(log[j].producer) == Some(pool);
      }
      if j :| 0 <= j < |log| && ctx.epoch(log[j].slot) == Ok(e) && ctx.spo(log[j].producer) == Some(pool) {
        assert tags[j].epoch == e && tags[j].producer == log[j].producer;
      }
    }
  }

  lemma EntryForIs<P, D(!new)>(ctx: Context<P, D>, log: seq<Entry<P>>, t: Tag<P>, x: Production<P, D>)
    requires EpochsOk(ctx.epoch, log) && t in Tags(ctx.epoch, log)
    requires EntryFor(ctx, Tags(ctx.epoch, log), t).Ok?
    requires
      var y := EntryFor(ctx, Tags(ctx.epoch, log), t).value;
      x == y.(delegators := x.delegators) && multiset(x.delegators) == multiset(y.delegators)
    ensures x.producer == t.producer && EntryIs(ctx, log, t.epoch, x)
  {
    var pools := PoolsOf(ctx, Tags(ctx.epoch, log), t.epoch);
    TagsCount(ctx.epoch, log, t);
    PoolsAnswer(ctx, log, t.epoch);
    var dist := ctx.stake(t.epoch, pools).value;
    if ctx.spo(t.producer).Some? {
      SharesListed(ctx.delegator, dist[ctx.spo(t.producer).value].delegators);
    }
    assert StakeAnswer(ctx, log, t.epoch, pools, Some(dist)) && StakeIs(ctx, dist, x);
  }

  lemma EntryForErr<P(!new), D>(ctx: Context<P, D>, log: seq<Entry<P>>, t: Tag<P>)
    requires EpochsOk(ctx.epoch, log) && t in Tags(ctx.epoch, log)
    requires EntryFor(ctx, Tags(ctx.epoch, log), t).Err?
    ensures StakeMissing(ctx, log, EntryFor(ctx, Tags(ctx.epoch, log), t).error)
  {
    TagsCount(ctx.epoch, log, t);
    PoolsAnswer(ctx, log, t.epoch);
  }

  /** Where every pair has its entry no stake is missing. */
  lemma NothingMissing<P(!new), D>(ctx: Context<P, D>, log: seq<Entry<P>>, error: ProviderError<P>)
    requires EpochsOk(ctx.epoch, log) && EntriesOk(ctx, Tags(ctx.epoch, log))
    ensures !StakeMissing(ctx, log, error)
  {
    if StakeMissing(ctx, log, error) {
      var e := error.epoch;
      var p :| Produced(ctx.epoch, log, e, p) && (error.DataMissing? ==> p == error.producer);
      TagsCount(ctx.epoch, log, Tag(e, p));
      assert EntryFor(ctx, Tags(ctx.epoch, log), Tag(e, p)).Ok?;
      PoolsAnswer(ctx, log, e);
    }
  }

  /** Order-free meaning of the provider: one entry per epoch and producer, in canonical order. */
  ghost function Released<P, D>(
    leP: (P, P) -> bool, leD: (D, D) -> bool, ctx: Context<P, D>, upTo: nat, log: seq<Entry<P>>)
    : Option<ProductionData<P, D>>
  {
    if !EpochsOk(ctx.epoch, log) || !EntriesOk(ctx, Tags(ctx.epoch, log)) then None
    else
      var tags := Tags(ctx.epoch, log);
      DedupSound(tags);
      Some(Canonical(leP, leD, upTo, Entries(ctx, tags, Dedup(tags))))
  }

  /** Pools of one epoch, collected from the keys of its hash map. */
  function PoolsAsked<P, D>(ctx: Context<P, D>, producers: set<P>): set<nat> {
    set p | p in producers && ctx.spo(p).Some? :: ctx.spo(p).value
  }

  lemma PoolsAskedAgree<P(!new), D>(ctx: Context<P, D>, m: Counts<P>, tags: seq<Tag<P>>, e: nat)
    requires Tallies(m, tags) && e in m
    ensures PoolsAsked(ctx, m[e].Keys) == PoolsOf(ctx, tags, e)
  {
    forall pool | pool in PoolsAsked(ctx, m[e].Keys) ensures pool in PoolsOf(ctx, tags, e) {
      var p :| p in m[e].Keys && ctx.spo(p).Some? && ctx.spo(p).value == pool;
      assert Has(m, Tag(e, p));
      var i :| 0 <= i < |tags| && tags[i] == Tag(e, p);
    }
    forall pool | pool in PoolsOf(ctx, tags, e) ensures pool in PoolsAsked(ctx, m[e].Keys) {
      var i :| 0 <= i < |tags| && tags[i].epoch == e && ctx.spo(tags[i].producer).Some?
               && ctx.spo(tags[i].producer).value == pool;
      assert Has(m, tags[i]);
    }
  }

  /** `ts` lists, without repeats, the epoch-producer pairs of the epochs in `epochs` and, within
      `epoch`, of the producers in `producers`. */
  ghost predicate Visited<P(!new)>(m: Counts<P>, ts: seq<Tag<P>>, epochs: set<nat>, epoch: nat, producers: set<P>) {
    && Distinct(ts)
    && forall t :: t in ts <==>
         && Has(m, t)
         && (t.epoch in epochs || (t.epoch == epoch && t.producer in producers))
  }

  ghost predicate Summarised<P, D>(
    ctx: Context<P, D>, tags: seq<Tag<P>>, ts: seq<Tag<P>>, summaries: seq<Production<P, D>>)
  {
    && |summaries| == |ts|
    && forall i :: 0 <= i < |ts| ==> EntryFor(ctx, tags, ts[i]) == Ok(summaries[i])
  }

  lemma EntryOfCounted<P(!new), D>(ctx: Context<P, D>, m: Counts<P>, tags: seq<Tag<P>>, e: nat, p: P)
    requires Tallies(m, tags) && e in m && p in m[e]
    ensures Tag(e, p) in tags
    ensures match ctx.stake(e, PoolsAsked(ctx, m[e].Keys))
            case None => EntryFor(ctx, tags, Tag(e, p)) == Err(DataSourceError(e))
            case Some(dist) => EntryFor(ctx, tags, Tag(e, p)) == Breakdown(ctx, e, p, m[e][p], dist)
  {
    PoolsAskedAgree(ctx, m, tags, e);
    assert Has(m, Tag(e, p)) && CountOf(m, Tag(e, p)) == m[e][p];
  }

  /** Every pair visited once: the summaries are a rearrangement of the order-free entries. */
  lemma AllVisited<P(!new), D>(
    ctx: Context<P, D>, m: Counts<P>, tags: seq<Tag<P>>, ts: seq<Tag<P>>, summaries: seq<Production<P, D>>)
    requires Tallies(m, tags) && Summarised(ctx, tags, ts, summaries) && Distinct(ts)
    requires forall t :: t in ts <==> Has(m, t)
    ensures EntriesOk(ctx, tags)
    ensures (forall t :: t in Dedup(tags) ==> EntryFor(ctx, tags, t).Ok?)
    ensures multiset(summaries) == multiset(Entries(ctx, tags, Dedup(tags)))
  {
    DedupSound(tags);
    assert forall t :: t in ts <==> t in tags;
    DistinctPermutes(ts, Dedup(tags));
    forall t | t in tags ensures EntryFor(ctx, tags, t).Ok? {
      var i :| 0 <= i < |ts| && ts[i] == t;
    }
    ImagesPermute(ts, summaries, Dedup(tags), Entries(ctx, tags, Dedup(tags)));
  }

  lemma RearrangedByOrder<P(!new), D(!new)>(es: seq<Production<P, D>>, fs: seq<Production<P, D>>)
    requires multiset(es) == multiset(fs)
    ensures Rearranged(es, fs)
  {
    assert InnerPermuted(es, es) && InnerPermuted(fs, fs);
  }

  /** Entries gathered in any order are released in the canonical one. */
  lemma SummariesReleased<P(!new), D(!new)>(
    leP: (P, P) -> bool, leD: (D, D) -> bool, ctx: Context<P, D>, upTo: nat, log: seq<Entry<P>>,
    summaries: seq<Production<P, D>>)
    requires TotalOrder(leP) && TotalOrder(leD) && EpochsOk(ctx.epoch, log) && EntriesOk(ctx, Tags(ctx.epoch, log))
    requires forall t :: t in Dedup(Tags(ctx.epoch, log)) ==> EntryFor(ctx, Tags(ctx.epoch, log), t).Ok?
    requires multiset(summaries) == multiset(Entries(ctx, Tags(ctx.epoch, log), Dedup(Tags(ctx.epoch, log))))
    ensures Released(leP, leD, ctx, upTo, log) == Some(Canonical(leP, leD, upTo, summaries))
    ensures forall error :: !StakeMissing(ctx, log, error)
  {
    var entries := Entries(ctx, Tags(ctx.epoch, log), Dedup(Tags(ctx.epoch, log)));
    RearrangedByOrder(summaries, entries);
    CanonicalIffRearranged(leP, leD, upTo, summaries, entries);
    forall error ensures !StakeMissing(ctx, log, error) {
      NothingMissing(ctx, log, error);
    }
  }

  /** Entries of one epoch, in the order its hash map happens to yield producers. */
  method SummariseEpoch<P(==, !new), D>(
    ctx: Context<P, D>, ghost m: Counts<P>, ghost tags: seq<Tag<P>>, e: nat, producerBlocks: map<P, nat>,
    ghost done: set<nat>, ghost ts: seq<Tag<P>>, summaries: seq<Production<P, D>>)
    returns (r: Result<seq<Production<P, D>>, ProviderError<P>>, ghost ts': seq<Tag<P>>)
    requires Tallies(m, tags) && e in m && m[e] == producerBlocks && e !in done
    requires Visited(m, ts, done, e, {}) && Summarised(ctx, tags, ts, summaries)
    ensures r.Ok? ==> Visited(m, ts', done + {e}, e, {}) && Summarised(ctx, tags, ts', r.value)
    ensures r.Err? ==> exists t :: t in tags && EntryFor(ctx, tags, t) == Err(r.error)
  {
    ts' := ts;
    var dist := ctx.stake(e, PoolsAsked(ctx, producerBlocks.Keys));
    if dist.None? {
      ghost var p :| p in producerBlocks.Keys;
      EntryOfCounted(ctx, m, tags, e, p);
      return Err(DataSourceError(e)), ts';
    }
    var out := summaries;
    var todo := producerBlocks.Keys;
    while todo != {}
      invariant todo <= producerBlocks.Keys
      invariant Visited(m, ts', done, e, producerBlocks.Keys - todo)
      invariant Summarised(ctx, tags, ts', out)
    {
      var p :| p in todo;
      EntryOfCounted(ctx, m, tags, e, p);
      var b := Breakdown(ctx, e, p, producerBlocks[p], dist.value);
      if b.Err? {
        return Err(b.error), ts';
      }
      out := out + [b.value];
      ts' := ts' + [Tag(e, p)];
      todo := todo - {p};
    }
    r := Ok(out);
  }

  /** The whole provider. Both hash maps are iterated in an arbitrary order, so the single result it is
      proved to return is the one every node computes. */
  method ProvideData<P(==, !new), D(==, !new)>(
    leP: (P, P) -> bool, leD: (D, D) -> bool, ctx: Context<P, D>, upTo: nat, log: seq<Entry<P>>)
    returns (r: Result<ProductionData<P, D>, ProviderError<P>>)
    requires TotalOrder(leP) && TotalOrder(leD)
    ensures r.Ok? <==> Released(leP, leD, ctx, upTo, log).Some?
    ensures r.Ok? ==> Some(r.value) == Released(leP, leD, ctx, upTo, log)
    ensures r.Err? ==>
      FirstBadEpoch(ctx.epoch, log, r.error) || (EpochsOk(ctx.epoch, log) && StakeMissing(ctx, log, r.error))
    ensures r.Ok? ==> EpochsOk(ctx.epoch, log) && forall error :: !StakeMissing(ctx, log, error)
  {
    var counted := CountBlocks(ctx.epoch, log);
    if counted.Err? {
      return Err(counted.error);
    }
    var m := counted.value;
    ghost var tags := Tags(ctx.epoch, log);
    var summaries: seq<Production<P, D>> := [];
    ghost var ts: seq<Tag<P>> := [];
    var todo := m.Keys;
    while todo != {}
      invariant todo <= m.Keys
      invariant Visited(m, ts, m.Keys - todo, 0, {}) && Summarised(ctx, tags, ts, summaries)
    {
      var e :| e in todo;
      assert Visited(m, ts, m.Keys - todo, e, {});
      var s, ts' := SummariseEpoch(ctx, m, tags, e, m[e], m.Keys - todo, ts, summaries);
      if s.Err? {
        ghost var t :| t in tags && EntryFor(ctx, tags, t) == Err(s.error);
        EntryForErr(ctx, log, t);
        return Err(s.error);
      }
      summaries, ts := s.value, ts';
      assert m.Keys - (todo - {e}) == (m.Keys - todo) + {e};
      todo := todo - {e};
    }
    AllVisited(ctx, m, tags, ts, summaries);
    var data := NewProductionData(leP, leD, upTo, summaries);
    SummariesReleased(leP, leD, ctx, upTo, log, summaries);
    return Ok(data);
  }

  // ----- Conservation of blocks -----

  /** Blocks of the selected producers. */
  function BlocksBy<P>(log: seq<Entry<P>>, p: P -> bool): nat {
    if log == [] then 0 else BlocksBy(log[..|log| - 1], p) + (if p(Last(log).producer) then 1 else 0)
  }

  /** Blocks credited to the selected producers by released data. */
  function Credited<P, D>(es: seq<Production<P, D>>, p: P -> bool): nat {
    if es == [] then 0 else (if p(es[0].producer) then es[0].blockCount else 0) + Credited(es[1..], p)
  }

  function Credits<P, D>(es: seq<Production<P, D>>, p: P -> bool): (r: seq<int>)
    ensures |r| == |es| && Sum(r) == Credited(es, p)
    ensures forall i :: 0 <= i < |es| ==> r[i] == if p(es[i].producer) then es[i].blockCount else 0
  {
    if es == [] then [] else [if p(es[0].producer) then es[0].blockCount else 0] + Credits(es[1..], p)
  }

  ghost function Tallied<P>(ts: seq<Tag<P>>, m: multiset<Tag<P>>, p: P -> bool): nat {
    if ts == [] then 0 else (if p(ts[0].producer) then m[ts[0]] else 0) + Tallied(ts[1..], m, p)
  }

  lemma {:induction false} TalliedNothing<P>(ts: seq<Tag<P>>, p: P -> bool)
    ensures Tallied(ts, multiset{}, p) == 0
  {
    if ts != [] {
      TalliedNothing(ts[1..], p);
    }
  }

  lemma {:induction false} TalliedOneMore<P>(ts: seq<Tag<P>>, m: multiset<Tag<P>>, x: Tag<P>, p: P -> bool)
    requires Distinct(ts)
    ensures Tallied(ts, m + multiset{x}, p) == Tallied(ts, m, p) + (if x in ts && p(x.producer) then 1 else 0)
  {
    if ts != [] {
      TalliedOneMore(ts[1..], m, x, p);
      if x == ts[0] {
        assert x !in ts[1..];
      }
    }
  }

  lemma {:induction false} TalliesCoverBlocks<P>(epoch: EpochOf<P>, log: seq<Entry<P>>, ts: seq<Tag<P>>, p: P -> bool)
    requires EpochsOk(epoch, log) && Distinct(ts)
    requires forall t :: t in Tags(epoch, log) ==> t in ts
    ensures Tallied(ts, multiset(Tags(epoch, log)), p) == BlocksBy(log, p)
  {
    if log == [] {
      assert Tags(epoch, log) == [];
      TalliedNothing(ts, p);
    } else {
      var init, tags := log[..|log| - 1], Tags(epoch, log);
      assert tags == Tags(epoch, init) + [Last(tags)];
      assert Last(tags) in tags;
      assert forall t :: t in Tags(epoch, init) ==> t in tags;
      TalliesCoverBlocks(epoch, init, ts, p);
      TalliedOneMore(ts, multiset(Tags(epoch, init)), Last(tags), p);
    }
  }

  lemma {:induction false} EntriesCredit<P, D>(ctx: Context<P, D>, tags: seq<Tag<P>>, ts: seq<Tag<P>>, p: P -> bool)
    requires forall t :: t in ts ==> EntryFor(ctx, tags, t).Ok?
    requires |tags| < U32_SPAN
    ensures Credited(Entries(ctx, tags, ts), p) == Tallied(ts, multiset(tags), p)
  {
    if ts != [] {
      EntriesCredit(ctx, tags, ts[1..], p);
      assert multiset(tags)[ts[0]] <= |multiset(tags)|;
      assert Entries(ctx, tags, ts)[1..] == Entries(ctx, tags, ts[1..]);
    }
  }

  lemma CanonicalCredits<P, D>(leP: (P, P) -> bool, leD: (D, D) -> bool, upTo: nat, es: seq<Production<P, D>>, p: P -> bool)
    ensures Credited(Canonical(leP, leD, upTo, es).participation, p) == Credited(es, p)
  {
    var a := SortEach(leD, es);
    var b := Sort(ProductionOrder(leP, leD), a);
    assert Credits(a, p) == Credits(es, p);
    SortPermutes(ProductionOrder(leP, leD), a);
    ImagesPermute(a, Credits(a, p), b, Credits(b, p));
    SumPermutes(Credits(a, p), Credits(b, p));
  }

  /** Released data credits every group of producers with exactly its blocks in the peeked prefix. */
  lemma ReleasedCredits<P, D>(
    leP: (P, P) -> bool, leD: (D, D) -> bool, ctx: Context<P, D>, upTo: nat, log: seq<Entry<P>>, p: P -> bool)
    requires Released(leP, leD, ctx, upTo, log).Some? && |log| < U32_SPAN
    ensures Credited(Released(leP, leD, ctx, upTo, log).value.participation, p) == BlocksBy(log, p)
  {
    var tags := Tags(ctx.epoch, log);
    DedupSound(tags);
    var es := Entries(ctx, tags, Dedup(tags));
    CanonicalCredits(leP, leD, upTo, es, p);
    EntriesCredit(ctx, tags, Dedup(tags), p);
    TalliesCoverBlocks(ctx.epoch, log, Dedup(tags), p);
  }

  lemma {:induction false} AllBlocks<P>(log: seq<Entry<P>>, p: P -> bool)
    requires forall i :: 0 <= i < |log| ==> p(log[i].producer)
    ensures BlocksBy(log, p) == |log|
  {
    if log != [] {
      AllBlocks(log[..|log| - 1], p);
    }
  }

  /** `es` holds, once for each pair of an epoch and a producer with blocks in it, the entry of that pair, and
      `out` is `es` in some order. */
  ghost predicate OneEntryPerPair<P(!new), D(!new)>(
    ctx: Context<P, D>, log: seq<Entry<P>>, out: seq<Production<P, D>>, ts: seq<Tag<P>>, es: seq<Production<P, D>>)
  {
    && Distinct(ts) && (forall t :: t in ts <==> Produced(ctx.epoch, log, t.epoch, t.producer))
    && |es| == |ts|
    && (forall i :: 0 <= i < |ts| ==> es[i].producer == ts[i].producer && EntryIs(ctx, log, ts[i].epoch, es[i]))
    && multiset(out) == multiset(es)
  }

  lemma EachSortedIs<P, D(!new)>(
    leD: (D, D) -> bool, ctx: Context<P, D>, log: seq<Entry<P>>, ts: seq<Tag<P>>, i: nat)
    requires EpochsOk(ctx.epoch, log) && i < |ts|
    requires forall t :: t in ts ==> t in Tags(ctx.epoch, log) && EntryFor(ctx, Tags(ctx.epoch, log), t).Ok?
    ensures
      var es := SortEach(leD, Entries(ctx, Tags(ctx.epoch, log), ts));
      es[i].producer == ts[i].producer && EntryIs(ctx, log, ts[i].epoch, es[i])
  {
    var y := Entries(ctx, Tags(ctx.epoch, log), ts)[i];
    assert ts[i] in ts;
    SortPermutes(DelegatorOrder(leD), y.delegators);
    EntryForIs(ctx, log, ts[i], SortOne(leD, y));
  }

  /** The released entries are those of the epoch-producer pairs of the prefix, one for each, and their
      counts add up to the length of the prefix. */
  lemma ReleasedTotals<P(!new), D(!new)>(
    leP: (P, P) -> bool, leD: (D, D) -> bool, ctx: Context<P, D>, upTo: nat, log: seq<Entry<P>>)
    requires Released(leP, leD, ctx, upTo, log).Some?
    ensures
      var data := Released(leP, leD, ctx, upTo, log).value;
      && data.upToSlot == upTo
      && (exists ts, es :: OneEntryPerPair(ctx, log, data.participation, ts, es))
      && (|log| < U32_SPAN ==> Credited(data.participation, _ => true) == |log|)
  {
    var tags, out := Tags(ctx.epoch, log), Released(leP, leD, ctx, upTo, log).value.participation;
    DedupSound(tags);
    var es := SortEach(leD, Entries(ctx, tags, Dedup(tags)));
    forall t ensures t in Dedup(tags) <==> Produced(ctx.epoch, log, t.epoch, t.producer) {
      TagsCount(ctx.epoch, log, t);
    }
    forall i | 0 <= i < |es| ensures es[i].producer == Dedup(tags)[i].producer && EntryIs(ctx, log, Dedup(tags)[i].epoch, es[i]) {
      EachSortedIs(leD, ctx, log, Dedup(tags), i);
    }
    SortPermutes(ProductionOrder(leP, leD), es);
    assert OneEntryPerPair(ctx, log, out, Dedup(tags), es);
    if |log| < U32_SPAN {
      EveryoneCredited(leP, leD, ctx, upTo, log);
    }
  }

  lemma EveryoneCredited<P, D>(
    leP: (P, P) -> bool, leD: (D, D) -> bool, ctx: Context<P, D>, upTo: nat, log: seq<Entry<P>>)
    requires Released(leP, leD, ctx, upTo, log).Some? && |log| < U32_SPAN
    ensures Credited(Released(leP, leD, ctx, upTo, log).value.participation, _ => true) == |log|
  {
    var everyone: P -> bool := _ => true;
    ReleasedCredits(leP, leD, ctx, upTo, log, everyone);
    AllBlocks(log, everyone);
    CreditedAgrees(Released(leP, leD, ctx, upTo, log).value.participation, everyone, _ => true);
  }

  /** Every released entry is the entry of some epoch for its producer: its blocks, its pool's total stake and
      exactly its delegators. */
  lemma ReleasedEntryIs<P(!new), D(!new)>(
    leP: (P, P) -> bool, leD: (D, D) -> bool, ctx: Context<P, D>, upTo: nat, log: seq<Entry<P>>, x: Production<P, D>)
    requires Released(leP, leD, ctx, upTo, log).Some?
    requires x in Released(leP, leD, ctx, upTo, log).value.participation
    ensures exists e :: EntryIs(ctx, log, e, x)
  {
    ReleasedTotals(leP, leD, ctx, upTo, log);
    var out := Released(leP, leD, ctx, upTo, log).value.participation;
    var ts, es :| OneEntryPerPair(ctx, log, out, ts, es);
    assert x in multiset(out);
    assert x in multiset(es);
    var i :| 0 <= i < |es| && es[i] == x;
  }

  lemma {:induction false} CreditedAgrees<P, D>(es: seq<Production<P, D>>, p: P -> bool, q: P -> bool)
    requires forall i :: 0 <= i < |es| ==> p(es[i].producer) == q(es[i].producer)
    ensures Credited(es, p) == Credited(es, q)
  {
    if es != [] {
      CreditedAgrees(es[1..], p, q);
    }
  }
}
