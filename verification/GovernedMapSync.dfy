/** The governed map pallet kept in step with the main chain by its inherent, over whole runs. */
module GovernedMapSync {
  import opened Prelude
  import opened GovernedMapChain
  import opened GovernedMapLedger
  import opened GovernedMapCache

  datatype State = State(scripts: Option<Scripts>, initialized: bool, mapping: Mapping, lastUpdate: Option<nat>)

  datatype Error = InherentCalledTwice | MainChainScriptNotSet

  /** One call of the change handler: key, new value and the value before. */
  datatype Notice = Notice(key: Key, newValue: Option<Value>, oldValue: Option<Value>)

  class GovernedMapPallet {
    var scripts: Option<Scripts>
    var initialized: bool
    var mapping: Mapping
    var lastUpdate: Option<nat>
    var notices: seq<Notice>

    function Abs(): State
      reads this
    {
      State(scripts, initialized, mapping, lastUpdate)
    }

    constructor (genesisScripts: Option<Scripts>)
      ensures Abs() == State(genesisScripts, false, map[], None) && notices == []
    {
      scripts, initialized, mapping, lastUpdate, notices := genesisScripts, false, map[], None, [];
    }

    /** The handler is told about every change once, with the values before and after. */
    method RegisterChanges(block: nat, changes: Changes) returns (r: Result<(), Error>)
      modifies this
      ensures (Abs(), r) == Register(old(Abs()), block, changes)
      ensures r.Err? ==> notices == old(notices)
      ensures r.Ok? ==> exists told ::
        notices == old(notices) + told && Told(told, changes, changes.Keys, old(mapping))
    {
      if lastUpdate.Some? && lastUpdate.value >= block {
        return Err(InherentCalledTwice);
      }
      if scripts.None? {
        return Err(MainChainScriptNotSet);
      }
      lastUpdate := Some(block);
      initialized := true;
      ghost var told := ApplyEach(changes);
      return Ok(());
    }

    method ApplyEach(changes: Changes) returns (ghost told: seq<Notice>)
      modifies this`mapping, this`notices
      ensures mapping == ApplyChanges(old(mapping), changes)
      ensures notices == old(notices) + told && Told(told, changes, changes.Keys, old(mapping))
    {
      ghost var start := mapping;
      told := [];
      var todo := changes.Keys;
      ghost var done: set<Key> := {};
      while todo != {}
        invariant done + todo == changes.Keys && done !! todo
        invariant mapping == ApplyChanges(start, Restricted(changes, done))
        invariant notices == old(notices) + told && Told(told, changes, done, start)
      {
        var k :| k in todo;
        ApplyOneMore(start, changes, done, k);
        ToldOneMore(told, changes, done, start, k);
        SetValue(k, changes[k]);
        ghost var n := Notice(k, changes[k], Get(start, k));
        ConcatAssoc(old(notices), told, [n]);
        told := told + [n];
        assert done + {k} + (todo - {k}) == done + todo;
        todo, done := todo - {k}, done + {k};
      }
      assert Restricted(changes, done) == changes;
      assert done == changes.Keys;
    }

    method SetValue(k: Key, value: Option<Value>)
      modifies this`mapping, this`notices
      ensures mapping == ApplyOne(old(mapping), Update(k, value))
      ensures notices == old(notices) + [Notice(k, value, Get(old(mapping), k))]
    {
      var oldValue := Get(mapping, k);
      mapping := ApplyOne(mapping, Update(k, value));
      notices := notices + [Notice(k, value, oldValue)];
    }

    method SetMainChainScripts(governance: bool, newScripts: Scripts) returns (ok: bool)
      modifies this
      ensures ok == governance && notices == old(notices)
      ensures Abs() == if ok then old(Abs()).(scripts := Some(newScripts), initialized := false) else old(Abs())
    {
      if !governance {
        return false;
      }
      scripts := Some(newScripts);
      initialized := false;
      return true;
    }
  }

  function Restricted(cs: Changes, keys: set<Key>): Changes {
    map k | k in cs && k in keys :: cs[k]
  }

  /** The notices are exactly those for the given keys, one per key. */
  ghost predicate Told(told: seq<Notice>, cs: Changes, keys: set<Key>, start: Mapping) {
    && (forall n :: n in told <==> n.key in keys && n.key in cs && n == Notice(n.key, cs[n.key], Get(start, n.key)))
    && (forall i, j :: 0 <= i < j < |told| ==> told[i].key != told[j].key)
  }

  lemma ToldOneMore(told: seq<Notice>, cs: Changes, keys: set<Key>, start: Mapping, k: Key)
    requires Told(told, cs, keys, start) && k in cs && k !in keys
    ensures Told(told + [Notice(k, cs[k], Get(start, k))], cs, keys + {k}, start)
  {
    forall i | 0 <= i < |told| ensures told[i].key != k {
      assert told[i] in told;
    }
  }

  lemma ApplyOneMore(start: Mapping, cs: Changes, keys: set<Key>, k: Key)
    requires k in cs && k !in keys
    ensures Get(ApplyChanges(start, Restricted(cs, keys)), k) == Get(start, k)
    ensures ApplyOne(ApplyChanges(start, Restricted(cs, keys)), Update(k, cs[k]))
            == ApplyChanges(start, Restricted(cs, keys + {k}))
  {
  }

  function Register(st: State, block: nat, changes: Changes): (State, Result<(), Error>) {
    if st.lastUpdate.Some? && st.lastUpdate.value >= block then (st, Err(InherentCalledTwice))
    else if st.scripts.None? then (st, Err(MainChainScriptNotSet))
    else (State(st.scripts, true, ApplyChanges(st.mapping, changes), Some(block)), Ok(()))
  }

  /** Changes are registered exactly for configured scripts and at most once per block, and a refused call
      changes nothing. */
  lemma RegisteredOncePerBlock(st: State, block: nat, changes: Changes, again: Changes, earlier: nat)
    requires earlier <= block
    ensures
      var (st', r) := Register(st, block, changes);
      && (r.Ok? <==> st.scripts.Some? && (st.lastUpdate.Some? ==> st.lastUpdate.value < block))
      && (r.Err? ==> st' == st)
      && (r.Ok? ==> st'.initialized && st'.scripts == st.scripts
                    && Register(st', earlier, again) == (st', Err(InherentCalledTwice)))
  {
  }

  /** No call is made for an empty report once initialised. */
  function CreateInherent(st: State, data: Option<Changes>): Option<Changes> {
    if data.None? then None
    else if data.value == map[] && st.initialized then None
    else data
  }

  /** The main chain's entries per scripts. */
  type Ledgers = Scripts -> seq<Entry>

  /** The data source of a block's author: uncached, or the caching one of some node, which was told a
      newest stable block. */
  datatype Source = Uncached | Cached(node: nat, cacheSize: nat, latest: Option<nat>)

  /** A block: its main-chain reference, its author's source, whether the report fits the configured bounds,
      and new scripts if governance sets some in it. */
  datatype Block = Block(number: nat, mcRef: nat, source: Source, fits: bool, governance: Option<Scripts>)

  type Caches = map<nat, Cache>

  function CacheOf(caches: Caches, node: nat): Cache {
    if node in caches then caches[node] else EmptyCache()
  }

  /** A node asks its caching source. */
  function AskNode(
    caches: Caches, ledgers: Ledgers, node: nat, scripts: Scripts, since: Option<nat>, upTo: nat, cacheSize: nat,
    latest: Option<nat>): (seq<Update>, Caches)
  {
    var k := SetScripts(CacheOf(caches, node), scripts);
    var (us, k') := Ask(k, ChangeStream(ledgers(scripts)), since, upTo, cacheSize, latest);
    (us, caches[node := k'])
  }

  /** The chain with its last main-chain reference, and the caches of all nodes. */
  datatype World = World(state: State, mcRef: nat, caches: Caches)

  /** What the provider of a block reports: nothing without scripts, the difference to the state at the
      block's reference before initialisation, and then what its source says changed since the parent's
      reference. */
  function Provide(w: World, ledgers: Ledgers, b: Block): (Option<Changes>, Caches) {
    if w.state.scripts.None? then (None, w.caches)
    else
      var s := w.state.scripts.value;
      var es := ledgers(s);
      if !w.state.initialized then (Some(Diff(w.state.mapping, StateAt(es, b.mcRef))), w.caches)
      else
        match b.source
        case Uncached => (Some(Diff(StateAt(es, w.mcRef), StateAt(es, b.mcRef))), w.caches)
        case Cached(node, cacheSize, latest) =>
          var (us, caches) := AskNode(w.caches, ledgers, node, s, Some(w.mcRef), b.mcRef, cacheSize, latest);
          (Some(Collapse(us)), caches)
  }

  /** None if the block cannot be built. */
  function ExecBlock(st: State, data: Option<Changes>, b: Block): Option<State> {
    var call := CreateInherent(st, data);
    if call.Some? && !b.fits then None
    else
      var (st1, r) := if call.Some? then Register(st, b.number, call.value) else (st, Ok(()));
      if r.Err? then None
      else Some(if b.governance.Some? then st1.(scripts := b.governance, initialized := false) else st1)
  }

  /** A block is built if and only if it needs no call or its call fits and is accepted; what it leaves
      behind. New scripts keep the mapping but have it rebuilt. */
  lemma BuiltBlock(st: State, data: Option<Changes>, b: Block)
    ensures
      var called := data.Some? && (data.value != map[] || !st.initialized);
      var r := ExecBlock(st, data, b);
      && (r.Some? <==>
            (called ==> b.fits && st.scripts.Some? && (st.lastUpdate.Some? ==> st.lastUpdate.value < b.number)))
      && (r.Some? ==>
            && r.value.mapping == (if called then ApplyChanges(st.mapping, data.value) else st.mapping)
            && r.value.lastUpdate == (if called then Some(b.number) else st.lastUpdate)
            && r.value.scripts == (if b.governance.Some? then b.governance else st.scripts)
            && r.value.initialized == (b.governance.None? && (called || st.initialized)))
  {
  }

  /** A block is proposed, or some node asks its source for another reason, to verify a block or build one
      that does not become part of the chain. */
  datatype Event =
    | Propose(block: Block)
    | Asked(node: nat, scripts: Scripts, since: Option<nat>, upTo: nat, cacheSize: nat, latest: Option<nat>)

  /** Blocks that cannot be built are skipped; the reference stays that of the last built block. */
  function Step(w: World, ledgers: Ledgers, e: Event): World {
    match e
    case Asked(node, scripts, since, upTo, cacheSize, latest) =>
      w.(caches := AskNode(w.caches, ledgers, node, scripts, since, upTo, cacheSize, latest).1)
    case Propose(b) =>
      var (data, caches) := Provide(w, ledgers, b);
      match ExecBlock(w.state, data, b)
      case None => w.(caches := caches)
      case Some(st) => World(st, b.mcRef, caches)
  }

  /** Every event touches at most one node's cache: the one that is asked, whether or not the proposed block
      is built, and that one changes as its source does on such a request. */
  lemma StepCaches(w: World, ledgers: Ledgers, e: Event, n: nat)
    ensures
      var before := if n in w.caches then w.caches[n] else Cache(None, None, None, []);
      var after := CacheOf(Step(w, ledgers, e).caches, n);
      match e
      case Asked(node, s, since, upTo, cacheSize, latest) =>
        after == if node != n then before
                 else Ask(SetScripts(before, s), ChangeStream(ledgers(s)), since, upTo, cacheSize, latest).1
      case Propose(b) =>
        after == if w.state.scripts.None? || !w.state.initialized || b.source.Uncached? || b.source.node != n then before
                 else
                   var s := w.state.scripts.value;
                   Ask(SetScripts(before, s), ChangeStream(ledgers(s)), Some(w.mcRef), b.mcRef, b.source.cacheSize,
                       b.source.latest).1
  {
  }

  ghost predicate LedgersValid(ledgers: Ledgers) {
    forall s: Scripts :: Valid(ledgers(s))
  }

  /** A filled cache holds one search of the stream of the scripts it is labelled with. */
  ghost predicate CacheValid(k: Cache, ledgers: Ledgers) {
    if k.scripts.None? then k == EmptyCache()
    else exists from, to :: Holds(k, ChangeStream(ledgers(k.scripts.value)), from, to)
  }

  ghost predicate CachesValid(caches: Caches, ledgers: Ledgers) {
    forall n :: n in caches ==> CacheValid(caches[n], ledgers)
  }

  lemma AskKeepsCaches(
    caches: Caches, ledgers: Ledgers, node: nat, scripts: Scripts, since: Option<nat>, upTo: nat, cacheSize: nat,
    latest: Option<nat>)
    requires CachesValid(caches, ledgers)
    ensures CachesValid(AskNode(caches, ledgers, node, scripts, since, upTo, cacheSize, latest).1, ledgers)
  {
    var s := ChangeStream(ledgers(scripts));
    var k := SetScripts(CacheOf(caches, node), scripts);
    CacheIsLabelled(caches, ledgers, node, scripts);
    var k' := Ask(k, s, since, upTo, cacheSize, latest).1;
    if !Serves(k, since, upTo) {
      assert Holds(k', s, since, SearchEnd(since, upTo, cacheSize, latest));
    }
  }

  /** With its scripts set, a node's cache holds a search of their stream. */
  lemma CacheIsLabelled(caches: Caches, ledgers: Ledgers, node: nat, scripts: Scripts)
    requires CachesValid(caches, ledgers)
    ensures
      var k := SetScripts(CacheOf(caches, node), scripts);
      k.scripts == Some(scripts) && exists from, to :: Holds(k, ChangeStream(ledgers(scripts)), from, to)
  {
    var k := SetScripts(CacheOf(caches, node), scripts);
    if CacheOf(caches, node).scripts != Some(scripts) {
      assert Holds(k, ChangeStream(ledgers(scripts)), None, 0);
    }
  }

  /** Once initialised, the pallet holds the mapping the state query reads at the referenced block. */
  ghost predicate InSync(st: State, ledgers: Ledgers, mcRef: nat) {
    st.initialized ==> st.scripts.Some? && st.mapping == StateAt(ledgers(st.scripts.value), mcRef)
  }

  /** Last block the author's source reports about, never before the parent's reference. */
  function SeenBy(w: World, scripts: Scripts, b: Block): nat
    requires b.source.Cached?
  {
    var k := SetScripts(CacheOf(w.caches, b.source.node), scripts);
    Max(w.mcRef, Seen(k, w.mcRef, b.mcRef, b.source.latest))
  }

  /** If the block's changes come from a listing and stay in force, its window is clean. */
  ghost predicate CleanBlock(w: World, ledgers: Ledgers, b: Block) {
    w.state.scripts.Some? && w.state.initialized && b.source.Cached? && b.governance.None? ==>
      Clean(ledgers(w.state.scripts.value), w.mcRef, SeenBy(w, w.state.scripts.value, b), b.mcRef)
  }

  /** The report of a caching author is the list of changes up to the block it sees. */
  lemma CachedReport(w: World, ledgers: Ledgers, b: Block)
    requires CachesValid(w.caches, ledgers) && b.source.Cached? && w.state.scripts.Some? && w.state.initialized
    ensures
      var s := w.state.scripts.value;
      Provide(w, ledgers, b).0 == Some(Collapse(ListedUpdates(ledgers(s), w.mcRef, SeenBy(w, s, b))))
  {
    var s := w.state.scripts.value;
    var cs, k := ChangeStream(ledgers(s)), SetScripts(CacheOf(w.caches, b.source.node), s);
    CacheIsLabelled(w.caches, ledgers, b.source.node, s);
    var from, to :| Holds(k, cs, from, to);
    AskSeen(k, cs, from, to, w.mcRef, b.mcRef, b.source.cacheSize, b.source.latest);
    NothingBefore(cs, w.mcRef, Seen(k, w.mcRef, b.mcRef, b.source.latest));
  }

  lemma NothingBefore(cs: seq<Change>, since: nat, seen: nat)
    ensures InRange(cs, Some(since), seen) == InRange(cs, Some(since), Max(since, seen))
  {
    if seen < since {
      InRangeNone(cs, Some(since), seen);
      InRangeNone(cs, Some(since), since);
    }
  }

  lemma ApplyChangesOfNothing(m: Mapping)
    ensures ApplyChanges(m, map[]) == m
  {
  }

  /** The mapping of an initialised pallet after a built block without new scripts. */
  lemma BuiltMapping(st: State, data: Changes, b: Block)
    requires st.initialized && b.governance.None? && ExecBlock(st, Some(data), b).Some?
    ensures
      var st' := ExecBlock(st, Some(data), b).value;
      st'.initialized && st'.scripts == st.scripts && st'.mapping == ApplyChanges(st.mapping, data)
  {
    ApplyChangesOfNothing(st.mapping);
  }

  /** A block that is built keeps an initialised pallet in step if and only if its window is clean; any
      other configured pallet it brings in step. */
  lemma BlockKeepsSyncIff(w: World, ledgers: Ledgers, b: Block)
    requires LedgersValid(ledgers) && CachesValid(w.caches, ledgers) && InSync(w.state, ledgers, w.mcRef)
    requires ExecBlock(w.state, Provide(w, ledgers, b).0, b).Some?
    ensures
      var w' := Step(w, ledgers, Propose(b));
      && (InSync(w'.state, ledgers, w'.mcRef) <==> CleanBlock(w, ledgers, b))
      && (w.state.scripts.Some? && b.governance.None? ==> w'.state.initialized)
  {
    if w.state.scripts.Some? && b.governance.None? {
      var es := ledgers(w.state.scripts.value);
      if !w.state.initialized {
        DiffLeadsOver(w.state.mapping, StateAt(es, b.mcRef));
      } else {
        BuiltMapping(w.state, Provide(w, ledgers, b).0.value, b);
        if b.source.Cached? {
          CachedReport(w, ledgers, b);
          var seen := SeenBy(w, w.state.scripts.value, b);
          CollapseMeansTheSame(w.state.mapping, ListedUpdates(es, w.mcRef, seen));
          ListedChangesLeadIff(es, w.mcRef, seen, b.mcRef);
        } else {
          DiffLeadsOver(w.state.mapping, StateAt(es, b.mcRef));
        }
      }
    }
  }

  lemma StepKeepsCaches(w: World, ledgers: Ledgers, e: Event)
    requires CachesValid(w.caches, ledgers)
    ensures CachesValid(Step(w, ledgers, e).caches, ledgers)
  {
    match e
    case Asked(node, scripts, since, upTo, cacheSize, latest) =>
      AskKeepsCaches(w.caches, ledgers, node, scripts, since, upTo, cacheSize, latest);
    case Propose(b) =>
      if w.state.scripts.Some? && b.source.Cached? {
        AskKeepsCaches(
          w.caches, ledgers, b.source.node, w.state.scripts.value, Some(w.mcRef), b.mcRef, b.source.cacheSize, b.source.latest);
      }
  }

  /** In step at the start and after every event of the run. */
  ghost predicate AlwaysInSync(w: World, ledgers: Ledgers, events: seq<Event>)
    decreases |events|
  {
    && InSync(w.state, ledgers, w.mcRef)
    && (events == [] || AlwaysInSync(Step(w, ledgers, events[0]), ledgers, events[1..]))
  }

  ghost predicate CleanEvent(w: World, ledgers: Ledgers, e: Event) {
    e.Propose? && ExecBlock(w.state, Provide(w, ledgers, e.block).0, e.block).Some? ==> CleanBlock(w, ledgers, e.block)
  }

  ghost predicate AlwaysClean(w: World, ledgers: Ledgers, events: seq<Event>)
    decreases |events|
  {
    events == [] ||
    (CleanEvent(w, ledgers, events[0]) && AlwaysClean(Step(w, ledgers, events[0]), ledgers, events[1..]))
  }

  lemma StepKeepsSyncIff(w: World, ledgers: Ledgers, e: Event)
    requires LedgersValid(ledgers) && CachesValid(w.caches, ledgers) && InSync(w.state, ledgers, w.mcRef)
    ensures
      var w' := Step(w, ledgers, e);
      InSync(w'.state, ledgers, w'.mcRef) <==> CleanEvent(w, ledgers, e)
  {
    if e.Propose? && ExecBlock(w.state, Provide(w, ledgers, e.block).0, e.block).Some? {
      BlockKeepsSyncIff(w, ledgers, e.block);
    }
  }

  /** Over every run, through script changes, reinitialisations, failed blocks, authors with different
      sources and any other use of their caches: the pallet is in step with the main chain throughout if
      and only if every window that was applied from a listing is clean. */
  lemma {:induction false} EveryRunInSyncIff(w: World, ledgers: Ledgers, events: seq<Event>)
    requires LedgersValid(ledgers) && CachesValid(w.caches, ledgers) && InSync(w.state, ledgers, w.mcRef)
    ensures AlwaysInSync(w, ledgers, events) <==> AlwaysClean(w, ledgers, events)
    decreases |events|
  {
    if events != [] {
      var w' := Step(w, ledgers, events[0]);
      StepKeepsCaches(w, ledgers, events[0]);
      StepKeepsSyncIff(w, ledgers, events[0]);
      if InSync(w'.state, ledgers, w'.mcRef) {
        EveryRunInSyncIff(w', ledgers, events[1..]);
      }
    }
  }

  /** References do not go back and no author is told a stable block behind its reference. */
  ghost predicate Forward(w: World, ledgers: Ledgers, events: seq<Event>)
    decreases |events|
  {
    events == [] ||
    (&& (events[0].Propose? ==>
           var b := events[0].block;
           w.mcRef <= b.mcRef && (b.source.Cached? && b.source.latest.Some? ==> b.mcRef <= b.source.latest.value))
     && Forward(Step(w, ledgers, events[0]), ledgers, events[1..]))
  }

  /** From genesis, with at most one live entry per key and such references, the pallet is in step
      throughout every run. */
  lemma EveryRunInSync(genesisScripts: Option<Scripts>, ledgers: Ledgers, events: seq<Event>)
    requires LedgersValid(ledgers) && forall s: Scripts :: OneLivePerKey(ledgers(s))
    requires Forward(World(State(genesisScripts, false, map[], None), 0, map[]), ledgers, events)
    ensures AlwaysInSync(World(State(genesisScripts, false, map[], None), 0, map[]), ledgers, events)
  {
    var w := World(State(genesisScripts, false, map[], None), 0, map[]);
    ForwardIsClean(w, ledgers, events);
    EveryRunInSyncIff(w, ledgers, events);
  }

  lemma {:induction false} ForwardIsClean(w: World, ledgers: Ledgers, events: seq<Event>)
    requires LedgersValid(ledgers) && forall s: Scripts :: OneLivePerKey(ledgers(s))
    requires Forward(w, ledgers, events)
    ensures AlwaysClean(w, ledgers, events)
    decreases |events|
  {
    if events != [] {
      if events[0].Propose? && events[0].block.source.Cached? && w.state.scripts.Some? {
        var b, s := events[0].block, w.state.scripts.value;
        assert SeenBy(w, s, b) == b.mcRef;
        OneLiveCleanIff(ledgers(s), w.mcRef, SeenBy(w, s, b), b.mcRef);
      }
      ForwardIsClean(Step(w, ledgers, events[0]), ledgers, events[1..]);
    }
  }

  /** An author that was told a stable block behind its reference misses the entry created in between: its
      block is built, leaves the pallet out of step, and the next window starts beyond the entry. For
      instance an entry of block 5, the parent at block 1, the reference 5 and the stable block 3. */
  lemma LateStableBlockLosesEntry(w: World, ledgers: Ledgers, e: Entry, b: Block)
    requires LedgersValid(ledgers) && w.state.initialized && w.state.scripts.Some? && ledgers(w.state.scripts.value) == [e]
    requires w.state.mapping == map[] && w.caches == map[]
    requires b.source.Cached? && b.source.latest.Some? && b.governance.None? && e.spent.None?
    requires w.mcRef <= b.source.latest.value < e.created.block <= b.mcRef
    ensures
      var w' := Step(w, ledgers, Propose(b));
      && InSync(w.state, ledgers, w.mcRef)
      && Provide(w, ledgers, b).0 == Some(map[]) && w' == w.(mcRef := b.mcRef, caches := w'.caches)
      && StateAt([e], b.mcRef) == map[e.key := e.value] && !InSync(w'.state, ledgers, w'.mcRef)
  {
    var seen := SeenBy(w, w.state.scripts.value, b);
    StateOfOne(e, w.mcRef);
    StateOfOne(e, b.mcRef);
    CachedReport(w, ledgers, b);
    NothingListed(e, w.mcRef, seen);
    assert e.key in StateAt([e], b.mcRef);
  }

  lemma NothingListed(e: Entry, since: nat, seen: nat)
    requires e.spent.None? && since <= seen < e.created.block
    ensures ListedUpdates([e], since, seen) == []
  {
    var evs := ListedWindow([e], since, seen);
    assert forall i :: 0 <= i < |evs| ==> evs[i] in evs;
  }
}
