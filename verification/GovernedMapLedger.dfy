/** The governed map on the main chain: entries created and spent by transactions, the state query that
    reads the live ones, and the change query that lists creations and spends. */
module GovernedMapLedger {
  import opened Prelude
  import opened Sorting
  import opened Permutation
  import opened GovernedMapChain

  /** A transaction's place on the chain. */
  datatype Pos = Pos(block: nat, tx: nat)

  predicate Before(a: Pos, b: Pos) {
    a.block < b.block || (a.block == b.block && a.tx < b.tx)
  }

  /** A UTXO carrying a decodable key and value. */
  datatype Entry = Entry(key: Key, value: Value, created: Pos, spent: Option<Pos>)

  /** Listed in order of creation, and spent after creation. Several entries may share a key. */
  ghost predicate Valid(es: seq<Entry>) {
    && (forall i, j :: 0 <= i < j < |es| ==> !Before(es[j].created, es[i].created))
    && (forall i :: 0 <= i < |es| && es[i].spent.Some? ==> Before(es[i].created, es[i].spent.value))
  }

  // ----- The state query -----

  predicate Live(e: Entry, block: nat) {
    e.created.block <= block && (e.spent.Some? ==> block < e.spent.value.block)
  }

  /** Live entries inserted in order of creation, so that the last one of a key stays. */
  function StateAt(es: seq<Entry>, block: nat): Mapping {
    if es == [] then map[]
    else
      var before := StateAt(es[..|es| - 1], block);
      if Live(Last(es), block) then before[Last(es).key := Last(es).value] else before
  }

  method ReadState(es: seq<Entry>, block: nat) returns (mappings: Mapping)
    ensures mappings == StateAt(es, block)
  {
    mappings := map[];
    for i := 0 to |es|
      invariant mappings == StateAt(es[..i], block)
    {
      assert es[..i + 1][..i] == es[..i];
      if Live(es[i], block) {
        mappings := mappings[es[i].key := es[i].value];
      }
    }
    assert es[..|es|] == es;
  }

  /** The last live entry of a key gives its value. */
  lemma {:induction false} LastLiveStays(es: seq<Entry>, block: nat, i: nat)
    requires i < |es| && Live(es[i], block)
    requires forall j :: i < j < |es| && es[j].key == es[i].key ==> !Live(es[j], block)
    ensures Get(StateAt(es, block), es[i].key) == Some(es[i].value)
  {
    var n := |es| - 1;
    if i < n {
      assert es[n].key == es[i].key ==> !Live(es[n], block);
      LastLiveStays(es[..n], block, i);
    }
  }

  lemma {:induction false} StateHasKeyIff(es: seq<Entry>, block: nat, k: Key)
    ensures k in StateAt(es, block) <==> exists i :: 0 <= i < |es| && es[i].key == k && Live(es[i], block)
  {
    if es != [] {
      var n := |es| - 1;
      StateHasKeyIff(es[..n], block, k);
      if i :| 0 <= i < |es| && es[i].key == k && Live(es[i], block) {
        assert i < n ==> es[..n][i] == es[i];
      }
      if i :| 0 <= i < n && es[..n][i].key == k && Live(es[..n][i], block) {
        assert es[i] == es[..n][i];
      }
    }
  }

  /** Value of the last live entry of a key. */
  function LiveValue(es: seq<Entry>, block: nat, k: Key): Option<Value> {
    if es == [] then None
    else if Last(es).key == k && Live(Last(es), block) then Some(Last(es).value)
    else LiveValue(es[..|es| - 1], block, k)
  }

  lemma {:induction false} StateReadsLive(es: seq<Entry>, block: nat, k: Key)
    ensures Get(StateAt(es, block), k) == LiveValue(es, block, k)
  {
    if es != [] {
      StateReadsLive(es[..|es| - 1], block, k);
    }
  }

  lemma {:induction false} SameLiveSameValue(es: seq<Entry>, b: nat, b': nat, k: Key)
    requires forall i :: 0 <= i < |es| && es[i].key == k ==> (Live(es[i], b) <==> Live(es[i], b'))
    ensures Get(StateAt(es, b), k) == Get(StateAt(es, b'), k)
  {
    if es != [] {
      SameLiveSameValue(es[..|es| - 1], b, b', k);
    }
  }

  // ----- The change query -----

  /** One row: an entry's spending or its creation. */
  datatype Event = Spend(entry: nat) | Create(entry: nat)

  predicate IsEvent(es: seq<Entry>, ev: Event) {
    ev.entry < |es| && (ev.Spend? ==> es[ev.entry].spent.Some?)
  }

  function At(es: seq<Entry>, ev: Event): Pos {
    if !IsEvent(es, ev) then Pos(0, 0)
    else if ev.Spend? then es[ev.entry].spent.value
    else es[ev.entry].created
  }

  /** By transaction, spends before creations, and entries in their order. */
  predicate Precedes(es: seq<Entry>, a: Event, b: Event) {
    || Before(At(es, a), At(es, b))
    || (At(es, a) == At(es, b)
        && ((a.Spend? && b.Create?) || (a.Spend? == b.Spend? && a.entry < b.entry)))
  }

  function EventOrder(es: seq<Entry>): (Event, Event) -> bool {
    (a, b) => a == b || Precedes(es, a, b)
  }

  function EventsOf(es: seq<Entry>, n: nat): seq<Event>
    requires n <= |es|
  {
    if n == 0 then []
    else EventsOf(es, n - 1) + [Create(n - 1)] + (if es[n - 1].spent.Some? then [Spend(n - 1)] else [])
  }

  /** Every spending and creation, in the order of the change query. */
  function Listing(es: seq<Entry>): seq<Event> {
    Sort(EventOrder(es), EventsOf(es, |es|))
  }

  function ChangeOf(es: seq<Entry>, ev: Event): Change
    requires ev.entry < |es|
  {
    Change(At(es, ev).block, Update(es[ev.entry].key, if ev.Spend? then None else Some(es[ev.entry].value)))
  }

  ghost predicate Lists(es: seq<Entry>, evs: seq<Event>) {
    && (forall ev :: ev in evs <==> IsEvent(es, ev))
    && (forall i, j :: 0 <= i < j < |evs| ==> Precedes(es, evs[i], evs[j]))
  }

  lemma {:induction false} EventsOfAll(es: seq<Entry>, n: nat)
    requires n <= |es|
    ensures forall ev :: ev in EventsOf(es, n) <==> IsEvent(es, ev) && ev.entry < n
    ensures Distinct(EventsOf(es, n))
  {
    if 0 < n {
      EventsOfAll(es, n - 1);
      var before := EventsOf(es, n - 1);
      assert forall i :: 0 <= i < |before| ==> before[i] in before;
    }
  }

  lemma EventOrderTotal(es: seq<Entry>)
    ensures TotalOrder(EventOrder(es))
  {
  }

  lemma DistinctAfterSort<T(!new)>(a: seq<T>, b: seq<T>)
    requires Distinct(a) && multiset(a) == multiset(b)
    ensures Distinct(b)
  {
    forall i, j | 0 <= i < j < |b| ensures b[i] != b[j] {
      OccursOnce(a, b[i]);
      SplitAt(b, i);
      var rest := b[..i] + b[i + 1..];
      assert rest[j - 1] == b[j] && b[j] in multiset(rest);
    }
  }

  /** Every event is listed once, in order. */
  lemma ListingLists(es: seq<Entry>)
    ensures Lists(es, Listing(es))
  {
    var le, all := EventOrder(es), EventsOf(es, |es|);
    EventsOfAll(es, |es|);
    EventOrderTotal(es);
    SortSorts(le, all);
    SortPermutes(le, all);
    DistinctAfterSort(all, Listing(es));
    forall ev ensures ev in Listing(es) <==> ev in all {
      assert ev in Listing(es) <==> ev in multiset(Listing(es));
      assert ev in all <==> ev in multiset(all);
    }
    forall i, j | 0 <= i < j < |Listing(es)| ensures Precedes(es, Listing(es)[i], Listing(es)[j]) {
      assert le(Listing(es)[i], Listing(es)[j]);
    }
  }

  /** The change stream the caching source reads. */
  function ChangeStream(es: seq<Entry>): (r: seq<Change>)
    ensures |r| == |Listing(es)|
    ensures forall i :: 0 <= i < |r| ==> IsEvent(es, Listing(es)[i]) && r[i] == ChangeOf(es, Listing(es)[i])
  {
    ListingLists(es);
    assert forall i :: 0 <= i < |Listing(es)| ==> Listing(es)[i] in Listing(es);
    seq(|Listing(es)|, i requires 0 <= i < |Listing(es)| => ChangeOf(es, Listing(es)[i]))
  }

  lemma StreamOrdered(es: seq<Entry>)
    ensures Ordered(ChangeStream(es))
  {
    ListingLists(es);
  }

  // ----- Do the listed changes lead from state to state? -----

  function ListedUpdates(es: seq<Entry>, since: nat, upTo: nat): seq<Update> {
    Updates(InRange(ChangeStream(es), Some(since), upTo))
  }

  predicate SpentWithin(e: Entry, since: nat, upTo: nat) {
    e.spent.Some? && since < e.spent.value.block <= upTo
  }

  /** Creation of another entry with the key of `e`, not before `e` is spent. */
  ghost predicate Recreated(es: seq<Entry>, e: Entry, upTo: nat)
    requires e.spent.Some?
  {
    exists m :: 0 <= m < |es| && es[m].key == e.key && es[m].created.block <= upTo && !Before(es[m].created, e.spent.value)
  }

  /** The key of an entry that is spent in the window without a creation of the key following, in the same
      transaction or later: whatever else carries the key, it is reported as removed. */
  ghost predicate Stranded(es: seq<Entry>, since: nat, seen: nat, k: Key) {
    exists i :: 0 <= i < |es| && es[i].key == k && SpentWithin(es[i], since, seen) && !Recreated(es, es[i], seen)
  }

  /** For a report of the changes after `since` up to the block `seen`, applied as the changes up to `upTo`:
      a key reported as removed has no live entry at `upTo`, and any other key has the value it had at
      `seen`. */
  ghost predicate Clean(es: seq<Entry>, since: nat, seen: nat, upTo: nat) {
    forall k :: LiveValue(es, upTo, k) == if Stranded(es, since, seen, k) then None else LiveValue(es, seen, k)
  }

  /** `evs` are the events of the window in order, and `us` the updates they are reported as. */
  ghost predicate Window(es: seq<Entry>, since: nat, upTo: nat, evs: seq<Event>, us: seq<Update>) {
    && (forall ev :: ev in evs <==> IsEvent(es, ev) && since < At(es, ev).block <= upTo)
    && (forall i, j :: 0 <= i < j < |evs| ==> Precedes(es, evs[i], evs[j]))
    && |us| == |evs|
    && forall i :: 0 <= i < |us| ==> IsEvent(es, evs[i]) && us[i] == ChangeOf(es, evs[i]).update
  }

  lemma SliceIsWindow(
    es: seq<Entry>, since: nat, upTo: nat, all: seq<Event>, cs: seq<Change>, a: nat, b: nat)
    requires Lists(es, all) && |cs| == |all| && a <= b <= |all|
    requires forall i :: 0 <= i < |all| ==> IsEvent(es, all[i]) && cs[i] == ChangeOf(es, all[i])
    requires forall i :: 0 <= i < |all| ==> (a <= i < b <==> Within(cs[i], Some(since), upTo))
    ensures Window(es, since, upTo, all[a..b], Updates(cs[a..b]))
  {
    var evs := all[a..b];
    forall ev ensures ev in evs <==> IsEvent(es, ev) && since < At(es, ev).block <= upTo {
      if ev in evs {
        var i :| 0 <= i < |evs| && evs[i] == ev;
        assert all[a + i] == ev && Within(cs[a + i], Some(since), upTo);
      }
      if IsEvent(es, ev) && since < At(es, ev).block <= upTo {
        assert ev in all;
        var i :| 0 <= i < |all| && all[i] == ev;
        assert Within(cs[i], Some(since), upTo);
        assert evs[i - a] == ev;
      }
    }
  }

  lemma ListedWindow(es: seq<Entry>, since: nat, upTo: nat) returns (evs: seq<Event>)
    requires since <= upTo
    ensures Window(es, since, upTo, evs, ListedUpdates(es, since, upTo))
  {
    ListingLists(es);
    StreamOrdered(es);
    var all, cs := Listing(es), ChangeStream(es);
    var a, b := RangeIsSlice(cs, since, upTo);
    SliceIsWindow(es, since, upTo, all, cs, a, b);
    evs := all[a..b];
  }

  lemma EventTouches(es: seq<Entry>, since: nat, upTo: nat, evs: seq<Event>, us: seq<Update>, ev: Event)
    requires Window(es, since, upTo, evs, us) && IsEvent(es, ev) && since < At(es, ev).block <= upTo
    ensures 0 <= LastTouch(us, es[ev.entry].key)
  {
    assert ev in evs;
    var p :| 0 <= p < |evs| && evs[p] == ev;
    assert us[p].key == es[ev.entry].key;
  }

  /** No event of a key stands after the one that touches it last. */
  lemma NothingLater(es: seq<Entry>, since: nat, upTo: nat, evs: seq<Event>, us: seq<Update>, ev: Event)
    requires Window(es, since, upTo, evs, us) && IsEvent(es, ev) && since < At(es, ev).block <= upTo
    ensures 0 <= LastTouch(us, es[ev.entry].key)
    ensures !Precedes(es, evs[LastTouch(us, es[ev.entry].key)], ev)
  {
    EventTouches(es, since, upTo, evs, us, ev);
    assert ev in evs;
    var p, q :| 0 <= p < |evs| && evs[p] == ev && q == LastTouch(us, es[ev.entry].key);
    assert us[p].key == es[ev.entry].key;
    assert p < q ==> Precedes(es, evs[p], evs[q]);
  }

  lemma UntouchedKey(es: seq<Entry>, since: nat, upTo: nat, evs: seq<Event>, us: seq<Update>, k: Key)
    requires since <= upTo && Window(es, since, upTo, evs, us) && LastTouch(us, k) < 0
    ensures Get(StateAt(es, since), k) == Get(StateAt(es, upTo), k)
  {
    forall i | 0 <= i < |es| && es[i].key == k ensures Live(es[i], since) <==> Live(es[i], upTo) {
      if since < es[i].created.block <= upTo {
        EventTouches(es, since, upTo, evs, us, Create(i));
      } else if SpentWithin(es[i], since, upTo) {
        EventTouches(es, since, upTo, evs, us, Spend(i));
      }
    }
    SameLiveSameValue(es, since, upTo, k);
  }

  /** A key touched last by a creation has that entry's value. */
  lemma CreatedLast(es: seq<Entry>, since: nat, upTo: nat, evs: seq<Event>, us: seq<Update>, k: Key)
    requires Valid(es) && since <= upTo && Window(es, since, upTo, evs, us)
    requires 0 <= LastTouch(us, k) && evs[LastTouch(us, k)].Create?
    ensures us[LastTouch(us, k)].value == Get(StateAt(es, upTo), k)
  {
    var ev := evs[LastTouch(us, k)];
    var i := ev.entry;
    assert ev in evs;
    if SpentWithin(es[i], since, upTo) {
      NothingLater(es, since, upTo, evs, us, Spend(i));
    }
    forall m | i < m < |es| && es[m].key == k ensures !Live(es[m], upTo) {
      if es[m].created.block <= upTo {
        assert !Before(es[m].created, es[i].created);
        NothingLater(es, since, upTo, evs, us, Create(m));
      }
    }
    LastLiveStays(es, upTo, i);
  }

  /** A key touched last by a spend is stranded. */
  lemma SpentLastIsStranded(es: seq<Entry>, since: nat, upTo: nat, evs: seq<Event>, us: seq<Update>, k: Key)
    requires Window(es, since, upTo, evs, us) && 0 <= LastTouch(us, k) && evs[LastTouch(us, k)].Spend?
    ensures Stranded(es, since, upTo, k)
  {
    var ev := evs[LastTouch(us, k)];
    var i := ev.entry;
    assert ev in evs;
    if Recreated(es, es[i], upTo) {
      var n :| 0 <= n < |es| && es[n].key == k && es[n].created.block <= upTo && !Before(es[n].created, es[i].spent.value);
      NothingLater(es, since, upTo, evs, us, Create(n));
    }
  }

  lemma StrandedSpendIsLast(es: seq<Entry>, since: nat, upTo: nat, evs: seq<Event>, us: seq<Update>, k: Key)
    requires Window(es, since, upTo, evs, us) && Stranded(es, since, upTo, k)
    ensures 0 <= LastTouch(us, k) && evs[LastTouch(us, k)].Spend?
  {
    var i :| 0 <= i < |es| && es[i].key == k && SpentWithin(es[i], since, upTo) && !Recreated(es, es[i], upTo);
    NothingLater(es, since, upTo, evs, us, Spend(i));
    var ev := evs[LastTouch(us, k)];
    assert ev in evs && us[LastTouch(us, k)].key == k;
  }

  /** What one key is after the listed updates. */
  lemma ReportedValue(es: seq<Entry>, since: nat, seen: nat, k: Key)
    requires Valid(es) && since <= seen
    ensures Get(ApplyAll(StateAt(es, since), ListedUpdates(es, since, seen)), k)
            == if Stranded(es, since, seen, k) then None else LiveValue(es, seen, k)
  {
    var us := ListedUpdates(es, since, seen);
    var evs := ListedWindow(es, since, seen);
    LastTouchWins(StateAt(es, since), us, k);
    StateReadsLive(es, seen, k);
    var j := LastTouch(us, k);
    if Stranded(es, since, seen, k) {
      StrandedSpendIsLast(es, since, seen, evs, us, k);
    } else if j < 0 {
      UntouchedKey(es, since, seen, evs, us, k);
    } else if evs[j].Create? {
      CreatedLast(es, since, seen, evs, us, k);
    } else {
      SpentLastIsStranded(es, since, seen, evs, us, k);
    }
  }

  lemma SameMapping(m: Mapping, m': Mapping)
    requires forall k :: Get(m, k) == Get(m', k)
    ensures m == m'
  {
    forall k ensures k in m <==> k in m' {
      assert Get(m, k) == Get(m', k);
    }
    forall k | k in m ensures m[k] == m'[k] {
      assert Get(m, k) == Get(m', k);
    }
  }

  /** The changes listed up to `seen` lead from the state the state query reads at `since` to the one it
      reads at `upTo` if and only if the window is clean. */
  lemma ListedChangesLeadIff(es: seq<Entry>, since: nat, seen: nat, upTo: nat)
    requires Valid(es) && since <= seen
    ensures ApplyAll(StateAt(es, since), ListedUpdates(es, since, seen)) == StateAt(es, upTo)
            <==> Clean(es, since, seen, upTo)
  {
    var after := ApplyAll(StateAt(es, since), ListedUpdates(es, since, seen));
    forall k ensures
      && Get(after, k) == (if Stranded(es, since, seen, k) then None else LiveValue(es, seen, k))
      && Get(StateAt(es, upTo), k) == LiveValue(es, upTo, k)
    {
      ReportedValue(es, since, seen, k);
      StateReadsLive(es, upTo, k);
    }
    if Clean(es, since, seen, upTo) {
      SameMapping(after, StateAt(es, upTo));
    }
  }

  /** An entry is spent, at the latest by the transaction that creates the next one of its key. */
  ghost predicate OneLivePerKey(es: seq<Entry>) {
    forall i, j :: 0 <= i < j < |es| && es[i].key == es[j].key ==>
      es[i].spent.Some? && !Before(es[j].created, es[i].spent.value)
  }

  /** With at most one live entry per key nothing is lost: a stranded key has no live entry. */
  lemma OneLiveStranded(es: seq<Entry>, since: nat, seen: nat, k: Key)
    requires Valid(es) && OneLivePerKey(es) && Stranded(es, since, seen, k)
    ensures LiveValue(es, seen, k) == None
  {
    var i :| 0 <= i < |es| && es[i].key == k && SpentWithin(es[i], since, seen) && !Recreated(es, es[i], seen);
    forall j | 0 <= j < |es| && es[j].key == k ensures !Live(es[j], seen) {
    }
    StateHasKeyIff(es, seen, k);
    StateReadsLive(es, seen, k);
  }

  /** With at most one live entry per key a window is clean exactly if the state at the end of the search is
      the state at the reference; in particular whenever the search reaches the reference. */
  lemma OneLiveCleanIff(es: seq<Entry>, since: nat, seen: nat, upTo: nat)
    requires Valid(es) && OneLivePerKey(es)
    ensures Clean(es, since, seen, upTo) <==> StateAt(es, seen) == StateAt(es, upTo)
  {
    forall k ensures
      && Get(StateAt(es, seen), k) == LiveValue(es, seen, k) && Get(StateAt(es, upTo), k) == LiveValue(es, upTo, k)
      && (Stranded(es, since, seen, k) ==> LiveValue(es, seen, k) == None)
    {
      StateReadsLive(es, seen, k);
      StateReadsLive(es, upTo, k);
      if Stranded(es, since, seen, k) {
        OneLiveStranded(es, since, seen, k);
      }
    }
    if Clean(es, since, seen, upTo) {
      SameMapping(StateAt(es, seen), StateAt(es, upTo));
    }
  }

  lemma StateOfOne(e: Entry, block: nat)
    ensures StateAt([e], block) == if Live(e, block) then map[e.key := e.value] else map[]
  {
    assert [e][..0] == [];
  }

  lemma StateOfTwo(x: Entry, y: Entry, block: nat)
    ensures
      var m := if Live(x, block) then map[x.key := x.value] else map[];
      StateAt([x, y], block) == if Live(y, block) then m[y.key := y.value] else m
  {
    assert [x, y][..1] == [x];
    StateOfOne(x, block);
  }

  /** Two entries of one key, the older one spent while the younger stays: the change query loses the key
      that the state query still reads. For instance key 7 created with value 1 in block 1 and with value
      2 in block 2, and the first spent in block 3. */
  lemma SpentDuplicateLosesKey(x: Entry, y: Entry, since: nat, upTo: nat)
    requires x.key == y.key && Before(x.created, y.created) && y.spent.None?
    requires y.created.block <= since < upTo && SpentWithin(x, since, upTo)
    ensures Valid([x, y])
    ensures StateAt([x, y], since) == map[x.key := y.value] && StateAt([x, y], upTo) == map[x.key := y.value]
    ensures x.key !in ApplyAll(StateAt([x, y], since), ListedUpdates([x, y], since, upTo))
  {
    StateOfTwo(x, y, since);
    StateOfTwo(x, y, upTo);
    assert Stranded([x, y], since, upTo, x.key) by {
      assert [x, y][0].key == x.key && !Recreated([x, y], x, upTo);
    }
    ReportedValue([x, y], since, upTo, x.key);
  }

  /** Where both lead to the same state the reports may still differ: a value spent and created again by
      one transaction is listed by one source and not by the other. For instance key 7 with value 1
      created in block 1, and spent and created again in block 2. */
  lemma SourcesReportDifferently(x: Entry, y: Entry, since: nat, upTo: nat)
    requires x.key == y.key && x.value == y.value && Before(x.created, y.created)
    requires x.spent == Some(y.created) && y.spent.None?
    requires x.created.block <= since < y.created.block <= upTo
    ensures Valid([x, y]) && OneLivePerKey([x, y])
    ensures Diff(StateAt([x, y], since), StateAt([x, y], upTo)) == map[]
    ensures x.key in Collapse(ListedUpdates([x, y], since, upTo))
  {
    StateOfTwo(x, y, since);
    StateOfTwo(x, y, upTo);
    var us := ListedUpdates([x, y], since, upTo);
    var evs := ListedWindow([x, y], since, upTo);
    EventTouches([x, y], since, upTo, evs, us, Create(1));
    CollapseKeys(us, x.key);
  }
}
