/** The caching governed map source: keeps the changes of one search and answers from them. */
module GovernedMapCache {
  import opened Prelude
  import opened GovernedMapChain

  /** Saturating 32-bit sum. */
  function SinceBlockPlus(since: Option<nat>, cacheSize: nat): nat {
    Min((if since.Some? then since.value else 0) + cacheSize, U32_SPAN - 1)
  }

  /** Last block searched on a miss; `latest` is the newest stable block, if there is one. */
  function SearchEnd(since: Option<nat>, upTo: nat, cacheSize: nat, latest: Option<nat>): nat {
    Min(if latest.Some? then latest.value else upTo, Max(upTo, SinceBlockPlus(since, cacheSize)))
  }

  /** Filtering twice keeps as much as filtering once exactly if the first filter drops nothing the
      second would keep, and then the results are equal. */
  lemma {:induction false} InRangeTwice(s: seq<Change>, lo: Option<nat>, hi: nat, since: Option<nat>, upTo: nat)
    ensures
      var twice, once := InRange(InRange(s, lo, hi), since, upTo), InRange(s, since, upTo);
      var covered := forall c :: c in s && Within(c, since, upTo) ==> Within(c, lo, hi);
      && |twice| <= |once|
      && (covered ==> twice == once)
      && (!covered ==> |twice| < |once|)
  {
    if s != [] {
      InRangeTwice(s[1..], lo, hi, since, upTo);
      var inner := InRange(s[1..], lo, hi);
      assert forall c :: c in s <==> c == s[0] || c in s[1..];
      if Within(s[0], lo, hi) {
        assert ([s[0]] + inner)[1..] == inner;
      } else {
        assert [] + inner == inner;
      }
    }
  }

  /** A report from the part of the chain between `lo` and `hi` is complete if and only if no change of
      the window lies outside that part. */
  lemma PartialReportIff(s: seq<Change>, lo: Option<nat>, hi: nat, since: Option<nat>, upTo: nat)
    ensures Updates(InRange(InRange(s, lo, hi), since, upTo)) == Updates(InRange(s, since, upTo))
            <==> forall c :: c in s && Within(c, since, upTo) ==> Within(c, lo, hi)
  {
    InRangeTwice(s, lo, hi, since, upTo);
  }

  lemma FoundBounds(s: seq<Change>, from: Option<nat>, to: nat)
    requires InRange(s, from, to) != []
    ensures from.Some? ==> from.value < InRange(s, from, to)[0].block
    ensures Last(InRange(s, from, to)).block <= to
  {
    var found := InRange(s, from, to);
    InRangeMembers(s, from, to);
    assert found[0] in found && Last(found) in found;
  }

  /** The part a hit leaves out: changes at or below the start of the remembered search, when the caller
      asks for everything from the beginning. */
  ghost predicate HitLeavesOut(s: seq<Change>, since: Option<nat>, upTo: nat, searchedFrom: Option<nat>) {
    since.None? && searchedFrom.Some? && exists c :: c in s && c.block <= upTo && c.block <= searchedFrom.value
  }

  /** The part a miss leaves out: changes beyond a stable block that is behind the reference. */
  ghost predicate MissLeavesOut(s: seq<Change>, since: Option<nat>, upTo: nat, latest: Option<nat>) {
    latest.Some? && latest.value < upTo && exists c :: c in s && Within(c, since, upTo) && latest.value < c.block
  }

  /** The cache remembers the blocks of the first and last change it found, not the range it searched. */
  datatype Cache = Cache(scripts: Option<Scripts>, lowest: Option<nat>, highest: Option<nat>, changes: seq<Change>)

  function EmptyCache(): Cache {
    Cache(None, None, None, [])
  }

  /** Other scripts empty the cache. */
  function SetScripts(k: Cache, s: Scripts): Cache {
    if k.scripts == Some(s) then k else Cache(Some(s), None, None, [])
  }

  function Store(k: Cache, found: seq<Change>): Cache {
    var lowest, highest := if found == [] then 0 else found[0].block, if found == [] then 0 else Last(found).block;
    Cache(k.scripts, Some(lowest), Some(highest), found)
  }

  predicate Serves(k: Cache, since: Option<nat>, upTo: nat) {
    && k.highest.Some? && k.lowest.Some?
    && upTo <= k.highest.value && (since.Some? ==> k.lowest.value <= since.value)
  }

  /** The cache, if filled, holds what a search of `s` between `from` and `to` found. */
  ghost predicate Holds(k: Cache, s: seq<Change>, from: Option<nat>, to: nat) {
    && (k.lowest.Some? <==> k.highest.Some?)
    && (k.highest.Some? ==> k == Store(k, InRange(s, from, to)))
  }

  /** A whole call for the scripts set already: the report and the cache it leaves behind. */
  function Ask(k: Cache, s: seq<Change>, since: Option<nat>, upTo: nat, cacheSize: nat, latest: Option<nat>)
    : (seq<Update>, Cache)
  {
    if Serves(k, since, upTo) then (Updates(InRange(k.changes, since, upTo)), k)
    else
      var found := InRange(s, since, SearchEnd(since, upTo, cacheSize, latest));
      (Updates(InRange(found, since, upTo)), Store(k, found))
  }

  /** What a hit covers. */
  lemma HitCovers(k: Cache, s: seq<Change>, from: Option<nat>, to: nat, since: Option<nat>, upTo: nat)
    requires Holds(k, s, from, to) && Serves(k, since, upTo)
    ensures (forall c :: c in s && Within(c, since, upTo) ==> Within(c, from, to)) <==> !HitLeavesOut(s, since, upTo, from)
  {
    if k.changes != [] {
      FoundBounds(s, from, to);
    }
  }

  /** A report is complete if and only if the hit leaves out no earlier change and the miss none beyond the
      stable block. */
  lemma AskCompleteIff(
    k: Cache, s: seq<Change>, from: Option<nat>, to: nat, since: Option<nat>, upTo: nat, cacheSize: nat,
    latest: Option<nat>)
    requires Holds(k, s, from, to)
    ensures Ask(k, s, since, upTo, cacheSize, latest).0 == Updates(InRange(s, since, upTo)) <==>
            if Serves(k, since, upTo) then !HitLeavesOut(s, since, upTo, from) else !MissLeavesOut(s, since, upTo, latest)
  {
    if Serves(k, since, upTo) {
      HitCovers(k, s, from, to, since, upTo);
      PartialReportIff(s, from, to, since, upTo);
    } else {
      PartialReportIff(s, since, SearchEnd(since, upTo, cacheSize, latest), since, upTo);
    }
  }

  /** What a miss remembers: the changes after the requested block, up to the newest stable block and as
      far as the request or the cache size reaches. */
  lemma MissRemembersIff(
    k: Cache, s: seq<Change>, since: Option<nat>, upTo: nat, cacheSize: nat, latest: Option<nat>, c: Change)
    requires !Serves(k, since, upTo)
    ensures c in Ask(k, s, since, upTo, cacheSize, latest).1.changes <==>
      && c in s && (since.Some? ==> since.value < c.block)
      && c.block <= (if latest.Some? then latest.value else upTo)
      && (|| c.block <= upTo
          || (c.block < U32_SPAN && c.block <= (if since.Some? then since.value + cacheSize else cacheSize)))
  {
    InRangeMembers(s, since, SearchEnd(since, upTo, cacheSize, latest));
  }

  /** What the cache answers after a miss: requests that reach no further than the last change found, and
      back no further than the first; without any change, only requests for block zero. */
  lemma RememberedServesIff(
    k: Cache, s: seq<Change>, since: Option<nat>, upTo: nat, cacheSize: nat, latest: Option<nat>, from: Option<nat>,
    to: nat)
    requires !Serves(k, since, upTo)
    ensures
      var k' := Ask(k, s, since, upTo, cacheSize, latest).1;
      Serves(k', from, to) <==>
        if k'.changes == [] then to == 0
        else to <= Last(k'.changes).block && (from.Some? ==> k'.changes[0].block <= from.value)
  {
  }

  /** End of the part a report covers when its lower bound is known. */
  function Seen(k: Cache, since: nat, upTo: nat, latest: Option<nat>): nat {
    if Serves(k, Some(since), upTo) || latest.None? then upTo else Min(upTo, latest.value)
  }

  /** With a known lower bound a report is exactly the changes up to that end. */
  lemma AskSeen(
    k: Cache, s: seq<Change>, from: Option<nat>, to: nat, since: nat, upTo: nat, cacheSize: nat, latest: Option<nat>)
    requires Holds(k, s, from, to)
    ensures Ask(k, s, Some(since), upTo, cacheSize, latest).0 == Updates(InRange(s, Some(since), Seen(k, since, upTo, latest)))
  {
    if Serves(k, Some(since), upTo) {
      AskCompleteIff(k, s, from, to, Some(since), upTo, cacheSize, latest);
    } else {
      InRangeTighter(s, Some(since), SearchEnd(Some(since), upTo, cacheSize, latest), upTo);
    }
  }

  lemma {:induction false} InRangeTighter(s: seq<Change>, since: Option<nat>, hi: nat, upTo: nat)
    ensures InRange(InRange(s, since, hi), since, upTo) == InRange(s, since, Min(hi, upTo))
  {
    if s != [] {
      InRangeTighter(s[1..], since, hi, upTo);
      var inner := InRange(s[1..], since, hi);
      if Within(s[0], since, hi) {
        assert ([s[0]] + inner)[1..] == inner;
      } else {
        assert [] + inner == inner;
      }
    }
  }

  class ChangeCache {
    var scripts: Option<Scripts>
    var lowest: Option<nat>
    var highest: Option<nat>
    var changes: seq<Change>

    function State(): Cache
      reads this
    {
      Cache(scripts, lowest, highest, changes)
    }

    constructor ()
      ensures State() == EmptyCache()
    {
      scripts, lowest, highest, changes := None, None, None, [];
    }

    method SetMainChainScripts(newScripts: Scripts)
      modifies this
      ensures State() == SetScripts(old(State()), newScripts)
    {
      if scripts != Some(newScripts) {
        changes, highest, lowest := [], None, None;
        scripts := Some(newScripts);
      }
    }

    method GetChangesInRange(since: Option<nat>, upTo: nat) returns (r: Option<seq<Update>>)
      ensures r == if Serves(State(), since, upTo) then Some(Updates(InRange(changes, since, upTo))) else None
    {
      if highest.None? || lowest.None? {
        return None;
      }
      if highest.value < upTo || (since.Some? && since.value < lowest.value) {
        return None;
      }
      return Some(Updates(InRange(changes, since, upTo)));
    }

    /** Least and greatest block of the changes found, zero without any. */
    method Replace(found: seq<Change>)
      requires Ordered(found)
      modifies this
      ensures State() == Store(old(State()), found)
    {
      changes := found;
      var least, greatest := 0, 0;
      if found != [] {
        least, greatest := found[0].block, found[0].block;
        for i := 1 to |found|
          invariant least == found[0].block && greatest == found[i - 1].block
        {
          least, greatest := Min(least, found[i].block), Max(greatest, found[i].block);
        }
      }
      lowest, highest := Some(least), Some(greatest);
    }

    /** One call for the current scripts; the cache keeps holding one search of their stream. */
    method GetMappingChanges(
      s: seq<Change>, since: Option<nat>, upTo: nat, cacheSize: nat, latest: Option<nat>, ghost from: Option<nat>,
      ghost to: nat) returns (us: seq<Update>)
      requires Ordered(s) && Holds(State(), s, from, to)
      modifies this
      ensures (us, State()) == Ask(old(State()), s, since, upTo, cacheSize, latest)
      ensures if old(Serves(State(), since, upTo)) then Holds(State(), s, from, to)
              else Holds(State(), s, since, SearchEnd(since, upTo, cacheSize, latest))
      ensures us == Updates(InRange(s, since, upTo)) <==>
              if old(Serves(State(), since, upTo)) then !HitLeavesOut(s, since, upTo, from)
              else !MissLeavesOut(s, since, upTo, latest)
    {
      AskCompleteIff(State(), s, from, to, since, upTo, cacheSize, latest);
      var cached := GetChangesInRange(since, upTo);
      if cached.Some? {
        return cached.value;
      }
      var maxSearch := SearchEnd(since, upTo, cacheSize, latest);
      var found := InRange(s, since, maxSearch);
      InRangeOrdered(s, since, maxSearch);
      Replace(found);
      us := Updates(InRange(found, since, upTo));
    }
  }

  /** A search from block 2 remembers the change of block 3 only; the following request for everything is
      answered from it and leaves out the change of block 1. */
  method HitMayBeIncomplete(u: Update, v: Update) returns (us: seq<Update>)
    ensures us != Updates(InRange([Change(1, u), Change(3, v)], None, 3))
  {
    var s := [Change(1, u), Change(3, v)];
    var cache := new ChangeCache();
    var first := cache.GetMappingChanges(s, Some(2), 3, 0, None, None, 0);
    ghost var found := InRange(s, Some(2), 3);
    InRangeMembers(s, Some(2), 3);
    assert s[1] in found && Last(found) in found;
    assert Serves(cache.State(), None, 3);
    us := cache.GetMappingChanges(s, None, 3, 0, None, Some(2), 3);
    assert s[0] in s;
  }

  /** With a stable block behind the reference, the change in between is missing. */
  method MissMayBeIncomplete(u: Update) returns (us: seq<Update>)
    ensures us != Updates(InRange([Change(5, u)], Some(1), 5))
  {
    var s := [Change(5, u)];
    var cache := new ChangeCache();
    us := cache.GetMappingChanges(s, Some(1), 5, 0, Some(3), None, 0);
    assert s[0] in s;
  }

  lemma {:induction false} InRangeStable(s: seq<Change>, more: seq<Change>, since: Option<nat>, upTo: nat)
    requires forall i :: 0 <= i < |more| ==> upTo < more[i].block
    ensures InRange(s + more, since, upTo) == InRange(s, since, upTo)
  {
    InRangeAppend(s, more, since, upTo);
    InRangeNone(more, since, upTo);
  }

  /** A filled cache stays correct while the main chain grows beyond what it searched. */
  lemma GrowthKeepsHolds(k: Cache, s: seq<Change>, more: seq<Change>, from: Option<nat>, to: nat)
    requires Holds(k, s, from, to) && forall i :: 0 <= i < |more| ==> to < more[i].block
    ensures Holds(k, s + more, from, to)
  {
    InRangeStable(s, more, from, to);
  }
}
