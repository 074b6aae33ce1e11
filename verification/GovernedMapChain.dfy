/** Changes of the governed map: lists of updates, what they lead to, and the uncached data source that
    compares two states. */
module GovernedMapChain {
  import opened Prelude

  type Key = nat
  type Value = nat
  type Scripts = nat
  type Mapping = map<Key, Value>

  /** Insertion or update, or deletion when there is no value. */
  datatype Update = Update(key: Key, value: Option<Value>)

  datatype Change = Change(block: nat, update: Update)

  /** A set of changes with at most one per key, as carried by the inherent. */
  type Changes = map<Key, Option<Value>>

  ghost predicate Ordered(s: seq<Change>) {
    forall i, j :: 0 <= i < j < |s| ==> s[i].block <= s[j].block
  }

  predicate Within(c: Change, since: Option<nat>, upTo: nat) {
    c.block <= upTo && (since.Some? ==> since.value < c.block)
  }

  function InRange(s: seq<Change>, since: Option<nat>, upTo: nat): seq<Change> {
    if s == [] then []
    else (if Within(s[0], since, upTo) then [s[0]] else []) + InRange(s[1..], since, upTo)
  }

  function Updates(s: seq<Change>): (r: seq<Update>)
    ensures |r| == |s| && forall i :: 0 <= i < |s| ==> r[i] == s[i].update
  {
    if s == [] then [] else [s[0].update] + Updates(s[1..])
  }

  function ApplyOne(m: Mapping, u: Update): Mapping {
    if u.value.Some? then m[u.key := u.value.value] else m - {u.key}
  }

  function ApplyAll(m: Mapping, us: seq<Update>): Mapping
    decreases |us|
  {
    if us == [] then m else ApplyAll(ApplyOne(m, us[0]), us[1..])
  }

  function Get(m: Mapping, k: Key): Option<Value> {
    if k in m then Some(m[k]) else None
  }

  /** Last change per key, as inserting a list into a map leaves it. */
  function Collapse(us: seq<Update>): Changes {
    if us == [] then map[] else Collapse(us[..|us| - 1])[Last(us).key := Last(us).value]
  }

  function ApplyChanges(m: Mapping, cs: Changes): Mapping {
    map k | k in m.Keys + cs.Keys && (if k in cs then cs[k].Some? else true) :: if k in cs then cs[k].value else m[k]
  }

  function Diff(from: Mapping, to: Mapping): Changes {
    map k | k in from.Keys + to.Keys && Get(from, k) != Get(to, k) :: Get(to, k)
  }

  lemma {:induction false} ApplyAllAppend(m: Mapping, a: seq<Update>, b: seq<Update>)
    ensures ApplyAll(m, a + b) == ApplyAll(ApplyAll(m, a), b)
    decreases |a|
  {
    if a == [] {
      assert a + b == b;
    } else {
      ApplyAllAppend(ApplyOne(m, a[0]), a[1..], b);
      assert (a + b)[1..] == a[1..] + b;
    }
  }

  lemma ApplySingle(m: Mapping, u: Update)
    ensures ApplyAll(m, [u]) == ApplyOne(m, u)
  {
    assert [u][1..] == [];
  }

  lemma ApplyChangesOne(m: Mapping, cs: Changes, u: Update)
    ensures ApplyChanges(m, cs[u.key := u.value]) == ApplyOne(ApplyChanges(m, cs), u)
  {
  }

  /** Keeping only the last change of every key does not change the outcome. */
  lemma {:induction false} CollapseMeansTheSame(m: Mapping, us: seq<Update>)
    ensures ApplyChanges(m, Collapse(us)) == ApplyAll(m, us)
  {
    if us != [] {
      var init := us[..|us| - 1];
      CollapseMeansTheSame(m, init);
      assert us == init + [Last(us)];
      ApplyAllAppend(m, init, [Last(us)]);
      ApplySingle(ApplyAll(m, init), Last(us));
      ApplyChangesOne(m, Collapse(init), Last(us));
    }
  }

  /** The difference of two states leads from one to the other and mentions no other key. */
  lemma DiffLeadsOver(from: Mapping, to: Mapping)
    ensures ApplyChanges(from, Diff(from, to)) == to
    ensures forall k :: k in Diff(from, to) <==> Get(from, k) != Get(to, k)
  {
    var r := ApplyChanges(from, Diff(from, to));
    forall k ensures Get(r, k) == Get(to, k) {
    }
    assert r.Keys == to.Keys by {
      forall k ensures k in r <==> k in to {
        assert Get(r, k) == Get(to, k);
      }
    }
    forall k | k in to ensures r[k] == to[k] {
      assert Get(r, k) == Get(to, k);
    }
  }

  /** Position of the last update of a key, or -1. */
  function LastTouch(us: seq<Update>, k: Key): (j: int)
    ensures -1 <= j < |us|
    ensures 0 <= j ==> us[j].key == k
    ensures forall i :: j < i < |us| ==> us[i].key != k
  {
    if us == [] then -1
    else if Last(us).key == k then |us| - 1
    else LastTouch(us[..|us| - 1], k)
  }

  /** Of several updates the last one wins. */
  lemma {:induction false} LastTouchWins(m: Mapping, us: seq<Update>, k: Key)
    ensures Get(ApplyAll(m, us), k) == if LastTouch(us, k) < 0 then Get(m, k) else us[LastTouch(us, k)].value
  {
    if us != [] {
      var init := us[..|us| - 1];
      LastTouchWins(m, init, k);
      assert us == init + [Last(us)];
      ApplyAllAppend(m, init, [Last(us)]);
      ApplySingle(ApplyAll(m, init), Last(us));
    }
  }

  lemma {:induction false} CollapseKeys(us: seq<Update>, k: Key)
    ensures k in Collapse(us) <==> 0 <= LastTouch(us, k)
  {
    if us != [] {
      CollapseKeys(us[..|us| - 1], k);
    }
  }

  /** The part of a difference that concerns the given keys. */
  function DiffOn(from: Mapping, to: Mapping, keys: set<Key>): Changes {
    map k | k in keys && Get(from, k) != Get(to, k) :: Get(to, k)
  }

  lemma CollapseSnoc(us: seq<Update>, u: Update)
    ensures Collapse(us + [u]) == Collapse(us)[u.key := u.value]
  {
    assert (us + [u])[..|us|] == us;
  }

  lemma DiffOnMore(from: Mapping, to: Mapping, keys: set<Key>, k: Key)
    ensures DiffOn(from, to, keys + {k}) ==
            if Get(from, k) != Get(to, k) then DiffOn(from, to, keys)[k := Get(to, k)] else DiffOn(from, to, keys)
  {
  }

  /** The uncached source: both states are read and compared, in some order of their keys. */
  method UncachedChanges(previous: Mapping, current: Mapping) returns (us: seq<Update>)
    ensures Collapse(us) == Diff(previous, current)
    ensures ApplyAll(previous, us) == current
  {
    us := [];
    var todo := current.Keys;
    while todo != {}
      invariant todo <= current.Keys
      invariant Collapse(us) == DiffOn(previous, current, current.Keys - todo)
    {
      var k :| k in todo;
      DiffOnMore(previous, current, current.Keys - todo, k);
      assert current.Keys - (todo - {k}) == (current.Keys - todo) + {k};
      if Get(previous, k) != Some(current[k]) {
        CollapseSnoc(us, Update(k, Some(current[k])));
        us := us + [Update(k, Some(current[k]))];
      }
      todo := todo - {k};
    }
    todo := previous.Keys;
    ghost var all := current.Keys + previous.Keys;
    assert current.Keys - {} + (previous.Keys - todo) == current.Keys;
    while todo != {}
      invariant todo <= previous.Keys
      invariant Collapse(us) == DiffOn(previous, current, current.Keys + (previous.Keys - todo))
    {
      var k :| k in todo;
      ghost var seen := current.Keys + (previous.Keys - todo);
      DiffOnMore(previous, current, seen, k);
      assert current.Keys + (previous.Keys - (todo - {k})) == seen + {k};
      if k !in current {
        CollapseSnoc(us, Update(k, None));
        us := us + [Update(k, None)];
      } else {
        assert seen + {k} == seen;
      }
      todo := todo - {k};
    }
    assert current.Keys + (previous.Keys - {}) == all;
    assert DiffOn(previous, current, all) == Diff(previous, current);
    CollapseMeansTheSame(previous, us);
    DiffLeadsOver(previous, current);
  }

  // ----- Ranges of blocks -----

  lemma {:induction false} InRangeMembers(s: seq<Change>, since: Option<nat>, upTo: nat)
    ensures forall c :: c in InRange(s, since, upTo) <==> c in s && Within(c, since, upTo)
  {
    if s != [] {
      InRangeMembers(s[1..], since, upTo);
      assert forall c :: c in s <==> c == s[0] || c in s[1..];
    }
  }

  lemma {:induction false} InRangeOrdered(s: seq<Change>, since: Option<nat>, upTo: nat)
    requires Ordered(s)
    ensures Ordered(InRange(s, since, upTo))
  {
    if s != [] {
      InRangeOrdered(s[1..], since, upTo);
      InRangeMembers(s[1..], since, upTo);
      var rest := InRange(s[1..], since, upTo);
      forall j | 0 <= j < |rest| ensures s[0].block <= rest[j].block {
        assert rest[j] in rest;
        var i :| 0 <= i < |s[1..]| && s[1..][i] == rest[j];
        assert s[i + 1] == rest[j];
      }
    }
  }

  lemma {:induction false} InRangeAppend(s: seq<Change>, t: seq<Change>, since: Option<nat>, upTo: nat)
    ensures InRange(s + t, since, upTo) == InRange(s, since, upTo) + InRange(t, since, upTo)
  {
    if s == [] {
      assert s + t == t;
    } else {
      InRangeAppend(s[1..], t, since, upTo);
      assert (s + t)[1..] == s[1..] + t;
      ConcatAssoc(if Within(s[0], since, upTo) then [s[0]] else [], InRange(s[1..], since, upTo), InRange(t, since, upTo));
    }
  }

  lemma {:induction false} InRangeAll(s: seq<Change>, since: Option<nat>, upTo: nat)
    requires forall i :: 0 <= i < |s| ==> Within(s[i], since, upTo)
    ensures InRange(s, since, upTo) == s
  {
    if s != [] {
      InRangeAll(s[1..], since, upTo);
      assert s == [s[0]] + s[1..];
    }
  }

  lemma {:induction false} InRangeNone(s: seq<Change>, since: Option<nat>, upTo: nat)
    requires forall i :: 0 <= i < |s| ==> !Within(s[i], since, upTo)
    ensures InRange(s, since, upTo) == []
  {
    if s != [] {
      InRangeNone(s[1..], since, upTo);
    }
  }

  /** Number of leading changes up to a block. */
  function CountUpTo(s: seq<Change>, block: nat): (n: nat)
    ensures n <= |s| && (n < |s| ==> block < s[n].block)
    ensures forall i :: 0 <= i < n ==> s[i].block <= block
  {
    if s == [] || block < s[0].block then 0 else 1 + CountUpTo(s[1..], block)
  }

  lemma InRangeMiddle(x: seq<Change>, y: seq<Change>, z: seq<Change>, since: Option<nat>, upTo: nat)
    requires forall i :: 0 <= i < |x| ==> !Within(x[i], since, upTo)
    requires forall i :: 0 <= i < |y| ==> Within(y[i], since, upTo)
    requires forall i :: 0 <= i < |z| ==> !Within(z[i], since, upTo)
    ensures InRange(x + y + z, since, upTo) == y
  {
    InRangeNone(x, since, upTo);
    InRangeAll(y, since, upTo);
    InRangeNone(z, since, upTo);
    InRangeAppend(x + y, z, since, upTo);
    InRangeAppend(x, y, since, upTo);
  }

  lemma InRangeSlice(s: seq<Change>, since: Option<nat>, upTo: nat, a: nat, b: nat)
    requires a <= b <= |s| && forall i :: 0 <= i < |s| ==> (a <= i < b <==> Within(s[i], since, upTo))
    ensures InRange(s, since, upTo) == s[a..b]
  {
    var x, y, z := s[..a], s[a..b], s[b..];
    SplitInThree(s, a, b);
    InRangeMiddle(x, y, z, since, upTo);
  }

  lemma SplitInThree<T>(s: seq<T>, a: nat, b: nat)
    requires a <= b <= |s|
    ensures s == s[..a] + s[a..b] + s[b..]
  {
    assert s[..b] == s[..a] + s[a..b];
  }

  lemma CountedAreUpTo(s: seq<Change>, block: nat, i: nat)
    requires Ordered(s) && i < |s|
    ensures i < CountUpTo(s, block) <==> s[i].block <= block
  {
    var n := CountUpTo(s, block);
    if n < i {
      assert s[n].block <= s[i].block;
    }
  }

  lemma CountGrows(s: seq<Change>, since: nat, upTo: nat)
    requires since <= upTo
    ensures CountUpTo(s, since) <= CountUpTo(s, upTo)
  {
    if s != [] && s[0].block <= since {
      CountGrows(s[1..], since, upTo);
    }
  }

  /** In an ordered stream a range of blocks is one slice. */
  lemma RangeIsSlice(s: seq<Change>, since: nat, upTo: nat) returns (a: nat, b: nat)
    requires Ordered(s) && since <= upTo
    ensures a <= b <= |s| && InRange(s, Some(since), upTo) == s[a..b]
    ensures forall i :: 0 <= i < |s| ==> (a <= i < b <==> Within(s[i], Some(since), upTo))
  {
    a, b := CountUpTo(s, since), CountUpTo(s, upTo);
    CountGrows(s, since, upTo);
    forall i | 0 <= i < |s| ensures a <= i < b <==> Within(s[i], Some(since), upTo) {
      CountedAreUpTo(s, since, i);
      CountedAreUpTo(s, upTo, i);
    }
    InRangeSlice(s, Some(since), upTo, a, b);
  }
}
