/** Block participation data and its canonical order, which lets every node compute the same inherent
    from hash maps iterated in any order. */
module ParticipationOrder {
  import opened Prelude
  import opened Sorting
  import opened Permutation

  datatype Delegator<D> = Delegator(id: D, share: nat)

  datatype Production<P, D> = Production(
    producer: P, blockCount: nat, totalShares: nat, delegators: seq<Delegator<D>>)

  datatype ProductionData<P, D> = ProductionData(upToSlot: nat, participation: seq<Production<P, D>>)

  /** The derived orders: fields in declaration order, sequences lexicographically. */
  predicate DelegatorLe<D(==)>(leD: (D, D) -> bool, a: Delegator<D>, b: Delegator<D>) {
    if a.id != b.id then leD(a.id, b.id) else a.share <= b.share
  }

  predicate DelegatorsLe<D(==)>(leD: (D, D) -> bool, s: seq<Delegator<D>>, t: seq<Delegator<D>>)
    decreases |s|
  {
    if s == [] then true
    else if t == [] then false
    else if s[0] != t[0] then DelegatorLe(leD, s[0], t[0])
    else DelegatorsLe(leD, s[1..], t[1..])
  }

  predicate ProductionLe<P(==), D(==)>(
    leP: (P, P) -> bool, leD: (D, D) -> bool, a: Production<P, D>, b: Production<P, D>)
  {
    if a.producer != b.producer then leP(a.producer, b.producer)
    else if a.blockCount != b.blockCount then a.blockCount < b.blockCount
    else if a.totalShares != b.totalShares then a.totalShares < b.totalShares
    else DelegatorsLe(leD, a.delegators, b.delegators)
  }

  function DelegatorOrder<D(==)>(leD: (D, D) -> bool): (Delegator<D>, Delegator<D>) -> bool {
    (a: Delegator<D>, b: Delegator<D>) => DelegatorLe(leD, a, b)
  }

  function ProductionOrder<P(==), D(==)>(leP: (P, P) -> bool, leD: (D, D) -> bool)
    : (Production<P, D>, Production<P, D>) -> bool
  {
    (a: Production<P, D>, b: Production<P, D>) => ProductionLe(leP, leD, a, b)
  }

  lemma DelegatorOrderTotal<D(!new)>(leD: (D, D) -> bool)
    requires TotalOrder(leD)
    ensures TotalOrder(DelegatorOrder(leD))
  {
    var le := DelegatorOrder(leD);
    forall x, y ensures le(x, y) || le(y, x) {
      assert leD(x.id, y.id) || leD(y.id, x.id);
    }
    forall x, y, z | le(x, y) && le(y, z) ensures le(x, z) {
      assert leD(x.id, y.id) || x.id == y.id;
    }
  }

  lemma {:induction false} DelegatorsTotal<D(!new)>(leD: (D, D) -> bool, s: seq<Delegator<D>>, t: seq<Delegator<D>>)
    requires TotalOrder(leD)
    ensures DelegatorsLe(leD, s, t) || DelegatorsLe(leD, t, s)
    ensures DelegatorsLe(leD, s, t) && DelegatorsLe(leD, t, s) ==> s == t
    decreases |s|
  {
    if s != [] && t != [] {
      if s[0] == t[0] {
        DelegatorsTotal(leD, s[1..], t[1..]);
        assert s == [s[0]] + s[1..] && t == [t[0]] + t[1..];
      } else {
        DelegatorOrderTotal(leD);
        var le := DelegatorOrder(leD);
        assert (le(s[0], t[0]) || le(t[0], s[0])) && !(le(s[0], t[0]) && le(t[0], s[0]));
      }
    }
  }

  lemma {:induction false} DelegatorsTrans<D(!new)>(
    leD: (D, D) -> bool, s: seq<Delegator<D>>, t: seq<Delegator<D>>, u: seq<Delegator<D>>)
    requires TotalOrder(leD) && DelegatorsLe(leD, s, t) && DelegatorsLe(leD, t, u)
    ensures DelegatorsLe(leD, s, u)
    decreases |s|
  {
    if s != [] {
      if s[0] == t[0] == u[0] {
        DelegatorsTrans(leD, s[1..], t[1..], u[1..]);
      } else {
        DelegatorOrderTotal(leD);
        var le := DelegatorOrder(leD);
        assert le(s[0], t[0]) && le(t[0], u[0]) by {
          assert le(s[0], s[0]) && le(t[0], t[0]);
        }
        assert le(s[0], u[0]);
      }
    }
  }

  lemma ProductionOrderTotal<P(!new), D(!new)>(leP: (P, P) -> bool, leD: (D, D) -> bool)
    requires TotalOrder(leP) && TotalOrder(leD)
    ensures TotalOrder(ProductionOrder(leP, leD))
  {
    var le := ProductionOrder(leP, leD);
    forall x, y ensures (le(x, y) || le(y, x)) && (le(x, y) && le(y, x) ==> x == y) {
      DelegatorsTotal(leD, x.delegators, y.delegators);
      assert leP(x.producer, y.producer) || leP(y.producer, x.producer);
    }
    forall x, y, z | le(x, y) && le(y, z) ensures le(x, z) {
      if x.producer == y.producer == z.producer && x.blockCount == y.blockCount == z.blockCount
         && x.totalShares == y.totalShares == z.totalShares {
        DelegatorsTrans(leD, x.delegators, y.delegators, z.delegators);
      }
      assert x.producer == y.producer || leP(x.producer, y.producer);
      assert y.producer == z.producer || leP(y.producer, z.producer);
    }
  }

  /** Entries are compared by producer, then block count, then total shares, then delegators. */
  lemma ComparedByFields<P(!new), D>(leP: (P, P) -> bool, leD: (D, D) -> bool, a: Production<P, D>, b: Production<P, D>)
    requires TotalOrder(leP)
    ensures ProductionOrder(leP, leD)(a, b) <==>
      && leP(a.producer, b.producer)
      && (a.producer == b.producer ==> a.blockCount <= b.blockCount)
      && (a.producer == b.producer && a.blockCount == b.blockCount ==> a.totalShares <= b.totalShares)
      && (a.producer == b.producer && a.blockCount == b.blockCount && a.totalShares == b.totalShares ==>
            DelegatorsLe(leD, a.delegators, b.delegators))
  {
    assert leP(a.producer, a.producer) || leP(a.producer, a.producer);
  }

  /** The first difference is at `i`, and there `s` is the smaller one. */
  ghost predicate SmallerAt<D>(leD: (D, D) -> bool, s: seq<Delegator<D>>, t: seq<Delegator<D>>, i: nat) {
    && i < |s| && i < |t| && s[..i] == t[..i] && s[i] != t[i]
    && if s[i].id == t[i].id then s[i].share < t[i].share else leD(s[i].id, t[i].id)
  }

  lemma SmallerAtNext<D>(leD: (D, D) -> bool, s: seq<Delegator<D>>, t: seq<Delegator<D>>, i: nat)
    requires s != [] && t != [] && s[0] == t[0]
    ensures SmallerAt(leD, s, t, i + 1) <==> SmallerAt(leD, s[1..], t[1..], i)
    ensures !SmallerAt(leD, s, t, 0)
  {
    if i < |s[1..]| && i < |t[1..]| {
      assert s[..i + 1] == [s[0]] + s[1..][..i] && t[..i + 1] == [t[0]] + t[1..][..i];
      assert s[1..][..i] == s[..i + 1][1..] && t[1..][..i] == t[..i + 1][1..];
    }
  }

  lemma SmallerAtHead<D>(leD: (D, D) -> bool, s: seq<Delegator<D>>, t: seq<Delegator<D>>, i: nat)
    requires s != [] && t != [] && s[0] != t[0]
    ensures SmallerAt(leD, s, t, i) <==>
      i == 0 && if s[0].id == t[0].id then s[0].share < t[0].share else leD(s[0].id, t[0].id)
  {
    if 0 < i <= |s| && i <= |t| {
      assert s[..i][0] == s[0] && t[..i][0] == t[0];
    }
  }

  /** Delegators are compared at the first difference, by id and then share; a prefix comes first. */
  lemma {:induction false} ComparedAtFirstDifference<D>(leD: (D, D) -> bool, s: seq<Delegator<D>>, t: seq<Delegator<D>>)
    ensures DelegatorsLe(leD, s, t) <==> s <= t || exists i: nat :: SmallerAt(leD, s, t, i)
    decreases |s|
  {
    if s != [] && t != [] {
      if s[0] == t[0] {
        ComparedAtFirstDifference(leD, s[1..], t[1..]);
        assert s == [s[0]] + s[1..] && t == [t[0]] + t[1..];
        if i: nat :| SmallerAt(leD, s[1..], t[1..], i) {
          SmallerAtNext(leD, s, t, i);
        }
        if i: nat :| SmallerAt(leD, s, t, i) {
          SmallerAtNext(leD, s, t, if i == 0 then 0 else i - 1);
        }
      } else {
        SmallerAtHead(leD, s, t, 0);
        if i: nat :| SmallerAt(leD, s, t, i) {
          SmallerAtHead(leD, s, t, i);
        }
      }
    }
  }

  function SortOne<P, D(==)>(leD: (D, D) -> bool, e: Production<P, D>): Production<P, D> {
    e.(delegators := Sort(DelegatorOrder(leD), e.delegators))
  }

  function SortEach<P, D(==)>(leD: (D, D) -> bool, es: seq<Production<P, D>>): (r: seq<Production<P, D>>)
    ensures |r| == |es| && forall i :: 0 <= i < |es| ==> r[i] == SortOne(leD, es[i])
  {
    if es == [] then [] else [SortOne(leD, es[0])] + SortEach(leD, es[1..])
  }

  /** Delegators sorted within each entry first, then the entries. */
  function Canonical<P(==), D(==)>(
    leP: (P, P) -> bool, leD: (D, D) -> bool, upTo: nat, es: seq<Production<P, D>>): ProductionData<P, D>
  {
    ProductionData(upTo, Sort(ProductionOrder(leP, leD), SortEach(leD, es)))
  }

  method NewProductionData<P(==), D(==)>(
    leP: (P, P) -> bool, leD: (D, D) -> bool, upTo: nat, entries: seq<Production<P, D>>)
    returns (data: ProductionData<P, D>)
    ensures data == Canonical(leP, leD, upTo, entries)
  {
    var es := entries;
    for i := 0 to |es|
      invariant |es| == |entries|
      invariant forall j :: 0 <= j < |es| ==> es[j] == if j < i then SortOne(leD, entries[j]) else entries[j]
    {
      es := es[i := es[i].(delegators := Sort(DelegatorOrder(leD), es[i].delegators))];
    }
    assert es == SortEach(leD, entries);
    data := ProductionData(upTo, Sort(ProductionOrder(leP, leD), es));
  }

  /** Entries come out in order, and so do the delegators of each. */
  lemma CanonicalIsSorted<P(!new), D(!new)>(
    leP: (P, P) -> bool, leD: (D, D) -> bool, upTo: nat, es: seq<Production<P, D>>)
    requires TotalOrder(leP) && TotalOrder(leD)
    ensures
      var data := Canonical(leP, leD, upTo, es);
      && data.upToSlot == upTo && SortedBy(ProductionOrder(leP, leD), data.participation)
      && forall e :: e in data.participation ==> SortedBy(DelegatorOrder(leD), e.delegators)
  {
    var le, each := ProductionOrder(leP, leD), SortEach(leD, es);
    ProductionOrderTotal(leP, leD);
    DelegatorOrderTotal(leD);
    SortSorts(le, each);
    SortPermutes(le, each);
    forall e | e in Sort(le, each) ensures SortedBy(DelegatorOrder(leD), e.delegators) {
      assert e in multiset(Sort(le, each));
      assert e in multiset(each);
      var i :| 0 <= i < |each| && each[i] == e;
      SortSorts(DelegatorOrder(leD), es[i].delegators);
    }
  }

  /** Same entries, each with its delegators in some other order. */
  ghost predicate InnerPermuted<P, D>(es: seq<Production<P, D>>, fs: seq<Production<P, D>>) {
    && |fs| == |es|
    && forall i :: 0 <= i < |es| ==>
         && fs[i] == es[i].(delegators := fs[i].delegators)
         && multiset(fs[i].delegators) == multiset(es[i].delegators)
  }

  /** The lists differ only in the order of entries and of each entry's delegators. */
  ghost predicate Rearranged<P(!new), D(!new)>(es: seq<Production<P, D>>, fs: seq<Production<P, D>>) {
    exists es', fs' :: InnerPermuted(es, es') && InnerPermuted(fs, fs') && multiset(es') == multiset(fs')
  }

  lemma SortEachForgetsOrder<P(!new), D(!new)>(
    leD: (D, D) -> bool, es: seq<Production<P, D>>, fs: seq<Production<P, D>>)
    requires TotalOrder(leD) && InnerPermuted(es, fs)
    ensures SortEach(leD, es) == SortEach(leD, fs)
  {
    DelegatorOrderTotal(leD);
    forall i | 0 <= i < |es| ensures SortOne(leD, es[i]) == SortOne(leD, fs[i]) {
      SortCanonical(DelegatorOrder(leD), es[i].delegators, fs[i].delegators);
    }
  }

  lemma SortEachPermutes<P, D>(leD: (D, D) -> bool, es: seq<Production<P, D>>)
    ensures InnerPermuted(es, SortEach(leD, es))
  {
    forall i | 0 <= i < |es|
      ensures multiset(SortEach(leD, es)[i].delegators) == multiset(es[i].delegators)
    {
      SortPermutes(DelegatorOrder(leD), es[i].delegators);
    }
  }

  /** Two nodes build equal data exactly when their lists differ in order only: the canonical form
      forgets every iteration order and nothing else. */
  lemma CanonicalIffRearranged<P(!new), D(!new)>(
    leP: (P, P) -> bool, leD: (D, D) -> bool, upTo: nat, es: seq<Production<P, D>>, fs: seq<Production<P, D>>)
    requires TotalOrder(leP) && TotalOrder(leD)
    ensures Canonical(leP, leD, upTo, es) == Canonical(leP, leD, upTo, fs) <==> Rearranged(es, fs)
  {
    ProductionOrderTotal(leP, leD);
    var le := ProductionOrder(leP, leD);
    var a, b := SortEach(leD, es), SortEach(leD, fs);
    if Canonical(leP, leD, upTo, es) == Canonical(leP, leD, upTo, fs) {
      SortPermutes(le, a);
      SortPermutes(le, b);
      SortEachPermutes(leD, es);
      SortEachPermutes(leD, fs);
      assert InnerPermuted(es, a) && InnerPermuted(fs, b) && multiset(a) == multiset(b);
    }
    if Rearranged(es, fs) {
      var es', fs' :| InnerPermuted(es, es') && InnerPermuted(fs, fs') && multiset(es') == multiset(fs');
      SortEachForgetsOrder(leD, es, es');
      SortEachForgetsOrder(leD, fs, fs');
      ImagesPermute(es', a, fs', b);
      SortCanonical(le, a, b);
    }
  }
}
