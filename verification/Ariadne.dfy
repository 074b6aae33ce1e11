/** Ariadne v2 committee selection: guaranteed seats by integer share, the rest by weighted draws. */
module Ariadne {
  import opened Prelude
  import opened Sorting
  import opened Permutation

  datatype Weighted<T> = Weighted(item: T, weight: nat)

  /** The i-th value drawn by the seeded generator below a positive bound. */
  type Draws = (nat, nat) -> nat

  ghost predicate InBounds(draw: Draws) {
    forall i: nat, bound: nat :: 0 < bound ==> draw(i, bound) < bound
  }

  function Total<T>(cs: seq<Weighted<T>>): nat {
    if cs == [] then 0 else cs[0].weight + Total(cs[1..])
  }

  /** Whole part of a candidate's expected seats. */
  function Quota(weight: nat, n: nat, total: nat): nat {
    if total == 0 then 0 else weight * n / total
  }

  function Remainder(weight: nat, n: nat, total: nat): nat {
    if total == 0 then 0 else weight * n % total
  }

  function Guaranteed<T>(cs: seq<Weighted<T>>, n: nat, total: nat): seq<T> {
    if cs == [] then []
    else Repeat(cs[0].item, Quota(cs[0].weight, n, total)) + Guaranteed(cs[1..], n, total)
  }

  function Remaining<T>(cs: seq<Weighted<T>>, n: nat, total: nat): seq<Weighted<T>> {
    if cs == [] then []
    else
      var r := Remainder(cs[0].weight, n, total);
      (if 0 < r then [Weighted(cs[0].item, r)] else []) + Remaining(cs[1..], n, total)
  }

  /** Candidate chosen by a draw: the one whose slice of the line of weights contains it. */
  function Pick<T>(cs: seq<Weighted<T>>, r: nat): (i: nat)
    requires r < Total(cs)
    ensures i < |cs|
  {
    if r < cs[0].weight then 0 else 1 + Pick(cs[1..], r - cs[0].weight)
  }

  function Drawn<T>(cs: seq<Weighted<T>>, draw: Draws, n: nat): (r: seq<T>)
    requires cs == [] || 0 < Total(cs)
    requires InBounds(draw)
    ensures |r| == if cs == [] then 0 else n
  {
    if cs == [] then [] else seq(n, k requires 0 <= k < n => cs[Pick(cs, draw(k, Total(cs)))].item)
  }

  // ----- Arithmetic of guaranteed seats -----

  lemma TotalAppend<T>(a: seq<Weighted<T>>, b: seq<Weighted<T>>)
    ensures Total(a + b) == Total(a) + Total(b)
  {
    if a == [] {
      assert a + b == b;
    } else {
      TotalAppend(a[1..], b);
      assert (a + b)[1..] == a[1..] + b;
    }
  }

  lemma Division(x: nat, d: nat)
    requires 0 < d
    ensures x == d * (x / d) + x % d
  {
  }

  lemma BalanceStep(w: nat, n: nat, total: nat, seats: nat, left: nat, weight: nat)
    requires 0 < total && total * seats + left == weight * n
    ensures total * (Quota(w, n, total) + seats) + (Remainder(w, n, total) + left) == (w + weight) * n
  {
    var q := Quota(w, n, total);
    Division(w * n, total);
    assert total * (q + seats) == total * q + total * seats;
    assert (w + weight) * n == w * n + weight * n;
  }

  /** Seats and leftover weight together are exactly the scaled weights. */
  lemma {:induction false} SeatsBalance<T>(cs: seq<Weighted<T>>, n: nat, total: nat)
    requires 0 < total
    ensures total * |Guaranteed(cs, n, total)| + Total(Remaining(cs, n, total)) == Total(cs) * n
  {
    if cs == [] {
      assert total * 0 == 0;
    } else {
      var w, tail := cs[0].weight, cs[1..];
      SeatsBalance(tail, n, total);
      BalanceStep(w, n, total, |Guaranteed(tail, n, total)|, Total(Remaining(tail, n, total)), Total(tail));
      var r := Remainder(w, n, total);
      var head := if 0 < r then [Weighted(cs[0].item, r)] else [];
      TotalAppend(head, Remaining(tail, n, total));
      assert Total(head) == r;
      assert |Guaranteed(cs, n, total)| == Quota(w, n, total) + |Guaranteed(tail, n, total)|;
    }
  }

  lemma BalanceBounds(total: nat, seats: nat, left: nat, n: nat)
    requires 0 < total && total * seats + left == total * n
    ensures seats <= n && (seats < n <==> 0 < left)
  {
    if n < seats {
      TimesGap(total, n, seats);
    } else if seats < n {
      TimesGap(total, seats, n);
    }
  }

  lemma TimesGap(t: nat, a: nat, b: nat)
    requires a < b
    ensures t * a + t <= t * b
  {
    assert t * b == t * a + t * (b - a);
    assert t * (b - a) == t + t * (b - a - 1);
  }

  /** Guaranteed seats never exceed the committee, and seats left over leave candidates to draw from. */
  lemma SeatsFit<T>(cs: seq<Weighted<T>>, n: nat)
    requires 0 < Total(cs)
    ensures |Guaranteed(cs, n, Total(cs))| <= n
    ensures |Guaranteed(cs, n, Total(cs))| < n <==> Remaining(cs, n, Total(cs)) != []
  {
    SeatsBalance(cs, n, Total(cs));
    RemainingPositive(cs, n, Total(cs));
    BalanceBounds(Total(cs), |Guaranteed(cs, n, Total(cs))|, Total(Remaining(cs, n, Total(cs))), n);
  }

  lemma {:induction false} RemainingPositive<T>(cs: seq<Weighted<T>>, n: nat, total: nat)
    ensures forall c :: c in Remaining(cs, n, total) ==> 0 < c.weight
    ensures Remaining(cs, n, total) != [] ==> 0 < Total(Remaining(cs, n, total))
  {
    if cs != [] {
      RemainingPositive(cs[1..], n, total);
    }
  }

  lemma {:induction false} NothingFromNothing<T>(cs: seq<Weighted<T>>, n: nat)
    ensures Guaranteed(cs, n, 0) == [] && Remaining(cs, n, 0) == []
  {
    if cs != [] {
      NothingFromNothing(cs[1..], n);
    }
  }

  // ----- Draws -----

  /** A draw selects candidate `i` exactly for the values in the i-th slice, which is as long as its
      weight: each candidate is drawn in exact proportion. */
  lemma {:induction false} PickIff<T>(cs: seq<Weighted<T>>, r: nat, i: nat)
    requires r < Total(cs) && i < |cs|
    ensures Pick(cs, r) == i <==> Total(cs[..i]) <= r < Total(cs[..i]) + cs[i].weight
  {
    if i == 0 {
      assert cs[..0] == [];
    } else {
      assert cs[..i] == [cs[0]] + cs[1..][..i - 1];
      TotalAppend([cs[0]], cs[1..][..i - 1]);
      assert Total([cs[0]]) == cs[0].weight;
      if cs[0].weight <= r {
        PickIff(cs[1..], r - cs[0].weight, i - 1);
      }
    }
  }

  /** `x` is the candidate whose slice of the cumulative weights holds `r`. */
  ghost predicate SeatFor<T>(cs: seq<Weighted<T>>, r: nat, x: T) {
    exists i :: 0 <= i < |cs| && Total(cs[..i]) <= r < Total(cs[..i + 1]) && x == cs[i].item
  }

  lemma TotalUpTo<T>(cs: seq<Weighted<T>>, i: nat)
    requires i < |cs|
    ensures Total(cs[..i + 1]) == Total(cs[..i]) + cs[i].weight
  {
    assert cs[..i + 1] == cs[..i] + [cs[i]];
    TotalAppend(cs[..i], [cs[i]]);
    assert [cs[i]][1..] == [];
  }

  lemma PickedSeat<T>(cs: seq<Weighted<T>>, r: nat)
    requires r < Total(cs)
    ensures SeatFor(cs, r, cs[Pick(cs, r)].item)
  {
    var i := Pick(cs, r);
    PickIff(cs, r, i);
    TotalUpTo(cs, i);
  }

  /** Drawn seat `k` goes to the candidate whose slice holds the `k`-th draw. */
  lemma DrawnSeats<T>(cs: seq<Weighted<T>>, draw: Draws, n: nat)
    requires InBounds(draw) && (cs == [] || 0 < Total(cs))
    ensures forall k :: 0 <= k < |Drawn(cs, draw, n)| ==> SeatFor(cs, draw(k, Total(cs)), Drawn(cs, draw, n)[k])
  {
    forall k | 0 <= k < |Drawn(cs, draw, n)| ensures SeatFor(cs, draw(k, Total(cs)), Drawn(cs, draw, n)[k]) {
      PickedSeat(cs, draw(k, Total(cs)));
    }
  }

  function Interval(lo: nat, hi: nat): (s: set<nat>)
    ensures forall r :: r in s <==> lo <= r < hi
    ensures |s| == if lo <= hi then hi - lo else 0
  {
    if hi <= lo then {} else Interval(lo, hi - 1) + {hi - 1}
  }

  lemma TotalAround<T>(cs: seq<Weighted<T>>, i: nat)
    requires i < |cs|
    ensures Total(cs) == Total(cs[..i]) + cs[i].weight + Total(cs[i + 1..])
  {
    assert cs == cs[..i] + cs[i..] && cs[i..][1..] == cs[i + 1..];
    TotalAppend(cs[..i], cs[i..]);
  }

  /** All possible draws that select candidate `i`. */
  ghost function DrawsOf<T>(cs: seq<Weighted<T>>, i: nat): set<nat> {
    set r | r in Interval(0, Total(cs)) && Pick(cs, r) == i
  }

  lemma DrawsOfIff<T>(cs: seq<Weighted<T>>, i: nat, r: nat)
    requires i < |cs|
    ensures r in DrawsOf(cs, i) <==> Total(cs[..i]) <= r < Total(cs[..i]) + cs[i].weight
  {
    TotalAround(cs, i);
    if r < Total(cs) {
      PickIff(cs, r, i);
    }
  }

  /** Among all possible draws, candidate `i` is selected by as many as its weight says. */
  lemma DrawsAreProportional<T>(cs: seq<Weighted<T>>, i: nat)
    requires i < |cs|
    ensures |DrawsOf(cs, i)| == cs[i].weight
  {
    var lo, w := Total(cs[..i]), cs[i].weight;
    var slice, chosen := Interval(lo, lo + w), DrawsOf(cs, i);
    forall r: nat ensures r in chosen <==> r in slice {
      DrawsOfIff(cs, i, r);
    }
    SameElementsSameSet(chosen, slice);
  }

  lemma SameElementsSameSet(a: set<nat>, b: set<nat>)
    requires forall r: nat :: r in a <==> r in b
    ensures a == b
  {
  }

  // ----- The selection -----

  function WeightedSelect<T>(le: (Weighted<T>, Weighted<T>) -> bool, cs: seq<Weighted<T>>, n: nat, draw: Draws): seq<T>
    requires InBounds(draw)
  {
    if cs == [] || n == 0 then []
    else
      var sorted := Sort(le, cs);
      var total := Total(sorted);
      var selected := Guaranteed(sorted, n, total);
      RemainingPositive(sorted, n, total);
      if |selected| > n then selected
      else selected + Drawn(Remaining(sorted, n, total), draw, n - |selected|)
  }

  /** Seats a candidate is promised: the sum of its entries' whole expected seats. */
  function Promised<T(==)>(cs: seq<Weighted<T>>, n: nat, total: nat, x: T): nat {
    if cs == [] then 0
    else (if cs[0].item == x then Quota(cs[0].weight, n, total) else 0) + Promised(cs[1..], n, total, x)
  }

  function Promises<T(==)>(cs: seq<Weighted<T>>, n: nat, total: nat, x: T): (r: seq<int>)
    ensures |r| == |cs| && Sum(r) == Promised(cs, n, total, x)
    ensures forall i :: 0 <= i < |cs| ==> r[i] == if cs[i].item == x then Quota(cs[i].weight, n, total) else 0
  {
    if cs == [] then []
    else [if cs[0].item == x then Quota(cs[0].weight, n, total) else 0] + Promises(cs[1..], n, total, x)
  }

  function Weights<T>(cs: seq<Weighted<T>>): (r: seq<int>)
    ensures |r| == |cs| && Sum(r) == Total(cs)
    ensures forall i :: 0 <= i < |cs| ==> r[i] == cs[i].weight
  {
    if cs == [] then [] else [cs[0].weight] + Weights(cs[1..])
  }

  lemma TotalPermutes<T>(a: seq<Weighted<T>>, b: seq<Weighted<T>>)
    requires multiset(a) == multiset(b)
    ensures Total(a) == Total(b)
  {
    ImagesPermute(a, Weights(a), b, Weights(b));
    SumPermutes(Weights(a), Weights(b));
  }

  lemma PromisedPermutes<T>(a: seq<Weighted<T>>, b: seq<Weighted<T>>, n: nat, total: nat, x: T)
    requires multiset(a) == multiset(b)
    ensures Promised(a, n, total, x) == Promised(b, n, total, x)
  {
    ImagesPermute(a, Promises(a, n, total, x), b, Promises(b, n, total, x));
    SumPermutes(Promises(a, n, total, x), Promises(b, n, total, x));
  }

  lemma {:induction false} RepeatCount<T>(y: T, n: nat, x: T)
    ensures multiset(Repeat(y, n))[x] == if x == y then n else 0
  {
    if 0 < n {
      RepeatCount(y, n - 1, x);
      assert Repeat(y, n) == Repeat(y, n - 1) + [y];
    }
  }

  lemma {:induction false} GuaranteedKeepsPromise<T>(cs: seq<Weighted<T>>, n: nat, total: nat, x: T)
    ensures multiset(Guaranteed(cs, n, total))[x] == Promised(cs, n, total, x)
  {
    if cs != [] {
      GuaranteedKeepsPromise(cs[1..], n, total, x);
      RepeatCount(cs[0].item, Quota(cs[0].weight, n, total), x);
    }
  }

  /** The committee has exactly the requested size unless every weight is zero. */
  lemma SelectionSize<T>(le: (Weighted<T>, Weighted<T>) -> bool, cs: seq<Weighted<T>>, n: nat, draw: Draws)
    requires InBounds(draw)
    ensures |WeightedSelect(le, cs, n, draw)| == if Total(cs) == 0 then 0 else n
  {
    if cs != [] && n != 0 {
      var sorted := Sort(le, cs);
      SortPermutes(le, cs);
      TotalPermutes(sorted, cs);
      if Total(cs) == 0 {
        NothingFromNothing(sorted, n);
      } else {
        SeatsFit(sorted, n);
      }
    }
  }

  /** Every candidate gets at least the whole part of its expected number of seats. */
  lemma SelectionKeepsPromise<T>(
    le: (Weighted<T>, Weighted<T>) -> bool, cs: seq<Weighted<T>>, n: nat, draw: Draws, x: T)
    requires InBounds(draw)
    ensures multiset(WeightedSelect(le, cs, n, draw))[x] >= Promised(cs, n, Total(cs), x)
  {
    if cs == [] || n == 0 {
      NoSeatsNoPromise(cs, Total(cs), x);
    } else {
      var sorted := Sort(le, cs);
      SortPermutes(le, cs);
      TotalPermutes(sorted, cs);
      PromisedPermutes(sorted, cs, n, Total(cs), x);
      GuaranteedKeepsPromise(sorted, n, Total(cs), x);
    }
  }

  lemma {:induction false} NoSeatsNoPromise<T>(cs: seq<Weighted<T>>, total: nat, x: T)
    ensures Promised(cs, 0, total, x) == 0
  {
    if cs != [] {
      NoSeatsNoPromise(cs[1..], total, x);
    }
  }

  /** Whole seats of all candidates together. */
  function WholeSeats<T>(cs: seq<Weighted<T>>, n: nat, total: nat): nat
    requires 0 < total
  {
    if cs == [] then 0 else cs[0].weight * n / total + WholeSeats(cs[1..], n, total)
  }

  lemma {:induction false} GuaranteedCount<T>(cs: seq<Weighted<T>>, n: nat, total: nat)
    requires 0 < total
    ensures |Guaranteed(cs, n, total)| == WholeSeats(cs, n, total)
  {
    if cs != [] {
      GuaranteedCount(cs[1..], n, total);
    }
  }

  function LeftOver<T>(n: nat, total: nat): Weighted<T> -> bool
    requires 0 < total
  {
    (c: Weighted<T>) => 0 < c.weight * n % total
  }

  function Leftover<T>(c: Weighted<T>, n: nat, total: nat): seq<Weighted<T>> {
    if 0 < Remainder(c.weight, n, total) then [Weighted(c.item, Remainder(c.weight, n, total))] else []
  }

  /** What is drawn from: the candidates with a fraction of a seat left, in order, weighted by it. */
  lemma {:induction false} LeftoversInOrder<T>(cs: seq<Weighted<T>>, n: nat, total: nat)
    requires 0 < total
    ensures
      var ix, rem := Hits(LeftOver(n, total), cs), Remaining(cs, n, total);
      && |rem| == |ix|
      && forall i :: 0 <= i < |ix| ==> rem[i].item == cs[ix[i]].item && rem[i].weight == cs[ix[i]].weight * n % total
  {
    var f: Weighted<T> -> seq<Weighted<T>> := c => Leftover(c, n, total);
    RemainingFlatMap(cs, n, total, f);
    FlatMapInOrder(f, LeftOver(n, total), cs);
    var ix, rem := Hits(LeftOver(n, total), cs), Remaining(cs, n, total);
    forall i | 0 <= i < |ix| ensures rem[i].item == cs[ix[i]].item && rem[i].weight == cs[ix[i]].weight * n % total {
      assert [rem[i]] == f(cs[ix[i]]);
      assert [rem[i]][0] == rem[i];
    }
  }

  lemma {:induction false} RemainingFlatMap<T>(
    cs: seq<Weighted<T>>, n: nat, total: nat, f: Weighted<T> -> seq<Weighted<T>>)
    requires forall c :: f(c) == Leftover(c, n, total)
    ensures Remaining(cs, n, total) == FlatMap(f, cs)
  {
    if cs != [] {
      RemainingFlatMap(cs[1..], n, total, f);
    }
  }

  /** The selection, seat by seat: first the whole seats, and then drawn seat `k` by the `k`-th draw from the
      left-over fractions of the sorted candidates. */
  lemma SelectionSeats<T>(le: (Weighted<T>, Weighted<T>) -> bool, cs: seq<Weighted<T>>, n: nat, draw: Draws)
    requires InBounds(draw) && 0 < Total(cs) && 0 < n
    ensures Total(Sort(le, cs)) == Total(cs)
    ensures
      var selection, sorted := WeightedSelect(le, cs, n, draw), Sort(le, cs);
      var g, rem := WholeSeats(sorted, n, Total(cs)), Remaining(sorted, n, Total(cs));
      && g <= n && |selection| == n && selection[..g] == Guaranteed(sorted, n, Total(cs))
      && forall k :: 0 <= k < n - g ==> SeatFor(rem, draw(k, Total(rem)), selection[g + k])
  {
    var sorted := Sort(le, cs);
    SortPermutes(le, cs);
    TotalPermutes(sorted, cs);
    SeatsFit(sorted, n);
    GuaranteedCount(sorted, n, Total(cs));
    var rem, selected := Remaining(sorted, n, Total(cs)), Guaranteed(sorted, n, Total(cs));
    RemainingPositive(sorted, n, Total(cs));
    DrawnSeats(rem, draw, n - |selected|);
  }

  /** Whole seat `j` goes to the candidate whose slice of the cumulative whole seats holds `j`. */
  lemma {:induction false} GuaranteedSeat<T>(cs: seq<Weighted<T>>, n: nat, total: nat, j: nat) returns (i: nat)
    requires 0 < total && j < |Guaranteed(cs, n, total)|
    ensures i < |cs| && Guaranteed(cs, n, total)[j] == cs[i].item
    ensures WholeSeats(cs[..i], n, total) <= j < WholeSeats(cs[..i], n, total) + cs[i].weight * n / total
  {
    var q := cs[0].weight * n / total;
    if j < q {
      i := 0;
    } else {
      var m := GuaranteedSeat(cs[1..], n, total, j - q);
      i := m + 1;
      assert cs[..i] == [cs[0]] + cs[1..][..m];
      assert ([cs[0]] + cs[1..][..m])[1..] == cs[1..][..m];
    }
  }

  /** The selection does not depend on the order in which candidates are listed. */
  lemma SelectionIgnoresOrder<T(!new)>(
    le: (Weighted<T>, Weighted<T>) -> bool, cs: seq<Weighted<T>>, ds: seq<Weighted<T>>, n: nat, draw: Draws)
    requires InBounds(draw) && TotalOrder(le) && multiset(cs) == multiset(ds)
    ensures WeightedSelect(le, cs, n, draw) == WeightedSelect(le, ds, n, draw)
  {
    SortCanonical(le, cs, ds);
    assert |multiset(cs)| == |multiset(ds)|;
  }

  /** Only candidates with a positive weight are selected. */
  ghost predicate Member<T>(cs: seq<Weighted<T>>, x: T) {
    exists c :: c in cs && c.item == x && 0 < c.weight
  }

  lemma {:induction false} SeatsGoToMembers<T>(cs: seq<Weighted<T>>, n: nat, total: nat)
    ensures forall x :: x in Guaranteed(cs, n, total) ==> Member(cs, x)
    ensures forall c :: c in Remaining(cs, n, total) ==> Member(cs, c.item)
  {
    if cs != [] {
      SeatsGoToMembers(cs[1..], n, total);
      assert forall c :: c in cs[1..] ==> c in cs;
      if cs[0].weight == 0 {
        assert 0 * n == 0;
      } else {
        assert Member(cs, cs[0].item);
      }
      forall x | x in Guaranteed(cs, n, total) ensures Member(cs, x) {
        if x in Guaranteed(cs[1..], n, total) {
          assert Member(cs[1..], x);
        }
      }
      forall c | c in Remaining(cs, n, total) ensures Member(cs, c.item) {
        if c in Remaining(cs[1..], n, total) {
          assert Member(cs[1..], c.item);
        }
      }
    }
  }

  lemma SelectionTakesMembers<T>(
    le: (Weighted<T>, Weighted<T>) -> bool, cs: seq<Weighted<T>>, n: nat, draw: Draws, x: T)
    requires InBounds(draw) && x in WeightedSelect(le, cs, n, draw)
    ensures Member(cs, x)
  {
    var sorted := Sort(le, cs);
    SortPermutes(le, cs);
    var total := Total(sorted);
    SeatsGoToMembers(sorted, n, total);
    if x !in Guaranteed(sorted, n, total) {
      RemainingPositive(sorted, n, total);
      var rem := Remaining(sorted, n, total);
      var k :| 0 <= k < n && x == rem[Pick(rem, draw(k, Total(rem)))].item;
    }
    assert Member(sorted, x);
    var c :| c in sorted && c.item == x && 0 < c.weight;
    assert c in multiset(sorted);
  }
}
