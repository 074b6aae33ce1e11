/** The committee assembled from registered and permissioned candidates, and the loops that do it. */
module AriadneCommittee {
  import opened Prelude
  import opened Sorting
  import opened Permutation
  import opened Ariadne

  lemma {:induction false} WeightWithinTotal<T>(cs: seq<Weighted<T>>, i: nat)
    requires i < |cs|
    ensures cs[i].weight <= Total(cs)
  {
    if 0 < i {
      WeightWithinTotal(cs[1..], i - 1);
    }
  }

  lemma NoWeightNoSeats(n: nat, total: nat)
    ensures Quota(0, n, total) == 0 && Remainder(0, n, total) == 0
  {
    assert 0 * n == 0;
  }

  lemma GuaranteedStep<T>(cs: seq<Weighted<T>>, i: nat, n: nat, total: nat, selected: seq<T>)
    requires i < |cs|
    ensures selected + Guaranteed(cs[i..], n, total)
            == (selected + Repeat(cs[i].item, Quota(cs[i].weight, n, total))) + Guaranteed(cs[i + 1..], n, total)
  {
    assert cs[i..][1..] == cs[i + 1..];
    ConcatAssoc(selected, Repeat(cs[i].item, Quota(cs[i].weight, n, total)), Guaranteed(cs[i + 1..], n, total));
  }

  lemma RemainingStep<T>(cs: seq<Weighted<T>>, i: nat, n: nat, total: nat, remaining: seq<Weighted<T>>)
    requires i < |cs|
    ensures remaining + Remaining(cs[i..], n, total)
            == (remaining + Leftover(cs[i], n, total)) + Remaining(cs[i + 1..], n, total)
  {
    assert cs[i..][1..] == cs[i + 1..];
    ConcatAssoc(remaining, Leftover(cs[i], n, total), Remaining(cs[i + 1..], n, total));
  }

  /** Whole and left-over seats of one candidate; a candidate without weight has neither. */
  method SplitSeats<T>(c: Weighted<T>, n: nat, threshold: nat) returns (guaranteed: nat, left: nat)
    requires c.weight <= threshold
    ensures guaranteed == Quota(c.weight, n, threshold) && left == Remainder(c.weight, n, threshold)
  {
    if c.weight == 0 {
      NoWeightNoSeats(n, threshold);
      return 0, 0;
    }
    guaranteed, left := c.weight * n / threshold, c.weight * n % threshold;
  }

  method SelectGuaranteed<T>(cs: seq<Weighted<T>>, n: nat) returns (selected: seq<T>, remaining: seq<Weighted<T>>)
    ensures selected == Guaranteed(cs, n, Total(cs))
    ensures remaining == Remaining(cs, n, Total(cs))
  {
    var threshold := Total(cs);
    selected, remaining := [], [];
    assert cs[0..] == cs;
    for i := 0 to |cs|
      invariant selected + Guaranteed(cs[i..], n, threshold) == Guaranteed(cs, n, threshold)
      invariant remaining + Remaining(cs[i..], n, threshold) == Remaining(cs, n, threshold)
    {
      WeightWithinTotal(cs, i);
      GuaranteedStep(cs, i, n, threshold, selected);
      RemainingStep(cs, i, n, threshold, remaining);
      var guaranteed, left := SplitSeats(cs[i], n, threshold);
      selected := selected + Repeat(cs[i].item, guaranteed);
      remaining := remaining + if 0 < left then [Weighted(cs[i].item, left)] else [];
    }
  }

  /** The final `panic` of the source's search is unreachable for a draw below the total. */
  method SelectWithWeight<T>(cs: seq<Weighted<T>>, r: nat) returns (index: nat)
    requires r < Total(cs)
    ensures index == Pick(cs, r)
  {
    var cumulative := 0;
    index := 0;
    assert cs[0..] == cs;
    while true
      invariant index <= |cs| && cumulative <= r
      invariant r - cumulative < Total(cs[index..])
      invariant index + Pick(cs[index..], r - cumulative) == Pick(cs, r)
      decreases |cs| - index
    {
      assert cs[index..][1..] == cs[index + 1..];
      cumulative := cumulative + cs[index].weight;
      if r < cumulative {
        return;
      }
      index := index + 1;
    }
  }

  method DrawSeats<T>(cs: seq<Weighted<T>>, draw: Draws, size: nat) returns (committee: seq<T>)
    requires InBounds(draw) && (cs == [] || 0 < Total(cs))
    ensures committee == Drawn(cs, draw, size)
    ensures |committee| == if cs == [] then 0 else size
    ensures forall k :: 0 <= k < |committee| ==> SeatFor(cs, draw(k, Total(cs)), committee[k])
  {
    DrawnSeats(cs, draw, size);
    committee := [];
    while |committee| < size && cs != []
      invariant |committee| <= size
      invariant cs != [] ==> committee == Drawn(cs, draw, size)[..|committee|]
      invariant cs == [] ==> committee == []
    {
      var index := SelectWithWeight(cs, draw(|committee|, Total(cs)));
      committee := committee + [cs[index].item];
    }
  }

  method WeightedWithGuaranteedAssignment<T>(
    le: (Weighted<T>, Weighted<T>) -> bool, cs: seq<Weighted<T>>, n: nat, draw: Draws) returns (selected: seq<T>)
    requires InBounds(draw)
    ensures selected == WeightedSelect(le, cs, n, draw)
  {
    if cs == [] || n == 0 {
      return [];
    }
    var sorted := Sort(le, cs);
    var remaining;
    selected, remaining := SelectGuaranteed(sorted, n);
    RemainingPositive(sorted, n, Total(sorted));
    if 0 < Total(sorted) {
      SeatsFit(sorted, n);
    } else {
      NothingFromNothing(sorted, n);
    }
    var drawn := DrawSeats(remaining, draw, n - |selected|);
    selected := selected + drawn;
  }

  function Ones<T>(items: seq<T>): (r: seq<Weighted<T>>)
    ensures |r| == |items| && Total(r) == |items|
    ensures forall i :: 0 <= i < |items| ==> r[i] == Weighted(items[i], 1)
  {
    if items == [] then [] else [Weighted(items[0], 1)] + Ones(items[1..])
  }

  /** Seats before shuffling. Seats are 16-bit and their sum wraps around. */
  function Seated<T>(
    le: (Weighted<T>, Weighted<T>) -> bool, registeredSeats: nat, permissionedSeats: nat,
    registered: seq<Weighted<T>>, permissioned: seq<T>, draw: Draws): seq<T>
    requires InBounds(draw)
  {
    var seatsTotal := (permissionedSeats + registeredSeats) % U16_SPAN;
    if registered != [] && permissioned != [] then
      WeightedSelect(le, registered, registeredSeats, draw) +
      WeightedSelect(le, Ones(permissioned), permissionedSeats, draw)
    else if registered == [] then WeightedSelect(le, Ones(permissioned), seatsTotal, draw)
    else WeightedSelect(le, registered, seatsTotal, draw)
  }

  type Shuffle<!T> = seq<T> -> seq<T>

  ghost predicate Shuffles<T(!new)>(shuffle: Shuffle<T>) {
    forall s: seq<T> :: multiset(shuffle(s)) == multiset(s)
  }

  function Committee<T>(
    le: (Weighted<T>, Weighted<T>) -> bool, registeredSeats: nat, permissionedSeats: nat,
    registered: seq<Weighted<T>>, permissioned: seq<T>, draw: Draws, shuffle: Shuffle<T>): Option<seq<T>>
    requires InBounds(draw)
  {
    var selected := shuffle(Seated(le, registeredSeats, permissionedSeats, registered, permissioned, draw));
    if selected == [] && 0 < (permissionedSeats + registeredSeats) % U16_SPAN then None else Some(selected)
  }

  method SelectAuthorities<T>(
    le: (Weighted<T>, Weighted<T>) -> bool, registeredSeats: nat, permissionedSeats: nat,
    registered: seq<Weighted<T>>, permissioned: seq<T>, draw: Draws, shuffle: Shuffle<T>)
    returns (r: Option<seq<T>>)
    requires InBounds(draw)
    ensures r == Committee(le, registeredSeats, permissionedSeats, registered, permissioned, draw, shuffle)
  {
    var seatsTotal := (permissionedSeats + registeredSeats) % U16_SPAN;
    var weighted := Ones(permissioned);
    var selected;
    if registered != [] && permissioned != [] {
      selected := WeightedWithGuaranteedAssignment(le, registered, registeredSeats, draw);
      var more := WeightedWithGuaranteedAssignment(le, weighted, permissionedSeats, draw);
      selected := selected + more;
    } else if registered == [] {
      selected := WeightedWithGuaranteedAssignment(le, weighted, seatsTotal, draw);
    } else {
      selected := WeightedWithGuaranteedAssignment(le, registered, seatsTotal, draw);
    }
    selected := shuffle(selected);
    if selected == [] && 0 < seatsTotal {
      return None;
    }
    return Some(selected);
  }

  /** The documented sum of seats whenever somebody with a positive weight can take them and, for a
      single kind of candidate, the sum fits 16 bits. */
  function ExpectedSize<T>(rs: nat, ps: nat, registered: seq<Weighted<T>>, permissioned: seq<T>): nat {
    if registered != [] && permissioned != [] then (if Total(registered) == 0 then 0 else rs) + ps
    else if registered != [] then (if Total(registered) == 0 then 0 else (rs + ps) % U16_SPAN)
    else if permissioned != [] then (rs + ps) % U16_SPAN
    else 0
  }

  lemma SeatedSize<T>(
    le: (Weighted<T>, Weighted<T>) -> bool, rs: nat, ps: nat, registered: seq<Weighted<T>>, permissioned: seq<T>,
    draw: Draws)
    requires InBounds(draw)
    ensures |Seated(le, rs, ps, registered, permissioned, draw)| == ExpectedSize(rs, ps, registered, permissioned)
  {
    var n := (ps + rs) % U16_SPAN;
    if registered != [] && permissioned != [] {
      SelectionSize(le, registered, rs, draw);
      SelectionSize(le, Ones(permissioned), ps, draw);
    } else if registered == [] {
      SelectionSize(le, Ones(permissioned), n, draw);
    } else {
      SelectionSize(le, registered, n, draw);
    }
  }

  /** Committee size for every input; nobody is selected only when no seat can be filled. */
  lemma CommitteeSize<T(!new)>(
    le: (Weighted<T>, Weighted<T>) -> bool, rs: nat, ps: nat, registered: seq<Weighted<T>>, permissioned: seq<T>,
    draw: Draws, shuffle: Shuffle<T>)
    requires InBounds(draw) && Shuffles(shuffle)
    ensures
      var c := Committee(le, rs, ps, registered, permissioned, draw, shuffle);
      var size := ExpectedSize(rs, ps, registered, permissioned);
      if size == 0 && 0 < (ps + rs) % U16_SPAN then c == None else c.Some? && |c.value| == size
  {
    SeatedSize(le, rs, ps, registered, permissioned, draw);
    var seated := Seated(le, rs, ps, registered, permissioned, draw);
    SameSize(shuffle(seated), seated);
  }

  /** Whole expected seats of a candidate as documented: its part of the seats of its kind or, when one
      kind is missing, of all seats. */
  function PromisedSeats<T(==)>(rs: nat, ps: nat, registered: seq<Weighted<T>>, permissioned: seq<T>, x: T): nat {
    if registered != [] && permissioned != [] then
      Promised(registered, rs, Total(registered), x) + Promised(Ones(permissioned), ps, |permissioned|, x)
    else
      Promised(registered, rs + ps, Total(registered), x) + Promised(Ones(permissioned), rs + ps, |permissioned|, x)
  }

  /** The seats are assigned as documented: with both kinds of candidates always, with one kind as long as
      the sum of seats fits 16 bits. */
  predicate SumFits<T>(rs: nat, ps: nat, registered: seq<Weighted<T>>, permissioned: seq<T>) {
    (registered != [] && permissioned != []) || rs + ps < U16_SPAN
  }

  /** With both kinds of candidates exactly the registered seats go to the registered selection; in every
      documented case everybody holds at least the whole part of the expected seats. */
  lemma CommitteeKeepsPromises<T(!new)>(
    le: (Weighted<T>, Weighted<T>) -> bool, rs: nat, ps: nat, registered: seq<Weighted<T>>, permissioned: seq<T>,
    draw: Draws, shuffle: Shuffle<T>, x: T)
    requires InBounds(draw) && Shuffles(shuffle)
    requires Committee(le, rs, ps, registered, permissioned, draw, shuffle).Some?
    ensures
      var c := Committee(le, rs, ps, registered, permissioned, draw, shuffle).value;
      && (registered != [] && permissioned != [] ==>
            multiset(c) == multiset(WeightedSelect(le, registered, rs, draw))
                           + multiset(WeightedSelect(le, Ones(permissioned), ps, draw)))
      && (registered == [] ==> multiset(c) == multiset(WeightedSelect(le, Ones(permissioned), (rs + ps) % U16_SPAN, draw)))
      && (permissioned == [] ==> multiset(c) == multiset(WeightedSelect(le, registered, (rs + ps) % U16_SPAN, draw)))
      && (SumFits(rs, ps, registered, permissioned) ==>
            multiset(c)[x] >= PromisedSeats(rs, ps, registered, permissioned, x))
  {
    var seated := Seated(le, rs, ps, registered, permissioned, draw);
    assert multiset(shuffle(seated)) == multiset(seated);
    if SumFits(rs, ps, registered, permissioned) {
      SeatedKeepsPromises(le, rs, ps, registered, permissioned, draw, x);
    }
  }

  lemma SeatedKeepsPromises<T>(
    le: (Weighted<T>, Weighted<T>) -> bool, rs: nat, ps: nat, registered: seq<Weighted<T>>, permissioned: seq<T>,
    draw: Draws, x: T)
    requires InBounds(draw) && SumFits(rs, ps, registered, permissioned)
    ensures multiset(Seated(le, rs, ps, registered, permissioned, draw))[x]
            >= PromisedSeats(rs, ps, registered, permissioned, x)
  {
    if registered != [] && permissioned != [] {
      SelectionKeepsPromise(le, registered, rs, draw, x);
      SelectionKeepsPromise(le, Ones(permissioned), ps, draw, x);
    } else {
      var n := rs + ps;
      assert (ps + rs) % U16_SPAN == n;
      if registered == [] {
        SelectionKeepsPromise(le, Ones(permissioned), n, draw, x);
      } else {
        SelectionKeepsPromise(le, registered, n, draw, x);
        assert Ones(permissioned) == [];
      }
    }
  }

  lemma AtLeastOnce(w: nat, d: int)
    ensures 1 <= d ==> w <= w * d
    ensures d <= -1 ==> w * d <= 0 - w
  {
  }

  lemma QuotaOfAll(w: nat, n: nat)
    requires 0 < w
    ensures Quota(w, n, w) == n
  {
    Division(w * n, w);
    var q := w * n / w;
    assert w * (n - q) == w * n % w;
    AtLeastOnce(w, n - q);
  }

  lemma CountWithinSize<T>(s: seq<T>, x: T)
    ensures multiset(s)[x] <= |s|
  {
    assert multiset(s)[x] <= |multiset(s)|;
  }

  /** Whenever the 16-bit sum wraps, a committee of one kind is too small, and a candidate standing alone
      loses seats it was promised. */
  lemma WrappedSumBreaksPromise<T(!new)>(
    le: (Weighted<T>, Weighted<T>) -> bool, rs: nat, ps: nat, x: T, weight: nat, draw: Draws, shuffle: Shuffle<T>)
    requires InBounds(draw) && Shuffles(shuffle) && 0 < weight
    requires rs < U16_SPAN && ps < U16_SPAN <= rs + ps
    ensures
      var c := Committee(le, rs, ps, [Weighted(x, weight)], [], draw, shuffle);
      && c.Some? && |c.value| == rs + ps - U16_SPAN
      && multiset(c.value)[x] < PromisedSeats(rs, ps, [Weighted(x, weight)], [], x)
    ensures
      var c := Committee(le, rs, ps, [], [x], draw, shuffle);
      && c.Some? && |c.value| == rs + ps - U16_SPAN
      && multiset(c.value)[x] < PromisedSeats(rs, ps, [], [x], x)
  {
    AloneTotals(x, weight);
    AloneLosesSeats(le, rs, ps, [Weighted(x, weight)], [], draw, shuffle, x);
    AloneLosesSeats(le, rs, ps, [], [x], draw, shuffle, x);
    AlonePromised(rs, ps, x, weight);
  }

  lemma AloneTotals<T>(x: T, weight: nat)
    ensures Total([Weighted(x, weight)]) == weight && Ones([x]) == [Weighted(x, 1)]
  {
    assert [Weighted(x, weight)][1..] == [] && [x][1..] == [];
  }

  lemma AlonePromised<T>(rs: nat, ps: nat, x: T, weight: nat)
    requires 0 < weight
    ensures PromisedSeats(rs, ps, [Weighted(x, weight)], [], x) == rs + ps
    ensures PromisedSeats(rs, ps, [], [x], x) == rs + ps
  {
    AloneTotals(x, weight);
    QuotaOfAll(weight, rs + ps);
    QuotaOfAll(1, rs + ps);
    assert [Weighted(x, weight)][1..] == [] && [Weighted(x, 1)][1..] == [];
    var nobody: seq<T> := [];
    assert Ones(nobody) == [];
    assert Promised([Weighted(x, weight)], rs + ps, weight, x) == rs + ps;
    assert Promised([Weighted(x, 1)], rs + ps, 1, x) == rs + ps;
  }

  lemma AloneLosesSeats<T(!new)>(
    le: (Weighted<T>, Weighted<T>) -> bool, rs: nat, ps: nat, registered: seq<Weighted<T>>, permissioned: seq<T>,
    draw: Draws, shuffle: Shuffle<T>, x: T)
    requires InBounds(draw) && Shuffles(shuffle) && rs < U16_SPAN && ps < U16_SPAN <= rs + ps
    requires (registered == [] && permissioned != []) || (permissioned == [] && 0 < Total(registered))
    ensures
      var c := Committee(le, rs, ps, registered, permissioned, draw, shuffle);
      c.Some? && |c.value| == rs + ps - U16_SPAN && multiset(c.value)[x] <= rs + ps - U16_SPAN
  {
    assert (rs + ps) % U16_SPAN == rs + ps - U16_SPAN;
    CommitteeSize(le, rs, ps, registered, permissioned, draw, shuffle);
    CountWithinSize(Committee(le, rs, ps, registered, permissioned, draw, shuffle).value, x);
  }

  /** Cutting a committee to a maximal size takes nobody more seats than were cut. */
  lemma TruncationTakes<T>(c: seq<T>, max: nat, x: T)
    ensures multiset(Limit(c, max))[x] + (|c| - |Limit(c, max)|) >= multiset(c)[x]
  {
    if max < |c| {
      assert c == c[..max] + c[max..];
      CountWithinSize(c[max..], x);
    }
  }

  function Without<T(==)>(c: seq<T>, x: T): seq<T> {
    if c == [] then [] else (if c[0] == x then [] else [c[0]]) + Without(c[1..], x)
  }

  lemma {:induction false} WithoutCounts<T>(c: seq<T>, x: T)
    ensures |Without(c, x)| == |c| - multiset(c)[x]
    ensures multiset(Without(c, x)) == multiset(c)[x := 0]
  {
    if c != [] {
      WithoutCounts(c[1..], x);
      assert c == [c[0]] + c[1..];
    }
  }

  /** The same committee with the seats of `x` last. */
  function SeatedLast<T(==)>(c: seq<T>, x: T): seq<T> {
    Without(c, x) + Repeat(x, multiset(c)[x])
  }

  lemma SeatedLastPermutes<T>(c: seq<T>, x: T)
    ensures multiset(SeatedLast(c, x)) == multiset(c)
  {
    WithoutCounts(c, x);
    forall y ensures multiset(SeatedLast(c, x))[y] == multiset(c)[y] {
      RepeatCount(x, multiset(c)[x], y);
    }
  }

  lemma CutBeforeSeats<T>(front: seq<T>, n: nat, max: nat, x: T)
    requires max <= |front| && multiset(front)[x] == 0
    ensures multiset((front + Repeat(x, n))[..max])[x] == 0
  {
    assert (front + Repeat(x, n))[..max] == front[..max];
    assert front == front[..max] + front[max..];
  }

  lemma CutWithinSeats<T>(front: seq<T>, n: nat, max: nat, x: T)
    requires |front| < max <= |front| + n && multiset(front)[x] == 0
    ensures multiset((front + Repeat(x, n))[..max])[x] == max - |front|
  {
    assert (front + Repeat(x, n))[..max] == front + Repeat(x, max - |front|);
    RepeatCount(x, max - |front|, x);
  }

  /** Cutting that order takes as many seats of `x` as are cut, down to none. */
  lemma SeatedLastCut<T>(c: seq<T>, max: nat, x: T)
    requires max < |c|
    ensures multiset(Limit(SeatedLast(c, x), max))[x] == Max(0, multiset(c)[x] - (|c| - max))
  {
    WithoutCounts(c, x);
    CountWithinSize(c, x);
    var front, n := Without(c, x), multiset(c)[x];
    if max <= |front| {
      CutBeforeSeats(front, n, max, x);
    } else {
      CutWithinSeats(front, n, max, x);
    }
  }

  /** A promise that a committee keeps survives the cut in every order of its seats exactly if nothing was
      promised, nothing is cut, or the seats beyond the promise make up for those that are cut. */
  predicate CutIsSafe(size: nat, seats: nat, max: nat, promised: nat) {
    promised == 0 || size <= max || promised + (size - max) <= seats
  }

  lemma CutKeepsPromiseIff<T(!new)>(c: seq<T>, max: nat, promised: nat, x: T)
    requires promised <= multiset(c)[x]
    ensures (forall d: seq<T> :: multiset(d) == multiset(c) ==> promised <= multiset(Limit(d, max))[x])
            <==> CutIsSafe(|c|, multiset(c)[x], max, promised)
  {
    if CutIsSafe(|c|, multiset(c)[x], max, promised) {
      forall d: seq<T> | multiset(d) == multiset(c) ensures promised <= multiset(Limit(d, max))[x] {
        SameSize(d, c);
        TruncationTakes(d, max, x);
      }
    } else {
      SeatedLastPermutes(c, x);
      SeatedLastCut(c, max, x);
    }
  }

  /** A committee cut to the maximal number of authorities. */
  function CutCommittee<T>(c: Option<seq<T>>, max: nat): Option<seq<T>> {
    match c
    case None => None
    case Some(members) => Some(Limit(members, max))
  }

  /** With positive weights the cut committee has the documented size, up to the maximum, as soon as there
      is a candidate; with candidates of one kind the 16-bit sum of seats counts. */
  lemma CutCommitteeSize<T(!new)>(
    le: (Weighted<T>, Weighted<T>) -> bool, rs: nat, ps: nat, registered: seq<Weighted<T>>, permissioned: seq<T>,
    max: nat, draw: Draws, shuffle: Shuffle<T>)
    requires InBounds(draw) && Shuffles(shuffle)
    requires (registered != [] ==> 0 < Total(registered)) && (registered != [] || permissioned != [])
    ensures
      var both := registered != [] && permissioned != [];
      var c := CutCommittee(Committee(le, rs, ps, registered, permissioned, draw, shuffle), max);
      c.Some? && |c.value| == Min(if both then rs + ps else (rs + ps) % U16_SPAN, max)
  {
    CommitteeSize(le, rs, ps, registered, permissioned, draw, shuffle);
  }

  /** With the cut, a candidate holds its promised seats. */
  ghost predicate Kept<T>(c: Option<seq<T>>, max: nat, promised: nat, x: T) {
    CutCommittee(c, max).Some? && promised <= multiset(CutCommittee(c, max).value)[x]
  }

  lemma ShuffleKeeps<T(!new)>(seated: seq<T>, shuffle: Shuffle<T>, max: nat, promised: nat, x: T)
    requires Shuffles(shuffle) && promised <= multiset(seated)[x]
    requires CutIsSafe(|seated|, multiset(seated)[x], max, promised)
    ensures Kept(Some(shuffle(seated)), max, promised, x)
  {
    CutKeepsPromiseIff(seated, max, promised, x);
  }

  lemma ShuffleBreaks<T(!new)>(seated: seq<T>, max: nat, promised: nat, x: T) returns (shuffle: Shuffle<T>)
    requires promised <= multiset(seated)[x] && !CutIsSafe(|seated|, multiset(seated)[x], max, promised)
    ensures Shuffles(shuffle) && !Kept(Some(shuffle(seated)), max, promised, x)
  {
    CutKeepsPromiseIff(seated, max, promised, x);
    var d: seq<T> :| multiset(d) == multiset(seated) && multiset(Limit(d, max))[x] < promised;
    shuffle := s => if s == seated then d else s;
  }

  lemma CommitteeOfSeated<T(!new)>(
    le: (Weighted<T>, Weighted<T>) -> bool, rs: nat, ps: nat, registered: seq<Weighted<T>>, permissioned: seq<T>,
    draw: Draws, shuffle: Shuffle<T>)
    requires InBounds(draw) && Shuffles(shuffle)
    requires Seated(le, rs, ps, registered, permissioned, draw) != [] || (ps + rs) % U16_SPAN == 0
    ensures
      var seated := Seated(le, rs, ps, registered, permissioned, draw);
      && Committee(le, rs, ps, registered, permissioned, draw, shuffle) == Some(shuffle(seated))
      && multiset(shuffle(seated)) == multiset(seated)
  {
    SameSize(shuffle(Seated(le, rs, ps, registered, permissioned, draw)), Seated(le, rs, ps, registered, permissioned, draw));
  }

  /** Whatever the shuffle, the cut committee keeps a candidate's promise, if and only if nothing was
      promised, the seats fit, or its seats beyond the promise make up for those that are cut. */
  lemma CutCommitteeKeepsPromiseIff<T(!new)>(
    le: (Weighted<T>, Weighted<T>) -> bool, rs: nat, ps: nat, registered: seq<Weighted<T>>, permissioned: seq<T>,
    max: nat, draw: Draws, x: T)
    requires InBounds(draw) && SumFits(rs, ps, registered, permissioned)
    requires Seated(le, rs, ps, registered, permissioned, draw) != [] || (ps + rs) % U16_SPAN == 0
    ensures
      var seated := Seated(le, rs, ps, registered, permissioned, draw);
      var promised := PromisedSeats(rs, ps, registered, permissioned, x);
      (forall shuffle: Shuffle<T> :: Shuffles(shuffle) ==>
         Kept(Committee(le, rs, ps, registered, permissioned, draw, shuffle), max, promised, x))
      <==> CutIsSafe(|seated|, multiset(seated)[x], max, promised)
  {
    var seated := Seated(le, rs, ps, registered, permissioned, draw);
    var promised := PromisedSeats(rs, ps, registered, permissioned, x);
    SeatedKeepsPromises(le, rs, ps, registered, permissioned, draw, x);
    if CutIsSafe(|seated|, multiset(seated)[x], max, promised) {
      forall shuffle: Shuffle<T> | Shuffles(shuffle)
        ensures Kept(Committee(le, rs, ps, registered, permissioned, draw, shuffle), max, promised, x)
      {
        CommitteeOfSeated(le, rs, ps, registered, permissioned, draw, shuffle);
        ShuffleKeeps(seated, shuffle, max, promised, x);
      }
    } else {
      var shuffle := ShuffleBreaks(seated, max, promised, x);
      CommitteeOfSeated(le, rs, ps, registered, permissioned, draw, shuffle);
      assert !Kept(Committee(le, rs, ps, registered, permissioned, draw, shuffle), max, promised, x);
    }
  }

  /** Nodes that list the same candidates in different orders select the same committee. */
  lemma CommitteeIgnoresOrder<T(!new)>(
    le: (Weighted<T>, Weighted<T>) -> bool, rs: nat, ps: nat,
    registered: seq<Weighted<T>>, registered': seq<Weighted<T>>, permissioned: seq<T>, permissioned': seq<T>,
    draw: Draws, shuffle: Shuffle<T>)
    requires InBounds(draw) && TotalOrder(le)
    requires multiset(registered) == multiset(registered') && multiset(permissioned) == multiset(permissioned')
    ensures Committee(le, rs, ps, registered, permissioned, draw, shuffle)
            == Committee(le, rs, ps, registered', permissioned', draw, shuffle)
  {
    var n := (ps + rs) % U16_SPAN;
    ImagesPermute(permissioned, Ones(permissioned), permissioned', Ones(permissioned'));
    assert |multiset(registered)| == |multiset(registered')|;
    assert |multiset(permissioned)| == |multiset(permissioned')|;
    SelectionIgnoresOrder(le, registered, registered', rs, draw);
    SelectionIgnoresOrder(le, registered, registered', n, draw);
    SelectionIgnoresOrder(le, Ones(permissioned), Ones(permissioned'), ps, draw);
    SelectionIgnoresOrder(le, Ones(permissioned), Ones(permissioned'), n, draw);
  }
}
