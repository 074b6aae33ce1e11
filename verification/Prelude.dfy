/** Small vocabulary shared by every model: results, sequence functions and their laws. */
module Prelude {

  datatype Option<+T> = None | Some(value: T)

  datatype Result<+T, +E> = Ok(value: T) | Err(error: E)

  const U16_SPAN := 0x1_0000
  const U32_SPAN := 0x1_0000_0000
  const U64_SPAN := 0x1_0000_0000_0000_0000

  function Min(a: int, b: int): int {
    if a <= b then a else b
  }

  function Max(a: int, b: int): int {
    if a <= b then b else a
  }

  function Last<T>(s: seq<T>): T
    requires s != []
  {
    s[|s| - 1]
  }

  /** At most the first `n` elements. */
  function Limit<T>(s: seq<T>, n: nat): seq<T> {
    if |s| <= n then s else s[..n]
  }

  function Flatten<T>(ss: seq<seq<T>>): seq<T> {
    if ss == [] then [] else ss[0] + Flatten(ss[1..])
  }

  function Sum(s: seq<int>): int {
    if s == [] then 0 else s[0] + Sum(s[1..])
  }

  function Repeat<T>(x: T, n: nat): (s: seq<T>)
    ensures |s| == n && forall i :: 0 <= i < n ==> s[i] == x
  {
    seq(n, _ => x)
  }

  ghost predicate Distinct<T>(s: seq<T>) {
    forall i, j :: 0 <= i < j < |s| ==> s[i] != s[j]
  }

  lemma ConcatAssoc<T>(a: seq<T>, b: seq<T>, c: seq<T>)
    ensures a + (b + c) == (a + b) + c
  {
  }

  lemma {:induction false} SumAppend(s: seq<int>, t: seq<int>)
    ensures Sum(s + t) == Sum(s) + Sum(t)
  {
    if s == [] {
      assert s + t == t;
    } else {
      SumAppend(s[1..], t);
      assert (s + t)[1..] == s[1..] + t;
    }
  }

  function FlatMap<A, B>(f: A -> seq<B>, s: seq<A>): seq<B> {
    if s == [] then [] else f(s[0]) + FlatMap(f, s[1..])
  }

  lemma {:induction false} FlatMapAppend<A, B>(f: A -> seq<B>, s: seq<A>, t: seq<A>)
    ensures FlatMap(f, s + t) == FlatMap(f, s) + FlatMap(f, t)
  {
    if s == [] {
      assert s + t == t;
    } else {
      FlatMapAppend(f, s[1..], t);
      assert (s + t)[1..] == s[1..] + t;
      ConcatAssoc(f(s[0]), FlatMap(f, s[1..]), FlatMap(f, t));
    }
  }

  lemma FlatMapOne<A, B>(f: A -> seq<B>, x: A)
    ensures FlatMap(f, [x]) == f(x)
  {
    assert [x][1..] == [];
  }

  /** Positions of the elements that satisfy `p`, in order. */
  function Hits<A>(p: A -> bool, s: seq<A>): (ix: seq<nat>)
    ensures forall i, j :: 0 <= i < j < |ix| ==> ix[i] < ix[j]
    ensures forall i :: 0 <= i < |ix| ==> ix[i] < |s| && p(s[ix[i]])
    ensures forall j: nat :: j < |s| && p(s[j]) ==> j in ix
  {
    if s == [] then []
    else if p(Last(s)) then Hits(p, s[..|s| - 1]) + [|s| - 1]
    else Hits(p, s[..|s| - 1])
  }

  /** Each result is the only one of the element it stands for. */
  ghost predicate Matches<A, B>(f: A -> seq<B>, s: seq<A>, ix: seq<nat>, out: seq<B>) {
    |out| == |ix| && forall i :: 0 <= i < |ix| ==> ix[i] < |s| && [out[i]] == f(s[ix[i]])
  }

  lemma MatchesSnoc<A, B>(f: A -> seq<B>, s: seq<A>, ix: seq<nat>, out: seq<B>, x: A)
    requires Matches(f, s, ix, out)
    ensures |f(x)| == 0 ==> Matches(f, s + [x], ix, out + f(x))
    ensures |f(x)| == 1 ==> Matches(f, s + [x], ix + [|s|], out + f(x))
  {
    assert |f(x)| == 1 ==> [f(x)[0]] == f(x);
  }

  lemma HitsSnoc<A>(p: A -> bool, s: seq<A>, x: A)
    ensures Hits(p, s + [x]) == if p(x) then Hits(p, s) + [|s|] else Hits(p, s)
  {
    assert (s + [x])[..|s|] == s;
  }

  /** If exactly the elements that satisfy `p` yield a result, the results stand in their order. */
  lemma {:induction false} FlatMapInOrder<A, B>(f: A -> seq<B>, p: A -> bool, s: seq<A>)
    requires forall i :: 0 <= i < |s| ==> |f(s[i])| == if p(s[i]) then 1 else 0
    ensures Matches(f, s, Hits(p, s), FlatMap(f, s))
  {
    if s != [] {
      var init, x := s[..|s| - 1], s[|s| - 1];
      FlatMapInOrder(f, p, init);
      FlatMapAppend(f, init, [x]);
      FlatMapOne(f, x);
      HitsSnoc(p, init, x);
      MatchesSnoc(f, init, Hits(p, init), FlatMap(f, init), x);
      assert init + [x] == s;
    }
  }

  lemma {:induction false} FlattenAppend<T>(s: seq<seq<T>>, t: seq<seq<T>>)
    ensures Flatten(s + t) == Flatten(s) + Flatten(t)
  {
    if s == [] {
      assert s + t == t;
    } else {
      FlattenAppend(s[1..], t);
      assert (s + t)[1..] == s[1..] + t;
      ConcatAssoc(s[0], Flatten(s[1..]), Flatten(t));
    }
  }
}
