/** Facts about rearranged sequences, used wherever the source iterates over a hash map. */
module Permutation {
  import opened Prelude

  /** Elements in order of first appearance. */
  function Dedup<T(==)>(s: seq<T>): seq<T> {
    if s == [] then []
    else
      var d := Dedup(s[..|s| - 1]);
      if Last(s) in d then d else d + [Last(s)]
  }

  lemma {:induction false} DedupSound<T>(s: seq<T>)
    ensures Distinct(Dedup(s))
    ensures forall x :: x in Dedup(s) <==> x in s
  {
    if s != [] {
      DedupSound(s[..|s| - 1]);
      assert s == s[..|s| - 1] + [Last(s)];
    }
  }

  lemma SplitAt<T>(s: seq<T>, j: nat)
    requires j < |s|
    ensures multiset(s) == multiset{s[j]} + multiset(s[..j] + s[j + 1..])
    ensures multiset(s[..j] + s[j + 1..]) == multiset(s) - multiset{s[j]}
    ensures j == 0 ==> s[..j] + s[j + 1..] == s[1..]
  {
    assert s == s[..j] + [s[j]] + s[j + 1..];
  }

  /** Two listings of the same elements, without repeats, are permutations of each other. */
  lemma {:induction false} DistinctPermutes<T>(a: seq<T>, b: seq<T>)
    requires Distinct(a) && Distinct(b)
    requires forall x :: x in a <==> x in b
    ensures multiset(a) == multiset(b)
  {
    forall x ensures multiset(a)[x] == multiset(b)[x] {
      OccursOnce(a, x);
      OccursOnce(b, x);
    }
  }

  lemma {:induction false} OccursOnce<T>(s: seq<T>, x: T)
    requires Distinct(s)
    ensures multiset(s)[x] == if x in s then 1 else 0
  {
    if s != [] {
      OccursOnce(s[1..], x);
      assert s == [s[0]] + s[1..];
    }
  }

  /** Equal elements of the two lists have equal images. */
  ghost predicate Aligned<T, U>(a: seq<T>, fa: seq<U>, b: seq<T>, fb: seq<U>) {
    && |fa| == |a| && |fb| == |b|
    && forall i, j :: 0 <= i < |a| && 0 <= j < |b| && a[i] == b[j] ==> fa[i] == fb[j]
  }

  lemma AlignedAfterRemoval<T, U>(a: seq<T>, fa: seq<U>, b: seq<T>, fb: seq<U>, j: nat)
    requires Aligned(a, fa, b, fb) && a != [] && j < |b|
    ensures Aligned(a[1..], fa[1..], b[..j] + b[j + 1..], fb[..j] + fb[j + 1..])
  {
    var b', fb' := b[..j] + b[j + 1..], fb[..j] + fb[j + 1..];
    forall k, l | 0 <= k < |a[1..]| && 0 <= l < |b'| && a[1..][k] == b'[l] ensures fa[1..][k] == fb'[l] {
      var l' := if l < j then l else l + 1;
      assert b[l'] == b'[l] && fb[l'] == fb'[l] && a[k + 1] == b[l'];
    }
  }

  /** Mapping two rearrangements of the same elements gives rearrangements of the same images. */
  lemma {:induction false} ImagesPermute<T, U>(a: seq<T>, fa: seq<U>, b: seq<T>, fb: seq<U>)
    requires Aligned(a, fa, b, fb) && multiset(a) == multiset(b)
    ensures multiset(fa) == multiset(fb)
  {
    if a == [] {
      assert |multiset(b)| == 0;
    } else {
      assert a[0] in multiset(b);
      var j :| 0 <= j < |b| && b[j] == a[0];
      SplitAt(a, 0);
      SplitAt(b, j);
      AlignedAfterRemoval(a, fa, b, fb, j);
      ImagesPermute(a[1..], fa[1..], b[..j] + b[j + 1..], fb[..j] + fb[j + 1..]);
      SplitAt(fa, 0);
      SplitAt(fb, j);
    }
  }

  lemma SumSplitAt(s: seq<int>, j: nat)
    requires j < |s|
    ensures Sum(s) == s[j] + Sum(s[..j] + s[j + 1..])
  {
    assert s == s[..j] + s[j..] && s[j..][1..] == s[j + 1..];
    SumAppend(s[..j], s[j..]);
    SumAppend(s[..j], s[j + 1..]);
  }

  lemma {:induction false} SumPermutes(a: seq<int>, b: seq<int>)
    requires multiset(a) == multiset(b)
    ensures Sum(a) == Sum(b)
  {
    if a == [] {
      assert |multiset(b)| == 0;
    } else {
      assert a[0] in multiset(b);
      var j :| 0 <= j < |b| && b[j] == a[0];
      SplitAt(a, 0);
      SplitAt(b, j);
      SumSplitAt(b, j);
      SumPermutes(a[1..], b[..j] + b[j + 1..]);
    }
  }
}
