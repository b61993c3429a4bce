/**
  Properties of the eigenvalue arrays `d` (real parts) and `e` (imaginary
  parts) that the decomposition promises, and of the block-diagonal
  eigenvalue matrix D assembled from them.
*/
module Spectrum {

  /** Ascending order, as promised for symmetric input. */
  ghost predicate Sorted(s: seq<real>) {
    forall i, j :: 0 <= i < j < |s| ==> s[i] <= s[j]
  }

  ghost predicate AllZero(s: seq<real>) {
    forall i :: 0 <= i < |s| ==> s[i] == 0.0
  }

  /** `p` is a permutation of 0 .. n-1. */
  ghost predicate IsPermutation(p: seq<int>, n: int) {
    && |p| == n
    && (forall i :: 0 <= i < n ==> 0 <= p[i] < n)
    && (forall i, j :: 0 <= i < j < n ==> p[i] != p[j])
  }

  /**
    Conjugate-pair layout of the eigenvalues at positions lo .. |e|-1, stated
    position by position: a positive imaginary part is followed by its
    negation with the same real part, and a negative one is preceded (within
    the range) by its negation with the same real part.
  */
  ghost predicate PairedFrom(d: seq<real>, e: seq<real>, lo: int)
    requires |d| == |e| && 0 <= lo
  {
    forall i :: lo <= i < |e| ==> PairedAt(d, e, lo, i)
  }

  /** The layout condition of PairedFrom at position i. */
  ghost predicate PairedAt(d: seq<real>, e: seq<real>, lo: int, i: int)
    requires |d| == |e| && 0 <= lo <= i < |e|
  {
    && (e[i] > 0.0 ==> i + 1 < |e| && e[i + 1] == -e[i] && d[i + 1] == d[i])
    && (e[i] < 0.0 ==> lo <= i - 1 && e[i - 1] == -e[i] && d[i - 1] == d[i])
  }

  ghost predicate ConjugatePairs(d: seq<real>, e: seq<real>) {
    |d| == |e| && PairedFrom(d, e, 0)
  }

  /**
    The same layout read left to right, a block at a time: a zero imaginary
    part is a real eigenvalue, a nonzero one opens a conjugate pair whose
    first member is positive, whose partner is its negation and shares its
    real part, and which may not be the last entry.
  */
  ghost predicate PairScan(d: seq<real>, e: seq<real>, i: nat)
    requires |d| == |e|
    decreases |e| - i
  {
    if i >= |e| then true
    else if e[i] == 0.0 then PairScan(d, e, i + 1)
    else
      && i + 1 < |e|
      && d[i] == d[i + 1]
      && e[i] > 0.0
      && e[i] == -e[i + 1]
      && PairScan(d, e, i + 2)
  }

  /** Two adjacent entries hold either two real eigenvalues or one conjugate pair. */
  ghost predicate PairBlock(d: seq<real>, e: seq<real>, i: int)
    requires |d| == |e| && 0 <= i && i + 1 < |e|
  {
    || (e[i] == 0.0 && e[i + 1] == 0.0)
    || (e[i] > 0.0 && e[i + 1] == -e[i] && d[i] == d[i + 1])
  }

  /** The position-wise layout and the block-wise scan agree, from any block start. */
  lemma {:induction false} PairedIffScan(d: seq<real>, e: seq<real>, lo: nat)
    requires |d| == |e| && lo <= |e|
    ensures PairedFrom(d, e, lo) <==> PairScan(d, e, lo)
    decreases |e| - lo
  {
    if lo == |e| {
    } else if e[lo] == 0.0 {
      PairedIffScan(d, e, lo + 1);
      if PairedFrom(d, e, lo) {
        var next := lo + 1;
        forall i | next <= i < |e|
          ensures PairedAt(d, e, next, i)
        {
          assert PairedAt(d, e, lo, i);
        }
      }
      if PairedFrom(d, e, lo + 1) {
        forall i | lo <= i < |e|
          ensures PairedAt(d, e, lo, i)
        {
          if i > lo {
            assert PairedAt(d, e, lo + 1, i);
          }
        }
      }
    } else if e[lo] > 0.0 && lo + 1 < |e| && e[lo + 1] == -e[lo] && d[lo + 1] == d[lo] {
      PairedIffScan(d, e, lo + 2);
      if PairedFrom(d, e, lo) {
        var next := lo + 2;
        forall i | next <= i < |e|
          ensures PairedAt(d, e, next, i)
        {
          assert PairedAt(d, e, lo, i);
        }
      }
      if PairedFrom(d, e, lo + 2) {
        forall i | lo <= i < |e|
          ensures PairedAt(d, e, lo, i)
        {
          if i > lo + 1 {
            assert PairedAt(d, e, lo + 2, i);
          }
        }
      }
    } else {
      assert !PairedAt(d, e, lo, lo);
    }
  }

  /** The check that the eigenvalues of a general matrix come in ordered conjugate pairs. */
  lemma ConjugatePairsScan(d: seq<real>, e: seq<real>)
    requires |d| == |e|
    ensures ConjugatePairs(d, e) <==> PairScan(d, e, 0)
  {
    PairedIffScan(d, e, 0);
  }

  /** A finished real eigenvalue below an already laid-out range keeps the layout. */
  lemma {:induction false} PairedExtendOne(d: seq<real>, e: seq<real>, lo: int)
    requires |d| == |e| && 0 <= lo < |e|
    requires PairedFrom(d, e, lo + 1) && e[lo] == 0.0
    ensures PairedFrom(d, e, lo)
  {
    forall i | lo <= i < |e|
      ensures PairedAt(d, e, lo, i)
    {
      if i > lo {
        assert PairedAt(d, e, lo + 1, i);
      }
    }
  }

  /** A finished block of two below an already laid-out range keeps the layout. */
  lemma {:induction false} PairedExtendTwo(d: seq<real>, e: seq<real>, lo: int)
    requires |d| == |e| && 0 <= lo && lo + 1 < |e|
    requires PairedFrom(d, e, lo + 2) && PairBlock(d, e, lo)
    ensures PairedFrom(d, e, lo)
  {
    forall i | lo <= i < |e|
      ensures PairedAt(d, e, lo, i)
    {
      if i > lo + 1 {
        assert PairedAt(d, e, lo + 2, i);
      }
    }
  }

  /** The layout of a range depends only on the entries in that range. */
  lemma {:induction false} PairedFrame(d: seq<real>, e: seq<real>, d': seq<real>, e': seq<real>, lo: int)
    requires |d| == |e| == |d'| == |e'| && 0 <= lo <= |e|
    requires forall i :: lo <= i < |e| ==> d'[i] == d[i] && e'[i] == e[i]
    requires PairedFrom(d, e, lo)
    ensures PairedFrom(d', e', lo)
  {
    forall i | lo <= i < |e|
      ensures PairedAt(d', e', lo, i)
    {
      assert PairedAt(d, e, lo, i);
      if i + 1 < |e| {
        assert d'[i + 1] == d[i + 1] && e'[i + 1] == e[i + 1];
      }
      if lo <= i - 1 {
        assert d'[i - 1] == d[i - 1] && e'[i - 1] == e[i - 1];
      }
    }
  }

  /**
    Entry (i, j) of the block-diagonal eigenvalue matrix: the diagonal holds
    the real parts, a positive imaginary part goes to the right of its
    diagonal entry, a negative one to the left, and everything else is zero.
  */
  function BlockEntry(d: seq<real>, e: seq<real>, i: int, j: int): (r: real)
    requires |d| == |e| && 0 <= i < |d| && 0 <= j < |d|
    ensures i == j ==> r == d[i]
    ensures j != i && r != 0.0 ==> (j == i + 1 && e[i] > 0.0) || (j == i - 1 && e[i] < 0.0)
    ensures j != i && r != 0.0 ==> r == e[i]
  {
    if i == j then d[i]
    else if j == i + 1 && e[i] > 0.0 then e[i]
    else if j == i - 1 && e[i] < 0.0 then e[i]
    else 0.0
  }

  /** Outside the tridiagonal band the block-diagonal matrix is zero. */
  lemma Tridiagonal(d: seq<real>, e: seq<real>, i: int, j: int)
    requires |d| == |e| && 0 <= i < |d| && 0 <= j < |d|
    requires i - j > 1 || j - i > 1
    ensures BlockEntry(d, e, i, j) == 0.0
  {
  }

  /** Real eigenvalues only (as in the symmetric case): D is diagonal. */
  lemma DiagonalWhenReal(d: seq<real>, e: seq<real>, i: int, j: int)
    requires |d| == |e| && AllZero(e) && 0 <= i < |d| && 0 <= j < |d| && i != j
    ensures BlockEntry(d, e, i, j) == 0.0
  {
  }

  /**
    In the conjugate-pair layout every pair u + iv, u - iv (v > 0) occupies
    the 2-by-2 block [u, v; -v, u] on the diagonal of D, and the rows and
    columns of the pair are zero outside that block.
  */
  lemma {:induction false} ConjugateBlock(d: seq<real>, e: seq<real>, i: int)
    requires ConjugatePairs(d, e) && 0 <= i < |e| && e[i] > 0.0
    ensures i + 1 < |e|
    ensures BlockEntry(d, e, i, i) == d[i] && BlockEntry(d, e, i, i + 1) == e[i]
    ensures BlockEntry(d, e, i + 1, i) == -e[i] && BlockEntry(d, e, i + 1, i + 1) == d[i]
    ensures forall j :: 0 <= j < |e| && j != i && j != i + 1 ==>
      BlockEntry(d, e, i, j) == 0.0 && BlockEntry(d, e, i + 1, j) == 0.0 &&
      BlockEntry(d, e, j, i) == 0.0 && BlockEntry(d, e, j, i + 1) == 0.0
  {
    PairAt(d, e, i);
    forall j | 0 <= j < |e| && j != i && j != i + 1
      ensures BlockEntry(d, e, j, i) == 0.0 && BlockEntry(d, e, j, i + 1) == 0.0
    {
      if j == i - 1 && e[j] > 0.0 {
        PairAt(d, e, j);
      }
      if j == i + 2 && e[j] < 0.0 {
        PairAt(d, e, j);
      }
    }
  }

  /**
    Both result layouts keep the writes of getD in range: the first
    imaginary part is not negative and the last is not positive.
  */
  lemma EdgesInRange(d: seq<real>, e: seq<real>)
    requires |d| == |e| && (AllZero(e) || ConjugatePairs(d, e))
    ensures |e| > 0 ==> e[0] >= 0.0 && e[|e| - 1] <= 0.0
  {
    if |e| > 0 && !AllZero(e) {
      PairAt(d, e, 0);
      PairAt(d, e, |e| - 1);
    }
  }

  /** The layout condition at one position. */
  lemma PairAt(d: seq<real>, e: seq<real>, i: int)
    requires ConjugatePairs(d, e) && 0 <= i < |e|
    ensures e[i] > 0.0 ==> i + 1 < |e| && e[i + 1] == -e[i] && d[i + 1] == d[i]
    ensures e[i] < 0.0 ==> 0 <= i - 1 && e[i - 1] == -e[i] && d[i - 1] == d[i]
  {
    assert PairedAt(d, e, 0, i);
  }

  /** Entries i and k of s exchanged. */
  function Swap<T>(s: seq<T>, i: int, k: int): (r: seq<T>)
    requires 0 <= i < |s| && 0 <= k < |s|
    ensures |r| == |s| && r[i] == s[k] && r[k] == s[i]
    ensures forall t :: 0 <= t < |s| && t != i && t != k ==> r[t] == s[t]
  {
    s[i := s[k]][k := s[i]]
  }

  /** Exchanging two entries keeps a permutation a permutation. */
  lemma SwapPermutation(p: seq<int>, n: int, i: int, k: int)
    requires IsPermutation(p, n) && 0 <= i < n && 0 <= k < n
    ensures IsPermutation(Swap(p, i, k), n)
  {
  }

  /**
    One selection step: when s(0) .. s(i-1) are in place and s(k) is the
    smallest of s(i) .. s(n-1), exchanging s(i) and s(k) puts s(0) .. s(i)
    in place.
  */
  lemma SelectionStep(s: seq<real>, i: int, k: int)
    requires 0 <= i <= k < |s|
    requires forall a, b :: 0 <= a < i && a < b < |s| ==> s[a] <= s[b]
    requires forall j :: i <= j < |s| ==> s[k] <= s[j]
    ensures forall a, b :: 0 <= a < i + 1 && a < b < |s| ==> Swap(s, i, k)[a] <= Swap(s, i, k)[b]
  {
    var r := Swap(s, i, k);
    forall a, b | 0 <= a < i + 1 && a < b < |s|
      ensures r[a] <= r[b]
    {
      var b' := if b == k then i else if b == i then k else b;
      assert r[b] == s[b'];
      if b >= i {
        assert i <= b';
      }
    }
  }

  /** Exchanging two entries keeps the multiset of values. */
  lemma SwapMultiset(s: seq<real>, i: int, k: int)
    requires 0 <= i < |s| && 0 <= k < |s|
    ensures multiset(Swap(s, i, k)) == multiset(s)
  {
  }
}
