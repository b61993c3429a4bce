/**
  The eigenvalue decomposition object: real parts `d` and imaginary parts `e`
  of the eigenvalues, eigenvectors `V`, and for general input the Hessenberg /
  Schur working matrix `H` and the Householder working vector `ort`.

  A symmetric matrix goes through tred2 and tql2 and ends with real
  eigenvalues in ascending order; any other matrix goes through orthes and
  hqr2 and ends with real eigenvalues and complex conjugate pairs laid out as
  consecutive (positive, negative) imaginary parts with equal real parts.
*/
module Eigen {
  import opened Numerics
  import opened Spectrum
  import opened Schur
  import Dense

  class EigenvalueDecomposition {
    const n: nat
    const issymmetric: bool
    const d: array<real>
    const e: array<real>
    const V: array2<real>
    const H: array2<real>
    const ort: array<real>
    /** Model only: hqr2's outer loop ended within its fuel bound. */
    ghost var converged: bool
    /** Model only: the permutation tql2's sort applied to the eigenvalues and the columns of V. */
    ghost var perm: seq<int>

    /** Storage shapes: n-vectors and an n-by-n V; H and ort are only sized for general input. */
    ghost predicate Valid()
    {
      && d.Length == n && e.Length == n
      && V.Length0 == n && V.Length1 == n
      && d != e && d != ort && e != ort && V != H
      && (if issymmetric then H.Length0 == 0 && H.Length1 == 0 && ort.Length == 0
          else H.Length0 == n && H.Length1 == n && ort.Length == n)
    }

    /** The storage of the general pipeline. */
    ghost predicate General()
    {
      Valid() && !issymmetric
    }

    /** The eigenvalues are in one of the two result layouts, so getD writes inside D. */
    ghost predicate Decomposed()
      reads this, d, e
    {
      Valid() && (if issymmetric then Sorted(d[..]) && AllZero(e[..]) else converged ==> ConjugatePairs(d[..], e[..]))
    }

    /* ---------------- constructors ---------------- */

    /**
      The result of the symmetric pipeline on the matrix A: tred2, then
      tql2's QL iterations on the tridiagonal form with the sub-diagonal
      moved down, then the sort, which moves the eigenvalues and the columns
      of V by one and the same permutation perm.
    */
    ghost predicate SymmetricResult(num: Kernels, A: Matrix, perm: seq<int>)
      requires Valid() && |A| == n >= 1
      reads d, e, V
    {
      var t := Tred2Of(num, A);
      && IsPermutation(perm, n) && Sorted(d[..]) && AllZero(e[..])
      && (forall k :: 0 <= k < n ==> d[k] == num.qlValue(t.d, ShiftDown(t.e), t.V, perm[k]))
      && (forall j, k :: 0 <= j < n && 0 <= k < n ==> V[j, k] == num.qlVector(t.d, ShiftDown(t.e), t.V, j, perm[k]))
    }

    /**
      The result of the general pipeline on the matrix A: ort is orthes's
      working vector, and d, e, H and V are what hqr2 leaves when it starts
      from orthes's Hessenberg form and basis with d and e zero.
    */
    ghost predicate GeneralResult(num: Kernels, A: Matrix, fuel: nat, done: bool)
      requires General() && Square(A, n)
      reads d, e, H, V, ort
    {
      var h := OrthesOf(num, A);
      && ort[..] == h.ort
      && Hqr2Result(num, Work(h.H, h.V, Zeros(n), Zeros(n)), Dense.BandNorm(h.H, n, n), fuel, done)
    }

    /**
      Decomposition of a general square matrix. The symmetry test decides
      the pipeline: a symmetric matrix is copied into V and goes through
      tred2 and tql2; any other is copied into H and goes through orthes
      and hqr2. `fuel` bounds hqr2's outer loop (see Hqr2).
    */
    constructor FromMatrix(A: array2<real>, num: Kernels, fuel: nat)
      requires A.Length0 == A.Length1 >= 1 && PositiveRoots(num)
      ensures Valid() && n == A.Length1
      ensures fresh(d) && fresh(e) && fresh(V) && fresh(H) && fresh(ort)
      ensures issymmetric <==> Dense.Symmetric(A)
      ensures issymmetric ==> converged && SymmetricResult(num, Dense.Entries(A), perm)
      ensures !issymmetric ==> GeneralResult(num, Dense.Entries(A), fuel, converged)
      ensures Decomposed()
      ensures issymmetric || converged ==> e[0] >= 0.0 && e[n - 1] <= 0.0
    {
      n := A.Length1;
      var symmetric := Dense.IsSymmetric(A);
      issymmetric := symmetric;
      var d0, e0, V0, H0, ort0 := EigenvalueDecomposition.Storage(A, symmetric);
      d, e, V, H, ort := d0, e0, V0, H0, ort0;
      converged := true;
      perm := [];
      new;
      ghost var A0 := Dense.Entries(A);
      Pipeline(num, fuel, A0);
      assert Dense.Entries(A) == A0;
    }

    /**
      The storage the general constructor sets up: the copy of A goes to V
      for symmetric input and to H otherwise, and d and e start at zero.
    */
    static method Storage(A: array2<real>, symmetric: bool)
      returns (d': array<real>, e': array<real>, V': array2<real>, H': array2<real>, ort': array<real>)
      requires A.Length0 == A.Length1
      ensures fresh(d') && fresh(e') && fresh(V') && fresh(H') && fresh(ort')
      ensures d' != e' && d' != ort' && e' != ort' && V' != H'
      ensures d'[..] == Zeros(A.Length1) && e'[..] == Zeros(A.Length1)
      ensures V'.Length0 == A.Length1 && V'.Length1 == A.Length1
      ensures symmetric ==> H'.Length0 == 0 && H'.Length1 == 0 && ort'.Length == 0 && Dense.Entries(V') == Dense.Entries(A)
      ensures !symmetric ==> H'.Length0 == A.Length1 && H'.Length1 == A.Length1 && ort'.Length == A.Length1 &&
                             Dense.Entries(H') == Dense.Entries(A)
    {
      var copy := Dense.Copy(A);
      Dense.EntriesEqual(copy, Dense.Entries(A));
      if symmetric {
        V' := copy;
        H' := new real[0, 0];
        ort' := new real[0];
      } else {
        V' := new real[A.Length1, A.Length1];
        H' := copy;
        ort' := new real[A.Length1];
      }
      d' := new real[A.Length1](_ => 0.0);
      e' := new real[A.Length1](_ => 0.0);
    }

    /** The pipeline the symmetry test chose, on the copy of A0 it stored in V or H. */
    method Pipeline(num: Kernels, fuel: nat, ghost A0: Matrix)
      requires Valid() && Square(A0, n) && n >= 1 && PositiveRoots(num)
      requires issymmetric ==> Dense.Entries(V) == A0
      requires !issymmetric ==> Dense.Entries(H) == A0 && d[..] == Zeros(n) && e[..] == Zeros(n)
      modifies this, d, e, V, H, ort
      ensures issymmetric ==> converged && SymmetricResult(num, A0, perm)
      ensures !issymmetric ==> GeneralResult(num, A0, fuel, converged)
      ensures Decomposed()
      ensures issymmetric || converged ==> e[0] >= 0.0 && e[n - 1] <= 0.0
    {
      if issymmetric {
        perm := SymmetricPipeline(num);
        converged := true;
      } else {
        converged := GeneralPipeline(num, fuel);
      }
      if issymmetric || converged {
        EdgesInRange(d[..], e[..]);
      }
    }

    /**
      Decomposition of a matrix of the symmetric type, which stores only
      its lower triangle: it is symmetric by construction, so it goes
      straight to tred2 and tql2 with the full matrix in V.
    */
    constructor FromSymmetric(A: array2<real>, num: Kernels)
      requires A.Length0 == A.Length1 >= 1
      ensures Valid() && n == A.Length1 && issymmetric && converged
      ensures fresh(d) && fresh(e) && fresh(V) && fresh(H) && fresh(ort)
      ensures SymmetricResult(num, Dense.LowerExpanded(Dense.Entries(A)), perm)
      ensures Decomposed()
      ensures e[0] >= 0.0 && e[n - 1] <= 0.0
    {
      n := A.Length1;
      d := new real[A.Length1](_ => 0.0);
      e := new real[A.Length1](_ => 0.0);
      issymmetric := true;
      var full := Dense.ExpandLower(A);
      V := full;
      H := new real[0, 0];
      ort := new real[0];
      converged := true;
      perm := [];
      new;
      perm := SymmetricPipeline(num);
      EdgesInRange(d[..], e[..]);
    }

    /** tred2 then tql2 on the matrix V holds. */
    method SymmetricPipeline(num: Kernels) returns (ghost perm': seq<int>)
      requires Valid() && issymmetric && n >= 1
      modifies d, e, V
      ensures SymmetricResult(num, old(Dense.Entries(V)), perm')
    {
      Tred2(num);
      perm' := Tql2(num);
    }

    /** orthes then hqr2 on the matrix H holds, with d and e starting at zero. */
    method GeneralPipeline(num: Kernels, fuel: nat) returns (done: bool)
      requires General() && PositiveRoots(num) && d[..] == Zeros(n) && e[..] == Zeros(n)
      modifies H, V, d, e, ort
      ensures GeneralResult(num, old(Dense.Entries(H)), fuel, done)
      ensures done ==> ConjugatePairs(d[..], e[..])
    {
      Orthes(num);
      done := Hqr2(num, fuel);
    }

    /* ---------------- getD ---------------- */

    /**
      The block diagonal eigenvalue matrix: cleared, then d(i) on the
      diagonal and e(i) to the right of it when positive, to the left when
      negative. The writes stay inside the matrix only when the first
      imaginary part is not negative and the last is not positive, which
      both result layouts guarantee (Spectrum.EdgesInRange).
    */
    method GetD() returns (D: array2<real>)
      requires Valid()
      requires n > 0 ==> e[0] >= 0.0 && e[n - 1] <= 0.0
      ensures fresh(D) && D.Length0 == n && D.Length1 == n
      ensures forall i, j :: 0 <= i < n && 0 <= j < n ==> D[i, j] == BlockEntry(d[..], e[..], i, j)
    {
      D := new real[n, n]((i, j) => 0.0);
      for i := 0 to n
        invariant forall r, c :: 0 <= r < n && 0 <= c < n ==>
          D[r, c] == if r < i then BlockEntry(d[..], e[..], r, c) else 0.0
      {
        D[i, i] := d[i];
        if e[i] > 0.0 {
          D[i, i + 1] := e[i];
        } else if e[i] < 0.0 {
          D[i, i - 1] := e[i];
        }
      }
    }

    /* ---------------- tql2: sort of eigenvalues and vectors ---------------- */

    /**
      The inner scan of the selection sort: the first position k >= i
      holding the smallest of d(i) .. d(n-1) (strict comparison, so an
      earlier equal value is kept), and that value.
    */
    method SmallestFrom(i: int) returns (k: int, p: real)
      requires Valid() && 0 <= i < n
      ensures i <= k < n && p == d[k]
      ensures forall j :: i <= j < n ==> p <= d[j]
      ensures forall j :: i <= j < k ==> p < d[j]
    {
      k := i;
      p := d[i];
      for j := i + 1 to n
        invariant i <= k < j && p == d[k]
        invariant forall t :: i <= t < j ==> p <= d[t]
        invariant forall t :: i <= t < k ==> p < d[t]
      {
        if d[j] < p {
          k := j;
          p := d[j];
        }
      }
    }

    /**
      One exchange of the sort: d(i) and d(k) swap places (p is the value
      found at k), and so do columns i and k of V.
    */
    method SwapEigenpairs(i: int, k: int, p: real)
      requires Valid() && 0 <= i < n && 0 <= k < n && p == d[k]
      modifies d, V
      ensures d[..] == Swap(old(d[..]), i, k)
      ensures forall r, c :: 0 <= r < n && 0 <= c < n ==>
        V[r, c] == old(V[r, if c == i then k else if c == k then i else c])
    {
      d[k] := d[i];
      d[i] := p;
      Dense.SwapColumns(V, i, k);
    }

    /** d(0) .. d(i-1) are in place: each is at most every later entry. */
    ghost predicate SortedBelow(i: int)
      requires Valid()
      reads d
    {
      forall a, b :: 0 <= a < i && a < b < n ==> d[a] <= d[b]
    }

    /**
      d and the columns of V are the entries d0 and the columns of V0 moved
      by one and the same permutation, and d holds the same values as d0.
    */
    ghost predicate MovedBy(perm: seq<int>, d0: seq<real>, V0: Matrix)
      requires Valid()
      reads d, V
    {
      && IsPermutation(perm, n) && |d0| == n && |V0| == n
      && (forall j :: 0 <= j < n ==> |V0[j]| == n)
      && multiset(d[..]) == multiset(d0)
      && (forall k :: 0 <= k < n ==> d[k] == d0[perm[k]])
      && (forall j, k :: 0 <= j < n && 0 <= k < n ==> V[j, k] == V0[j][perm[k]])
    }

    /**
      One pass of the selection sort: the smallest remaining eigenvalue is
      brought to position i together with its column of V; nothing is
      exchanged when it is already there.
    */
    method SortPass(i: int, ghost perm: seq<int>, ghost d0: seq<real>, ghost V0: Matrix)
      returns (ghost perm': seq<int>)
      requires Valid() && 0 <= i < n - 1
      requires SortedBelow(i) && MovedBy(perm, d0, V0)
      modifies d, V
      ensures SortedBelow(i + 1) && MovedBy(perm', d0, V0)
      ensures (forall j :: i < j < n ==> old(d[i]) <= old(d[j])) ==> unchanged(d, V) && perm' == perm
    {
      var k, p := SmallestFrom(i);
      perm' := perm;
      if k != i {
        ghost var before := d[..];
        perm' := ExchangeEigenpairs(i, k, p, perm, d0, V0);
        SelectionStep(before, i, k);
        assert d[..] == Swap(before, i, k);
      }
    }

    /**
      Exchanging d(i) with d(k) and column i of V with column k keeps d and
      V moved from d0 and V0 by one permutation: the old one with i and k
      exchanged.
    */
    method ExchangeEigenpairs(i: int, k: int, p: real, ghost perm: seq<int>, ghost d0: seq<real>, ghost V0: Matrix)
      returns (ghost perm': seq<int>)
      requires Valid() && 0 <= i < n && 0 <= k < n && p == d[k]
      requires MovedBy(perm, d0, V0)
      modifies d, V
      ensures d[..] == Swap(old(d[..]), i, k) && perm' == Swap(perm, i, k)
      ensures MovedBy(perm', d0, V0)
    {
      ghost var before := d[..];
      SwapEigenpairs(i, k, p);
      SwapPermutation(perm, n, i, k);
      SwapMultiset(before, i, k);
      perm' := Swap(perm, i, k);
      forall t | 0 <= t < n
        ensures d[t] == d0[perm'[t]]
      {
        var t' := if t == i then k else if t == k then i else t;
        assert d[t] == before[t'] && perm'[t] == perm[t'];
      }
      forall j, c | 0 <= j < n && 0 <= c < n
        ensures V[j, c] == V0[j][perm'[c]]
      {
        var c' := if c == i then k else if c == k then i else c;
        assert V[j, c] == old(V[j, c']) && perm'[c] == perm[c'];
      }
    }

    /**
      Selection sort of the eigenvalues into ascending order, swapping the
      matching columns of V with them: one permutation `perm` moves both,
      so column k of V keeps belonging to d(k), and no row moves.
    */
    method SortEigenpairs() returns (ghost perm: seq<int>)
      requires Valid()
      modifies d, V
      ensures IsPermutation(perm, n)
      ensures Sorted(d[..])
      ensures multiset(d[..]) == multiset(old(d[..]))
      ensures forall k :: 0 <= k < n ==> d[k] == old(d[..])[perm[k]]
      ensures forall j, k :: 0 <= j < n && 0 <= k < n ==> V[j, k] == old(Dense.Entries(V))[j][perm[k]]
    {
      ghost var d0, V0 := d[..], Dense.Entries(V);
      perm := seq(n, k => k);
      NothingMoved(perm, d0, V0);
      var i := 0;
      while i < n - 1
        invariant 0 <= i <= n
        invariant SortedBelow(i) && MovedBy(perm, d0, V0)
      {
        perm := SortPass(i, perm, d0, V0);
        i := i + 1;
      }
      AllSorted(i);
    }

    /** Before the first pass: the identity moves d0 and V0 onto themselves. */
    lemma NothingMoved(perm: seq<int>, d0: seq<real>, V0: Matrix)
      requires Valid() && perm == seq(n, k => k) && d0 == d[..] && V0 == Dense.Entries(V)
      ensures SortedBelow(0) && MovedBy(perm, d0, V0)
    {
    }

    /** After the last pass (i >= n - 1) every entry is in place. */
    lemma AllSorted(i: int)
      requires Valid() && SortedBelow(i) && i >= n - 1
      ensures Sorted(d[..])
    {
      forall a, b | 0 <= a < b < n
        ensures d[a] <= d[b]
      {
      }
    }

    /* ---------------- symmetric pipeline ---------------- */

    /**
      Householder tridiagonalisation of V (which holds A): the diagonal,
      the sub-diagonal and the transformation matrix come from the
      numerical kernel; the unused e(0) is cleared.
    */
    method Tred2(num: Kernels)
      requires Valid() && n >= 1
      modifies d, e, V
      ensures e[0] == 0.0
      ensures var t := Tred2Of(num, old(Dense.Entries(V)));
        d[..] == t.d && e[..] == t.e && Dense.Entries(V) == t.V
    {
      var A := Dense.Entries(V);
      ghost var t := Tred2Of(num, A);
      Dense.FillVector(d, j => num.tred2Diag(A, j));
      Dense.FillVector(e, j => num.tred2Sub(A, j));
      Dense.FillMatrix(V, (i, j) => num.tred2Basis(A, i, j));
      e[0] := 0.0;
      assert d[..] == t.d;
      assert e[..] == t.e;
      Dense.EntriesEqual(V, t.V);
    }

    /** The sub-diagonal moved to positions 0 .. n-2, and a zero at n-1. */
    method ShiftSubdiagonal()
      requires Valid() && n >= 1
      modifies e
      ensures e[n - 1] == 0.0
      ensures forall i :: 0 <= i < n - 1 ==> e[i] == old(e[i + 1])
    {
      for i := 1 to n
        invariant forall t :: 0 <= t < i - 1 ==> e[t] == old(e[t + 1])
        invariant forall t :: i - 1 <= t < n ==> e[t] == old(e[t])
      {
        e[i - 1] := e[i];
      }
      e[n - 1] := 0.0;
    }

    /**
      The symmetric tridiagonal QL algorithm: after the sub-diagonal shift,
      the converged eigenvalues and rotated vectors come from the numerical
      kernel, every e(l) is cleared, and the sort leaves the eigenvalues
      ascending, each with its own column of V.
    */
    method Tql2(num: Kernels) returns (ghost perm: seq<int>)
      requires Valid() && n >= 1
      modifies d, e, V
      ensures IsPermutation(perm, n)
      ensures Sorted(d[..]) && AllZero(e[..])
      ensures forall k :: 0 <= k < n ==>
        d[k] == num.qlValue(old(d[..]), ShiftDown(old(e[..])), old(Dense.Entries(V)), perm[k])
      ensures forall j, k :: 0 <= j < n && 0 <= k < n ==>
        V[j, k] == num.qlVector(old(d[..]), ShiftDown(old(e[..])), old(Dense.Entries(V)), j, perm[k])
    {
      ghost var dIn, eIn, VIn := d[..], e[..], Dense.Entries(V);
      ShiftSubdiagonal();
      var d0, e0, V0 := d[..], e[..], Dense.Entries(V);
      assert d0 == dIn && V0 == VIn && e0 == ShiftDown(eIn);
      QLIterations(num, d0, e0, V0);
      perm := SortEigenpairs();
    }

    /**
      The QL iterations of tql2 proper, from the tridiagonal d, the shifted
      sub-diagonal e and the basis V: eigenvalues and rotated vectors come
      from the numerical kernel, and each e(l) is cleared once d(l) has
      converged.
    */
    method QLIterations(num: Kernels, d0: seq<real>, e0: seq<real>, V0: Matrix)
      requires Valid() && d0 == d[..] && e0 == e[..] && V0 == Dense.Entries(V)
      modifies d, e, V
      ensures AllZero(e[..])
      ensures forall l :: 0 <= l < n ==> d[l] == num.qlValue(d0, e0, V0, l)
      ensures forall i, j :: 0 <= i < n && 0 <= j < n ==> V[i, j] == num.qlVector(d0, e0, V0, i, j)
    {
      Dense.FillVector(d, l => num.qlValue(d0, e0, V0, l));
      Dense.FillMatrix(V, (i, j) => num.qlVector(d0, e0, V0, i, j));
      Dense.FillVector(e, l => 0.0);
    }

    /* ---------------- general pipeline ---------------- */

    /**
      Orthogonal reduction of H (which holds A) to Hessenberg form, with
      the accumulated transformations in V; all three results come from the
      numerical kernel.
    */
    method Orthes(num: Kernels)
      requires General()
      modifies H, V, ort
      ensures var h := OrthesOf(num, old(Dense.Entries(H)));
        Dense.Entries(H) == h.H && Dense.Entries(V) == h.V && ort[..] == h.ort
    {
      var A := Dense.Entries(H);
      ghost var h := OrthesOf(num, A);
      Dense.FillVector(ort, i => num.orthesWork(A, i));
      Dense.FillMatrix(V, (i, j) => num.orthesBasis(A, i, j));
      Dense.FillMatrix(H, (i, j) => num.orthesHessenberg(A, i, j));
      assert ort[..] == h.ort;
      Dense.EntriesEqual(V, h.V);
      Dense.EntriesEqual(H, h.H);
    }

    /* ---------------- hqr2: matrix norm and deflation search ---------------- */

    /**
      The norm hqr2 compares against: the sum of the absolute values of the
      upper Hessenberg band of H. It is zero exactly when that band is.
    */
    method HessenbergNorm() returns (norm: real)
      requires General()
      ensures norm == Dense.BandNorm(Dense.Entries(H), n, n)
      ensures norm == 0.0 <==> forall i, j :: 0 <= i < n && Max(i - 1, 0) <= j < n ==> H[i, j] == 0.0
    {
      ghost var E := Dense.Entries(H);
      norm := 0.0;
      for i := 0 to n
        invariant norm == Dense.BandNorm(E, i, n)
      {
        for j := Max(i - 1, 0) to n
          invariant norm == Dense.BandNorm(E, i, n) + Dense.RowSum(E, i, Max(i - 1, 0), j)
        {
          assert H[i, j] == E[i][j];
          norm := norm + Abs(H[i, j]);
        }
      }
      Dense.BandNormZero(E, n, n);
    }

    /** The storage hqr2 works on, as a snapshot. */
    ghost function Current(): (w: Work)
      requires General()
      reads H, V, d, e
      ensures Sized(w, n)
    {
      Work(Dense.Entries(H), Dense.Entries(V), d[..], e[..])
    }

    /**
      Search upwards from the bottom of the active window for a small
      sub-diagonal entry (Schur.DeflationRow: the largest such index in
      1 .. top, or 0 when there is none).
    */
    method DeflationSearch(num: Kernels, top: int, norm: real) returns (l: int)
      requires General() && 0 <= top < n
      ensures l == DeflationRow(num, Dense.Entries(H), top, norm)
    {
      ghost var E := Dense.Entries(H);
      l := top;
      while l > 0
        invariant 0 <= l <= top
        invariant DeflationRow(num, E, top, norm) == DeflationRow(num, E, l, norm)
      {
        var small := Negligible(num, l, norm);
        if small {
          break;
        }
        l := l - 1;
      }
    }

    /** hqr2's test of H(l,l-1) against eps times the scale beside it (Schur.SmallSubdiagonal). */
    method Negligible(num: Kernels, l: int, norm: real) returns (small: bool)
      requires General() && 1 <= l < n
      ensures small == SmallSubdiagonal(num, Dense.Entries(H), l, norm)
    {
      ghost var E := Dense.Entries(H);
      var s := Abs(H[l - 1, l - 1]) + Abs(H[l, l]);
      if s == 0.0 {
        s := norm;
      }
      assert s == DeflationScale(E, l, norm) && H[l, l - 1] == E[l][l - 1];
      small := Abs(H[l, l - 1]) < num.eps * s;
    }

    /* ---------------- hqr2: convergence of a 2-by-2 block ---------------- */

    /**
      Two roots found at rows top-1 and top (Schur.TwoRootsOf): a real pair
      when the discriminant is non-negative, with the block brought to upper
      triangular form, and a conjugate pair otherwise.
    */
    method TwoRoots(num: Kernels, top: int, exshift: real) returns (discriminant: real)
      requires General() && 1 <= top < n
      modifies H, V, d, e
      ensures discriminant == PairDiscriminant(old(H[top - 1, top - 1]), old(H[top - 1, top]),
                                               old(H[top, top - 1]), old(H[top, top]))
      ensures Current() == TwoRootsOf(num, old(Current()), top, exshift)
    {
      var w := H[top, top - 1] * H[top - 1, top];
      var p := (H[top - 1, top - 1] - H[top, top]) / 2.0;
      var q := p * p + w;
      assert q == PairDiscriminant(H[top - 1, top - 1], H[top - 1, top], H[top, top - 1], H[top, top]);
      discriminant := q;
      if q >= 0.0 {
        RealPair(num, top, exshift, p, w);
      } else {
        ComplexPair(num, top, exshift, p, q);
      }
    }

    /** The real-pair branch of TwoRoots; p and w as computed there. */
    method RealPair(num: Kernels, top: int, exshift: real, p: real, w: real)
      requires General() && 1 <= top < n
      requires p == (H[top - 1, top - 1] - H[top, top]) / 2.0 && w == H[top, top - 1] * H[top - 1, top]
      requires p * p + w >= 0.0
      modifies H, V, d, e
      ensures Current() == TwoRootsOf(num, old(Current()), top, exshift)
    {
      ghost var s := Current();
      assert p == (s.H[top - 1][top - 1] - s.H[top][top]) / 2.0 && w == s.H[top][top - 1] * s.H[top - 1][top];
      var z := num.sqrt(Abs(p * p + w));
      ShiftBlockDiagonal(top, exshift);
      var x := H[top, top];
      assert x == s.H[top][top] + exshift && H[top, top - 1] == s.H[top][top - 1];
      if p >= 0.0 {
        z := p + z;
      } else {
        z := p - z;
      }
      assert z == RealPairOffset(num, p, p * p + w);
      var d2 := x + z;
      if z != 0.0 {
        d2 := x - num.div(w, z);
      }
      ghost var H1 := Dense.Entries(H);
      assert H1 == BlockShifted(s.H, top, exshift);
      SetPair(top, x + z, d2, 0.0, 0.0);
      assert d[..] == s.d[top - 1 := x + z][top := d2] && e[..] == s.e[top - 1 := 0.0][top := 0.0];
      TriangularizePair(num, top, z);
      ghost var rot := PairRotation(num, s.H[top][top - 1], z);
      assert Dense.Entries(H) == Dense.ColumnsRotated(Dense.RowsRotated(H1, n, top - 1, top, top - 1, rot.0, rot.1),
                                                      n, top - 1, top, 0, top, rot.0, rot.1);
      assert Dense.Entries(V) == Dense.ColumnsRotated(s.V, n, top - 1, top, 0, n - 1, rot.0, rot.1);
      RealPairResult(num, s, top, exshift, p, w, z, x, d2, Dense.Entries(H), Dense.Entries(V), d[..], e[..]);
    }

    /** The conjugate-pair branch of TwoRoots; p and q as computed there. */
    method ComplexPair(num: Kernels, top: int, exshift: real, p: real, q: real)
      requires General() && 1 <= top < n
      requires p == (H[top - 1, top - 1] - H[top, top]) / 2.0 && q == p * p + H[top, top - 1] * H[top - 1, top]
      requires q < 0.0
      modifies H, d, e
      ensures Current() == TwoRootsOf(num, old(Current()), top, exshift)
    {
      ghost var s := Current();
      var z := num.sqrt(Abs(q));
      ShiftBlockDiagonal(top, exshift);
      var x := H[top, top];
      SetPair(top, x + p, x + p, z, -z);
      ComplexPairResult(num, s, top, exshift, p, q, x, Dense.Entries(H), d[..], e[..]);
    }

    /** Store the eigenvalue pair (d1 + i e1, d2 + i e2) at rows top-1 and top. */
    method SetPair(top: int, d1: real, d2: real, e1: real, e2: real)
      requires Valid() && 1 <= top < n
      modifies d, e
      ensures d[..] == old(d[..])[top - 1 := d1][top := d2] && e[..] == old(e[..])[top - 1 := e1][top := e2]
    {
      d[top - 1] := d1;
      d[top] := d2;
      e[top - 1] := e1;
      e[top] := e2;
    }

    /** Adds the accumulated shift back to the two diagonal entries of a converged block. */
    method ShiftBlockDiagonal(top: int, exshift: real)
      requires General() && 1 <= top < n
      modifies H
      ensures Dense.Entries(H) == BlockShifted(old(Dense.Entries(H)), top, exshift)
      ensures H[top, top] == old(H[top, top]) + exshift && H[top, top - 1] == old(H[top, top - 1])
    {
      ghost var H0 := Dense.Entries(H);
      H[top, top] := H[top, top] + exshift;
      H[top - 1, top - 1] := H[top - 1, top - 1] + exshift;
      Dense.EntriesEqual(H, BlockShifted(H0, top, exshift));
    }

    /**
      The plane rotation that makes a converged real 2-by-2 block upper
      triangular: rows top-1, top of H from column top-1 on, then columns
      top-1, top of H down to row top, then columns top-1, top of V. The
      rotation (p, q) is the normalised (H(top,top-1), z).
    */
    method TriangularizePair(num: Kernels, top: int, z: real)
      requires General() && 1 <= top < n
      modifies H, V
      ensures var rot := PairRotation(num, old(H[top, top - 1]), z);
        && Dense.Entries(H) == Dense.ColumnsRotated(
             Dense.RowsRotated(old(Dense.Entries(H)), n, top - 1, top, top - 1, rot.0, rot.1),
             n, top - 1, top, 0, top, rot.0, rot.1)
        && Dense.Entries(V) == Dense.ColumnsRotated(old(Dense.Entries(V)), n, top - 1, top, 0, n - 1, rot.0, rot.1)
    {
      ghost var H0 := Dense.Entries(H);
      var p, q := Rotation(num, H[top, top - 1], z);
      Dense.RotateRows(H, top - 1, top, top - 1, p, q);
      ghost var H1 := Dense.Entries(H);
      assert H1 == Dense.RowsRotated(H0, n, top - 1, top, top - 1, p, q);
      Dense.RotateColumns(H, top - 1, top, 0, top, p, q);
      Dense.RotateColumns(V, top - 1, top, 0, n - 1, p, q);
    }

    /** The normalised rotation (p, q) of hqr2's real-pair case, computed as the source does. */
    static method Rotation(num: Kernels, x: real, z: real) returns (p: real, q: real)
      ensures (p, q) == PairRotation(num, x, z)
    {
      var s := Abs(x) + Abs(z);
      p := num.div(x, s);
      q := num.div(z, s);
      var r := num.sqrt(p * p + q * q);
      assert p * p + q * q == SumOfSquares(p, q);
      p := num.div(p, r);
      q := num.div(q, r);
    }

    /* ---------------- hqr2: shift and bulge start ---------------- */

    /**
      Form the shift (x, y, w) from the trailing 2-by-2 block
      (Schur.ShiftChoice) and subtract from the diagonal H(0,0) .. H(top,top)
      what the ad hoc shifts add to the accumulated shift.
    */
    method FormShift(num: Kernels, l: int, top: int, iter: int, exshift: real)
      returns (x: real, y: real, w: real, shift: real)
      requires General() && 0 <= l && l + 2 <= top < n
      modifies H
      ensures Shift(x, y, w, shift) == ShiftChoice(num, old(Dense.Entries(H)), l, top, iter, exshift)
      ensures Dense.Entries(H) == Dense.DiagonalShifted(old(Dense.Entries(H)), n, top, shift - exshift)
    {
      ghost var H0 := Dense.Entries(H);
      assert H[top, top - 1] == H0[top][top - 1] && H[top - 1, top - 2] == H0[top - 1][top - 2];
      x := H[top, top];
      y := 0.0;
      w := 0.0;
      if l < top {
        y := H[top - 1, top - 1];
        w := H[top, top - 1] * H[top - 1, top];
      }
      assert x == H0[top][top] && y == H0[top - 1][top - 1] && w == H0[top][top - 1] * H0[top - 1][top];
      ShiftChoiceOf(num, H0, l, top, iter, exshift, x, y, w);
      shift := exshift;
      if iter == 10 {
        x, y, w, shift := WilkinsonShift(top, x, shift);
        assert Shift(x, y, w, shift) == ShiftChoice(num, H0, l, top, iter, exshift);
      } else if iter == 30 && ShiftDiscriminant(x, y, w) > 0.0 {
        x, y, w, shift := MatlabStep(num, top, x, y, w, shift);
      } else {
        Dense.DiagonalShiftedByZero(Dense.Entries(H), n, top);
        assert Shift(x, y, w, shift) == ShiftChoice(num, H0, l, top, iter, exshift);
      }
    }

    /** Wilkinson's ad hoc shift: x = H(top,top) leaves the diagonal and (x, y, w) comes from the sub-diagonal. */
    method WilkinsonShift(top: int, x: real, exshift: real) returns (x': real, y': real, w': real, shift: real)
      requires General() && 2 <= top < n && x == H[top, top]
      modifies H
      ensures var s := Abs(old(H[top, top - 1])) + Abs(old(H[top - 1, top - 2]));
        x' == 0.75 * s && y' == 0.75 * s && w' == -0.4375 * s * s && shift == exshift + x
      ensures Dense.Entries(H) == Dense.DiagonalShifted(old(Dense.Entries(H)), n, top, x)
    {
      shift := exshift + x;
      Dense.ShiftDiagonal(H, top, x);
      var s := Abs(H[top, top - 1]) + Abs(H[top - 1, top - 2]);
      x' := 0.75 * s;
      y' := x';
      w' := -0.4375 * s * s;
    }

    /** MATLAB's ad hoc shift, taken when the trailing block's discriminant is positive. */
    method MatlabStep(num: Kernels, top: int, x: real, y: real, w: real, exshift: real)
      returns (x': real, y': real, w': real, shift: real)
      requires General() && 0 <= top < n && ShiftDiscriminant(x, y, w) > 0.0
      modifies H
      ensures x' == 0.964 && y' == 0.964 && w' == 0.964 && shift == exshift + MatlabShift(num, x, y, w)
      ensures Dense.Entries(H) == Dense.DiagonalShifted(old(Dense.Entries(H)), n, top, MatlabShift(num, x, y, w))
    {
      var s := ShiftDiscriminant(x, y, w);
      s := num.sqrt(s);
      if y < x {
        s := -s;
      }
      s := x - num.div(w, (y - x) / 2.0 + s);
      assert s == MatlabShift(num, x, y, w);
      Dense.ShiftDiagonal(H, top, s);
      shift := exshift + s;
      x', y', w' := 0.964, 0.964, 0.964;
    }

    /**
      Search upwards from top-2 for the row where the double QR step may
      start (Schur.BulgeRow), and the bulge vector (p, q, r) there.
    */
    method BulgeStart(num: Kernels, l: int, top: int, x: real, y: real, w: real)
      returns (m: int, p: real, q: real, r: real)
      requires General() && 0 <= l && l + 2 <= top < n
      ensures m == BulgeRow(num, Dense.Entries(H), l, top - 2, x, y, w)
      ensures (p, q, r) == BulgeVector(num, Dense.Entries(H), m, x, y, w)
    {
      var E := Dense.Entries(H);
      p, q, r := 0.0, 0.0, 0.0;
      m := top - 2;
      while m >= l
        invariant l <= m <= top - 2
        invariant BulgeRow(num, E, l, top - 2, x, y, w) == BulgeRow(num, E, l, m, x, y, w)
      {
        var v := BulgeVector(num, E, m, x, y, w);
        p, q, r := v.0, v.1, v.2;
        if m == l {
          break;
        }
        if BulgeNegligible(num, E, m, (p, q, r)) {
          break;
        }
        m := m - 1;
      }
    }

    /** Zero the two diagonals below the sub-diagonal in rows m+2 .. top (the second from row m+3). */
    method ClearBelowSubdiagonal(m: int, top: int)
      requires General() && 0 <= m && m + 2 <= top < n
      modifies H
      ensures Dense.Entries(H) == Cleared(old(Dense.Entries(H)), m, top)
    {
      ghost var H0 := Dense.Entries(H);
      for i := m + 2 to top + 1
        invariant forall r, c | 0 <= r < n && 0 <= c < n ::
          H[r, c] == if m + 2 <= r < i && (c == r - 2 || (c == r - 3 && r > m + 2)) then 0.0 else H0[r][c]
      {
        H[i, i - 2] := 0.0;
        if i > m + 2 {
          H[i, i - 3] := 0.0;
        }
      }
      Dense.EntriesEqual(H, Cleared(H0, m, top));
    }

    /* ---------------- hqr2: the double QR sweep ---------------- */

    /**
      Step k of the double QR sweep over rows l..top starting at m
      (Schur.TakeStep). At k == m the bulge vector (p0, q0, r0) is used; at
      k > m column k-1 is scaled by its magnitude, and a zero magnitude
      skips this k. A zero signed norm changes nothing; otherwise H(k,k-1)
      is set and the reflection is applied.
    */
    method QRStep(num: Kernels, k: int, m: int, l: int, top: int, p0: real, q0: real, r0: real)
      returns (outcome: StepOutcome)
      requires General() && 0 <= l <= m <= k && k + 1 <= top < n
      modifies H, V
      ensures StepResult(Dense.Entries(H), Dense.Entries(V), outcome) ==
              TakeStep(num, old(Dense.Entries(H)), old(Dense.Entries(V)), k, m, l, top, (p0, q0, r0))
    {
      ghost var H0, V0 := Dense.Entries(H), Dense.Entries(V);
      ghost var h := StepVector(num, H0, k, m, top, (p0, q0, r0));
      var notlast := k != top - 1;
      var p, q, r, x := p0, q0, r0, 0.0;
      if k != m {
        p, q, r, x := ScaledColumn(num, k, m, top, (p0, q0, r0));
        if x == 0.0 {
          outcome := Skipped;
          return;
        }
      }
      assert h == Householder(p, q, r, x);
      var s := SignedNormOf(num, h, p, q, r);
      if s == 0.0 {
        outcome := NoReflection;
        return;
      }
      SetLead(k, m, l, s, x);
      ghost var H1 := Dense.Entries(H);
      var c := ReflectorFor(num, h, p, q, r, s);
      ApplyReflection(k, notlast, top, c);
      outcome := Reflected;
      ghost var H2, V2 := Dense.Entries(H), Dense.Entries(V);
      ReflectedStep(num, H0, V0, k, m, l, top, (p0, q0, r0), h, s, c, H1, H2, V2);
    }

    /** The norm of (p, q, r) with the sign of p (Schur.SignedNorm). */
    static method SignedNormOf(num: Kernels, ghost h: Householder, p: real, q: real, r: real) returns (s: real)
      requires h.p == p && h.q == q && h.r == r
      ensures s == SignedNorm(num, h)
    {
      s := num.sqrt(p * p + q * q + r * r);
      assert p * p + q * q + r * r == SumOfSquares3(p, q, r);
      if p < 0.0 {
        s := -s;
      }
    }

    /** The coefficients x, y, z, q, r of the reflection (Schur.ReflectorOf). */
    static method ReflectorFor(num: Kernels, ghost h: Householder, p: real, q: real, r: real, s: real)
      returns (c: Reflector)
      requires h.p == p && h.q == q && h.r == r
      ensures c == ReflectorOf(num, h, s)
    {
      var p' := p + s;
      c := Reflector(num.div(p', s), num.div(q, s), num.div(r, s), num.div(q, p'), num.div(r, p'));
    }

    /**
      Column k-1 below the diagonal (two entries at the last step) and its
      magnitude x; divided by x when x is not zero, which gives the step
      vector of Schur.StepVector.
    */
    method ScaledColumn(num: Kernels, k: int, m: int, top: int, v: (real, real, real))
      returns (p: real, q: real, r: real, x: real)
      requires General() && 0 <= m < k && k + 1 <= top < n
      ensures x == Magnitude(Dense.Entries(H), k, top)
      ensures x != 0.0 ==> Householder(p, q, r, x) == StepVector(num, Dense.Entries(H), k, m, top, v)
    {
      ghost var E := Dense.Entries(H);
      var notlast := k != top - 1;
      p := H[k, k - 1];
      q := H[k + 1, k - 1];
      r := if notlast then H[k + 2, k - 1] else 0.0;
      assert p == E[k][k - 1] && q == E[k + 1][k - 1] && r == if notlast then E[k + 2][k - 1] else 0.0;
      x := Abs(p) + Abs(q) + Abs(r);
      if x != 0.0 {
        p := num.div(p, x);
        q := num.div(q, x);
        r := num.div(r, x);
      }
    }

    /** H(k,k-1) before the reflection (Schur.Lead). */
    method SetLead(k: int, m: int, l: int, s: real, x: real)
      requires General() && 0 <= l <= m <= k < n
      modifies H
      ensures Dense.Entries(H) == Lead(old(Dense.Entries(H)), k, m, l, s, x)
    {
      ghost var H0 := Dense.Entries(H);
      if k != m {
        H[k, k - 1] := -s * x;
      } else if l != m {
        H[k, k - 1] := -H[k, k - 1];
      }
      Dense.EntriesEqual(H, Lead(H0, k, m, l, s, x));
    }

    /**
      The row modification of H (rows k .. k+2 from column k on), its
      column modification (columns k .. k+2 in rows 0 .. min(top, k+3)) and
      the accumulation into V (columns k .. k+2 in every row).
    */
    method ApplyReflection(k: int, notlast: bool, top: int, c: Reflector)
      requires General() && 0 <= k && k + 1 <= top < n && (notlast <==> k != top - 1)
      modifies H, V
      ensures Dense.Entries(H) == Dense.ColumnsReflected(
                Dense.RowsReflected(old(Dense.Entries(H)), n, k, notlast, c.x, c.y, c.z, c.q, c.r),
                n, k, notlast, 0, Min(top, k + 3), c.x, c.y, c.z, c.q, c.r)
      ensures Dense.Entries(V) == Dense.ColumnsReflected(old(Dense.Entries(V)), n, k, notlast, 0, n - 1,
                                                         c.x, c.y, c.z, c.q, c.r)
    {
      Dense.ReflectRows(H, k, notlast, c.x, c.y, c.z, c.q, c.r);
      Dense.ReflectColumns(H, k, notlast, 0, Min(top, k + 3), c.x, c.y, c.z, c.q, c.r);
      Dense.ReflectColumns(V, k, notlast, 0, n - 1, c.x, c.y, c.z, c.q, c.r);
    }

    /**
      The double QR sweep: every k from m to top-1 in order, each step on
      the matrices the previous one left (Schur.Sweep), with one outcome per
      step.
    */
    method DoubleQRStep(num: Kernels, l: int, m: int, top: int, p: real, q: real, r: real)
      returns (ghost outcomes: seq<StepOutcome>)
      requires General() && 0 <= l <= m && m + 2 <= top < n
      modifies H, V
      ensures SweepResult(Dense.Entries(H), Dense.Entries(V), outcomes) ==
              Sweep(num, old(Dense.Entries(H)), old(Dense.Entries(V)), m, m, l, top, (p, q, r))
    {
      ghost var S := Sweep(num, Dense.Entries(H), Dense.Entries(V), m, m, l, top, (p, q, r));
      outcomes := [];
      for k := m to top
        invariant Swept(num, S, outcomes, k, m, l, top, (p, q, r))
      {
        outcomes := SweepStep(num, k, m, l, top, p, q, r, S, outcomes);
      }
    }

    /** Step k of the sweep, keeping Swept. */
    method SweepStep(num: Kernels, k: int, m: int, l: int, top: int, p: real, q: real, r: real,
                     ghost S: SweepResult, ghost outcomes: seq<StepOutcome>)
      returns (ghost outcomes': seq<StepOutcome>)
      requires General() && 0 <= l <= m <= k < top < n
      requires Swept(num, S, outcomes, k, m, l, top, (p, q, r))
      modifies H, V
      ensures Swept(num, S, outcomes', k + 1, m, l, top, (p, q, r))
    {
      ghost var H0, V0 := Dense.Entries(H), Dense.Entries(V);
      var outcome := QRStep(num, k, m, l, top, p, q, r);
      outcomes' := outcomes + [outcome];
      SweepUnrolled(num, H0, V0, k, m, l, top, (p, q, r), Dense.Entries(H), Dense.Entries(V), outcome);
    }

    /**
      The sweep so far: finishing it from step k on the current H and V
      gives the whole sweep S, whose outcomes start with those recorded.
    */
    ghost predicate Swept(num: Kernels, S: SweepResult, outcomes: seq<StepOutcome>, k: int, m: int, l: int, top: int,
                          v: (real, real, real))
      requires General() && 0 <= l <= m <= k <= top < n
      reads H, V
    {
      var rest := Sweep(num, Dense.Entries(H), Dense.Entries(V), k, m, l, top, v);
      rest.H == S.H && rest.V == S.V && outcomes + rest.outcomes == S.outcomes
    }

    /* ---------------- hqr2: one pass of the outer loop ---------------- */

    /**
      One pass of hqr2's outer loop over the active window 0 .. top
      (Schur.Pass), with l the result of the deflation search. One root
      found (l == top) stores d(top) and e(top) = 0 and shrinks the window by
      one; two roots found (l == top-1) store a real or conjugate pair and
      shrink it by two; in both cases the iteration count restarts.
      Otherwise one iteration runs on rows l..top and the count goes up.
    */
    method QRPass(num: Kernels, top: int, iter: int, exshift: real, norm: real)
      returns (top': int, iter': int, exshift': real, l: int)
      requires General() && 0 <= top < n
      modifies H, V, d, e
      ensures l == DeflationRow(num, old(Dense.Entries(H)), top, norm)
      ensures Loop(Current(), top', iter', exshift') == Pass(num, Loop(old(Current()), top, iter, exshift), norm)
    {
      ghost var w0 := Current();
      l := DeflationSearch(num, top, norm);
      if l == top {
        OneRoot(top, exshift);
        top', iter', exshift' := top - 1, 0, exshift;
        PassOneRoot(num, w0, top, iter, exshift, norm, Current());
      } else if l == top - 1 {
        var discriminant := TwoRoots(num, top, exshift);
        top', iter', exshift' := top - 2, 0, exshift;
        PassTwoRoots(num, w0, top, iter, exshift, norm, Current());
      } else {
        ghost var H0, V0 := Dense.Entries(H), Dense.Entries(V);
        assert w0.H == H0 && w0.V == V0;
        ghost var m;
        exshift', m := QRIteration(num, l, top, iter, exshift);
        top', iter' := top, iter + 1;
        ghost var H1, V1 := Dense.Entries(H), Dense.Entries(V);
        assert Current() == Work(H1, V1, w0.d, w0.e);
        PassIterated(num, w0, top, iter, exshift, norm, l, H1, V1, exshift', m);
      }
    }

    /** One root found at top (Schur.OneRootOf): the diagonal entry takes the shift back and becomes d(top), with e(top) = 0. */
    method OneRoot(top: int, exshift: real)
      requires General() && 0 <= top < n
      modifies H, d, e
      ensures Current() == OneRootOf(old(Current()), top, exshift)
    {
      ghost var w1 := OneRootOf(Current(), top, exshift);
      H[top, top] := H[top, top] + exshift;
      d[top] := H[top, top];
      e[top] := 0.0;
      Dense.EntriesEqual(H, w1.H);
      assert d[..] == w1.d;
      assert e[..] == w1.e;
    }

    /**
      One iteration on the unreduced window l .. top (Schur.Iterate): form
      the shift, find where the bulge starts (m), clear below the
      sub-diagonal and sweep the double QR step from m.
    */
    method QRIteration(num: Kernels, l: int, top: int, iter: int, exshift: real) returns (exshift': real, ghost m: int)
      requires General() && 0 <= l && l + 2 <= top < n
      modifies H, V
      ensures IterationResult(Dense.Entries(H), Dense.Entries(V), exshift', m) == Iterate(num, old(Dense.Entries(H)), old(Dense.Entries(V)), l, top, iter, exshift)
    {
      ghost var H0, V0 := Dense.Entries(H), Dense.Entries(V);
      assert Square(H0, |H0|) && Square(V0, |H0|) && |H0| == n;
      var x, y, w;
      x, y, w, exshift' := FormShift(num, l, top, iter, exshift);
      ghost var H1 := Dense.Entries(H);
      var start, p, q, r := BulgeStart(num, l, top, x, y, w);
      m := start;
      ClearBelowSubdiagonal(start, top);
      ghost var sw := Sweep(num, Dense.Entries(H), V0, start, start, l, top, (p, q, r));
      ghost var outcomes := DoubleQRStep(num, l, start, top, p, q, r);
      IterationAssembled(num, H0, V0, l, top, iter, exshift, x, y, w, exshift', H1, m, (p, q, r), sw);
    }

    /* ---------------- hqr2 ---------------- */

    /**
      Back-substitution and back-transformation: the eigenvectors of the
      triangular form (left in H) and of the original matrix (left in V)
      come from the numerical kernel; d and e are not changed.
    */
    method BackSubstitute(num: Kernels)
      requires General()
      modifies H, V
      ensures forall i, j | 0 <= i < n && 0 <= j < n ::
        && H[i, j] == num.backsubSchur(old(Dense.Entries(H)), d[..], e[..], i, j)
        && V[i, j] == num.backsubVector(old(Dense.Entries(H)), old(Dense.Entries(V)), d[..], e[..], i, j)
    {
      var H0, V0, d0, e0 := Dense.Entries(H), Dense.Entries(V), d[..], e[..];
      Dense.FillMatrix(V, (i, j) => num.backsubVector(H0, V0, d0, e0, i, j));
      Dense.FillMatrix(H, (i, j) => num.backsubSchur(H0, d0, e0, i, j));
    }

    /**
      Reduction of the Hessenberg matrix H to real Schur form: the outer
      loop (Schur.Run) shrinks the active window from the bottom until it
      is empty, at most `fuel` passes, and `done` says the window emptied.
      Then, unless the band norm of H is zero, the eigenvectors are
      back-substituted from the matrices the loop left. When the window
      emptied, the eigenvalues are in the conjugate-pair layout.
    */
    method Hqr2(num: Kernels, fuel: nat) returns (done: bool)
      requires General() && PositiveRoots(num)
      modifies H, V, d, e
      ensures Hqr2Result(num, old(Current()), old(Dense.BandNorm(Dense.Entries(H), n, n)), fuel, done)
      ensures done ==> ConjugatePairs(d[..], e[..])
    {
      var norm := HessenbergNorm();
      ghost var start := Loop(Current(), n - 1, 0, 0.0);
      ghost var last;
      done, last := OuterLoop(num, norm, fuel);
      RunKeepsPairs(num, start, norm, fuel);
      if norm == 0.0 {
        return;
      }
      BackSubstitute(num);
    }

    /**
      What hqr2 leaves when it starts from the storage `start` with band
      norm `norm`: d and e are those of the outer loop's final state R (at
      most `fuel` passes), `done` says its window emptied, and H and V are
      R's when the norm is zero and otherwise the back-substitution's
      results from R.
    */
    ghost predicate Hqr2Result(num: Kernels, start: Work, norm: real, fuel: nat, done: bool)
      requires General() && Sized(start, n)
      reads H, V, d, e
    {
      var R := Run(num, Loop(start, n - 1, 0, 0.0), norm, fuel);
      && d[..] == R.w.d && e[..] == R.w.e
      && (done <==> R.top < 0)
      && (norm == 0.0 ==> Dense.Entries(H) == R.w.H && Dense.Entries(V) == R.w.V)
      && (norm != 0.0 ==> forall i, j | 0 <= i < n && 0 <= j < n ::
            && H[i, j] == num.backsubSchur(R.w.H, R.w.d, R.w.e, i, j)
            && V[i, j] == num.backsubVector(R.w.H, R.w.V, R.w.d, R.w.e, i, j))
    }

    /** One pass of the outer loop, as a step of Schur.Run with f passes left. */
    method RunPass(num: Kernels, top: int, iter: int, exshift: real, norm: real, ghost f: nat, ghost cur: Loop, ghost R: Loop)
      returns (top': int, iter': int, exshift': real, ghost next: Loop)
      requires General() && 0 <= top < n && f > 0
      requires cur == Loop(Current(), top, iter, exshift) && Run(num, cur, norm, f) == R
      modifies H, V, d, e
      ensures -1 <= top' < n
      ensures next == Loop(Current(), top', iter', exshift')
      ensures Run(num, next, norm, f - 1) == R
    {
      var l;
      top', iter', exshift', l := QRPass(num, top, iter, exshift, norm);
      next := Loop(Current(), top', iter', exshift');
      RunUnrolled(num, cur, next, norm, f);
    }

    /**
      hqr2's outer loop (Schur.Run) from the whole window 0 .. n-1, with
      iteration count and accumulated shift zero, for at most `fuel`
      passes; `done` says the window emptied.
    */
    method OuterLoop(num: Kernels, norm: real, fuel: nat) returns (done: bool, ghost last: Loop)
      requires General()
      modifies H, V, d, e
      ensures last == Run(num, Loop(old(Current()), n - 1, 0, 0.0), norm, fuel)
      ensures Current() == last.w && (done <==> last.top < 0)
    {
      var top, iter, exshift := n - 1, 0, 0.0;
      ghost var cur := Loop(Current(), top, iter, exshift);
      ghost var R := Run(num, cur, norm, fuel);
      var passes := 0;
      while top >= 0 && passes < fuel
        invariant -1 <= top < n && 0 <= passes <= fuel
        invariant cur == Loop(Current(), top, iter, exshift)
        invariant Run(num, cur, norm, fuel - passes) == R
        decreases fuel - passes
      {
        ghost var f: nat := fuel - passes;
        top, iter, exshift, cur := RunPass(num, top, iter, exshift, norm, f, cur, R);
        passes := passes + 1;
      }
      RunStopped(num, cur, norm, fuel - passes);
      last := cur;
      done := top < 0;
    }
  }

  /** The size check both constructors make before anything else. */
  datatype Error = BadSize

  datatype Outcome =
    | Success(value: EigenvalueDecomposition)
    | Failure(error: Error)

  /**
    The general constructor with its size check: a non-square matrix is
    refused with BadSize; a square one is decomposed along the pipeline
    its symmetry selects.
  */
  method Decompose(A: array2<real>, num: Kernels, fuel: nat) returns (r: Outcome)
    requires PositiveRoots(num)
    requires A.Length0 == A.Length1 ==> A.Length1 >= 1
    ensures r.Failure? <==> A.Length0 != A.Length1
    ensures r.Failure? ==> r.error == BadSize
    ensures r.Success? ==>
      && fresh(r.value) && fresh(r.value.d) && fresh(r.value.e) && fresh(r.value.V)
      && fresh(r.value.H) && fresh(r.value.ort)
      && r.value.Valid() && r.value.Decomposed() && r.value.n == A.Length1
      && (r.value.issymmetric <==> Dense.Symmetric(A))
      && (r.value.issymmetric ==> r.value.converged && r.value.SymmetricResult(num, Dense.Entries(A), r.value.perm))
      && (!r.value.issymmetric ==> r.value.GeneralResult(num, Dense.Entries(A), fuel, r.value.converged))
  {
    if A.Length0 != A.Length1 {
      return Failure(BadSize);
    }
    var decomposition := new EigenvalueDecomposition.FromMatrix(A, num, fuel);
    return Success(decomposition);
  }

  /** n zeros: d and e before either pipeline writes them. */
  function Zeros(n: nat): (z: seq<real>)
    ensures |z| == n && AllZero(z)
  {
    seq(n, _ => 0.0)
  }

  /** tred2's results as values: the diagonal, the sub-diagonal with the unused e(0) cleared, and the basis. */
  datatype Tridiagonal = Tridiagonal(d: seq<real>, e: seq<real>, V: Matrix)

  function Tred2Of(num: Kernels, A: Matrix): (t: Tridiagonal)
    ensures |t.d| == |A| && |t.e| == |A| && Square(t.V, |A|)
  {
    Tridiagonal(seq(|A|, j => num.tred2Diag(A, j)),
                seq(|A|, j => if j == 0 then 0.0 else num.tred2Sub(A, j)),
                seq(|A|, i => seq(|A|, j => num.tred2Basis(A, i, j))))
  }

  /** orthes's results as values: the Hessenberg form, the accumulated basis and the working vector. */
  datatype Hessenberg = Hessenberg(H: Matrix, V: Matrix, ort: seq<real>)

  function OrthesOf(num: Kernels, A: Matrix): (h: Hessenberg)
    ensures Square(h.H, |A|) && Square(h.V, |A|) && |h.ort| == |A|
  {
    Hessenberg(seq(|A|, i => seq(|A|, j => num.orthesHessenberg(A, i, j))),
               seq(|A|, i => seq(|A|, j => num.orthesBasis(A, i, j))),
               seq(|A|, i => num.orthesWork(A, i)))
  }

  /** The sub-diagonal of tql2 moved one place down, zero-filled at the end. */
  function ShiftDown(s: seq<real>): (r: seq<real>)
    requires |s| >= 1
    ensures |r| == |s| && r[|s| - 1] == 0.0
    ensures forall i :: 0 <= i < |s| - 1 ==> r[i] == s[i + 1]
  {
    s[1..] + [0.0]
  }
}
