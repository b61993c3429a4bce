/**
  hqr2, the reduction of a Hessenberg matrix to real Schur form, stated on
  values. The working matrices H and V and the eigenvalue arrays d and e
  are snapshots (`Work`), and each stage of the outer loop is a function
  from the snapshot it starts with to the one it leaves:
  - the deflation search;
  - the convergence of one root or of a 2-by-2 block;
  - the choice of shift, the bulge search and the double QR sweep;
  - one pass of the outer loop, and the loop itself.
  The methods of the decomposition object are proved to compute exactly
  these; the lemmas here prove what the source promises about them.
*/
module Schur {
  import opened Numerics
  import opened Spectrum
  import Dense

  /** M is N-by-N. */
  predicate Square(M: Matrix, N: int) {
    Dense.Shaped(M, N, N)
  }

  /** hqr2's working storage: the Hessenberg/Schur matrix, the basis and the eigenvalues found so far. */
  datatype Work = Work(H: Matrix, V: Matrix, d: seq<real>, e: seq<real>)

  predicate Sized(w: Work, N: int) {
    Square(w.H, N) && Square(w.V, N) && |w.d| == N && |w.e| == N
  }

  /* ---------------- deflation search ---------------- */

  /**
    The test of the deflation search: H(l,l-1) is small against its two
    diagonal neighbours, or against the norm when both of those are zero.
  */
  predicate SmallSubdiagonal(num: Kernels, H: Matrix, l: int, norm: real)
    requires Square(H, |H|) && 1 <= l < |H|
  {
    Abs(H[l][l - 1]) < num.eps * DeflationScale(H, l, norm)
  }

  /** The scale of the test: the two diagonal magnitudes beside H(l,l-1), or the norm when both are zero. */
  function DeflationScale(H: Matrix, l: int, norm: real): real
    requires Square(H, |H|) && 1 <= l < |H|
  {
    var s := Abs(H[l - 1][l - 1]) + Abs(H[l][l]);
    if s == 0.0 then norm else s
  }

  /**
    The deflation search upwards from row `from`: the largest l in 1 .. from
    whose sub-diagonal entry is small, or 0 when there is none.
  */
  function DeflationRow(num: Kernels, H: Matrix, from: int, norm: real): (l: int)
    requires Square(H, |H|) && 0 <= from < |H|
    ensures 0 <= l <= from
    ensures 0 < l ==> SmallSubdiagonal(num, H, l, norm)
    ensures forall j :: l < j <= from ==> !SmallSubdiagonal(num, H, j, norm)
    decreases from
  {
    if from == 0 || SmallSubdiagonal(num, H, from, norm) then from
    else DeflationRow(num, H, from - 1, norm)
  }

  /* ---------------- convergence of one or two roots ---------------- */

  /** One root found at top: H(top,top) takes the accumulated shift back and is a real eigenvalue. */
  function OneRootOf(w: Work, top: int, exshift: real): (r: Work)
    requires Sized(w, |w.H|) && 0 <= top < |w.H|
    ensures Sized(r, |w.H|)
  {
    var h := w.H[top][top] + exshift;
    Work(w.H[top := w.H[top][top := h]], w.V, w.d[top := h], w.e[top := 0.0])
  }

  /** ((a - d) / 2)^2 + c b for the block [a, b; c, d]: non-negative exactly when its eigenvalues are real. */
  function PairDiscriminant(a: real, b: real, c: real, d: real): real {
    (a - d) / 2.0 * ((a - d) / 2.0) + c * b
  }

  /** p plus the square root of |q|, with the sign of p. */
  function RealPairOffset(num: Kernels, p: real, q: real): real {
    if p >= 0.0 then p + num.sqrt(Abs(q)) else p - num.sqrt(Abs(q))
  }

  /** The eigenvalues stored for a converged block: real parts d1, d2 and imaginary parts e1, e2. */
  datatype Pair = Pair(d1: real, d2: real, e1: real, e2: real)

  /**
    The pair stored for the converged block [a, b; c, dd] with accumulated
    shift exshift: two real eigenvalues when the discriminant is
    non-negative, otherwise the conjugate pair with real part dd + exshift + p
    and imaginary parts +-sqrt(|discriminant|).
  */
  function PairValues(num: Kernels, a: real, b: real, c: real, dd: real, exshift: real): Pair {
    var p := (a - dd) / 2.0;
    var q := PairDiscriminant(a, b, c, dd);
    var x := dd + exshift;
    if q >= 0.0 then
      var z := RealPairOffset(num, p, q);
      Pair(x + z, if z != 0.0 then x - num.div(c * b, z) else x + z, 0.0, 0.0)
    else
      Pair(x + p, x + p, num.sqrt(Abs(q)), -num.sqrt(Abs(q)))
  }

  function SumOfSquares(a: real, b: real): real {
    a * a + b * b
  }

  /** The rotation (p, q) proportional to (x, z), normalised by the kernel's sqrt. */
  function PairRotation(num: Kernels, x: real, z: real): (real, real) {
    var s := Abs(x) + Abs(z);
    var p := num.div(x, s);
    var q := num.div(z, s);
    var r := num.sqrt(SumOfSquares(p, q));
    (num.div(p, r), num.div(q, r))
  }

  /** H with the accumulated shift added back to H(top-1,top-1) and H(top,top). */
  function BlockShifted(H: Matrix, top: int, exshift: real): (R: Matrix)
    requires Square(H, |H|) && 1 <= top < |H|
    ensures Square(R, |H|)
  {
    var H1 := H[top := H[top][top := H[top][top] + exshift]];
    H1[top - 1 := H1[top - 1][top - 1 := H1[top - 1][top - 1] + exshift]]
  }

  /**
    Two roots found at rows top-1 and top: the block's diagonal takes the
    accumulated shift back and the pair is stored in d and e; a real pair
    is then made upper triangular by the rotation PairRotation, applied to
    rows top-1, top of H (from column top-1 on), to columns top-1, top of H
    (down to row top) and to columns top-1, top of V.
  */
  function TwoRootsOf(num: Kernels, w: Work, top: int, exshift: real): (r: Work)
    requires Sized(w, |w.H|) && 1 <= top < |w.H|
    ensures Sized(r, |w.H|)
  {
    var N := |w.H|;
    var a, b, c, dd := w.H[top - 1][top - 1], w.H[top - 1][top], w.H[top][top - 1], w.H[top][top];
    var v := PairValues(num, a, b, c, dd, exshift);
    var H1 := BlockShifted(w.H, top, exshift);
    var d' := w.d[top - 1 := v.d1][top := v.d2];
    var e' := w.e[top - 1 := v.e1][top := v.e2];
    if PairDiscriminant(a, b, c, dd) >= 0.0 then
      var rot := PairRotation(num, c, RealPairOffset(num, (a - dd) / 2.0, PairDiscriminant(a, b, c, dd)));
      var H2 := Dense.RowsRotated(H1, N, top - 1, top, top - 1, rot.0, rot.1);
      Work(Dense.ColumnsRotated(H2, N, top - 1, top, 0, top, rot.0, rot.1),
           Dense.ColumnsRotated(w.V, N, top - 1, top, 0, N - 1, rot.0, rot.1), d', e')
    else
      Work(H1, w.V, d', e')
  }

  /**
    TwoRootsOf in the terms hqr2 computes a real pair: p = (a - dd) / 2,
    w = c b, the offset z, x = dd + exshift, the second root d2, then the
    rotation of the shifted block.
  */
  lemma RealPairResult(num: Kernels, s: Work, top: int, exshift: real, p: real, w: real, z: real, x: real, d2: real,
                       H': Matrix, V': Matrix, d': seq<real>, e': seq<real>)
    requires Sized(s, |s.H|) && 1 <= top < |s.H|
    requires p == (s.H[top - 1][top - 1] - s.H[top][top]) / 2.0 && w == s.H[top][top - 1] * s.H[top - 1][top]
    requires p * p + w >= 0.0 && z == RealPairOffset(num, p, p * p + w) && x == s.H[top][top] + exshift
    requires d2 == if z != 0.0 then x - num.div(w, z) else x + z
    requires d' == s.d[top - 1 := x + z][top := d2] && e' == s.e[top - 1 := 0.0][top := 0.0]
    requires var rot := PairRotation(num, s.H[top][top - 1], z);
      && H' == Dense.ColumnsRotated(Dense.RowsRotated(BlockShifted(s.H, top, exshift), |s.H|, top - 1, top, top - 1, rot.0, rot.1),
                                    |s.H|, top - 1, top, 0, top, rot.0, rot.1)
      && V' == Dense.ColumnsRotated(s.V, |s.H|, top - 1, top, 0, |s.H| - 1, rot.0, rot.1)
    ensures Work(H', V', d', e') == TwoRootsOf(num, s, top, exshift)
  {
    var a, b, c, dd := s.H[top - 1][top - 1], s.H[top - 1][top], s.H[top][top - 1], s.H[top][top];
    assert (a - dd) / 2.0 == p && c * b == w;
    assert p * p + w == PairDiscriminant(a, b, c, dd);
    assert z == RealPairOffset(num, (a - dd) / 2.0, PairDiscriminant(a, b, c, dd));
    var v := PairValues(num, a, b, c, dd, exshift);
    assert v.d1 == x + z && v.d2 == d2 && v.e1 == 0.0 && v.e2 == 0.0;
  }

  /** TwoRootsOf in the terms hqr2 computes a conjugate pair: p = (a - dd) / 2, q = p^2 + c b, x = dd + exshift. */
  lemma ComplexPairResult(num: Kernels, s: Work, top: int, exshift: real, p: real, q: real, x: real,
                          H': Matrix, d': seq<real>, e': seq<real>)
    requires Sized(s, |s.H|) && 1 <= top < |s.H|
    requires p == (s.H[top - 1][top - 1] - s.H[top][top]) / 2.0
    requires q == p * p + s.H[top][top - 1] * s.H[top - 1][top] && q < 0.0 && x == s.H[top][top] + exshift
    requires var z := num.sqrt(Abs(q));
      d' == s.d[top - 1 := x + p][top := x + p] && e' == s.e[top - 1 := z][top := -z]
    requires H' == BlockShifted(s.H, top, exshift)
    ensures Work(H', s.V, d', e') == TwoRootsOf(num, s, top, exshift)
  {
    var a, b, c, dd := s.H[top - 1][top - 1], s.H[top - 1][top], s.H[top][top - 1], s.H[top][top];
    assert q == PairDiscriminant(a, b, c, dd);
  }

  /* ---------------- shift and bulge start ---------------- */

  /** The shift (x, y, w) of an iteration and the accumulated shift after it. */
  datatype Shift = Shift(x: real, y: real, w: real, exshift: real)

  /** ((y - x) / 2)^2 + w: the discriminant of the trailing block's characteristic polynomial. */
  function ShiftDiscriminant(x: real, y: real, w: real): real {
    (y - x) / 2.0 * ((y - x) / 2.0) + w
  }

  /**
    MATLAB's ad hoc shift for the trailing block (x, y, w): the eigenvalue
    of the block nearer to x, when the discriminant is positive.
  */
  function MatlabShift(num: Kernels, x: real, y: real, w: real): real {
    var root := if y < x then -num.sqrt(ShiftDiscriminant(x, y, w)) else num.sqrt(ShiftDiscriminant(x, y, w));
    x - num.div(w, (y - x) / 2.0 + root)
  }

  /**
    The shift formed from the trailing 2-by-2 block of the window l .. top:
    Wilkinson's ad hoc shift when iter == 10, MATLAB's when iter == 30 and
    the block's discriminant is positive, the block itself otherwise.
    Whatever the ad hoc shifts subtract from the diagonal is added to the
    accumulated shift.
  */
  function ShiftChoice(num: Kernels, H: Matrix, l: int, top: int, iter: int, exshift: real): Shift
    requires Square(H, |H|) && 0 <= l && l + 2 <= top < |H|
  {
    var x := H[top][top];
    var y := if l < top then H[top - 1][top - 1] else 0.0;
    var w := if l < top then H[top][top - 1] * H[top - 1][top] else 0.0;
    if iter == 10 then
      var s := Abs(H[top][top - 1]) + Abs(H[top - 1][top - 2]);
      Shift(0.75 * s, 0.75 * s, -0.4375 * s * s, exshift + x)
    else if iter == 30 && ShiftDiscriminant(x, y, w) > 0.0 then
      Shift(0.964, 0.964, 0.964, exshift + MatlabShift(num, x, y, w))
    else
      Shift(x, y, w, exshift)
  }

  /** ShiftChoice for the block values (x, y, w) as hqr2 reads them. */
  lemma ShiftChoiceOf(num: Kernels, H: Matrix, l: int, top: int, iter: int, exshift: real, x: real, y: real, w: real)
    requires Square(H, |H|) && 0 <= l && l + 2 <= top < |H|
    requires x == H[top][top] && y == H[top - 1][top - 1] && w == H[top][top - 1] * H[top - 1][top]
    ensures iter != 10 && !(iter == 30 && ShiftDiscriminant(x, y, w) > 0.0) ==>
      ShiftChoice(num, H, l, top, iter, exshift) == Shift(x, y, w, exshift)
    ensures iter != 10 && iter == 30 && ShiftDiscriminant(x, y, w) > 0.0 ==>
      ShiftChoice(num, H, l, top, iter, exshift) == Shift(0.964, 0.964, 0.964, exshift + MatlabShift(num, x, y, w))
  {
  }

  /**
    The first column (p, q, r) of the double-shifted matrix at row m,
    scaled by the sum of its absolute values.
  */
  function BulgeVector(num: Kernels, H: Matrix, m: int, x: real, y: real, w: real): (real, real, real)
    requires Square(H, |H|) && 0 <= m && m + 2 < |H|
  {
    var z := H[m][m];
    var r := x - z;
    var s := y - z;
    var p := num.div(r * s - w, H[m + 1][m]) + H[m][m + 1];
    var q := H[m + 1][m + 1] - z - r - s;
    var r' := H[m + 2][m + 1];
    var s' := Abs(p) + Abs(q) + Abs(r');
    (num.div(p, s'), num.div(q, s'), num.div(r', s'))
  }

  /**
    The test of the bulge search: starting the double QR step at row m
    does not disturb H(m,m-1) beyond rounding.
  */
  predicate BulgeNegligible(num: Kernels, H: Matrix, m: int, v: (real, real, real))
    requires Square(H, |H|) && 1 <= m && m + 1 < |H|
  {
    Abs(H[m][m - 1]) * (Abs(v.1) + Abs(v.2)) <
      num.eps * (Abs(v.0) * (Abs(H[m - 1][m - 1]) + Abs(H[m][m]) + Abs(H[m + 1][m + 1])))
  }

  /**
    The bulge search upwards from row `from`: the largest m in l+1 .. from
    that passes the test, or l when none does.
  */
  function BulgeRow(num: Kernels, H: Matrix, l: int, from: int, x: real, y: real, w: real): (m: int)
    requires Square(H, |H|) && 0 <= l <= from && from + 2 < |H|
    ensures l <= m <= from
    ensures m > l ==> BulgeNegligible(num, H, m, BulgeVector(num, H, m, x, y, w))
    ensures forall j :: m < j <= from ==> !BulgeNegligible(num, H, j, BulgeVector(num, H, j, x, y, w))
    decreases from - l
  {
    if from == l || BulgeNegligible(num, H, from, BulgeVector(num, H, from, x, y, w)) then from
    else BulgeRow(num, H, l, from - 1, x, y, w)
  }

  /** H with the two diagonals below the sub-diagonal zeroed in rows m+2 .. top (the second from row m+3). */
  function Cleared(H: Matrix, m: int, top: int): (R: Matrix)
    requires Square(H, |H|)
    ensures Square(R, |H|)
  {
    seq(|H|, i requires 0 <= i < |H| => seq(|H|, j requires 0 <= j < |H| =>
      if m + 2 <= i <= top && (j == i - 2 || (j == i - 3 && i > m + 2)) then 0.0 else H[i][j]))
  }

  /* ---------------- the double QR step ---------------- */

  /** What happened at one position k of a double QR sweep. */
  datatype StepOutcome =
    | Skipped       // zero scaling magnitude: nothing is done for this k
    | NoReflection  // the reflection's norm s is zero: nothing is done for this k
    | Reflected     // the reflection was applied to H and V

  /** The Householder vector (p, q, r) of one step and the magnitude `scale` it was divided by. */
  datatype Householder = Householder(p: real, q: real, r: real, scale: real)

  /** The scaling magnitude |p| + |q| + |r| of column k-1 below the diagonal at step k. */
  function Magnitude(H: Matrix, k: int, top: int): real
    requires Square(H, |H|) && 1 <= k && k + 1 <= top < |H|
  {
    Abs(H[k][k - 1]) + Abs(H[k + 1][k - 1]) + (if k != top - 1 then Abs(H[k + 2][k - 1]) else 0.0)
  }

  /**
    The vector of step k: the bulge vector v at k == m; otherwise column
    k-1 below the diagonal (two entries at the last step), divided by its
    magnitude.
  */
  function StepVector(num: Kernels, H: Matrix, k: int, m: int, top: int, v: (real, real, real)): Householder
    requires Square(H, |H|) && 0 <= m <= k && k + 1 <= top < |H|
  {
    if k == m then Householder(v.0, v.1, v.2, 0.0)
    else
      var x := Magnitude(H, k, top);
      var r := if k != top - 1 then H[k + 2][k - 1] else 0.0;
      Householder(num.div(H[k][k - 1], x), num.div(H[k + 1][k - 1], x), num.div(r, x), x)
  }

  function SumOfSquares3(a: real, b: real, c: real): real {
    a * a + b * b + c * c
  }

  /** The norm s of the vector, with the sign of its first entry. */
  function SignedNorm(num: Kernels, h: Householder): real {
    var s := num.sqrt(SumOfSquares3(h.p, h.q, h.r));
    if h.p < 0.0 then -s else s
  }

  /** The coefficients of the row and column modifications. */
  datatype Reflector = Reflector(x: real, y: real, z: real, q: real, r: real)

  /** x = (p+s)/s, y = q/s, z = r/s, and q, r divided by p+s. */
  function ReflectorOf(num: Kernels, h: Householder, s: real): Reflector {
    var p := h.p + s;
    Reflector(num.div(p, s), num.div(h.q, s), num.div(h.r, s), num.div(h.q, p), num.div(h.r, p))
  }

  /**
    H(k,k-1) before the modifications: -s times the magnitude after a
    scaled column, negated at the first step when the sweep does not start
    at l, and otherwise kept.
  */
  function Lead(H: Matrix, k: int, m: int, l: int, s: real, x: real): (R: Matrix)
    requires Square(H, |H|) && 0 <= l <= m <= k < |H|
    ensures Square(R, |H|)
  {
    if k != m then H[k := H[k][k - 1 := -s * x]]
    else if l != m then H[k := H[k][k - 1 := -H[k][k - 1]]]
    else H
  }

  datatype StepResult = StepResult(H: Matrix, V: Matrix, outcome: StepOutcome)

  /**
    Step k of the double QR sweep over rows l .. top starting at m, with
    bulge vector v: skipped when k > m and the column's magnitude is zero,
    no reflection when the signed norm is zero, and otherwise the
    reflection applied to rows k .. k+2 of H (columns k on), to columns
    k .. k+2 of H (rows 0 .. min(top, k+3)) and to columns k .. k+2 of V;
    the third row and column only when k is not the last step.
  */
  function TakeStep(num: Kernels, H: Matrix, V: Matrix, k: int, m: int, l: int, top: int,
                    v: (real, real, real)): (r: StepResult)
    requires Square(H, |H|) && Square(V, |H|) && 0 <= l <= m <= k && k + 1 <= top < |H|
    ensures Square(r.H, |H|) && Square(r.V, |H|)
  {
    var h := StepVector(num, H, k, m, top, v);
    if k != m && h.scale == 0.0 then StepResult(H, V, Skipped)
    else
      var s := SignedNorm(num, h);
      if s == 0.0 then StepResult(H, V, NoReflection)
      else
        var c := ReflectorOf(num, h, s);
        var notlast := k != top - 1;
        var H1 := Dense.RowsReflected(Lead(H, k, m, l, s, h.scale), |H|, k, notlast, c.x, c.y, c.z, c.q, c.r);
        StepResult(Dense.ColumnsReflected(H1, |H|, k, notlast, 0, Min(top, k + 3), c.x, c.y, c.z, c.q, c.r),
                   Dense.ColumnsReflected(V, |H|, k, notlast, 0, |H| - 1, c.x, c.y, c.z, c.q, c.r),
                   Reflected)
  }

  /** TakeStep when the reflection is applied, in the terms hqr2 computes it. */
  lemma ReflectedStep(num: Kernels, H: Matrix, V: Matrix, k: int, m: int, l: int, top: int, v: (real, real, real),
                      h: Householder, s: real, c: Reflector, H1: Matrix, H': Matrix, V': Matrix)
    requires Square(H, |H|) && Square(V, |H|) && 0 <= l <= m <= k && k + 1 <= top < |H|
    requires h == StepVector(num, H, k, m, top, v) && (k == m || h.scale != 0.0)
    requires s == SignedNorm(num, h) && s != 0.0 && c == ReflectorOf(num, h, s)
    requires H1 == Lead(H, k, m, l, s, h.scale)
    requires H' == Dense.ColumnsReflected(Dense.RowsReflected(H1, |H|, k, k != top - 1, c.x, c.y, c.z, c.q, c.r),
                                          |H|, k, k != top - 1, 0, Min(top, k + 3), c.x, c.y, c.z, c.q, c.r)
    requires V' == Dense.ColumnsReflected(V, |H|, k, k != top - 1, 0, |H| - 1, c.x, c.y, c.z, c.q, c.r)
    ensures TakeStep(num, H, V, k, m, l, top, v) == StepResult(H', V', Reflected)
  {
  }

  datatype SweepResult = SweepResult(H: Matrix, V: Matrix, outcomes: seq<StepOutcome>)

  /** Steps k, k+1, .. top-1 of the sweep, each on the matrices the previous one left. */
  function Sweep(num: Kernels, H: Matrix, V: Matrix, k: int, m: int, l: int, top: int,
                 v: (real, real, real)): (r: SweepResult)
    requires Square(H, |H|) && Square(V, |H|) && 0 <= l <= m <= k <= top < |H|
    ensures Square(r.H, |H|) && Square(r.V, |H|) && |r.outcomes| == top - k
    decreases top - k, 1
  {
    if k == top then SweepResult(H, V, []) else SweepOn(num, H, V, k, m, l, top, v)
  }

  /** The sweep with a step left to take: step k, then the sweep from k + 1. */
  function SweepOn(num: Kernels, H: Matrix, V: Matrix, k: int, m: int, l: int, top: int,
                   v: (real, real, real)): (r: SweepResult)
    requires Square(H, |H|) && Square(V, |H|) && 0 <= l <= m <= k < top < |H|
    ensures Square(r.H, |H|) && Square(r.V, |H|) && |r.outcomes| == top - k
    decreases top - k, 0
  {
    var st := TakeStep(num, H, V, k, m, l, top, v);
    var rest := Sweep(num, st.H, st.V, k + 1, m, l, top, v);
    SweepResult(rest.H, rest.V, [st.outcome] + rest.outcomes)
  }

  /** The sweep from step k is that step followed by the sweep from step k + 1. */
  lemma SweepUnrolled(num: Kernels, H: Matrix, V: Matrix, k: int, m: int, l: int, top: int,
                      v: (real, real, real), H': Matrix, V': Matrix, outcome: StepOutcome)
    requires Square(H, |H|) && Square(V, |H|) && 0 <= l <= m <= k < top < |H|
    requires TakeStep(num, H, V, k, m, l, top, v) == StepResult(H', V', outcome)
    ensures Square(H', |H|) && Square(V', |H|)
    ensures Sweep(num, H, V, k, m, l, top, v) ==
            SweepResult(Sweep(num, H', V', k + 1, m, l, top, v).H, Sweep(num, H', V', k + 1, m, l, top, v).V,
                        [outcome] + Sweep(num, H', V', k + 1, m, l, top, v).outcomes)
  {
    assert Sweep(num, H, V, k, m, l, top, v) == SweepOn(num, H, V, k, m, l, top, v);
  }

  datatype IterationResult = IterationResult(H: Matrix, V: Matrix, exshift: real, m: int)

  /**
    One iteration on the unreduced window l .. top: the shift is formed and
    subtracted from the diagonal, the bulge search picks m on the shifted
    matrix, the two diagonals below the sub-diagonal are cleared from row
    m+2 on, and the sweep runs from m with the bulge vector at m.
  */
  function Iterate(num: Kernels, H: Matrix, V: Matrix, l: int, top: int, iter: int, exshift: real): (r: IterationResult)
    requires Square(H, |H|) && Square(V, |H|) && 0 <= l && l + 2 <= top < |H|
    ensures Square(r.H, |H|) && Square(r.V, |H|) && l <= r.m <= top - 2
  {
    Shifted(num, H, V, l, top, ShiftChoice(num, H, l, top, iter, exshift), exshift)
  }

  /** The iteration once its shift sh is chosen: the stages after ShiftChoice. */
  function Shifted(num: Kernels, H: Matrix, V: Matrix, l: int, top: int, sh: Shift, exshift: real): (r: IterationResult)
    requires Square(H, |H|) && Square(V, |H|) && 0 <= l && l + 2 <= top < |H|
    ensures Square(r.H, |H|) && Square(r.V, |H|) && l <= r.m <= top - 2
  {
    var H1 := Dense.DiagonalShifted(H, |H|, top, sh.exshift - exshift);
    var m := BulgeRow(num, H1, l, top - 2, sh.x, sh.y, sh.w);
    var sw := Sweep(num, Cleared(H1, m, top), V, m, m, l, top, BulgeVector(num, H1, m, sh.x, sh.y, sh.w));
    IterationResult(sw.H, sw.V, sh.exshift, m)
  }

  /** Iterate assembled from its parts: the shift, the shifted matrix, the bulge row, its vector and the sweep. */
  lemma IterationAssembled(num: Kernels, H: Matrix, V: Matrix, l: int, top: int, iter: int, exshift: real,
                           x: real, y: real, w: real, shift: real, H1: Matrix, m: int, v: (real, real, real), sw: SweepResult)
    requires Square(H, |H|) && Square(V, |H|) && 0 <= l && l + 2 <= top < |H|
    requires Shift(x, y, w, shift) == ShiftChoice(num, H, l, top, iter, exshift)
    requires H1 == Dense.DiagonalShifted(H, |H|, top, shift - exshift)
    requires m == BulgeRow(num, H1, l, top - 2, x, y, w) && v == BulgeVector(num, H1, m, x, y, w)
    requires sw == Sweep(num, Cleared(H1, m, top), V, m, m, l, top, v)
    ensures Iterate(num, H, V, l, top, iter, exshift) == IterationResult(sw.H, sw.V, shift, m)
  {
    ShiftedAssembled(num, H, V, l, top, exshift, Shift(x, y, w, shift), H1, m, v, sw);
  }

  /** Shifted assembled from its parts: the shifted matrix, the bulge row, its vector and the sweep. */
  lemma ShiftedAssembled(num: Kernels, H: Matrix, V: Matrix, l: int, top: int, exshift: real,
                         sh: Shift, H1: Matrix, m: int, v: (real, real, real), sw: SweepResult)
    requires Square(H, |H|) && Square(V, |H|) && 0 <= l && l + 2 <= top < |H|
    requires H1 == Dense.DiagonalShifted(H, |H|, top, sh.exshift - exshift)
    requires m == BulgeRow(num, H1, l, top - 2, sh.x, sh.y, sh.w) && v == BulgeVector(num, H1, m, sh.x, sh.y, sh.w)
    requires sw == Sweep(num, Cleared(H1, m, top), V, m, m, l, top, v)
    ensures Shifted(num, H, V, l, top, sh, exshift) == IterationResult(sw.H, sw.V, sh.exshift, m)
  {
  }

  /* ---------------- the outer loop ---------------- */

  /** The state of the outer loop: the storage, the active window 0 .. top, the iteration count and the accumulated shift. */
  datatype Loop = Loop(w: Work, top: int, iter: int, exshift: real)

  /**
    One pass of the outer loop: the deflation search picks l; one root
    found (l == top) shrinks the window by one, two roots found
    (l == top-1) by two, both restarting the count; otherwise one
    iteration runs on l .. top and the count goes up.
  */
  function Pass(num: Kernels, s: Loop, norm: real): (r: Loop)
    requires Sized(s.w, |s.w.H|) && 0 <= s.top < |s.w.H|
    ensures Sized(r.w, |s.w.H|) && -1 <= r.top <= s.top
  {
    var l := DeflationRow(num, s.w.H, s.top, norm);
    if l == s.top then Loop(OneRootOf(s.w, s.top, s.exshift), s.top - 1, 0, s.exshift)
    else if l == s.top - 1 then Loop(TwoRootsOf(num, s.w, s.top, s.exshift), s.top - 2, 0, s.exshift)
    else
      var it := Iterate(num, s.w.H, s.w.V, l, s.top, s.iter, s.exshift);
      Loop(Work(it.H, it.V, s.w.d, s.w.e), s.top, s.iter + 1, it.exshift)
  }

  /** A pass whose deflation search finds one root. */
  lemma PassOneRoot(num: Kernels, w: Work, top: int, iter: int, exshift: real, norm: real, w': Work)
    requires Sized(w, |w.H|) && 0 <= top < |w.H|
    requires DeflationRow(num, w.H, top, norm) == top && w' == OneRootOf(w, top, exshift)
    ensures Pass(num, Loop(w, top, iter, exshift), norm) == Loop(w', top - 1, 0, exshift)
  {
  }

  /** A pass whose deflation search finds two roots. */
  lemma PassTwoRoots(num: Kernels, w: Work, top: int, iter: int, exshift: real, norm: real, w': Work)
    requires Sized(w, |w.H|) && 0 <= top < |w.H|
    requires DeflationRow(num, w.H, top, norm) == top - 1 && w' == TwoRootsOf(num, w, top, exshift)
    ensures Pass(num, Loop(w, top, iter, exshift), norm) == Loop(w', top - 2, 0, exshift)
  {
  }

  /** A pass that runs one iteration on rows l .. top. */
  lemma PassIterated(num: Kernels, w: Work, top: int, iter: int, exshift: real, norm: real,
                     l: int, H': Matrix, V': Matrix, exshift': real, m: int)
    requires Sized(w, |w.H|) && 0 <= top < |w.H|
    requires l == DeflationRow(num, w.H, top, norm) && l < top - 1
    requires IterationResult(H', V', exshift', m) == Iterate(num, w.H, w.V, l, top, iter, exshift)
    ensures Pass(num, Loop(w, top, iter, exshift), norm) == Loop(Work(H', V', w.d, w.e), top, iter + 1, exshift')
  {
  }

  /** The outer loop: passes until the window is empty, at most `fuel` of them. */
  function Run(num: Kernels, s: Loop, norm: real, fuel: nat): (r: Loop)
    requires Sized(s.w, |s.w.H|) && -1 <= s.top < |s.w.H|
    ensures Sized(r.w, |s.w.H|) && -1 <= r.top < |s.w.H|
    decreases fuel, 2
  {
    if s.top < 0 then s else RunWithin(num, s, norm, fuel)
  }

  /** The outer loop with rows left in the window: a pass unless the bound is used up. */
  function RunWithin(num: Kernels, s: Loop, norm: real, fuel: nat): (r: Loop)
    requires Sized(s.w, |s.w.H|) && 0 <= s.top < |s.w.H|
    ensures Sized(r.w, |s.w.H|) && -1 <= r.top < |s.w.H|
    decreases fuel, 1
  {
    if fuel == 0 then s else RunOn(num, s, norm, fuel)
  }

  /** The outer loop with a pass left to run: the pass, then the rest of the loop. */
  function RunOn(num: Kernels, s: Loop, norm: real, fuel: nat): (r: Loop)
    requires Sized(s.w, |s.w.H|) && 0 <= s.top < |s.w.H| && fuel > 0
    ensures Sized(r.w, |s.w.H|) && -1 <= r.top < |s.w.H|
    decreases fuel, 0
  {
    Run(num, Pass(num, s, norm), norm, fuel - 1)
  }

  /** The loop has stopped: no pass is left to run. */
  lemma RunStopped(num: Kernels, s: Loop, norm: real, fuel: nat)
    requires Sized(s.w, |s.w.H|) && -1 <= s.top < |s.w.H| && (s.top < 0 || fuel == 0)
    ensures Run(num, s, norm, fuel) == s
  {
  }

  /** One pass taken: the rest of the loop runs from the state the pass left. */
  lemma RunUnrolled(num: Kernels, s: Loop, s': Loop, norm: real, fuel: nat)
    requires Sized(s.w, |s.w.H|) && 0 <= s.top < |s.w.H| && fuel > 0 && s' == Pass(num, s, norm)
    ensures Sized(s'.w, |s.w.H|) && -1 <= s'.top < |s.w.H|
    ensures Run(num, s', norm, fuel - 1) == Run(num, s, norm, fuel)
  {
    assert Run(num, s, norm, fuel) == RunWithin(num, s, norm, fuel) == RunOn(num, s, norm, fuel);
  }

  /* ---------------- properties ---------------- */

  /**
    A converged block is stored as two real eigenvalues exactly when its
    discriminant is non-negative, and otherwise as a conjugate pair: equal
    real parts and imaginary parts +z, -z with z > 0.
  */
  lemma PairLayout(num: Kernels, a: real, b: real, c: real, dd: real, exshift: real)
    requires PositiveRoots(num)
    ensures var v := PairValues(num, a, b, c, dd, exshift);
      && (PairDiscriminant(a, b, c, dd) >= 0.0 <==> v.e1 == 0.0)
      && (v.e1 == 0.0 ==> v.e2 == 0.0)
      && (v.e1 != 0.0 ==> v.e1 > 0.0 && v.e2 == -v.e1 && v.d1 == v.d2)
  {
    var q := PairDiscriminant(a, b, c, dd);
    if q < 0.0 {
      assert Abs(q) > 0.0;
      assert num.sqrt(Abs(q)) > 0.0;
    }
  }

  /**
    A pass keeps the conjugate-pair layout of the eigenvalues already found
    (positions top+1 .. N-1) and extends it over the positions that leave the
    window; d and e do not change anywhere else. The window shrinks by one
    or two and the count restarts, or it stays and the count goes up.
  */
  lemma PassKeepsPairs(num: Kernels, s: Loop, norm: real)
    requires Sized(s.w, |s.w.H|) && 0 <= s.top < |s.w.H| && PositiveRoots(num)
    requires PairedFrom(s.w.d, s.w.e, s.top + 1)
    ensures var r := Pass(num, s, norm);
      && PairedFrom(r.w.d, r.w.e, r.top + 1)
      && (forall i :: 0 <= i <= r.top ==> r.w.d[i] == s.w.d[i] && r.w.e[i] == s.w.e[i])
      && ((r.top == s.top - 1 && r.iter == 0) || (r.top == s.top - 2 && r.iter == 0) ||
          (r.top == s.top && r.iter == s.iter + 1 && r.w.d == s.w.d && r.w.e == s.w.e))
  {
    var l := DeflationRow(num, s.w.H, s.top, norm);
    if l == s.top {
      OneRootKeepsPairs(s.w, s.top, s.exshift);
      PassOneRoot(num, s.w, s.top, s.iter, s.exshift, norm, OneRootOf(s.w, s.top, s.exshift));
    } else if l == s.top - 1 {
      TwoRootsKeepsPairs(num, s.w, s.top, s.exshift);
      PassTwoRoots(num, s.w, s.top, s.iter, s.exshift, norm, TwoRootsOf(num, s.w, s.top, s.exshift));
    } else {
      var r := Pass(num, s, norm);
      assert r.w.d == s.w.d && r.w.e == s.w.e && r.top == s.top;
    }
  }

  /** Storing one real root at top extends the layout down to top and changes nothing below it. */
  lemma OneRootKeepsPairs(w: Work, top: int, exshift: real)
    requires Sized(w, |w.H|) && 0 <= top < |w.H| && PairedFrom(w.d, w.e, top + 1)
    ensures var w' := OneRootOf(w, top, exshift);
      && PairedFrom(w'.d, w'.e, top)
      && (forall i :: 0 <= i < top ==> w'.d[i] == w.d[i] && w'.e[i] == w.e[i])
  {
    var w' := OneRootOf(w, top, exshift);
    PairedFrame(w.d, w.e, w'.d, w'.e, top + 1);
    PairedExtendOne(w'.d, w'.e, top);
  }

  /** Storing the roots of the block at top-1, top extends the layout down to top-1 and changes nothing below it. */
  lemma TwoRootsKeepsPairs(num: Kernels, w: Work, top: int, exshift: real)
    requires Sized(w, |w.H|) && 1 <= top < |w.H| && PositiveRoots(num) && PairedFrom(w.d, w.e, top + 1)
    ensures var w' := TwoRootsOf(num, w, top, exshift);
      && PairedFrom(w'.d, w'.e, top - 1)
      && (forall i :: 0 <= i < top - 1 ==> w'.d[i] == w.d[i] && w'.e[i] == w.e[i])
  {
    var w' := TwoRootsOf(num, w, top, exshift);
    var H := w.H;
    PairLayout(num, H[top - 1][top - 1], H[top - 1][top], H[top][top - 1], H[top][top], exshift);
    PairedFrame(w.d, w.e, w'.d, w'.e, top + 1);
    assert PairBlock(w'.d, w'.e, top - 1);
    PairedExtendTwo(w'.d, w'.e, top - 1);
  }

  /**
    The outer loop keeps the layout: when it started with the layout on the
    positions above the window, it ends with it there too, and an emptied
    window leaves every eigenvalue in the conjugate-pair layout.
  */
  lemma RunKeepsPairs(num: Kernels, s: Loop, norm: real, fuel: nat)
    requires Sized(s.w, |s.w.H|) && -1 <= s.top < |s.w.H| && PositiveRoots(num)
    requires PairedFrom(s.w.d, s.w.e, s.top + 1)
    ensures var r := Run(num, s, norm, fuel);
      && PairedFrom(r.w.d, r.w.e, r.top + 1)
      && (r.top < 0 ==> ConjugatePairs(r.w.d, r.w.e))
  {
    var r := Run(num, s, norm, fuel);
    PairedIffScan(s.w.d, s.w.e, s.top + 1);
    RunKeepsLayout(num, s, norm, fuel, r);
    PairedIffScan(r.w.d, r.w.e, r.top + 1);
    if r.top < 0 {
      assert r.top + 1 == 0;
      assert PairedFrom(r.w.d, r.w.e, 0);
    }
  }

  /**
    The induction behind RunKeepsPairs, on the block-wise scan of the
    layout: every pass keeps the layout above its window.
  */
  lemma {:induction false} RunKeepsLayout(num: Kernels, s: Loop, norm: real, fuel: nat, r: Loop)
    requires Sized(s.w, |s.w.H|) && -1 <= s.top < |s.w.H| && PositiveRoots(num)
    requires PairScan(s.w.d, s.w.e, s.top + 1) && r == Run(num, s, norm, fuel)
    ensures Sized(r.w, |s.w.H|) && -1 <= r.top && PairScan(r.w.d, r.w.e, r.top + 1)
    decreases fuel
  {
    if s.top >= 0 && fuel > 0 {
      var s' := LayoutPass(num, s, norm, fuel);
      RunKeepsLayout(num, s', norm, fuel - 1, r);
    } else {
      RunStopped(num, s, norm, fuel);
    }
  }

  /**
    One pass of the loop, as the state s' it leaves: the rest of the loop
    runs from s', and the layout holds above the window of s'.
  */
  lemma LayoutPass(num: Kernels, s: Loop, norm: real, fuel: nat) returns (s': Loop)
    requires Sized(s.w, |s.w.H|) && 0 <= s.top < |s.w.H| && PositiveRoots(num) && fuel > 0
    requires PairScan(s.w.d, s.w.e, s.top + 1)
    ensures Sized(s'.w, |s.w.H|) && |s'.w.H| == |s.w.H| && -1 <= s'.top < |s.w.H|
    ensures PairScan(s'.w.d, s'.w.e, s'.top + 1)
    ensures Run(num, s', norm, fuel - 1) == Run(num, s, norm, fuel)
  {
    s' := Pass(num, s, norm);
    PairedIffScan(s.w.d, s.w.e, s.top + 1);
    PassKeepsPairs(num, s, norm);
    PairedIffScan(s'.w.d, s'.w.e, s'.top + 1);
    RunUnrolled(num, s, s', norm, fuel);
  }

  /**
    A step only touches its band: rows k .. min(k+2, top) of H from column
    k-1 on, columns k .. min(k+2, top) of H down to row min(top, k+3), and
    columns k .. min(k+2, top) of V. A step that does not reflect changes
    nothing.
  */
  lemma StepLocal(num: Kernels, H: Matrix, V: Matrix, k: int, m: int, l: int, top: int, v: (real, real, real))
    requires Square(H, |H|) && Square(V, |H|) && 0 <= l <= m <= k && k + 1 <= top < |H|
    ensures var r := TakeStep(num, H, V, k, m, l, top, v);
      && (r.outcome != Reflected ==> r.H == H && r.V == V)
      && (forall i, j | 0 <= i < |H| && 0 <= j < |H| &&
            (i < k || i > Min(k + 2, top) || j < k - 1) && (j < k || j > Min(k + 2, top) || i > Min(top, k + 3)) ::
            r.H[i][j] == H[i][j])
      && (forall i, j | 0 <= i < |H| && 0 <= j < |H| && (j < k || j > Min(k + 2, top)) :: r.V[i][j] == V[i][j])
  {
    var r := TakeStep(num, H, V, k, m, l, top, v);
    var h := StepVector(num, H, k, m, top, v);
    if r.outcome == Reflected {
      var s := SignedNorm(num, h);
      var c := ReflectorOf(num, h, s);
      var notlast := k != top - 1;
      var H0 := Lead(H, k, m, l, s, h.scale);
      var H1 := Dense.RowsReflected(H0, |H|, k, notlast, c.x, c.y, c.z, c.q, c.r);
      var H2 := Dense.ColumnsReflected(H1, |H|, k, notlast, 0, Min(top, k + 3), c.x, c.y, c.z, c.q, c.r);
      assert r.H == H2;
      forall i, j | 0 <= i < |H| && 0 <= j < |H| &&
        (i < k || i > Min(k + 2, top) || j < k - 1) && (j < k || j > Min(k + 2, top) || i > Min(top, k + 3))
        ensures r.H[i][j] == H[i][j]
      {
        assert H0[i][j] == H[i][j];
        assert H1[i][j] == H0[i][j];
        assert H2[i][j] == H1[i][j];
      }
    }
  }

  /**
    The first step of a sweep always reflects when the bulge vector is not
    zero: it is never skipped, and its norm is not zero.
  */
  lemma LeadingStepReflects(num: Kernels, H: Matrix, V: Matrix, m: int, l: int, top: int, v: (real, real, real))
    requires Square(H, |H|) && Square(V, |H|) && 0 <= l <= m && m + 1 <= top < |H|
    requires PositiveRoots(num) && (v.0 != 0.0 || v.1 != 0.0 || v.2 != 0.0)
    ensures TakeStep(num, H, V, m, m, l, top, v).outcome == Reflected
  {
    var h := StepVector(num, H, m, m, top, v);
    assert h.p == v.0 && h.q == v.1 && h.r == v.2;
    SquaresPositive(v.0, v.1, v.2);
  }

  /** A sum of three squares is positive unless all three are zero. */
  lemma SquaresPositive(a: real, b: real, c: real)
    requires a != 0.0 || b != 0.0 || c != 0.0
    ensures SumOfSquares3(a, b, c) > 0.0
  {
    var x, y, z := a * a, b * b, c * c;
    SquareSign(a, x);
    SquareSign(b, y);
    SquareSign(c, z);
    assert SumOfSquares3(a, b, c) == x + y + z;
  }

  /** The square x of a is never negative, and positive when a is not zero. */
  lemma SquareSign(a: real, x: real)
    requires x == a * a
    ensures x >= 0.0
    ensures a != 0.0 ==> x > 0.0
  {
    if a < 0.0 {
      ProductPositive(-a, -a, x);
    } else if a > 0.0 {
      ProductPositive(a, a, x);
    }
  }

  lemma ProductPositive(a: real, b: real, p: real)
    requires a > 0.0 && b > 0.0 && p == a * b
    ensures p > 0.0
  {
  }

  /**
    The sweep from k visits every k' in k .. top-1 once, so it leaves alone
    what none of their bands reaches: rows below top, the entries left of
    column k-1 in rows k on and the rows above k outside columns k .. top.
    The first step of a sweep is never skipped.
  */
  lemma SweepLocal(num: Kernels, H: Matrix, V: Matrix, k: int, m: int, l: int, top: int, v: (real, real, real))
    requires Square(H, |H|) && Square(V, |H|) && 0 <= l <= m <= k <= top < |H|
    ensures var r := Sweep(num, H, V, k, m, l, top, v);
      && (k == m < top ==> r.outcomes[0] != Skipped)
      && SweptOutside(H, r.H, k, top)
  {
    SweepStaysInside(num, H, V, k, m, l, top, v);
    if k < top {
      var st := TakeStep(num, H, V, k, m, l, top, v);
      SweepUnrolled(num, H, V, k, m, l, top, v, st.H, st.V, st.outcome);
    }
  }

  /** The induction behind SweepLocal: each step stays inside its band. */
  lemma {:induction false} SweepStaysInside(num: Kernels, H: Matrix, V: Matrix, k: int, m: int, l: int, top: int,
                                            v: (real, real, real))
    requires Square(H, |H|) && Square(V, |H|) && 0 <= l <= m <= k <= top < |H|
    ensures SweptOutside(H, Sweep(num, H, V, k, m, l, top, v).H, k, top)
    decreases top - k
  {
    if k < top {
      var st := TakeStep(num, H, V, k, m, l, top, v);
      SweepUnrolled(num, H, V, k, m, l, top, v, st.H, st.V, st.outcome);
      SweepStaysInside(num, st.H, st.V, k + 1, m, l, top, v);
      StepThenOutside(num, H, V, k, m, l, top, v, Sweep(num, st.H, st.V, k + 1, m, l, top, v).H);
    }
  }

  /** A step at k followed by changes a sweep from k + 1 may make stays inside what a sweep from k may touch. */
  lemma StepThenOutside(num: Kernels, H: Matrix, V: Matrix, k: int, m: int, l: int, top: int, v: (real, real, real),
                        H2: Matrix)
    requires Square(H, |H|) && Square(V, |H|) && 0 <= l <= m <= k < top < |H| && Square(H2, |H|)
    requires SweptOutside(TakeStep(num, H, V, k, m, l, top, v).H, H2, k + 1, top)
    ensures SweptOutside(H, H2, k, top)
  {
    StepLocal(num, H, V, k, m, l, top, v);
    OutsideComposed(H, TakeStep(num, H, V, k, m, l, top, v).H, H2, k, top);
  }

  /** A step at k followed by a sweep from k + 1 stays inside what a sweep from k may touch. */
  lemma OutsideComposed(H: Matrix, H1: Matrix, H2: Matrix, k: int, top: int)
    requires Square(H, |H|) && Square(H1, |H|) && Square(H2, |H|) && 0 <= k < top < |H|
    requires forall i, j | 0 <= i < |H| && 0 <= j < |H| &&
               (i < k || i > Min(k + 2, top) || j < k - 1) && (j < k || j > Min(k + 2, top) || i > Min(top, k + 3)) ::
               H1[i][j] == H[i][j]
    requires SweptOutside(H1, H2, k + 1, top)
    ensures SweptOutside(H, H2, k, top)
  {
    forall i, j | 0 <= i < |H| && 0 <= j < |H| && (i > top || ((i < k || j < k - 1) && (j < k || j > top)))
      ensures H2[i][j] == H[i][j]
    {
      assert i > Min(top, k + 3) || (i < k || j < k - 1);
      assert H1[i][j] == H[i][j];
    }
  }

  /** The sweep from k leaves the columns of V outside k .. top alone. */
  lemma {:induction false} SweepKeepsBasis(num: Kernels, H: Matrix, V: Matrix, k: int, m: int, l: int, top: int,
                                           v: (real, real, real))
    requires Square(H, |H|) && Square(V, |H|) && 0 <= l <= m <= k <= top < |H|
    ensures var r := Sweep(num, H, V, k, m, l, top, v);
      forall i, j | 0 <= i < |H| && 0 <= j < |H| && (j < k || j > top) :: r.V[i][j] == V[i][j]
    decreases top - k
  {
    if k < top {
      var st := TakeStep(num, H, V, k, m, l, top, v);
      SweepUnrolled(num, H, V, k, m, l, top, v, st.H, st.V, st.outcome);
      SweepKeepsBasis(num, st.H, st.V, k + 1, m, l, top, v);
      StepThenBasis(num, H, V, k, m, l, top, v, Sweep(num, st.H, st.V, k + 1, m, l, top, v).V);
    }
  }

  /** A step at k followed by changes to the columns k + 1 .. top of V leaves the columns outside k .. top alone. */
  lemma StepThenBasis(num: Kernels, H: Matrix, V: Matrix, k: int, m: int, l: int, top: int, v: (real, real, real),
                      V2: Matrix)
    requires Square(H, |H|) && Square(V, |H|) && 0 <= l <= m <= k < top < |H| && Square(V2, |H|)
    requires forall i, j | 0 <= i < |H| && 0 <= j < |H| && (j < k + 1 || j > top) ::
               V2[i][j] == TakeStep(num, H, V, k, m, l, top, v).V[i][j]
    ensures forall i, j | 0 <= i < |H| && 0 <= j < |H| && (j < k || j > top) :: V2[i][j] == V[i][j]
  {
    StepLocal(num, H, V, k, m, l, top, v);
  }

  /** H' agrees with H wherever no step of a sweep from k over the window ending at top reaches. */
  ghost predicate SweptOutside(H: Matrix, H': Matrix, k: int, top: int)
    requires Square(H, |H|) && Square(H', |H|)
  {
    forall i, j | 0 <= i < |H| && 0 <= j < |H| && (i > top || ((i < k || j < k - 1) && (j < k || j > top))) ::
      H'[i][j] == H[i][j]
  }

  /**
    An iteration grows the accumulated shift only at the ad hoc shifts: by
    H(top,top) when iter == 10, not at all when iter is neither 10 nor 30
    (iter counts the iterations on the current window from 0).
  */
  lemma IterationShift(num: Kernels, H: Matrix, V: Matrix, l: int, top: int, iter: int, exshift: real)
    requires Square(H, |H|) && Square(V, |H|) && 0 <= l && l + 2 <= top < |H|
    ensures var r := Iterate(num, H, V, l, top, iter, exshift);
      && (iter != 10 && iter != 30 ==> r.exshift == exshift)
      && (iter == 10 ==> r.exshift == exshift + H[top][top])
  {
  }

  /** An iteration leaves the rows of H below the window alone. */
  lemma IterationKeepsRows(num: Kernels, H: Matrix, V: Matrix, l: int, top: int, iter: int, exshift: real)
    requires Square(H, |H|) && Square(V, |H|) && 0 <= l && l + 2 <= top < |H|
    ensures var r := Iterate(num, H, V, l, top, iter, exshift);
      forall i, j | top < i < |H| && 0 <= j < |H| :: r.H[i][j] == H[i][j]
  {
    var r := Iterate(num, H, V, l, top, iter, exshift);
    var sh := ShiftChoice(num, H, l, top, iter, exshift);
    var H1 := Dense.DiagonalShifted(H, |H|, top, sh.exshift - exshift);
    var m := BulgeRow(num, H1, l, top - 2, sh.x, sh.y, sh.w);
    var H2 := Cleared(H1, m, top);
    var v := BulgeVector(num, H1, m, sh.x, sh.y, sh.w);
    var sw := Sweep(num, H2, V, m, m, l, top, v);
    assert r.H == sw.H;
    SweepLocal(num, H2, V, m, m, l, top, v);
    forall i, j | top < i < |H| && 0 <= j < |H|
      ensures r.H[i][j] == H[i][j]
    {
      assert sw.H[i][j] == H2[i][j];
      assert H2[i][j] == H1[i][j];
    }
  }

  /** An iteration leaves the columns of V outside the window alone. */
  lemma IterationKeepsBasis(num: Kernels, H: Matrix, V: Matrix, l: int, top: int, iter: int, exshift: real)
    requires Square(H, |H|) && Square(V, |H|) && 0 <= l && l + 2 <= top < |H|
    ensures var r := Iterate(num, H, V, l, top, iter, exshift);
      forall i, j | 0 <= i < |H| && 0 <= j < |H| && (j < l || j > top) :: r.V[i][j] == V[i][j]
  {
    var r := Iterate(num, H, V, l, top, iter, exshift);
    var sh := ShiftChoice(num, H, l, top, iter, exshift);
    var H1 := Dense.DiagonalShifted(H, |H|, top, sh.exshift - exshift);
    var m := BulgeRow(num, H1, l, top - 2, sh.x, sh.y, sh.w);
    var H2 := Cleared(H1, m, top);
    var v := BulgeVector(num, H1, m, sh.x, sh.y, sh.w);
    var sw := Sweep(num, H2, V, m, m, l, top, v);
    assert r.V == sw.V;
    SweepKeepsBasis(num, H2, V, m, m, l, top, v);
  }

  /**
    The shift keeps H(i,i) + exshift for every i in the window: what it
    subtracts from the diagonal it adds to the accumulated shift.
  */
  lemma ShiftKeepsDiagonal(num: Kernels, H: Matrix, l: int, top: int, iter: int, exshift: real, i: int)
    requires Square(H, |H|) && 0 <= l && l + 2 <= top < |H| && 0 <= i <= top
    ensures var sh := ShiftChoice(num, H, l, top, iter, exshift);
      Dense.DiagonalShifted(H, |H|, top, sh.exshift - exshift)[i][i] + sh.exshift == H[i][i] + exshift
  {
  }
}
