/**
  The numerical environment of the decomposition.

  Additions, subtractions, multiplications and comparisons of the scalar type
  are modelled as exact operations on `real`. Everything whose value depends
  on floating-point behaviour that cannot usefully be reasoned about here is a
  field of `Kernels`: IEEE division (which also divides by zero), the square
  root, machine epsilon, and the purely numerical phases of the two pipelines,
  each given entry by entry as a function of the working storage it starts
  from. The model proves nothing about what these kernels compute; it proves
  how the surrounding code indexes, branches, orders and records their results.
*/
module Numerics {

  /** A dense matrix snapshot, row by row. */
  type Matrix = seq<seq<real>>

  datatype Kernels = Kernels(
    // std::numeric_limits<T>::epsilon()
    eps: real,
    // std::sqrt
    sqrt: real -> real,
    // the scalar quotient a / b, including b == 0
    div: (real, real) -> real,
    // tred2: diagonal d(j), sub-diagonal e(j) (j >= 1) and basis V(i,j) it leaves,
    // from the copy of the input matrix it starts with
    tred2Diag: (Matrix, int) -> real,
    tred2Sub: (Matrix, int) -> real,
    tred2Basis: (Matrix, int, int) -> real,
    // tql2's QL iterations: converged d(l) (shift accumulator added back) and
    // rotated V(i,j), from the tridiagonal d, the shifted e and V they start with
    qlValue: (seq<real>, seq<real>, Matrix, int) -> real,
    qlVector: (seq<real>, seq<real>, Matrix, int, int) -> real,
    // orthes: Hessenberg form H(i,j), accumulated basis V(i,j) and the
    // Householder working vector ort(i), from the copy of A
    orthesHessenberg: (Matrix, int, int) -> real,
    orthesBasis: (Matrix, int, int) -> real,
    orthesWork: (Matrix, int) -> real,
    // hqr2's back-substitution and back-transformation: the upper triangular
    // vectors left in H(i,j) and the eigenvectors V(i,j), from the real Schur
    // form, the Schur basis and the eigenvalues
    backsubSchur: (Matrix, seq<real>, seq<real>, int, int) -> real,
    backsubVector: (Matrix, Matrix, seq<real>, seq<real>, int, int) -> real)

  /** The one property of the square root the model relies on. */
  ghost predicate PositiveRoots(num: Kernels) {
    forall x: real :: x > 0.0 ==> num.sqrt(x) > 0.0
  }

  /** std::abs */
  function Abs(x: real): (r: real)
    ensures r >= 0.0 && (r == x || r == -x)
    ensures r == 0.0 <==> x == 0.0
  {
    if x < 0.0 then -x else x
  }

  /** std::min on indices */
  function Min(a: int, b: int): (r: int)
    ensures r <= a && r <= b && (r == a || r == b)
  {
    if a <= b then a else b
  }

  /** std::max on indices */
  function Max(a: int, b: int): (r: int)
    ensures r >= a && r >= b && (r == a || r == b)
  {
    if a <= b then b else a
  }
}
