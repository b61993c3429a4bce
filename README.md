# EigenvalueDecomposition: the discrete skeleton, modelled and proved

`EigenvalueDecomposition` (ublasJama, a uBLAS port of JAMA) computes the
eigenvalues and eigenvectors of a real square matrix. It gives the real parts
in `d`, the imaginary parts in `e` and the eigenvectors in `V`. `getD`
assembles the block-diagonal eigenvalue matrix.

- A symmetric matrix is reduced by `tred2` (Householder tridiagonalisation)
  and diagonalised by `tql2` (the QL algorithm). Its eigenvalues end in
  ascending order, each with its own column of `V`.
- Any other matrix is reduced by `orthes` (to Hessenberg form in `H`). `hqr2`
  then brings it to real Schur form and back-substitutes for the vectors.
  Its eigenvalues end as real values and complex conjugate pairs. A pair is
  stored as two adjacent entries: the positive imaginary part first, the
  negative second, with equal real parts.

The model is imperative Dafny. One class, `Eigen.EigenvalueDecomposition`,
holds `n`, `issymmetric` and the arrays `d`, `e`, `V`, `H` and `ort`. Its
methods update the arrays in place, with `modifies` clauses and loop
invariants.

The floating-point arithmetic is not modelled. Entries are exact `real`
values. IEEE division, `std::sqrt`, machine epsilon and the purely numerical
phases are fields of `Numerics.Kernels`, given to the model as parameters:

- `tred2` and the QL iterations of `tql2`;
- the Householder steps of `orthes`;
- the back-substitution of `hqr2`.

`hqr2` itself is stated twice. The module `Schur` describes each stage as a
function on snapshots of `H`, `V`, `d` and `e`:

- the deflation search;
- one or two roots converging;
- the shift, the bulge search and the double QR sweep;
- one pass of the outer loop, and the loop itself.

Each method of the class is proved to leave exactly the snapshot its
function gives. Lemmas about those functions then prove what the source
promises:

- the conjugate-pair layout of the eigenvalues found;
- which entries a step, a sweep or an iteration may touch;
- how the accumulated shift is kept.

Files:

- `numerics.dfy`: the kernels, and `Abs`, `Min` and `Max`.
- `spectrum.dfy`: the result layouts (sorted, conjugate pairs), the
  block-diagonal matrix entry by entry, permutations and swaps.
- `dense.dfy`: the loops over one matrix. These are the symmetry test,
  copies, column swaps, plane rotations, 3-by-3 reflections, the diagonal
  shift and the band norm.
- `schur.dfy`: `hqr2` as functions on snapshots, and its lemmas.
- `eigen.dfy`: the class, the constructors, `getD`, the pipelines and the
  sort of `tql2`, and the methods of `hqr2`.

## Model

| member | source | states |
|---|---|---|
| Eigen.EigenvalueDecomposition.GetD | EigenvalueDecomposition.hpp:1105-1117 | D is a fresh n-by-n matrix. Each entry (i, j) is `BlockEntry(d, e, i, j)`: d(i) on the diagonal, e(i) at (i, i+1) when e(i) > 0, e(i) at (i, i-1) when e(i) < 0, and 0 everywhere else. The precondition e(0) >= 0 and e(n-1) <= 0 is exactly what keeps those writes inside D. |
| Spectrum.BlockEntry | EigenvalueDecomposition.hpp:1106-1114 | The diagonal entry is d(i). A nonzero off-diagonal entry sits only at (i, i+1) with e(i) > 0 or at (i, i-1) with e(i) < 0, and it equals e(i). |
| Spectrum.Tridiagonal | EigenvalueDecomposition.hpp:1106-1114 | D is zero outside the tridiagonal band. |
| Spectrum.DiagonalWhenReal | EigenvalueDecomposition.hpp:1071-1073 | With every imaginary part zero (the symmetric result), D is diagonal. |
| Spectrum.ConjugateBlock | EigenvalueDecomposition.hpp:1071-1097 | In the conjugate-pair layout, each pair u ± iv with v > 0 at positions i, i+1 fills the 2-by-2 block [u, v; -v, u]. Rows i and i+1 and columns i and i+1 of D are zero outside that block. |
| Spectrum.EdgesInRange | EigenvalueDecomposition.hpp:1110-1114 | Both result layouts (all imaginary parts zero, or conjugate pairs) satisfy e(0) >= 0 and e(n-1) <= 0, so getD never writes outside D. |
| Spectrum.PairAt | EigenvalueDecomposition.hpp:154-156 | In the conjugate-pair layout, a positive e(i) is followed by its negation with the same real part. A negative e(i) is preceded by its negation with the same real part. |
| Spectrum.PairedIffScan | test/TestMatrix.cpp:396-403 | From any block start, the position-wise layout holds iff the block-by-block scan the test performs passes. That scan checks: a nonzero e(i) is positive, is not last, is negated by e(i+1) with d(i+1) == d(i), and then the scan skips to i+2. |
| Spectrum.ConjugatePairsScan | test/TestMatrix.cpp:396-403 | The whole vector is in the conjugate-pair layout iff the test's check passes. |
| Spectrum.PairedExtendOne | EigenvalueDecomposition.hpp:599-605 | A real root (e = 0) stored just below an already laid-out range keeps the layout. |
| Spectrum.PairedExtendTwo | EigenvalueDecomposition.hpp:608-676 | A stored 2-by-2 block (two real roots, or one conjugate pair) just below a laid-out range keeps the layout. |
| Spectrum.PairedFrame | EigenvalueDecomposition.hpp:580-829 | The layout of a range depends only on the entries inside it. |
| Spectrum.Swap | EigenvalueDecomposition.hpp:436-437 | Entries i and k are exchanged and every other entry is kept. |
| Spectrum.SwapPermutation | EigenvalueDecomposition.hpp:435-443 | Exchanging two entries of a permutation of 0..n-1 leaves a permutation. |
| Spectrum.SwapMultiset | EigenvalueDecomposition.hpp:436-437 | Exchanging two entries of d keeps its multiset of values. |
| Spectrum.SelectionStep | EigenvalueDecomposition.hpp:427-445 | When positions 0..i-1 are each at most every later entry and k holds a minimum of i..n-1, exchanging i and k extends that to positions 0..i. |
| Eigen.EigenvalueDecomposition.SmallestFrom | EigenvalueDecomposition.hpp:428-434 | k is in i..n-1 and p == d(k) is at most every d(j) with j >= i. Because the comparison is strict, every d(j) with i <= j < k is larger: k is the first minimum. |
| Eigen.EigenvalueDecomposition.SwapEigenpairs | EigenvalueDecomposition.hpp:435-443 | d becomes d with entries i and k swapped, and columns i and k of V are swapped. Nothing else changes. |
| Eigen.EigenvalueDecomposition.ExchangeEigenpairs | EigenvalueDecomposition.hpp:435-443 | After the exchange, d and V are still the sort's input moved by one permutation: the old permutation with i and k swapped. The multiset of d is unchanged. |
| Eigen.EigenvalueDecomposition.SortPass | EigenvalueDecomposition.hpp:427-445 | One pass of the outer loop. Afterwards each of d(0..i) is at most every later entry. d and the columns of V stay the sort's input moved by one shared permutation, with the same multiset. When d(i) is already at most every later entry, nothing changes. |
| Eigen.EigenvalueDecomposition.SortEigenpairs | EigenvalueDecomposition.hpp:427-445 | d ends ascending, and its multiset is unchanged. d(k) == old d(perm(k)) and V(j,k) == old V(j, perm(k)) for one permutation perm, so each column keeps its eigenvalue and no row moves. |
| Dense.SwapColumns | EigenvalueDecomposition.hpp:439-443 | Columns i and k of V are exchanged row by row; all other columns are unchanged. |
| Eigen.EigenvalueDecomposition.Tred2 | EigenvalueDecomposition.hpp:212-325 | d, e(1..n-1) and V are the tridiagonalisation kernel's results from the V it starts with (the copy of A), and e(0) == 0. |
| Eigen.EigenvalueDecomposition.ShiftSubdiagonal | EigenvalueDecomposition.hpp:337-340 | e(i) becomes the old e(i+1) for i < n-1, and e(n-1) becomes 0. |
| Eigen.ShiftDown | EigenvalueDecomposition.hpp:337-340 | The shifted sub-diagonal as a value: same length, last entry 0, entry i is the old entry i+1. |
| Eigen.EigenvalueDecomposition.QLIterations | EigenvalueDecomposition.hpp:343-423 | d and V are the QL kernel's results from the tridiagonal input, and every e(l) is cleared. |
| Eigen.EigenvalueDecomposition.Tql2 | EigenvalueDecomposition.hpp:330-446 | e ends all zero and d ends ascending. For one permutation perm, d(k) is the QL kernel's eigenvalue number perm(k) and column k of V is its vector perm(k). |
| Eigen.EigenvalueDecomposition.Orthes | EigenvalueDecomposition.hpp:451-541 | H, V and ort are the Hessenberg kernel's results from the copy of A. |
| Dense.IsSymmetric | EigenvalueDecomposition.hpp:1014-1019 | The result is true iff A(i,j) == A(j,i) for all i, j, by exact equality. |
| Dense.Copy | EigenvalueDecomposition.hpp:1035-1039 | A fresh matrix of the same shape, entry for entry equal to A. |
| Dense.ExpandLower | EigenvalueDecomposition.hpp:1058 | The full matrix stored by a lower-triangular symmetric matrix: M(i,j) == A(max(i,j), min(i,j)), and M is symmetric. |
| Dense.LowerExpanded | EigenvalueDecomposition.hpp:1058 | The expanded lower triangle as a value, which is symmetric. |
| Eigen.EigenvalueDecomposition.FromMatrix | EigenvalueDecomposition.hpp:1007-1047 | issymmetric holds iff A is symmetric. A symmetric A ends as tred2 then tql2 on A: d ascending, e zero, and d and the columns of V the QL results moved by one permutation. Any other A ends as orthes then hqr2 on A, with d and e starting at zero: ort is orthes's vector, and d, e, H and V are what hqr2 leaves (see Hqr2). In both cases getD's writes stay in range. |
| Eigen.EigenvalueDecomposition.Storage | EigenvalueDecomposition.hpp:1010-1039 | Fresh, distinct arrays. The copy of A goes to V for symmetric input and to H otherwise; H and ort are empty for symmetric input; d and e start at zero. |
| Eigen.EigenvalueDecomposition.Pipeline | EigenvalueDecomposition.hpp:1022-1046 | The branch on issymmetric: tred2 and tql2 on the copy in V, or orthes and hqr2 on the copy in H, with the results stated as in FromMatrix. |
| Eigen.EigenvalueDecomposition.SymmetricPipeline | EigenvalueDecomposition.hpp:1022-1029 | d, e and V are tql2's sorted results on tred2's tridiagonal form of the V it starts with. |
| Eigen.EigenvalueDecomposition.GeneralPipeline | EigenvalueDecomposition.hpp:1031-1045 | ort is orthes's vector, and d, e, H and V are hqr2's results from orthes's form. When hqr2's loop finished, d and e are in the conjugate-pair layout. |
| Eigen.EigenvalueDecomposition.FromSymmetric | EigenvalueDecomposition.hpp:1050-1065 | issymmetric is set without a test. The result is tred2 then tql2 on the full matrix the lower triangle of A stands for: d ascending, e zero, and getD's writes stay in range. |
| Eigen.Decompose | EigenvalueDecomposition.hpp:1008 | The result is a failure (BadSize) iff A is not square. Otherwise the decomposition has the properties FromMatrix states. |
| Dense.BandNorm | EigenvalueDecomposition.hpp:566-575 | The sum of the absolute values of the Hessenberg band (row i from column max(i-1, 0)), which is never negative. |
| Dense.RowSum | EigenvalueDecomposition.hpp:572-574 | The sum of the absolute values of one row segment, which is never negative. |
| Dense.RowSumZero | EigenvalueDecomposition.hpp:572-574 | A row segment's sum is zero iff every entry in it is zero. |
| Dense.BandNormZero | EigenvalueDecomposition.hpp:566-575 | The norm is zero iff the whole Hessenberg band is zero. |
| Eigen.EigenvalueDecomposition.HessenbergNorm | EigenvalueDecomposition.hpp:566-575 | norm is the band norm of H, and it is zero iff the band of H is all zero. |
| Schur.DeflationRow | EigenvalueDecomposition.hpp:583-594 | 0 <= l <= top. When l > 0, H(l,l-1) passes the negligibility test. No j in l+1..top passes it: l is the largest such index, or 0. |
| Eigen.EigenvalueDecomposition.DeflationSearch | EigenvalueDecomposition.hpp:583-594 | The loop's l is DeflationRow of H: the largest index whose sub-diagonal entry is negligible, or 0. |
| Eigen.EigenvalueDecomposition.Negligible | EigenvalueDecomposition.hpp:586-592 | Step of DeflationSearch (whose l is DeflationRow): the test compares abs(H(l,l-1)) with eps times abs(H(l-1,l-1)) + abs(H(l,l)), or times the norm when that sum is zero. |
| Eigen.EigenvalueDecomposition.OneRoot | EigenvalueDecomposition.hpp:599-604 | H(top,top) takes exshift back and becomes d(top), e(top) becomes 0, and nothing else changes. |
| Eigen.EigenvalueDecomposition.TwoRoots | EigenvalueDecomposition.hpp:608-676 | The discriminant is ((a-d)/2)² + cb of the trailing block [a b; c d]. H, V, d and e end as TwoRootsOf: both diagonal entries take exshift back; a real pair (discriminant >= 0) stores x+z and x-w/z (x+z when z == 0) with zero imaginary parts and is rotated; a conjugate pair stores equal real parts x+p and imaginary parts sqrt(-q), -sqrt(-q), and V is unchanged. |
| Eigen.EigenvalueDecomposition.RealPair | EigenvalueDecomposition.hpp:617-665 | The real-pair branch ends as TwoRootsOf. |
| Eigen.EigenvalueDecomposition.ComplexPair | EigenvalueDecomposition.hpp:667-673 | The conjugate-pair branch ends as TwoRootsOf. |
| Schur.RealPairResult | EigenvalueDecomposition.hpp:608-665 | Step of RealPair's proof that it leaves TwoRootsOf: the values hqr2 computes for a real pair (p, w, z, x and the second root) and the rotated matrices are exactly the snapshot TwoRootsOf gives. |
| Schur.ComplexPairResult | EigenvalueDecomposition.hpp:608-673 | Step of ComplexPair's proof that it leaves TwoRootsOf: the values hqr2 computes for a conjugate pair are exactly the snapshot TwoRootsOf gives. |
| Schur.PairLayout | EigenvalueDecomposition.hpp:617-673 | A converged block stores zero imaginary parts exactly when its discriminant is non-negative. Otherwise it stores a conjugate pair: e(top-1) > 0, e(top) == -e(top-1) and equal real parts. |
| Eigen.EigenvalueDecomposition.SetPair | EigenvalueDecomposition.hpp:623-672 | d(top-1), d(top), e(top-1) and e(top) take the given values, and no other entry of d or e changes. |
| Eigen.EigenvalueDecomposition.ShiftBlockDiagonal | EigenvalueDecomposition.hpp:613-614 | exshift is added to H(top-1,top-1) and H(top,top); nothing else changes. |
| Eigen.EigenvalueDecomposition.TriangularizePair | EigenvalueDecomposition.hpp:632-665 | The rotation (p, q) is (x, z) normalised by the kernels. It is applied to rows top-1 and top of H (from column top-1), to columns top-1 and top of H (rows 0..top) and to columns top-1 and top of V. |
| Eigen.EigenvalueDecomposition.Rotation | EigenvalueDecomposition.hpp:632-637 | Step of TriangularizePair: (p, q) is PairRotation: x and z divided by abs(x) + abs(z), then by the root of the sum of their squares. |
| Dense.RotatePair | EigenvalueDecomposition.hpp:643-646 | The first entry becomes q·a + p·b and the second q·b − p·a, from their old values a and b; no other entry changes. |
| Dense.RotateRows | EigenvalueDecomposition.hpp:642-647 | Rows a and b become q·a + p·b and q·b − p·a from column `from` on; every other entry is unchanged. |
| Dense.RotateColumns | EigenvalueDecomposition.hpp:651-665 | Columns a and b become q·a + p·b and q·b − p·a in rows lo..hi; every other entry is unchanged. |
| Dense.RowsRotatedEntries | EigenvalueDecomposition.hpp:642-647 | Step of RotateRows' proof: a matrix rotated entry by entry as above holds exactly the value RowsRotated. |
| Eigen.EigenvalueDecomposition.FormShift | EigenvalueDecomposition.hpp:684-722 | (x, y, w) and the new exshift are ShiftChoice of H, and H loses on its diagonal 0..top exactly what exshift gained. |
| Schur.ShiftChoiceOf | EigenvalueDecomposition.hpp:684-722 | When iter is not 10, and either iter is not 30 or the block's discriminant is not positive, the shift is the trailing block as hqr2 reads it, with exshift kept; when iter is 30 and the discriminant is positive, it is (0.964, 0.964, 0.964) with MATLAB's shift added to exshift. |
| Eigen.EigenvalueDecomposition.WilkinsonShift | EigenvalueDecomposition.hpp:694-701 | exshift grows by x = H(top,top), which leaves the diagonal 0..top; with s = abs(H(top,top-1)) + abs(H(top-1,top-2)), x = y = 0.75·s and w = −0.4375·s². |
| Eigen.EigenvalueDecomposition.MatlabStep | EigenvalueDecomposition.hpp:706-721 | exshift grows by MATLAB's shift, which leaves the diagonal 0..top, and x = y = w = 0.964. |
| Dense.ShiftDiagonal | EigenvalueDecomposition.hpp:696-698 | s is subtracted from the diagonal entries 0..hi and from nothing else. |
| Dense.DiagonalShiftedByZero | EigenvalueDecomposition.hpp:684-722 | A zero shift leaves the matrix as it was. |
| Schur.ShiftKeepsDiagonal | EigenvalueDecomposition.hpp:694-721 | For every i in the window, H(i,i) + exshift is the same before and after the shift is formed. |
| Schur.BulgeRow | EigenvalueDecomposition.hpp:727-749 | l <= m <= top-2. m > l only when the bulge test passes at m, and no j in m+1..top-2 passes it: m is the largest passing index, or l. |
| Eigen.EigenvalueDecomposition.BulgeStart | EigenvalueDecomposition.hpp:727-749 | m is BulgeRow of H and (p, q, r) is the bulge vector at m. |
| Eigen.EigenvalueDecomposition.ClearBelowSubdiagonal | EigenvalueDecomposition.hpp:751-756 | H(i,i-2) is zeroed for i in m+2..top, and H(i,i-3) for i in m+3..top. Every other entry is unchanged. |
| Eigen.EigenvalueDecomposition.QRStep | EigenvalueDecomposition.hpp:760-826 | The new H and V and the outcome are exactly TakeStep of the old H and V. At k > m a zero column magnitude skips the step; a zero signed norm changes nothing; otherwise H(k,k-1) is set and the reflection is applied to the rows and columns of H and the columns of V. |
| Eigen.EigenvalueDecomposition.ScaledColumn | EigenvalueDecomposition.hpp:762-773 | Step of QRStep (which equals TakeStep): x is the magnitude of column k-1 below the diagonal (two entries at the last step); when it is not zero, (p, q, r) is that column divided by x. |
| Eigen.EigenvalueDecomposition.SignedNormOf | EigenvalueDecomposition.hpp:774-777 | Step of QRStep (which equals TakeStep): s is the root of p² + q² + r², negated when p < 0. |
| Eigen.EigenvalueDecomposition.SetLead | EigenvalueDecomposition.hpp:779-783 | H(k,k-1) becomes −s·x at k > m, is negated at k == m when m != l, and is kept otherwise; nothing else changes. |
| Eigen.EigenvalueDecomposition.ReflectorFor | EigenvalueDecomposition.hpp:784-789 | Step of QRStep (which equals TakeStep): x = (p+s)/s, y = q/s, z = r/s, and q and r are divided by p+s. |
| Eigen.EigenvalueDecomposition.ApplyReflection | EigenvalueDecomposition.hpp:791-825 | H is the row modification (rows k..k+2 from column k) followed by the column modification (columns k..k+2 in rows 0..min(top, k+3)); V is the column modification in every row. |
| Dense.ReflectRows | EigenvalueDecomposition.hpp:791-801 | Rows k, k+1 (and k+2 unless last) each lose p times x, y (and z), where p = M(k,j) + q·M(k+1,j) [+ r·M(k+2,j)], from column k on. Every other entry is unchanged. |
| Dense.ReflectColumns | EigenvalueDecomposition.hpp:803-825 | Columns k, k+1 (and k+2 unless last) lose p, p·q (and p·r), where p = x·M(i,k) + y·M(i,k+1) [+ z·M(i,k+2)], in rows lo..hi. Every other entry is unchanged. |
| Dense.RowsReflectedEntries | EigenvalueDecomposition.hpp:791-801 | Step of ReflectRows' proof: a matrix modified entry by entry as in the row modification holds exactly the value RowsReflected. |
| Dense.ColumnsReflectedEntries | EigenvalueDecomposition.hpp:803-825 | Step of ReflectColumns' proof: a matrix modified entry by entry as in the column modification holds exactly the value ColumnsReflected. |
| Schur.ReflectedStep | EigenvalueDecomposition.hpp:774-826 | Step of QRStep's proof that it equals TakeStep: when the step reflects, TakeStep is the lead entry set and the reflection applied, in the terms hqr2 computes them. |
| Schur.StepLocal | EigenvalueDecomposition.hpp:760-826 | A step that does not reflect changes neither H nor V. A step that reflects changes H only in rows k..min(k+2, top) from column k-1 on and in columns k..min(k+2, top) down to row min(top, k+3), and V only in columns k..min(k+2, top). |
| Schur.LeadingStepReflects | EigenvalueDecomposition.hpp:760-778 | With a bulge vector that is not zero, the first step of a sweep (k == m) always reflects: it makes no magnitude test and its norm is positive. |
| Schur.SquaresPositive | EigenvalueDecomposition.hpp:774 | p² + q² + r² is positive unless all three are zero. |
| Schur.Sweep | EigenvalueDecomposition.hpp:760-827 | The sweep from k takes one step for every k' in k..top-1, so it records top − k outcomes: it never stops early. |
| Eigen.EigenvalueDecomposition.DoubleQRStep | EigenvalueDecomposition.hpp:760-827 | The loop over k = m..top-1 leaves exactly Sweep's H and V, with one outcome per step in Sweep's order. |
| Schur.SweepUnrolled | EigenvalueDecomposition.hpp:760-827 | The sweep from k is step k followed by the sweep from k+1 on the matrices step k left. |
| Schur.SweepLocal | EigenvalueDecomposition.hpp:760-827 | The sweep leaves the rows below top alone, and every entry no step's band reaches. A sweep from m (with a step to take) never skips its first step. |
| Schur.SweepKeepsBasis | EigenvalueDecomposition.hpp:815-825 | The sweep from k leaves the columns of V outside k..top alone. |
| Eigen.EigenvalueDecomposition.QRIteration | EigenvalueDecomposition.hpp:680-827 | The new H, V, exshift and bulge row m are exactly Iterate: the shift formed, the bulge row found, the diagonals cleared and the sweep run from m. |
| Schur.IterationShift | EigenvalueDecomposition.hpp:694-722 | An iteration keeps exshift unless iter == 10 or iter == 30 (iter counts from 0 on each window); at iter == 10 it adds H(top,top). |
| Schur.IterationKeepsRows | EigenvalueDecomposition.hpp:680-827 | An iteration leaves the rows of H below the window alone. |
| Schur.IterationKeepsBasis | EigenvalueDecomposition.hpp:680-827 | An iteration leaves the columns of V outside l..top alone. |
| Eigen.EigenvalueDecomposition.QRPass | EigenvalueDecomposition.hpp:583-828 | l is DeflationRow, and the new storage, window, count and exshift are exactly Pass: one root found (l == top) shrinks the window by one, two roots found (l == top-1) by two, both restarting the count; otherwise one iteration runs on l..top and the count goes up. |
| Schur.PassKeepsPairs | EigenvalueDecomposition.hpp:580-829 | A pass keeps the conjugate-pair layout above the window and extends it over the positions that leave the window. d and e do not change inside the remaining window. The window shrinks by one or two with the count reset, or it stays with the count one higher and d and e unchanged. |
| Schur.RunKeepsPairs | EigenvalueDecomposition.hpp:579-829 | The outer loop keeps the layout above its window; when the window empties, all of d and e are in the conjugate-pair layout. |
| Eigen.EigenvalueDecomposition.RunPass | EigenvalueDecomposition.hpp:579-829 | One pass of the loop: the rest of Run from the new state gives the same final state as Run from the old one. |
| Eigen.EigenvalueDecomposition.OuterLoop | EigenvalueDecomposition.hpp:579-829 | The loop ends in exactly Run's final state from the whole window with count and exshift zero, and `done` holds iff that window is empty. |
| Eigen.EigenvalueDecomposition.BackSubstitute | EigenvalueDecomposition.hpp:836-994 | H and V become the back-substitution kernel's results. d and e are not changed. |
| Eigen.EigenvalueDecomposition.Hqr2 | EigenvalueDecomposition.hpp:546-995 | d and e are those of the outer loop's final state, and `done` holds iff its window emptied. When the band norm is zero, H and V are the loop's and nothing is back-substituted; otherwise they are the back-substitution's results from the loop's state. When the window emptied, d and e are in the conjugate-pair layout. |

## Left out

- Floating-point arithmetic. Entries are exact reals. Division by a computed
  value, square root and epsilon are uninterpreted kernel fields, so
  rounding, overflow and underflow are not modelled. Halving (`/ 2.0` in the
  pair and MATLAB-shift formulas) is exact real division: it is exact in
  binary floating point too, except on underflow, which is not modelled.
- The numerical interiors of `tred2`, `tql2`'s QL iterations, `orthes` and
  `hqr2`'s back-substitution. They are kernel functions of the working
  storage they start from. The model states where their results go, not what
  they are (no `A·V = V·D`, no orthogonality of `V`).
- Termination. `hqr2`'s outer loop has no iteration cap, and neither has the
  QL loop of `tql2`; both stop on numerical convergence.
  - `Hqr2` takes a `fuel` bound on its passes, and `done` says whether the
    window emptied within it. The `converged` ghost field keeps `done`.
    The layout guarantee is stated for the case where it did.
  - The QL loop is inside the kernel.
- Eigen.EigenvalueDecomposition.TwoRoots: states the rotated 2-by-2 block
  only through the rotation formulas (via TriangularizePair). It does not
  state that the rotation makes the block upper triangular, which holds
  only for exact arithmetic.
- Eigen.EigenvalueDecomposition.RealPair: the same limitation as TwoRoots.
- Eigen.EigenvalueDecomposition.TriangularizePair: the same limitation as
  TwoRoots.
- The store of roots isolated by balancing (lines 567-571) and the vectors
  of isolated roots (lines 974-982) are not modelled. With low = 0 and
  high = nn-1 their condition never holds.
- The getters (`isSymmetric`, `getV`, `getRealEigenvalues`,
  `getImagEigenvalues`, the value-returning `getD`) are reads of the fields
  `issymmetric`, `V`, `d`, `e` and of `GetD`.
- The uBLAS storage.
  - The members are value-typed matrices and vectors that `resize` sizes in
    place. The model allocates each array once, in the constructor, and
    keeps it in a `const` field.
  - `resize` leaves `d` and `e` uninitialised. The model starts them at
    zero. Only a `hqr2` that stops within its fuel bound before the window
    empties leaves entries of `d` and `e` that the source never writes.
  - `identity_matrix` is part of the orthes kernel.
  - `is_symmetric` is modelled by the exact element-wise comparison of the
    commented-out loop it replaced.
  - `BOOST_UBLAS_CHECK(..., bad_size())` becomes the `BadSize` failure of
    `Decompose`. The constructors themselves require a square matrix.
- Eigen.EigenvalueDecomposition.FromMatrix: requires n >= 1. An empty
  matrix is symmetric, and `tred2` then writes V(n-1,n-1) and e(0) outside
  their storage.
- Eigen.EigenvalueDecomposition.FromSymmetric: requires n >= 1, for the
  same reason.
- Only the lower-triangular storage of the symmetric matrix type (the
  default) is modelled.
- The `ort` vector's contents after `orthes` come from the kernel; nothing
  later reads it.
- The test program itself. It is only the source of the layout checks proved
  in `Spectrum.PairedIffScan` and `Spectrum.ConjugatePairsScan`.
