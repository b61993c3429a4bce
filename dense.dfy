/**
  The loops of the decomposition that work on a single dense matrix: the
  symmetry test, copies, column swaps, and the plane rotations and 3-by-3
  Householder reflections that hqr2 applies to rows of H and to columns of H
  and V. Each is stated by what it leaves in every entry it touches and by
  the entries it leaves alone.
*/
module Dense {
  import opened Numerics

  /** A(i,j) == A(j,i) for all i, j: exact equality, no tolerance. */
  ghost predicate Symmetric(A: array2<real>)
    reads A
  {
    A.Length0 == A.Length1 &&
    forall i, j :: 0 <= i < A.Length0 && 0 <= j < A.Length1 ==> A[i, j] == A[j, i]
  }

  /** The current contents of a matrix, as the snapshot the numerical kernels read. */
  function Entries(M: array2<real>): (s: Matrix)
    reads M
    ensures |s| == M.Length0
    ensures forall i :: 0 <= i < M.Length0 ==> |s[i]| == M.Length1
    ensures forall i, j :: 0 <= i < M.Length0 && 0 <= j < M.Length1 ==> s[i][j] == M[i, j]
  {
    seq(M.Length0, i requires 0 <= i < M.Length0 reads M =>
      seq(M.Length1, j requires 0 <= j < M.Length1 reads M => M[i, j]))
  }

  /** M has `rows` rows of `cols` entries each. */
  predicate Shaped(M: Matrix, rows: int, cols: int) {
    |M| == rows && forall i :: 0 <= i < rows ==> |M[i]| == cols
  }

  /** A matrix whose entries agree with a snapshot of the same shape has that snapshot as its contents. */
  lemma EntriesEqual(M: array2<real>, S: Matrix)
    requires Shaped(S, M.Length0, M.Length1)
    requires forall i, j :: 0 <= i < M.Length0 && 0 <= j < M.Length1 ==> M[i, j] == S[i][j]
    ensures Entries(M) == S
  {
    var E := Entries(M);
    forall i | 0 <= i < M.Length0
      ensures E[i] == S[i]
    {
      assert forall j :: 0 <= j < M.Length1 ==> E[i][j] == S[i][j];
    }
  }

  /**
    The symmetry test of the general constructor, column by column, stopping
    at the first mismatch.
  */
  method IsSymmetric(A: array2<real>) returns (issymmetric: bool)
    requires A.Length0 == A.Length1
    ensures issymmetric <==> Symmetric(A)
  {
    var n := A.Length1;
    issymmetric := true;
    var j := 0;
    while j < n && issymmetric
      invariant 0 <= j <= n
      invariant issymmetric <==> forall r, c :: 0 <= r < n && 0 <= c < j ==> A[r, c] == A[c, r]
    {
      var i := 0;
      while i < n && issymmetric
        invariant 0 <= i <= n
        invariant issymmetric <==>
          (forall r, c :: 0 <= r < n && 0 <= c < j ==> A[r, c] == A[c, r]) &&
          (forall r :: 0 <= r < i ==> A[r, j] == A[j, r])
      {
        issymmetric := A[i, j] == A[j, i];
        i := i + 1;
      }
      j := j + 1;
    }
    if !issymmetric {
      assert !Symmetric(A);
    }
  }

  /** A fresh matrix with the same entries (matrix assignment `M = A`). */
  method Copy(A: array2<real>) returns (M: array2<real>)
    ensures fresh(M) && M.Length0 == A.Length0 && M.Length1 == A.Length1
    ensures forall i, j :: 0 <= i < A.Length0 && 0 <= j < A.Length1 ==> M[i, j] == A[i, j]
  {
    M := new real[A.Length0, A.Length1];
    for i := 0 to A.Length0
      invariant forall r, c :: 0 <= r < i && 0 <= c < A.Length1 ==> M[r, c] == A[r, c]
    {
      for j := 0 to A.Length1
        invariant forall r, c :: 0 <= r < i && 0 <= c < A.Length1 ==> M[r, c] == A[r, c]
        invariant forall c :: 0 <= c < j ==> M[i, c] == A[i, c]
      {
        M[i, j] := A[i, j];
      }
    }
  }

  /**
    The full matrix a lower-triangular symmetric matrix stands for: only the
    entries on and below the diagonal of `A` are stored, and entry (i, j) is
    the stored entry (max(i,j), min(i,j)).
  */
  method ExpandLower(A: array2<real>) returns (M: array2<real>)
    requires A.Length0 == A.Length1
    ensures fresh(M) && M.Length0 == A.Length0 && M.Length1 == A.Length1
    ensures forall i, j :: 0 <= i < A.Length0 && 0 <= j < A.Length1 ==> M[i, j] == A[Max(i, j), Min(i, j)]
    ensures Symmetric(M)
    ensures Entries(M) == LowerExpanded(Entries(A))
  {
    M := new real[A.Length0, A.Length1];
    for i := 0 to A.Length0
      invariant forall r, c :: 0 <= r < i && 0 <= c < A.Length1 ==> M[r, c] == A[Max(r, c), Min(r, c)]
    {
      for j := 0 to A.Length1
        invariant forall r, c :: 0 <= r < i && 0 <= c < A.Length1 ==> M[r, c] == A[Max(r, c), Min(r, c)]
        invariant forall c :: 0 <= c < j ==> M[i, c] == A[Max(i, c), Min(i, c)]
      {
        M[i, j] := A[Max(i, j), Min(i, j)];
      }
    }
    EntriesEqual(M, LowerExpanded(Entries(A)));
  }

  /** The full matrix stored by the lower triangle of A, as a value; it is symmetric. */
  function LowerExpanded(A: Matrix): (M: Matrix)
    requires Shaped(A, |A|, |A|)
    ensures Shaped(M, |A|, |A|)
    ensures forall i, j :: 0 <= i < |A| && 0 <= j < |A| ==> M[i][j] == M[j][i]
  {
    seq(|A|, i requires 0 <= i < |A| => seq(|A|, j requires 0 <= j < |A| => A[Max(i, j)][Min(i, j)]))
  }

  /** Every entry of M set from f. */
  method FillMatrix(M: array2<real>, f: (int, int) -> real)
    modifies M
    ensures forall i, j :: 0 <= i < M.Length0 && 0 <= j < M.Length1 ==> M[i, j] == f(i, j)
  {
    for i := 0 to M.Length0
      invariant forall r, c :: 0 <= r < i && 0 <= c < M.Length1 ==> M[r, c] == f(r, c)
    {
      for j := 0 to M.Length1
        invariant forall r, c :: 0 <= r < i && 0 <= c < M.Length1 ==> M[r, c] == f(r, c)
        invariant forall c :: 0 <= c < j ==> M[i, c] == f(i, c)
      {
        M[i, j] := f(i, j);
      }
    }
  }

  /** Every entry of a set from f. */
  method FillVector(a: array<real>, f: int -> real)
    modifies a
    ensures forall i :: 0 <= i < a.Length ==> a[i] == f(i)
  {
    for i := 0 to a.Length
      invariant forall r :: 0 <= r < i ==> a[r] == f(r)
    {
      a[i] := f(i);
    }
  }

  /** Columns i and k of M exchanged, row by row; all other columns unchanged. */
  method SwapColumns(M: array2<real>, i: int, k: int)
    requires 0 <= i < M.Length1 && 0 <= k < M.Length1
    modifies M
    ensures forall r, c :: 0 <= r < M.Length0 && 0 <= c < M.Length1 ==>
      M[r, c] == old(M[r, if c == i then k else if c == k then i else c])
  {
    for j := 0 to M.Length0
      invariant forall r, c :: 0 <= r < j && 0 <= c < M.Length1 ==>
        M[r, c] == old(M[r, if c == i then k else if c == k then i else c])
      invariant forall r, c :: j <= r < M.Length0 && 0 <= c < M.Length1 ==> M[r, c] == old(M[r, c])
    {
      var p := M[j, i];
      M[j, i] := M[j, k];
      M[j, k] := p;
    }
  }

  /** The matrix RotateRows leaves: rows a and b rotated by (p, q) from column `from` on. */
  function RowsRotated(M: Matrix, cols: nat, a: int, b: int, from: int, p: real, q: real): (R: Matrix)
    requires Shaped(M, |M|, cols) && 0 <= a < |M| && 0 <= b < |M|
    ensures Shaped(R, |M|, cols)
  {
    seq(|M|, i requires 0 <= i < |M| => seq(cols, j requires 0 <= j < cols =>
      if (i != a && i != b) || j < from then M[i][j]
      else if i == a then q * M[a][j] + p * M[b][j]
      else M[b][j] * q - p * M[a][j]))
  }

  /** The matrix RotateColumns leaves: columns a and b rotated by (p, q) in rows lo .. hi. */
  function ColumnsRotated(M: Matrix, cols: nat, a: int, b: int, lo: int, hi: int, p: real, q: real): (R: Matrix)
    requires Shaped(M, |M|, cols) && 0 <= a < cols && 0 <= b < cols
    ensures Shaped(R, |M|, cols)
  {
    seq(|M|, i requires 0 <= i < |M| => seq(cols, j requires 0 <= j < cols =>
      if (j != a && j != b) || i < lo || i > hi then M[i][j]
      else if j == a then q * M[i][a] + p * M[i][b]
      else M[i][b] * q - p * M[i][a]))
  }

  /** Entry-wise effect of RotateRows, gathered into RowsRotated. */
  lemma RowsRotatedEntries(M: array2<real>, M0: Matrix, a: int, b: int, from: int, p: real, q: real)
    requires Shaped(M0, M.Length0, M.Length1) && 0 <= a < M.Length0 && 0 <= b < M.Length0 && 0 <= from
    requires forall j :: from <= j < M.Length1 ==>
      M[a, j] == q * M0[a][j] + p * M0[b][j] && M[b, j] == M0[b][j] * q - p * M0[a][j]
    requires forall i, j :: 0 <= i < M.Length0 && 0 <= j < M.Length1 && ((i != a && i != b) || j < from) ==>
      M[i, j] == M0[i][j]
    ensures Entries(M) == RowsRotated(M0, M.Length1, a, b, from, p, q)
  {
    var R := RowsRotated(M0, M.Length1, a, b, from, p, q);
    forall i, j | 0 <= i < M.Length0 && 0 <= j < M.Length1
      ensures M[i, j] == R[i][j]
    {
      if (i == a || i == b) && from <= j {
        assert M[a, j] == q * M0[a][j] + p * M0[b][j] && M[b, j] == M0[b][j] * q - p * M0[a][j];
      }
    }
    EntriesEqual(M, R);
  }

  /**
    The rotation of one pair of entries, M(i1,j1) and M(i2,j2), computed as
    the source does: the first is saved in z, then M(i2,j2) is scaled by q
    and loses p z.
  */
  method RotatePair(M: array2<real>, i1: int, j1: int, i2: int, j2: int, p: real, q: real)
    requires 0 <= i1 < M.Length0 && 0 <= j1 < M.Length1 && 0 <= i2 < M.Length0 && 0 <= j2 < M.Length1
    requires i1 != i2 || j1 != j2
    modifies M
    ensures M[i1, j1] == q * old(M[i1, j1]) + p * old(M[i2, j2])
    ensures M[i2, j2] == old(M[i2, j2]) * q - p * old(M[i1, j1])
    ensures forall r, c :: 0 <= r < M.Length0 && 0 <= c < M.Length1 && (r != i1 || c != j1) && (r != i2 || c != j2) ==>
      M[r, c] == old(M[r, c])
  {
    var z := M[i1, j1];
    M[i1, j1] := q * z + p * M[i2, j2];
    M[i2, j2] := M[i2, j2] * q;
    M[i2, j2] := M[i2, j2] - p * z;
  }

  /**
    The plane rotation [q, p; -p, q] applied to rows a and b of M, in the
    columns from `from` to the last.
  */
  method RotateRows(M: array2<real>, a: int, b: int, from: int, p: real, q: real)
    requires 0 <= a < M.Length0 && 0 <= b < M.Length0 && a != b && 0 <= from
    modifies M
    ensures forall j :: from <= j < M.Length1 ==>
      M[a, j] == q * old(M[a, j]) + p * old(M[b, j]) &&
      M[b, j] == old(M[b, j]) * q - p * old(M[a, j])
    ensures forall i, j :: 0 <= i < M.Length0 && 0 <= j < M.Length1 && ((i != a && i != b) || j < from) ==>
      M[i, j] == old(M[i, j])
    ensures Entries(M) == RowsRotated(old(Entries(M)), M.Length1, a, b, from, p, q)
  {
    ghost var M0 := Entries(M);
    var j := from;
    while j < M.Length1
      invariant from <= j
      invariant forall c :: from <= c < j && c < M.Length1 ==>
        M[a, c] == q * old(M[a, c]) + p * old(M[b, c]) &&
        M[b, c] == old(M[b, c]) * q - p * old(M[a, c])
      invariant forall i, c :: 0 <= i < M.Length0 && 0 <= c < M.Length1 && ((i != a && i != b) || c < from || c >= j) ==>
        M[i, c] == old(M[i, c])
    {
      RotatePair(M, a, j, b, j, p, q);
      j := j + 1;
    }
    RowsRotatedEntries(M, M0, a, b, from, p, q);
  }

  /**
    The plane rotation [q, -p; p, q] applied to columns a and b of M, in the
    rows lo to hi.
  */
  method RotateColumns(M: array2<real>, a: int, b: int, lo: int, hi: int, p: real, q: real)
    requires 0 <= a < M.Length1 && 0 <= b < M.Length1 && a != b && 0 <= lo && hi < M.Length0
    modifies M
    ensures forall i :: lo <= i <= hi ==>
      M[i, a] == q * old(M[i, a]) + p * old(M[i, b]) &&
      M[i, b] == old(M[i, b]) * q - p * old(M[i, a])
    ensures forall i, j :: 0 <= i < M.Length0 && 0 <= j < M.Length1 && ((j != a && j != b) || i < lo || i > hi) ==>
      M[i, j] == old(M[i, j])
    ensures Entries(M) == ColumnsRotated(old(Entries(M)), M.Length1, a, b, lo, hi, p, q)
  {
    ghost var M0 := Entries(M);
    var i := lo;
    while i <= hi
      invariant lo <= i <= hi + 1 || (i == lo && hi < lo)
      invariant forall r :: lo <= r < i && r <= hi ==>
        M[r, a] == q * old(M[r, a]) + p * old(M[r, b]) &&
        M[r, b] == old(M[r, b]) * q - p * old(M[r, a])
      invariant forall r, c :: 0 <= r < M.Length0 && 0 <= c < M.Length1 && ((c != a && c != b) || r < lo || r >= i) ==>
        M[r, c] == old(M[r, c])
    {
      RotatePair(M, i, a, i, b, p, q);
      i := i + 1;
    }
    EntriesEqual(M, ColumnsRotated(M0, M.Length1, a, b, lo, hi, p, q));
  }

  /**
    The combination p = M(k,j) + q M(k+1,j) [+ r M(k+2,j)] that the row
    modification of a double QR step subtracts from rows k .. k+2.
  */
  function RowCombination(a: real, b: real, c: real, q: real, r: real, notlast: bool): real {
    if notlast then a + q * b + r * c else a + q * b
  }

  /**
    The combination p = x M(i,k) + y M(i,k+1) [+ z M(i,k+2)] that the column
    modification of a double QR step subtracts from columns k .. k+2.
  */
  function ColumnCombination(a: real, b: real, c: real, x: real, y: real, z: real, notlast: bool): real {
    if notlast then x * a + y * b + z * c else x * a + y * b
  }

  /**
    The three entries of one column (or row) after a reflection step: the
    first two always change, the third only when the step is not the last.
  */
  predicate Reflected(a': real, b': real, c': real, a: real, b: real, c: real,
                      p: real, ca: real, cb: real, cc: real, notlast: bool)
  {
    && a' == a - p * ca
    && b' == b - p * cb
    && (notlast ==> c' == c - p * cc)
  }

  /** Entry (i, j) of M after the row modification of ReflectRows. */
  function RowReflectedEntry(M: Matrix, cols: nat, k: int, notlast: bool,
                             x: real, y: real, z: real, q: real, r: real, i: int, j: int): real
    requires Shaped(M, |M|, cols) && 0 <= i < |M| && 0 <= j < cols
    requires 0 <= k && k + 1 < |M| && (notlast ==> k + 2 < |M|)
  {
    if j < k || (i != k && i != k + 1 && (i != k + 2 || !notlast)) then M[i][j]
    else
      var third := if notlast then M[k + 2][j] else 0.0;
      var p := RowCombination(M[k][j], M[k + 1][j], third, q, r, notlast);
      if i == k then M[k][j] - p * x
      else if i == k + 1 then M[k + 1][j] - p * y
      else M[k + 2][j] - p * z
  }

  /** The matrix the row modification of ReflectRows leaves. */
  function RowsReflected(M: Matrix, cols: nat, k: int, notlast: bool,
                         x: real, y: real, z: real, q: real, r: real): (R: Matrix)
    requires Shaped(M, |M|, cols)
    requires 0 <= k && k + 1 < |M| && (notlast ==> k + 2 < |M|)
    ensures Shaped(R, |M|, cols)
  {
    seq(|M|, i requires 0 <= i < |M| =>
      seq(cols, j requires 0 <= j < cols => RowReflectedEntry(M, cols, k, notlast, x, y, z, q, r, i, j)))
  }

  /** Entry (i, j) of M after the column modification of ReflectColumns. */
  function ColumnReflectedEntry(M: Matrix, cols: nat, k: int, notlast: bool, lo: int, hi: int,
                                x: real, y: real, z: real, q: real, r: real, i: int, j: int): real
    requires Shaped(M, |M|, cols) && 0 <= i < |M| && 0 <= j < cols
    requires 0 <= k && k + 1 < cols && (notlast ==> k + 2 < cols)
  {
    if i < lo || i > hi || (j != k && j != k + 1 && (j != k + 2 || !notlast)) then M[i][j]
    else
      var third := if notlast then M[i][k + 2] else 0.0;
      var p := ColumnCombination(M[i][k], M[i][k + 1], third, x, y, z, notlast);
      if j == k then M[i][k] - p * 1.0
      else if j == k + 1 then M[i][k + 1] - p * q
      else M[i][k + 2] - p * r
  }

  /** The matrix the column modification of ReflectColumns leaves. */
  function ColumnsReflected(M: Matrix, cols: nat, k: int, notlast: bool, lo: int, hi: int,
                            x: real, y: real, z: real, q: real, r: real): (R: Matrix)
    requires Shaped(M, |M|, cols)
    requires 0 <= k && k + 1 < cols && (notlast ==> k + 2 < cols)
    ensures Shaped(R, |M|, cols)
  {
    seq(|M|, i requires 0 <= i < |M| =>
      seq(cols, j requires 0 <= j < cols => ColumnReflectedEntry(M, cols, k, notlast, lo, hi, x, y, z, q, r, i, j)))
  }

  /** Entry-wise effect of the row modification, gathered into RowsReflected. */
  lemma RowsReflectedEntries(M: array2<real>, M0: Matrix, k: int, notlast: bool,
                             x: real, y: real, z: real, q: real, r: real)
    requires Shaped(M0, M.Length0, M.Length1)
    requires 0 <= k && k + 1 < M.Length0 && (notlast ==> k + 2 < M.Length0)
    requires forall j :: k <= j < M.Length1 ==>
      var third := if notlast then M[k + 2, j] else 0.0;
      var third0 := if notlast then M0[k + 2][j] else 0.0;
      Reflected(M[k, j], M[k + 1, j], third, M0[k][j], M0[k + 1][j], third0,
                RowCombination(M0[k][j], M0[k + 1][j], third0, q, r, notlast), x, y, z, notlast)
    requires forall i, j | 0 <= i < M.Length0 && 0 <= j < M.Length1 &&
      (j < k || (i != k && i != k + 1 && (i != k + 2 || !notlast))) ::
        M[i, j] == M0[i][j]
    ensures Entries(M) == RowsReflected(M0, M.Length1, k, notlast, x, y, z, q, r)
  {
    var R := RowsReflected(M0, M.Length1, k, notlast, x, y, z, q, r);
    forall i, j | 0 <= i < M.Length0 && 0 <= j < M.Length1
      ensures M[i, j] == R[i][j]
    {
      if !(j < k || (i != k && i != k + 1 && (i != k + 2 || !notlast))) {
        var third := if notlast then M[k + 2, j] else 0.0;
        var third0 := if notlast then M0[k + 2][j] else 0.0;
        assert Reflected(M[k, j], M[k + 1, j], third, M0[k][j], M0[k + 1][j], third0,
                         RowCombination(M0[k][j], M0[k + 1][j], third0, q, r, notlast), x, y, z, notlast);
      }
    }
    EntriesEqual(M, R);
  }

  /** Entry-wise effect of the column modification, gathered into ColumnsReflected. */
  lemma ColumnsReflectedEntries(M: array2<real>, M0: Matrix, k: int, notlast: bool, lo: int, hi: int,
                                x: real, y: real, z: real, q: real, r: real)
    requires Shaped(M0, M.Length0, M.Length1)
    requires 0 <= k && k + 1 < M.Length1 && (notlast ==> k + 2 < M.Length1)
    requires 0 <= lo && hi < M.Length0
    requires forall i :: lo <= i <= hi ==>
      var third := if notlast then M[i, k + 2] else 0.0;
      var third0 := if notlast then M0[i][k + 2] else 0.0;
      Reflected(M[i, k], M[i, k + 1], third, M0[i][k], M0[i][k + 1], third0,
                ColumnCombination(M0[i][k], M0[i][k + 1], third0, x, y, z, notlast), 1.0, q, r, notlast)
    requires forall i, j | 0 <= i < M.Length0 && 0 <= j < M.Length1 &&
      (i < lo || i > hi || (j != k && j != k + 1 && (j != k + 2 || !notlast))) ::
        M[i, j] == M0[i][j]
    ensures Entries(M) == ColumnsReflected(M0, M.Length1, k, notlast, lo, hi, x, y, z, q, r)
  {
    var R := ColumnsReflected(M0, M.Length1, k, notlast, lo, hi, x, y, z, q, r);
    forall i, j | 0 <= i < M.Length0 && 0 <= j < M.Length1
      ensures M[i, j] == R[i][j]
    {
      if !(i < lo || i > hi || (j != k && j != k + 1 && (j != k + 2 || !notlast))) {
        var third := if notlast then M[i, k + 2] else 0.0;
        var third0 := if notlast then M0[i][k + 2] else 0.0;
        assert Reflected(M[i, k], M[i, k + 1], third, M0[i][k], M0[i][k + 1], third0,
                         ColumnCombination(M0[i][k], M0[i][k + 1], third0, x, y, z, notlast), 1.0, q, r, notlast);
      }
    }
    EntriesEqual(M, R);
  }

  /**
    Row modification of a double QR step: the Householder reflection given by
    (x, y, z, q, r) applied to rows k, k+1 (and k+2 unless this is the last
    step) in the columns from k to the last.
  */
  method ReflectRows(M: array2<real>, k: int, notlast: bool, x: real, y: real, z: real, q: real, r: real)
    requires 0 <= k && k + 1 < M.Length0 && (notlast ==> k + 2 < M.Length0)
    modifies M
    ensures forall j :: k <= j < M.Length1 ==>
      var third := if notlast then M[k + 2, j] else 0.0;
      var third0 := if notlast then old(M[k + 2, j]) else 0.0;
      Reflected(M[k, j], M[k + 1, j], third, old(M[k, j]), old(M[k + 1, j]), third0,
                RowCombination(old(M[k, j]), old(M[k + 1, j]), third0, q, r, notlast), x, y, z, notlast)
    ensures forall i, j | 0 <= i < M.Length0 && 0 <= j < M.Length1 &&
      (j < k || (i != k && i != k + 1 && (i != k + 2 || !notlast))) ::
        M[i, j] == old(M[i, j])
    ensures Entries(M) == RowsReflected(old(Entries(M)), M.Length1, k, notlast, x, y, z, q, r)
  {
    ghost var M0 := Entries(M);
    var j := k;
    while j < M.Length1
      invariant k <= j
      invariant forall c :: k <= c < j && c < M.Length1 ==>
        var third := if notlast then M[k + 2, c] else 0.0;
        var third0 := if notlast then old(M[k + 2, c]) else 0.0;
        Reflected(M[k, c], M[k + 1, c], third, old(M[k, c]), old(M[k + 1, c]), third0,
                  RowCombination(old(M[k, c]), old(M[k + 1, c]), third0, q, r, notlast), x, y, z, notlast)
      invariant forall i, c | 0 <= i < M.Length0 && 0 <= c < M.Length1 &&
        (c < k || c >= j || (i != k && i != k + 1 && (i != k + 2 || !notlast))) ::
          M[i, c] == old(M[i, c])
    {
      var p := M[k, j] + q * M[k + 1, j];
      if notlast {
        p := p + r * M[k + 2, j];
        M[k + 2, j] := M[k + 2, j] - p * z;
      }
      M[k, j] := M[k, j] - p * x;
      M[k + 1, j] := M[k + 1, j] - p * y;
      j := j + 1;
    }
    RowsReflectedEntries(M, M0, k, notlast, x, y, z, q, r);
  }

  /**
    Column modification of a double QR step (used on H and, as the
    accumulation of transformations, on V): the same reflection applied to
    columns k, k+1 (and k+2 unless last) in the rows lo to hi.
  */
  method ReflectColumns(M: array2<real>, k: int, notlast: bool, lo: int, hi: int,
                        x: real, y: real, z: real, q: real, r: real)
    requires 0 <= k && k + 1 < M.Length1 && (notlast ==> k + 2 < M.Length1)
    requires 0 <= lo && hi < M.Length0
    modifies M
    ensures forall i :: lo <= i <= hi ==>
      var third := if notlast then M[i, k + 2] else 0.0;
      var third0 := if notlast then old(M[i, k + 2]) else 0.0;
      Reflected(M[i, k], M[i, k + 1], third, old(M[i, k]), old(M[i, k + 1]), third0,
                ColumnCombination(old(M[i, k]), old(M[i, k + 1]), third0, x, y, z, notlast), 1.0, q, r, notlast)
    ensures forall i, j | 0 <= i < M.Length0 && 0 <= j < M.Length1 &&
      (i < lo || i > hi || (j != k && j != k + 1 && (j != k + 2 || !notlast))) ::
        M[i, j] == old(M[i, j])
    ensures Entries(M) == ColumnsReflected(old(Entries(M)), M.Length1, k, notlast, lo, hi, x, y, z, q, r)
  {
    ghost var M0 := Entries(M);
    var i := lo;
    while i <= hi
      invariant lo <= i <= hi + 1 || (i == lo && hi < lo)
      invariant forall t :: lo <= t < i && t <= hi ==>
        var third := if notlast then M[t, k + 2] else 0.0;
        var third0 := if notlast then old(M[t, k + 2]) else 0.0;
        Reflected(M[t, k], M[t, k + 1], third, old(M[t, k]), old(M[t, k + 1]), third0,
                  ColumnCombination(old(M[t, k]), old(M[t, k + 1]), third0, x, y, z, notlast), 1.0, q, r, notlast)
      invariant forall t, c | 0 <= t < M.Length0 && 0 <= c < M.Length1 &&
        (t < lo || t >= i || (c != k && c != k + 1 && (c != k + 2 || !notlast))) ::
          M[t, c] == old(M[t, c])
    {
      var p := x * M[i, k] + y * M[i, k + 1];
      if notlast {
        p := p + z * M[i, k + 2];
        M[i, k + 2] := M[i, k + 2] - p * r;
      }
      M[i, k] := M[i, k] - p;
      M[i, k + 1] := M[i, k + 1] - p * q;
      i := i + 1;
    }
    ColumnsReflectedEntries(M, M0, k, notlast, lo, hi, x, y, z, q, r);
  }

  /** |M(i,lo)| + ... + |M(i,hi-1)|, added left to right. */
  function RowSum(M: Matrix, i: int, lo: int, hi: int): (r: real)
    requires 0 <= i < |M| && 0 <= lo && hi <= |M[i]|
    ensures r >= 0.0
    decreases hi - lo
  {
    if hi <= lo then 0.0 else RowSum(M, i, lo, hi - 1) + Abs(M[i][hi - 1])
  }

  /**
    The sum of absolute values over the first `rows` rows of the upper
    Hessenberg band of M: row i contributes its entries from column
    max(i-1, 0) on.
  */
  function BandNorm(M: Matrix, rows: int, cols: int): (r: real)
    requires Shaped(M, |M|, cols) && 0 <= rows <= |M|
    ensures r >= 0.0
  {
    if rows == 0 then 0.0
    else BandNorm(M, rows - 1, cols) + RowSum(M, rows - 1, Max(rows - 2, 0), cols)
  }

  /** A row sum is zero exactly when every entry it adds is zero. */
  lemma {:induction false} RowSumZero(M: Matrix, i: int, lo: int, hi: int)
    requires 0 <= i < |M| && 0 <= lo && hi <= |M[i]|
    ensures RowSum(M, i, lo, hi) == 0.0 <==> forall j :: lo <= j < hi ==> M[i][j] == 0.0
    decreases hi - lo
  {
    if lo < hi {
      RowSumZero(M, i, lo, hi - 1);
    }
  }

  /**
    The band norm is zero exactly when the whole band is zero: the case in
    which hqr2 leaves the eigenvectors without back-substitution.
  */
  lemma {:induction false} BandNormZero(M: Matrix, rows: int, cols: int)
    requires Shaped(M, |M|, cols) && 0 <= rows <= |M|
    ensures BandNorm(M, rows, cols) == 0.0 <==>
      forall i, j :: 0 <= i < rows && Max(i - 1, 0) <= j < cols ==> M[i][j] == 0.0
  {
    if rows > 0 {
      BandNormZero(M, rows - 1, cols);
      RowSumZero(M, rows - 1, Max(rows - 2, 0), cols);
    }
  }

  /** M with s subtracted from the diagonal entries M(0,0) .. M(hi,hi). */
  function DiagonalShifted(M: Matrix, cols: nat, hi: int, s: real): (R: Matrix)
    requires Shaped(M, |M|, cols)
    ensures Shaped(R, |M|, cols)
  {
    seq(|M|, i requires 0 <= i < |M| => seq(cols, j requires 0 <= j < cols =>
      M[i][j] - (if i == j && i <= hi then s else 0.0)))
  }

  /** Shifting by zero leaves the matrix as it is. */
  lemma DiagonalShiftedByZero(M: Matrix, cols: nat, hi: int)
    requires Shaped(M, |M|, cols)
    ensures DiagonalShifted(M, cols, hi, 0.0) == M
  {
    var R := DiagonalShifted(M, cols, hi, 0.0);
    forall i | 0 <= i < |M|
      ensures R[i] == M[i]
    {
    }
  }

  /** s subtracted from the diagonal entries M(0,0) .. M(hi,hi). */
  method ShiftDiagonal(M: array2<real>, hi: int, s: real)
    requires hi < M.Length0 && hi < M.Length1
    modifies M
    ensures forall i, j | 0 <= i < M.Length0 && 0 <= j < M.Length1 ::
      M[i, j] == old(M[i, j]) - (if i == j && i <= hi then s else 0.0)
    ensures Entries(M) == DiagonalShifted(old(Entries(M)), M.Length1, hi, s)
  {
    ghost var M0 := Entries(M);
    var i := 0;
    while i <= hi
      invariant 0 <= i <= hi + 1 || (i == 0 && hi < 0)
      invariant forall r, c | 0 <= r < M.Length0 && 0 <= c < M.Length1 ::
        M[r, c] == old(M[r, c]) - (if r == c && r < i then s else 0.0)
    {
      M[i, i] := M[i, i] - s;
      i := i + 1;
    }
    EntriesEqual(M, DiagonalShifted(M0, M.Length1, hi, s));
  }
}
