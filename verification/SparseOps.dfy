/** Reading CSR matrices and multiplying them with vectors. */
module SparseOps {
  import opened Sums
  import opened LinAlg
  import opened SparseMatrix

  datatype Status = Success | ErrSize

  ghost function First(s: seq<real>): real {
    if s == [] then 0.0 else s[0]
  }

  ghost function Last(s: seq<real>): real {
    if s == [] then 0.0 else s[|s| - 1]
  }

  // ---- reading ----

  lemma RowHolds(A: Csr, i: nat)
    requires WellFormed(A) && i < A.nrows
    ensures Holds(A.cols, A.values, A.rowPtr[i], Row(A, i)) && A.rowPtr[i + 1] == A.rowPtr[i] + |Row(A, i)|
    ensures InRange(Row(A, i), A.ncols)
  {
    RowInRange(A, i);
  }

  lemma FirstMatch(row: seq<Cell>, k: nat, j: nat)
    requires k < |row| && row[k].col == j && Vals(row[..k], j) == []
    ensures First(Vals(row, j)) == row[k].val
  {
    ValsSnoc(row, k, j);
    ValsConcat(row[..k + 1], row[k + 1..], j);
    assert row == row[..k + 1] + row[k + 1..];
  }

  /** One write of the expansion, seen from column j. */
  lemma LastAfter(row: seq<Cell>, m: nat, j: nat)
    requires m < |row|
    ensures Last(Vals(row[..m + 1], j)) == if row[m].col == j then row[m].val else Last(Vals(row[..m], j))
  {
    ValsSnoc(row, m, j);
  }

  /** The search loop over the cells of one row. */
  method FindCell(values: seq<real>, cols: seq<nat>, start: nat, end: nat, col: nat, ghost row: seq<Cell>)
    returns (value: real)
    requires Holds(cols, values, start, row) && end == start + |row|
    ensures value == First(Vals(row, col))
  {
    for i := start to end
      invariant Vals(row[..i - start], col) == []
    {
      HoldsAt(cols, values, start, row, i);
      ValsSnoc(row, i - start, col);
      if cols[i] == col {
        FirstMatch(row, i - start, col);
        return values[i];
      }
    }
    assert row[..end - start] == row;
    value := 0.0;
  }

  method GetValue(A: Csr, row: int, col: int) returns (value: real)
    requires WellFormed(A)
    ensures value == if 0 <= row < A.nrows && 0 <= col < A.ncols then First(Vals(Row(A, row), col)) else 0.0
  {
    if row < 0 || row >= A.nrows || col < 0 || col >= A.ncols {
      return 0.0;
    }
    RowHolds(A, row);
    value := FindCell(A.values, A.cols, A.rowPtr[row], A.rowPtr[row + 1], col, Row(A, row));
  }

  /** The inner loop of the expansion: later cells overwrite earlier ones in line i. */
  method ExpandCells(values: seq<real>, cols: seq<nat>, start: nat, end: nat, D: array2<real>, i: nat, ghost row: seq<Cell>)
    requires Holds(cols, values, start, row) && end == start + |row| && i < D.Length0 && InRange(row, D.Length1)
    requires forall j | 0 <= j < D.Length1 :: D[i, j] == 0.0
    modifies D
    ensures forall j | 0 <= j < D.Length1 :: D[i, j] == Last(Vals(row, j))
    ensures forall r, j | 0 <= r < D.Length0 && 0 <= j < D.Length1 && r != i :: D[r, j] == old(D[r, j])
  {
    for k := start to end
      invariant forall j | 0 <= j < D.Length1 :: D[i, j] == Last(Vals(row[..k - start], j))
      invariant forall r, j | 0 <= r < D.Length0 && 0 <= j < D.Length1 && r != i :: D[r, j] == old(D[r, j])
    {
      ghost var m := k - start;
      HoldsAt(cols, values, start, row, k);
      D[i, cols[k]] := values[k];
      forall j | 0 <= j < D.Length1 ensures D[i, j] == Last(Vals(row[..m + 1], j)) { LastAfter(row, m, j); }
    }
    assert row[..end - start] == row;
  }

  method ExpandRow(A: Csr, i: nat, D: array2<real>)
    requires WellFormed(A) && i < A.nrows && D.Length0 >= A.nrows && D.Length1 >= A.ncols
    requires forall j | 0 <= j < D.Length1 :: D[i, j] == 0.0
    modifies D
    ensures forall j | 0 <= j < D.Length1 :: D[i, j] == Last(Vals(Row(A, i), j))
    ensures forall r, j | 0 <= r < D.Length0 && 0 <= j < D.Length1 && r != i :: D[r, j] == old(D[r, j])
  {
    RowHolds(A, i);
    ExpandCells(A.values, A.cols, A.rowPtr[i], A.rowPtr[i + 1], D, i, Row(A, i));
  }

  method ToDense(A: Csr, D: array2<real>)
    requires WellFormed(A) && D.Length0 >= A.nrows && D.Length1 >= A.ncols
    modifies D
    ensures forall i, j | 0 <= i < D.Length0 && 0 <= j < D.Length1 ::
      D[i, j] == if i < A.nrows && j < A.ncols then Last(Vals(Row(A, i), j)) else 0.0
  {
    forall i, j | 0 <= i < D.Length0 && 0 <= j < D.Length1 { D[i, j] := 0.0; }
    for i := 0 to A.nrows
      invariant forall r, j | 0 <= r < D.Length0 && 0 <= j < D.Length1 ::
        D[r, j] == if r < i then Last(Vals(Row(A, r), j)) else 0.0
    {
      ExpandRow(A, i, D);
    }
    forall r, j | 0 <= r < A.nrows && A.ncols <= j < D.Length1 ensures Vals(Row(A, r), j) == [] {
      RowInRange(A, r);
      ValsEmpty(Row(A, r), j);
    }
  }

  // ---- matrix times vector ----

  /** The inner product of a stored row with a vector, cell by cell. */
  ghost function RowDot(row: seq<Cell>, x: Vec): real
    requires InRange(row, |x|)
  {
    if row == [] then 0.0
    else RowDot(row[..|row| - 1], x) + Mul(row[|row| - 1].val, x[row[|row| - 1].col])
  }

  ghost function DenseRow(row: seq<Cell>, n: nat): (d: Vec)
    ensures |d| == n
    ensures forall j | 0 <= j < n :: d[j] == Total(Vals(row, j))
  {
    seq(n, j requires 0 <= j < n => Total(Vals(row, j)))
  }

  lemma TotalSnoc(s: seq<real>, v: real)
    ensures Total(s + [v]) == Total(s) + v
  {
    assert (s + [v])[..|s|] == s;
  }

  lemma DenseRowSnoc(row: seq<Cell>, n: nat)
    requires row != [] && InRange(row, n)
    ensures DenseRow(row, n)
         == Axpy(DenseRow(row[..|row| - 1], n), row[|row| - 1].val, Unit(n, row[|row| - 1].col))
  {
    var front, last := row[..|row| - 1], row[|row| - 1];
    var d, e := DenseRow(row, n), Axpy(DenseRow(front, n), last.val, Unit(n, last.col));
    forall j | 0 <= j < n ensures d[j] == e[j] {
      TotalSnoc(Vals(front, j), last.val);
      FmaUnit(Total(Vals(front, j)), last.val);
    }
  }

  lemma FmaUnit(a: real, c: real)
    ensures Fma(a, c, 1.0) == a + c && Fma(a, c, 0.0) == a
  {}

  /** Walking the cells computes the dense inner product. */
  lemma {:induction false} RowDotDense(row: seq<Cell>, n: nat, x: Vec)
    requires InRange(row, n) && |x| == n
    ensures RowDot(row, x) == Dot(DenseRow(row, n), x)
  {
    if row == [] {
      assert DenseRow(row, n) == Zero(n);
      DotZero(x, n);
    } else {
      var front, last := row[..|row| - 1], row[|row| - 1];
      RowDotDense(front, n, x);
      DenseRowSnoc(row, n);
      DotAxpy(DenseRow(front, n), last.val, Unit(n, last.col), x);
      DotUnit(n, last.col, x);
      FmaMul(Dot(DenseRow(front, n), x), last.val, x[last.col]);
    }
  }

  lemma FmaMul(a: real, c: real, b: real)
    ensures Fma(a, c, b) == a + Mul(c, b)
  {}

  lemma RowInRange(A: Csr, i: nat)
    requires WellFormed(A) && i < A.nrows
    ensures InRange(Row(A, i), A.ncols) && Dense(A)[i] == DenseRow(Row(A, i), A.ncols)
  {
    forall k | 0 <= k < |Row(A, i)| ensures Row(A, i)[k].col < A.ncols {
      assert A.rowPtr[i + 1] <= A.rowPtr[A.nrows];
    }
  }

  lemma RowDotSnoc(row: seq<Cell>, k: nat, x: Vec)
    requires k < |row| && InRange(row, |x|)
    ensures RowDot(row[..k + 1], x) == RowDot(row[..k], x) + Mul(row[k].val, x[row[k].col])
  {
    assert row[..k + 1][..k] == row[..k];
  }

  lemma WholeRow(A: Csr, i: nat, z: Vec, sum: real)
    requires WellFormed(A) && i < A.nrows && |z| == A.ncols && InRange(Row(A, i), |z|) && sum == RowDot(Row(A, i), z)
    ensures sum == MatVec(Dense(A), z)[i]
  {
    RowInRange(A, i);
    RowDotDense(Row(A, i), A.ncols, z);
  }

  /** The inner loop of the product, over the cells of one row. */
  method DotCells(values: seq<real>, cols: seq<nat>, start: nat, end: nat, x: Vec, ghost row: seq<Cell>, ghost z: Vec)
    returns (sum: real)
    requires Holds(cols, values, start, row) && end == start + |row| && InRange(row, |z|)
    requires |z| <= |x| && forall c | 0 <= c < |z| :: x[c] == z[c]
    ensures sum == RowDot(row, z)
  {
    sum := 0.0;
    for j := start to end
      invariant sum == RowDot(row[..j - start], z)
    {
      RowDotSnoc(row, j - start, z);
      HoldsAt(cols, values, start, row, j);
      sum := sum + Mul(values[j], x[cols[j]]);
    }
    assert row[..end - start] == row;
  }

  method RowProduct(A: Csr, i: nat, x: Vec) returns (sum: real)
    requires WellFormed(A) && i < A.nrows && |x| >= A.ncols
    ensures sum == MatVec(Dense(A), x[..A.ncols])[i]
  {
    RowHolds(A, i);
    sum := DotCells(A.values, A.cols, A.rowPtr[i], A.rowPtr[i + 1], x, Row(A, i), x[..A.ncols]);
    WholeRow(A, i, x[..A.ncols], sum);
  }

  method MatVecMult(A: Csr, x: Vec, y: array<real>)
    requires WellFormed(A) && |x| >= A.ncols && y.Length >= A.nrows
    modifies y
    ensures y[..A.nrows] == MatVec(Dense(A), x[..A.ncols])
    ensures forall i | A.nrows <= i < y.Length :: y[i] == 0.0
  {
    forall i | 0 <= i < y.Length { y[i] := 0.0; }
    ghost var product := MatVec(Dense(A), x[..A.ncols]);
    for i := 0 to A.nrows
      invariant forall k | 0 <= k < i :: y[k] == product[k]
      invariant forall k | i <= k < y.Length :: y[k] == 0.0
    {
      var sum := RowProduct(A, i, x);
      y[i] := sum;
    }
  }
}
