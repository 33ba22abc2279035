/** Building CSR matrices from dense ones. */
module SparseBuild {
  import opened Sums
  import opened LinAlg
  import opened SparseMatrix
  import opened SparseOps

  /** The cells kept among the first k columns of a dense row. */
  ghost function Kept(d: Vec, tol: real, k: nat): seq<Cell>
    requires k <= |d|
  {
    if k == 0 then []
    else if Abs(d[k - 1]) > tol then Kept(d, tol, k - 1) + [Cell(k - 1, d[k - 1])]
    else Kept(d, tol, k - 1)
  }

  /** The cells of rows 0 .. i-1 one after the other. */
  ghost function Flat(D: Mat, tol: real, n: nat, i: nat): seq<Cell>
    requires IsMat(D, |D|, n) && i <= |D|
  {
    if i == 0 then [] else Flat(D, tol, n, i - 1) + Kept(D[i - 1], tol, n)
  }

  /** Row i starts at slot p. */
  ghost predicate PointsTo(D: Mat, tol: real, n: nat, i: nat, p: nat)
    requires IsMat(D, |D|, n) && i <= |D|
  {
    p == |Flat(D, tol, n, i)|
  }

  /** C stores exactly the kept entries of D, row by row. */
  ghost predicate Stores(C: Csr, D: Mat, tol: real) {
    && WellFormed(C) && Exact(C) && IsMat(D, C.nrows, C.ncols)
    && forall i | 0 <= i < C.nrows :: Row(C, i) == Kept(D[i], tol, C.ncols)
  }

  lemma {:induction false} KeptCols(d: Vec, tol: real, k: nat)
    requires k <= |d|
    ensures forall m | 0 <= m < |Kept(d, tol, k)| :: Kept(d, tol, k)[m].col < k
  {
    if k > 0 { KeptCols(d, tol, k - 1); }
  }

  lemma {:induction false} KeptVals(d: Vec, tol: real, k: nat, j: nat)
    requires k <= |d|
    ensures Vals(Kept(d, tol, k), j) == if j < k && Abs(d[j]) > tol then [d[j]] else []
  {
    if k > 0 {
      KeptVals(d, tol, k - 1, j);
      var front := Kept(d, tol, k - 1);
      if Abs(d[k - 1]) > tol {
        assert Kept(d, tol, k) == front + [Cell(k - 1, d[k - 1])];
        ValsAppend(front, Cell(k - 1, d[k - 1]), j);
      } else {
        assert Kept(d, tol, k) == front;
      }
    }
  }

  lemma {:induction false} KeptStrict(d: Vec, tol: real, k: nat)
    requires k <= |d|
    ensures StrictlySorted(Kept(d, tol, k))
  {
    if k > 0 {
      KeptStrict(d, tol, k - 1);
      KeptCols(d, tol, k - 1);
    }
  }

  /** What a matrix built from D means: D with small entries dropped, each stored once in order. */
  lemma StoresMeaning(C: Csr, D: Mat, tol: real, i: nat, j: nat)
    requires Stores(C, D, tol) && i < C.nrows && j < C.ncols
    ensures StrictlySorted(Row(C, i))
    ensures var v := Vals(Row(C, i), j); First(v) == Last(v) == Total(v) == if Abs(D[i][j]) > tol then D[i][j] else 0.0
  {
    KeptStrict(D[i], tol, C.ncols);
    KeptVals(D[i], tol, C.ncols, j);
    assert Total([D[i][j]]) == Total([]) + D[i][j];
  }

  // ---- the two counting orders agree ----

  function Indicator(D: Mat, tol: real): (int, int) -> real {
    (i, j) => if Abs(Entry(D, i, j)) > tol then 1.0 else 0.0
  }

  lemma {:induction false} KeptCount(D: Mat, tol: real, n: nat, i: nat, k: nat)
    requires IsMat(D, |D|, n) && i < |D| && k <= n
    ensures |Kept(D[i], tol, k)| as real == Sum(k, j => Indicator(D, tol)(i, j))
  {
    if k > 0 {
      KeptCount(D, tol, n, i, k - 1);
      assert Indicator(D, tol)(i, k - 1) == if Abs(D[i][k - 1]) > tol then 1.0 else 0.0;
    }
  }

  lemma {:induction false} FlatCount(D: Mat, tol: real, n: nat, i: nat)
    requires IsMat(D, |D|, n) && i <= |D|
    ensures |Flat(D, tol, n, i)| as real == DoubleSum(i, n, Indicator(D, tol))
  {
    if i > 0 {
      FlatCount(D, tol, n, i - 1);
      KeptCount(D, tol, n, i - 1, n);
    }
  }

  /** The column-by-column count is the length of the row-by-row fill. */
  method CountNonZeros(D: Mat, ncols: nat, tol: real) returns (nnz: nat)
    requires IsMat(D, |D|, ncols)
    ensures nnz == |Flat(D, tol, ncols, |D|)|
  {
    nnz := 0;
    ghost var f := Flip(Indicator(D, tol));
    for j := 0 to ncols
      invariant nnz as real == DoubleSum(j, |D|, f)
    {
      for i := 0 to |D|
        invariant nnz as real == DoubleSum(j, |D|, f) + Sum(i, r => f(j, r))
      {
        assert f(j, i) == if Abs(D[i][j]) > tol then 1.0 else 0.0;
        if Abs(D[i][j]) > tol {
          nnz := nnz + 1;
        }
      }
    }
    SumSwap(|D|, ncols, Indicator(D, tol));
    FlatCount(D, tol, ncols, |D|);
  }

  lemma {:induction false} FlatPrefix(D: Mat, tol: real, n: nat, i: nat, h: nat)
    requires IsMat(D, |D|, n) && i <= h <= |D|
    ensures Flat(D, tol, n, i) <= Flat(D, tol, n, h)
  {
    if i < h { FlatPrefix(D, tol, n, i, h - 1); }
  }

  lemma {:induction false} KeptPrefix(d: Vec, tol: real, k: nat, h: nat)
    requires k <= h <= |d|
    ensures Kept(d, tol, k) <= Kept(d, tol, h)
  {
    if k < h { KeptPrefix(d, tol, k, h - 1); }
  }

  /** The fill position after k columns of row i stays inside the storage. */
  lemma FillFits(D: Mat, tol: real, n: nat, i: nat, k: nat)
    requires IsMat(D, |D|, n) && i < |D| && k <= n
    ensures |Flat(D, tol, n, i)| + |Kept(D[i], tol, k)| <= |Flat(D, tol, n, |D|)|
  {
    KeptPrefix(D[i], tol, k, n);
    FlatPrefix(D, tol, n, i + 1, |D|);
  }

  /** What the fill leaves in the arrays. */
  ghost predicate Slots(C: Csr, D: Mat, tol: real) {
    && IsMat(D, C.nrows, C.ncols) && Exact(C) && C.nnz == |Flat(D, tol, C.ncols, C.nrows)| && |C.rowPtr| == C.nrows + 1
    && (forall i | 0 <= i <= C.nrows :: PointsTo(D, tol, C.ncols, i, C.rowPtr[i]))
    && Holds(C.cols, C.values, 0, Flat(D, tol, C.ncols, C.nrows))
  }

  lemma PointersSorted(C: Csr, D: Mat, tol: real, i: nat, j: nat)
    requires Slots(C, D, tol) && i <= j <= C.nrows
    ensures C.rowPtr[i] <= C.rowPtr[j]
  {
    FlatPrefix(D, tol, C.ncols, i, j);
    assert PointsTo(D, tol, C.ncols, i, C.rowPtr[i]) && PointsTo(D, tol, C.ncols, j, C.rowPtr[j]);
  }

  lemma ColumnInRange(C: Csr, D: Mat, tol: real, k: nat)
    requires Slots(C, D, tol) && k < C.nnz
    ensures C.cols[k] < C.ncols
  {
    HoldsAt(C.cols, C.values, 0, Flat(D, tol, C.ncols, C.nrows), k);
    FlatCols(D, tol, C.ncols, C.nrows, k);
  }

  lemma SlotsWellFormed(C: Csr, D: Mat, tol: real)
    requires Slots(C, D, tol)
    ensures WellFormed(C)
  {
    forall i, j | 0 <= i <= j <= C.nrows ensures C.rowPtr[i] <= C.rowPtr[j] { PointersSorted(C, D, tol, i, j); }
    forall k | 0 <= k < C.nnz ensures C.cols[k] < C.ncols { ColumnInRange(C, D, tol, k); }
    assert PointsTo(D, tol, C.ncols, 0, C.rowPtr[0]) && PointsTo(D, tol, C.ncols, C.nrows, C.rowPtr[C.nrows]);
  }

  lemma StoresFromSlots(C: Csr, D: Mat, tol: real)
    requires Slots(C, D, tol)
    ensures Stores(C, D, tol)
  {
    SlotsWellFormed(C, D, tol);
    forall i | 0 <= i < C.nrows ensures Row(C, i) == Kept(D[i], tol, C.ncols) { StoredRow(C, D, tol, i); }
  }

  lemma PrefixAt(done: seq<Cell>, kept: seq<Cell>, all: seq<Cell>, m: nat)
    requires done + kept <= all && m < |kept|
    ensures |done| + m < |all| && all[|done| + m] == kept[m]
  {
    assert (done + kept)[|done| + m] == kept[m];
  }

  lemma StoredCell(C: Csr, D: Mat, tol: real, i: nat, m: nat)
    requires WellFormed(C) && Slots(C, D, tol) && i < C.nrows && m < |Kept(D[i], tol, C.ncols)|
    ensures C.rowPtr[i] + m < C.nnz
    ensures Cell(C.cols[C.rowPtr[i] + m], C.values[C.rowPtr[i] + m]) == Kept(D[i], tol, C.ncols)[m]
  {
    var all, done, kept := Flat(D, tol, C.ncols, C.nrows), Flat(D, tol, C.ncols, i), Kept(D[i], tol, C.ncols);
    FlatPrefix(D, tol, C.ncols, i + 1, C.nrows);
    assert PointsTo(D, tol, C.ncols, i, C.rowPtr[i]);
    PrefixAt(done, kept, all, m);
    HoldsAt(C.cols, C.values, 0, all, C.rowPtr[i] + m);
  }

  lemma StoredRow(C: Csr, D: Mat, tol: real, i: nat)
    requires WellFormed(C) && Slots(C, D, tol) && i < C.nrows
    ensures Row(C, i) == Kept(D[i], tol, C.ncols)
  {
    assert PointsTo(D, tol, C.ncols, i, C.rowPtr[i]) && PointsTo(D, tol, C.ncols, i + 1, C.rowPtr[i + 1]);
    forall m | 0 <= m < |Kept(D[i], tol, C.ncols)| ensures Row(C, i)[m] == Kept(D[i], tol, C.ncols)[m] {
      StoredCell(C, D, tol, i, m);
    }
  }

  lemma {:induction false} FlatCols(D: Mat, tol: real, n: nat, i: nat, k: nat)
    requires IsMat(D, |D|, n) && i <= |D| && k < |Flat(D, tol, n, i)|
    ensures Flat(D, tol, n, i)[k].col < n
  {
    if k < |Flat(D, tol, n, i - 1)| {
      FlatCols(D, tol, n, i - 1, k);
    } else {
      KeptCols(D[i - 1], tol, n);
    }
  }

  lemma KeptStep(d: Vec, tol: real, j: nat, done: seq<Cell>)
    requires j < |d| && Abs(d[j]) > tol
    ensures done + Kept(d, tol, j + 1) == (done + Kept(d, tol, j)) + [Cell(j, d[j])]
    ensures |Kept(d, tol, j + 1)| == |Kept(d, tol, j)| + 1
  {}

  /** Writes the cell at column j behind the ones already written, if it is kept. */
  method FillCell(d: Vec, j: nat, tol: real, values: array<real>, cols: array<nat>, pos: nat, ghost done: seq<Cell>)
    returns (kept: bool)
    requires j < |d| && cols.Length == values.Length && pos == |done| + |Kept(d, tol, j)|
    requires |done| + |Kept(d, tol, j + 1)| <= cols.Length && Holds(cols[..], values[..], 0, done + Kept(d, tol, j))
    modifies values, cols
    ensures Holds(cols[..], values[..], 0, done + Kept(d, tol, j + 1))
    ensures |Kept(d, tol, j + 1)| == |Kept(d, tol, j)| + if kept then 1 else 0
  {
    kept := Abs(d[j]) > tol;
    if kept {
      KeptStep(d, tol, j, done);
      HoldsAfterWrite(cols[..], values[..], 0, done + Kept(d, tol, j), pos, j, d[j]);
      ghost var cols', values' := cols[..][pos := j], values[..][pos := d[j]];
      values[pos] := d[j];
      cols[pos] := j;
      assert cols[..] == cols' && values[..] == values';
    }
  }

  /** The inner loop of the fill: the kept cells of the row go behind the `done` ones. */
  method FillCells(d: Vec, ncols: nat, tol: real, values: array<real>, cols: array<nat>, idx: nat, ghost done: seq<Cell>)
    returns (count: nat)
    requires ncols == |d| && cols.Length == values.Length && idx == |done|
    requires |done| + |Kept(d, tol, ncols)| <= cols.Length && Holds(cols[..], values[..], 0, done)
    modifies values, cols
    ensures count == |Kept(d, tol, ncols)| && Holds(cols[..], values[..], 0, done + Kept(d, tol, ncols))
  {
    count := 0;
    assert done + Kept(d, tol, 0) == done;
    for j := 0 to ncols
      invariant count == |Kept(d, tol, j)| && Holds(cols[..], values[..], 0, done + Kept(d, tol, j))
    {
      KeptPrefix(d, tol, j + 1, ncols);
      var kept := FillCell(d, j, tol, values, cols, idx + count, done);
      if kept {
        count := count + 1;
      }
    }
  }

  /** Fills in row i of the matrix; `next` is where the following row starts. */
  method FillRow(D: Mat, i: nat, ncols: nat, tol: real, values: array<real>, cols: array<nat>, idx: nat)
    returns (next: nat)
    requires IsMat(D, |D|, ncols) && i < |D| && PointsTo(D, tol, ncols, i, idx)
    requires PointsTo(D, tol, ncols, |D|, cols.Length) && cols.Length == values.Length
    requires Holds(cols[..], values[..], 0, Flat(D, tol, ncols, i))
    modifies values, cols
    ensures PointsTo(D, tol, ncols, i + 1, next) && Holds(cols[..], values[..], 0, Flat(D, tol, ncols, i + 1))
  {
    FillFits(D, tol, ncols, i, ncols);
    var count := FillCells(D[i], ncols, tol, values, cols, idx, Flat(D, tol, ncols, i));
    next := idx + count;
  }

  /** Rows below i are filled in, and the pointers up to i are set. */
  ghost predicate Filled(D: Mat, ncols: nat, tol: real, values: seq<real>, cols: seq<nat>, rowPtr: seq<nat>, i: nat)
    requires IsMat(D, |D|, ncols) && i <= |D| < |rowPtr|
  {
    && Holds(cols, values, 0, Flat(D, tol, ncols, i))
    && forall r | 0 <= r <= i :: PointsTo(D, tol, ncols, r, rowPtr[r])
  }

  lemma FilledNext(D: Mat, ncols: nat, tol: real, values: seq<real>, cols: seq<nat>, rowPtr: seq<nat>, i: nat, next: nat)
    requires IsMat(D, |D|, ncols) && i < |D| < |rowPtr| && PointsTo(D, tol, ncols, i + 1, next)
    requires forall r | 0 <= r <= i :: PointsTo(D, tol, ncols, r, rowPtr[r])
    requires Holds(cols, values, 0, Flat(D, tol, ncols, i + 1))
    ensures Filled(D, ncols, tol, values, cols, rowPtr[i + 1 := next], i + 1)
  {}

  /** One turn of the outer loop. */
  method FillNext(D: Mat, ncols: nat, tol: real, values: array<real>, cols: array<nat>, rowPtr: array<nat>, i: nat)
    requires IsMat(D, |D|, ncols) && PointsTo(D, tol, ncols, |D|, cols.Length) && cols.Length == values.Length
    requires rowPtr.Length == |D| + 1 && cols != rowPtr && i < |D|
    requires Filled(D, ncols, tol, values[..], cols[..], rowPtr[..], i)
    modifies values, cols, rowPtr
    ensures Filled(D, ncols, tol, values[..], cols[..], rowPtr[..], i + 1)
  {
    assert PointsTo(D, tol, ncols, i, rowPtr[..][i]);
    ghost var before := rowPtr[..];
    var next := FillRow(D, i, ncols, tol, values, cols, rowPtr[i]);
    FilledNext(D, ncols, tol, values[..], cols[..], before, i, next);
    ghost var filled, held := values[..], cols[..];
    rowPtr[i + 1] := next;
    assert rowPtr[..] == before[i + 1 := next] && values[..] == filled && cols[..] == held;
  }

  /** The fill: values, columns and row pointers of all rows. */
  method FillRows(D: Mat, ncols: nat, tol: real, values: array<real>, cols: array<nat>, rowPtr: array<nat>)
    requires IsMat(D, |D|, ncols) && PointsTo(D, tol, ncols, |D|, cols.Length) && cols.Length == values.Length
    requires rowPtr.Length == |D| + 1 && cols != rowPtr
    modifies values, cols, rowPtr
    ensures Filled(D, ncols, tol, values[..], cols[..], rowPtr[..], |D|)
  {
    rowPtr[0] := 0;
    for i := 0 to |D|
      invariant Filled(D, ncols, tol, values[..], cols[..], rowPtr[..], i)
    {
      FillNext(D, ncols, tol, values, cols, rowPtr, i);
    }
  }

  method FromDense(D: Mat, ncols: nat, tol: real) returns (C: Csr)
    requires IsMat(D, |D|, ncols)
    ensures C.nrows == |D| && C.ncols == ncols && Stores(C, D, tol)
  {
    var nnz := CountNonZeros(D, ncols, tol);
    var values, cols, rowPtr := new real[nnz], new nat[nnz], new nat[|D| + 1];
    FillRows(D, ncols, tol, values, cols, rowPtr);
    C := Csr(|D|, ncols, nnz, values[..], cols[..], rowPtr[..]);
    StoresFromSlots(C, D, tol);
  }

  /** Building from a dense matrix and expanding again drops the small entries and nothing else. */
  method RoundTrip(D: Mat, ncols: nat, tol: real, E: array2<real>)
    requires IsMat(D, |D|, ncols) && E.Length0 == |D| && E.Length1 == ncols
    modifies E
    ensures forall i, j | 0 <= i < |D| && 0 <= j < ncols :: E[i, j] == if Abs(D[i][j]) > tol then D[i][j] else 0.0
  {
    var C := FromDense(D, ncols, tol);
    ToDense(C, E);
    forall i, j | 0 <= i < |D| && 0 <= j < ncols ensures E[i, j] == (if Abs(D[i][j]) > tol then D[i][j] else 0.0) {
      StoresMeaning(C, D, tol, i, j);
    }
  }
}
