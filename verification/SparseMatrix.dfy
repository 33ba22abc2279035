/** Compressed sparse row matrices as values: rows, dense meaning, transposition. */
module SparseMatrix {
  import opened LinAlg

  datatype Csr = Csr(nrows: nat, ncols: nat, nnz: nat, values: seq<real>, cols: seq<nat>, rowPtr: seq<nat>)

  datatype Cell = Cell(col: nat, val: real)

  /** Storage may be larger than the number of entries in use. */
  predicate WellFormed(A: Csr) {
    && |A.rowPtr| == A.nrows + 1 && A.rowPtr[0] == 0 && A.rowPtr[A.nrows] == A.nnz
    && (forall i, j | 0 <= i <= j <= A.nrows :: A.rowPtr[i] <= A.rowPtr[j])
    && A.nnz <= |A.values| == |A.cols|
    && (forall k | 0 <= k < A.nnz :: A.cols[k] < A.ncols)
  }

  predicate Exact(A: Csr) {
    |A.values| == |A.cols| == A.nnz
  }

  function Cells(cols: seq<nat>, vals: seq<real>): (r: seq<Cell>)
    requires |cols| == |vals|
    ensures |r| == |cols|
    ensures forall k {:trigger r[k]} | 0 <= k < |r| :: r[k] == Cell(cols[k], vals[k])
  {
    if cols == [] then []
    else
      var n := |cols| - 1;
      Cells(cols[..n], vals[..n]) + [Cell(cols[n], vals[n])]
  }

  /** The stored cells of row i, in storage order. */
  function Row(A: Csr, i: nat): (r: seq<Cell>)
    requires WellFormed(A) && i < A.nrows
    ensures |r| == A.rowPtr[i + 1] - A.rowPtr[i]
    ensures forall k {:trigger r[k]} | 0 <= k < |r| :: r[k] == Cell(A.cols[A.rowPtr[i] + k], A.values[A.rowPtr[i] + k])
  {
    Cells(A.cols[A.rowPtr[i]..A.rowPtr[i + 1]], A.values[A.rowPtr[i]..A.rowPtr[i + 1]])
  }

  /** All values a row stores at column j, in storage order. */
  ghost function Vals(row: seq<Cell>, j: nat): seq<real> {
    if row == [] then []
    else
      var last, front := row[|row| - 1], Vals(row[..|row| - 1], j);
      if last.col == j then front + [last.val] else front
  }

  ghost predicate InRange(row: seq<Cell>, n: nat) {
    forall k | 0 <= k < |row| :: row[k].col < n
  }

  ghost predicate Sorted(row: seq<Cell>) {
    forall k, l | 0 <= k < l < |row| :: row[k].col <= row[l].col
  }

  ghost predicate StrictlySorted(row: seq<Cell>) {
    forall k, l | 0 <= k < l < |row| :: row[k].col < row[l].col
  }

  ghost predicate RowsSorted(A: Csr)
    requires WellFormed(A)
  {
    forall i | 0 <= i < A.nrows :: Sorted(Row(A, i))
  }

  ghost predicate NoDuplicates(row: seq<Cell>) {
    forall j: nat :: |Vals(row, j)| <= 1
  }

  ghost function Total(s: seq<real>): real {
    if s == [] then 0.0 else Total(s[..|s| - 1]) + s[|s| - 1]
  }

  /** The dense matrix a sparse matrix stands for; repeated cells add up. */
  ghost function Dense(A: Csr): (D: Mat)
    requires WellFormed(A)
    ensures IsMat(D, A.nrows, A.ncols)
    ensures forall i, j | 0 <= i < A.nrows && 0 <= j < A.ncols :: D[i][j] == Total(Vals(Row(A, i), j))
  {
    seq(A.nrows, i requires 0 <= i < A.nrows =>
      seq(A.ncols, j requires 0 <= j < A.ncols => Total(Vals(Row(A, i), j))))
  }

  lemma {:induction false} ValsEmpty(row: seq<Cell>, j: nat)
    requires forall k | 0 <= k < |row| :: row[k].col != j
    ensures Vals(row, j) == []
  {
    if row != [] { ValsEmpty(row[..|row| - 1], j); }
  }

  lemma {:induction false} ValsConcat(r: seq<Cell>, s: seq<Cell>, j: nat)
    ensures Vals(r + s, j) == Vals(r, j) + Vals(s, j)
  {
    if s == [] {
      assert r + s == r;
    } else {
      ValsConcat(r, s[..|s| - 1], j);
      assert (r + s)[..|r + s| - 1] == r + s[..|s| - 1];
    }
  }

  lemma ValsAppend(row: seq<Cell>, cell: Cell, j: nat)
    ensures Vals(row + [cell], j) == if cell.col == j then Vals(row, j) + [cell.val] else Vals(row, j)
  {
    assert (row + [cell])[..|row|] == row;
  }

  lemma ValsSnoc(row: seq<Cell>, k: nat, j: nat)
    requires k < |row|
    ensures Vals(row[..k + 1], j) == if row[k].col == j then Vals(row[..k], j) + [row[k].val] else Vals(row[..k], j)
  {
    assert row[..k + 1][..k] == row[..k];
  }

  /** A sorted row is determined by the values it stores at each column. */
  lemma {:induction false} SortedDetermined(r: seq<Cell>, s: seq<Cell>)
    requires Sorted(r) && Sorted(s)
    requires forall j: nat :: Vals(r, j) == Vals(s, j)
    ensures r == s
  {
    if r == [] || s == [] {
      if r != [] { LastIsStored(r); }
      if s != [] { LastIsStored(s); }
    } else {
      LastColumnAgrees(r, s);
      var p, q := r[|r| - 1], s[|s| - 1];
      assert Vals(r, p.col) == Vals(s, p.col);
      assert Vals(r, p.col)[|Vals(r, p.col)| - 1] == p.val && Vals(s, p.col)[|Vals(s, p.col)| - 1] == q.val;
      var r', s' := r[..|r| - 1], s[..|s| - 1];
      forall j: nat ensures Vals(r', j) == Vals(s', j) {
        assert Vals(r, j) == Vals(s, j);
        if p.col == j { DropTail(Vals(r', j), Vals(s', j), p.val); }
      }
      SortedDetermined(r', s');
      assert r == r[..|r| - 1] + [p] && s == s[..|s| - 1] + [q];
    }
  }

  lemma DropTail(a: seq<real>, b: seq<real>, v: real)
    requires a + [v] == b + [v]
    ensures a == b
  {
    assert |a| == |b|;
    assert a == (a + [v])[..|a|] && b == (b + [v])[..|b|];
  }

  lemma LastIsStored(r: seq<Cell>)
    requires r != []
    ensures Vals(r, r[|r| - 1].col) != []
  {}

  lemma BeyondLast(s: seq<Cell>, p: nat)
    requires Sorted(s) && s != [] && p > s[|s| - 1].col
    ensures Vals(s, p) == []
  {
    ValsEmpty(s, p);
  }

  lemma LastColumnAgrees(r: seq<Cell>, s: seq<Cell>)
    requires Sorted(r) && Sorted(s) && r != [] && s != []
    requires forall j: nat :: Vals(r, j) == Vals(s, j)
    ensures r[|r| - 1].col == s[|s| - 1].col
  {
    var p, q := r[|r| - 1].col, s[|s| - 1].col;
    if p > q {
      BeyondLast(s, p);
      LastIsStored(r);
    } else if q > p {
      BeyondLast(r, q);
      LastIsStored(s);
    }
  }

  lemma {:induction false} ValsCountsPair(row: seq<Cell>, k: nat, l: nat)
    requires k < l < |row| && row[k].col == row[l].col
    ensures |Vals(row, row[k].col)| >= 2
  {
    var front := row[..|row| - 1];
    if l < |row| - 1 {
      ValsCountsPair(front, k, l);
    } else {
      ValsCountsOne(front, k);
    }
  }

  lemma {:induction false} ValsCountsOne(row: seq<Cell>, k: nat)
    requires k < |row|
    ensures |Vals(row, row[k].col)| >= 1
  {
    if k < |row| - 1 { ValsCountsOne(row[..|row| - 1], k); }
  }

  lemma {:induction false} StrictHasNoDuplicates(row: seq<Cell>, j: nat)
    requires StrictlySorted(row)
    ensures |Vals(row, j)| <= 1
  {
    if row != [] {
      var front := row[..|row| - 1];
      StrictHasNoDuplicates(front, j);
      if row[|row| - 1].col == j { ValsEmpty(front, j); }
    }
  }

  /** A sorted row is strictly sorted exactly when it stores no column twice. */
  lemma StrictIffNoDuplicates(row: seq<Cell>)
    requires Sorted(row)
    ensures StrictlySorted(row) <==> NoDuplicates(row)
  {
    if StrictlySorted(row) {
      forall j: nat ensures |Vals(row, j)| <= 1 { StrictHasNoDuplicates(row, j); }
    }
    if NoDuplicates(row) {
      forall k, l | 0 <= k < l < |row| ensures row[k].col < row[l].col {
        if row[k].col == row[l].col {
          ValsCountsPair(row, k, l);
        }
      }
    }
  }

  lemma RowAt(A: Csr, i: nat, k: nat)
    requires WellFormed(A) && i < A.nrows && A.rowPtr[i] <= k < A.rowPtr[i + 1]
    ensures k < A.nnz && k - A.rowPtr[i] < |Row(A, i)| && Row(A, i)[k - A.rowPtr[i]] == Cell(A.cols[k], A.values[k])
  {}

  lemma SlotsAgree(A: Csr, B: Csr, k: nat)
    requires WellFormed(A) && WellFormed(B) && A.nrows == B.nrows && A.rowPtr == B.rowPtr && k < A.nnz
    requires forall i | 0 <= i < A.nrows :: Row(A, i) == Row(B, i)
    ensures k < B.nnz && A.cols[k] == B.cols[k] && A.values[k] == B.values[k]
  {
    var i := RowHolding(A, k, A.nrows);
    RowAt(A, i, k);
    RowAt(B, i, k);
    assert Row(A, i) == Row(B, i);
  }

  /** Equal rows and exact storage make equal matrices. */
  lemma RowsDetermine(A: Csr, B: Csr)
    requires WellFormed(A) && WellFormed(B) && Exact(A) && Exact(B)
    requires A.nrows == B.nrows && A.ncols == B.ncols
    requires forall i | 0 <= i < A.nrows :: Row(A, i) == Row(B, i)
    ensures A == B
  {
    forall i | 0 <= i <= A.nrows ensures A.rowPtr[i] == B.rowPtr[i] { PointersAgree(A, B, i); }
    assert A.rowPtr == B.rowPtr;
    forall k | 0 <= k < A.nnz ensures A.cols[k] == B.cols[k] && A.values[k] == B.values[k] { SlotsAgree(A, B, k); }
    assert A.cols == B.cols && A.values == B.values;
  }

  lemma {:induction false} PointersAgree(A: Csr, B: Csr, i: nat)
    requires WellFormed(A) && WellFormed(B) && A.nrows == B.nrows && i <= A.nrows
    requires forall i | 0 <= i < A.nrows :: Row(A, i) == Row(B, i)
    ensures A.rowPtr[i] == B.rowPtr[i]
  {
    if i > 0 {
      PointersAgree(A, B, i - 1);
      assert |Row(A, i - 1)| == |Row(B, i - 1)|;
    }
  }

  lemma {:induction false} RowHoldingUnique(A: Csr, k: nat, hi: nat, i: nat)
    requires WellFormed(A) && hi <= A.nrows && i < hi && A.rowPtr[i] <= k < A.rowPtr[i + 1]
    ensures k < A.rowPtr[hi] && RowHolding(A, k, hi) == i
  {
    assert A.rowPtr[i + 1] <= A.rowPtr[hi];
  }

  /** The row that stores entry k. */
  ghost function RowHolding(A: Csr, k: nat, hi: nat): (i: nat)
    requires WellFormed(A) && hi <= A.nrows && k < A.rowPtr[hi]
    ensures i < hi && A.rowPtr[i] <= k < A.rowPtr[i + 1]
  {
    if A.rowPtr[hi - 1] <= k then hi - 1 else RowHolding(A, k, hi - 1)
  }

  /** The slots from `start` on hold the given cells. */
  ghost predicate Holds(cols: seq<nat>, vals: seq<real>, start: nat, cells: seq<Cell>) {
    && start + |cells| <= |cols| == |vals|
    && forall m | start <= m < start + |cells| :: Cell(cols[m], vals[m]) == cells[m - start]
  }

  lemma HoldsAfterWrite(cols: seq<nat>, vals: seq<real>, start: nat, cells: seq<Cell>, pos: nat, r: nat, v: real)
    requires Holds(cols, vals, start, cells) && pos < |cols|
    ensures pos == start + |cells| ==> Holds(cols[pos := r], vals[pos := v], start, cells + [Cell(r, v)])
    ensures pos < start || start + |cells| <= pos ==> Holds(cols[pos := r], vals[pos := v], start, cells)
  {}

  lemma HoldsAt(cols: seq<nat>, vals: seq<real>, start: nat, cells: seq<Cell>, k: nat)
    requires Holds(cols, vals, start, cells) && start <= k < start + |cells|
    ensures cols[k] == cells[k - start].col && vals[k] == cells[k - start].val
  {
    assert Cell(cols[k], vals[k]) == cells[k - start];
  }
}
