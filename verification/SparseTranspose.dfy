/** Transposition of CSR matrices by counting sort. */
module SparseTranspose {
  import opened SparseMatrix

  datatype Triple = Triple(row: nat, col: nat, val: real)

  /** The entries in storage order, each with its row. */
  ghost function Entries(A: Csr): (ts: seq<Triple>)
    requires WellFormed(A)
    ensures |ts| == A.nnz
    ensures forall k {:trigger ts[k]} | 0 <= k < A.nnz ::
      ts[k] == Triple(RowHolding(A, k, A.nrows), A.cols[k], A.values[k])
  {
    seq(A.nnz, k requires 0 <= k < A.nnz => Triple(RowHolding(A, k, A.nrows), A.cols[k], A.values[k]))
  }

  /** The entries of column c, as cells that name their row. */
  ghost function ColCells(ts: seq<Triple>, c: nat): seq<Cell> {
    if ts == [] then []
    else
      var t, front := ts[|ts| - 1], ColCells(ts[..|ts| - 1], c);
      if t.col == c then front + [Cell(t.row, t.val)] else front
  }

  /** How many entries lie in columns before c. */
  ghost function Start(ts: seq<Triple>, c: nat): nat {
    if ts == [] then 0 else Start(ts[..|ts| - 1], c) + (if ts[|ts| - 1].col < c then 1 else 0)
  }

  ghost predicate ColsBelow(ts: seq<Triple>, n: nat) {
    forall k | 0 <= k < |ts| :: ts[k].col < n
  }

  ghost predicate RowsBelow(ts: seq<Triple>, n: nat) {
    forall k | 0 <= k < |ts| :: ts[k].row < n
  }

  lemma {:induction false} ColCellsPrefix(ts: seq<Triple>, k: nat, c: nat)
    requires k <= |ts|
    ensures ColCells(ts[..k], c) <= ColCells(ts, c)
  {
    if k == |ts| {
      assert ts[..k] == ts;
    } else {
      ColCellsPrefix(ts[..|ts| - 1], k, c);
      assert ts[..|ts| - 1][..k] == ts[..k];
    }
  }

  lemma ColCellsSnoc(ts: seq<Triple>, k: nat, c: nat)
    requires k < |ts|
    ensures ColCells(ts[..k + 1], c)
         == if ts[k].col == c then ColCells(ts[..k], c) + [Cell(ts[k].row, ts[k].val)] else ColCells(ts[..k], c)
  {
    assert ts[..k + 1][..k] == ts[..k];
  }

  lemma {:induction false} StartMonotone(ts: seq<Triple>, c: nat, d: nat)
    requires c <= d
    ensures Start(ts, c) <= Start(ts, d)
  {
    if ts != [] { StartMonotone(ts[..|ts| - 1], c, d); }
  }

  /** Column c occupies exactly its own number of slots. */
  lemma {:induction false} StartNext(ts: seq<Triple>, c: nat)
    ensures Start(ts, c + 1) == Start(ts, c) + |ColCells(ts, c)|
  {
    if ts != [] { StartNext(ts[..|ts| - 1], c); }
  }

  lemma {:induction false} StartBounds(ts: seq<Triple>, n: nat)
    requires ColsBelow(ts, n)
    ensures Start(ts, 0) == 0 && Start(ts, n) == |ts|
  {
    if ts != [] { StartBounds(ts[..|ts| - 1], n); }
  }

  lemma EntryAt(A: Csr, i: nat, k: nat)
    requires WellFormed(A) && i < A.nrows && A.rowPtr[i] <= k < A.rowPtr[i + 1]
    ensures k < A.nnz && Entries(A)[k] == Triple(i, A.cols[k], A.values[k])
  {
    RowHoldingUnique(A, k, A.nrows, i);
  }

  lemma EntriesFacts(A: Csr)
    requires WellFormed(A)
    ensures ColsBelow(Entries(A), A.ncols) && RowsBelow(Entries(A), A.nrows)
    ensures forall k, l | 0 <= k < l < A.nnz :: Entries(A)[k].row <= Entries(A)[l].row
  {
    forall k, l | 0 <= k < l < A.nnz ensures Entries(A)[k].row <= Entries(A)[l].row {
      var i, j := RowHolding(A, k, A.nrows), RowHolding(A, l, A.nrows);
    }
  }

  /** T holds, row by row, the columns of A in storage order. */
  ghost predicate IsTranspose(T: Csr, A: Csr)
    requires WellFormed(A)
  {
    && WellFormed(T) && Exact(T) && T.nrows == A.ncols && T.ncols == A.nrows
    && forall c | 0 <= c < A.ncols :: Row(T, c) == ColCells(Entries(A), c)
  }

  /** The slots of column c filled so far hold the first entries of that column. */
  ghost predicate Filled(ts: seq<Triple>, k: nat, c: nat, cols: seq<nat>, vals: seq<real>)
    requires k <= |ts|
  {
    Holds(cols, vals, Start(ts, c), ColCells(ts[..k], c))
  }

  /** One write of the fill loop, seen from column c. */
  lemma FillStepAt(ts: seq<Triple>, n: nat, k: nat, cols: seq<nat>, vals: seq<real>, pos: nat,
                   cols': seq<nat>, vals': seq<real>, c: nat)
    requires ColsBelow(ts, n) && k < |ts| == |cols| == |vals| && c < n
    requires Filled(ts, k, c, cols, vals)
    requires pos == Start(ts, ts[k].col) + |ColCells(ts[..k], ts[k].col)| < |ts|
    requires cols' == cols[pos := ts[k].row] && vals' == vals[pos := ts[k].val]
    ensures Filled(ts, k + 1, c, cols', vals')
  {
    var start, cells := Start(ts, c), ColCells(ts[..k], c);
    ColCellsSnoc(ts, k, c);
    if c != ts[k].col { WriteMisses(ts, n, k, pos, c); }
    HoldsAfterWrite(cols, vals, start, cells, pos, ts[k].row, ts[k].val);
  }

  /** A write for one column stays out of the slots of every other. */
  lemma WriteMisses(ts: seq<Triple>, n: nat, k: nat, pos: nat, c: nat)
    requires ColsBelow(ts, n) && k < |ts| && c < n && c != ts[k].col
    requires pos == Start(ts, ts[k].col) + |ColCells(ts[..k], ts[k].col)|
    ensures pos < Start(ts, c) || Start(ts, c) + |ColCells(ts[..k], c)| <= pos
  {
    var d := ts[k].col;
    SlotBound(ts, n, k, c);
    SlotBound(ts, n, k + 1, d);
    ColCellsSnoc(ts, k, d);
    if c < d { StartMonotone(ts, c + 1, d); } else { StartMonotone(ts, d + 1, c); }
  }

  lemma FillPosition(ts: seq<Triple>, n: nat, k: nat)
    requires ColsBelow(ts, n) && k < |ts|
    ensures Start(ts, ts[k].col) + |ColCells(ts[..k], ts[k].col)| < |ts|
  {
    SlotBound(ts, n, k + 1, ts[k].col);
    ColCellsSnoc(ts, k, ts[k].col);
  }

  /** The first k entries of column c fit before column c + 1 starts. */
  lemma SlotBound(ts: seq<Triple>, n: nat, k: nat, c: nat)
    requires ColsBelow(ts, n) && k <= |ts| && c < n
    ensures Start(ts, c) + |ColCells(ts[..k], c)| <= Start(ts, c + 1) <= |ts|
  {
    ColCellsPrefix(ts, k, c);
    StartNext(ts, c);
    StartMonotone(ts, c + 1, n);
    StartBounds(ts, n);
  }

  ghost predicate AllFilled(ts: seq<Triple>, n: nat, k: nat, cols: seq<nat>, vals: seq<real>)
    requires k <= |ts| == |cols| == |vals|
  {
    forall c | 0 <= c < n :: Filled(ts, k, c, cols, vals)
  }

  ghost predicate Pointers(ts: seq<Triple>, n: nat, ptr: seq<nat>) {
    |ptr| == n + 1 && forall c | 0 <= c <= n :: ptr[c] == Start(ts, c)
  }

  ghost predicate Counts(ts: seq<Triple>, n: nat, counts: seq<nat>) {
    |counts| == n && forall c | 0 <= c < n :: counts[c] == |ColCells(ts, c)|
  }

  lemma CountStep(ts: seq<Triple>, n: nat, k: nat, counts: seq<nat>)
    requires ColsBelow(ts, n) && k < |ts| && Counts(ts[..k], n, counts)
    ensures Counts(ts[..k + 1], n, counts[ts[k].col := counts[ts[k].col] + 1])
  {
    forall c | 0 <= c < n { ColCellsSnoc(ts, k, c); }
  }

  lemma FillStep(ts: seq<Triple>, n: nat, k: nat, cols: seq<nat>, vals: seq<real>, pos: nat,
                 cols': seq<nat>, vals': seq<real>)
    requires ColsBelow(ts, n) && k < |ts| == |cols| == |vals| && AllFilled(ts, n, k, cols, vals)
    requires pos == Start(ts, ts[k].col) + |ColCells(ts[..k], ts[k].col)| < |ts|
    requires cols' == cols[pos := ts[k].row] && vals' == vals[pos := ts[k].val]
    ensures AllFilled(ts, n, k + 1, cols', vals')
  {
    var k' := k + 1;
    forall c | 0 <= c < n ensures Filled(ts, k', c, cols', vals') {
      FillStepAt(ts, n, k, cols, vals, pos, cols', vals', c);
    }
  }

  lemma FilledWhole(ts: seq<Triple>, n: nat, c: nat, cols: seq<nat>, vals: seq<real>)
    requires |ts| == |cols| == |vals| && c < n && AllFilled(ts, n, |ts|, cols, vals)
    ensures Holds(cols, vals, Start(ts, c), ColCells(ts, c))
  {
    assert ts[..|ts|] == ts;
    assert Filled(ts, |ts|, c, cols, vals);
  }

  lemma SlotColumnsInRange(ts: seq<Triple>, n: nat, m: nat, cols: seq<nat>, vals: seq<real>, k: nat)
    requires k < |ts| == |cols| == |vals| && ColsBelow(ts, n) && RowsBelow(ts, m)
    requires AllFilled(ts, n, |ts|, cols, vals)
    ensures cols[k] < m
  {
    StartBounds(ts, n);
    var c := ColumnOfSlot(ts, k, n);
    var start := Start(ts, c);
    StartNext(ts, c);
    FilledWhole(ts, n, c, cols, vals);
    HoldsAt(cols, vals, start, ColCells(ts, c), k);
    ColCellsFrom(ts, c, k - start);
  }

  lemma FilledIsTranspose(A: Csr, T: Csr, ts: seq<Triple>)
    requires WellFormed(A) && ts == Entries(A)
    requires Exact(T) && T.nrows == A.ncols && T.ncols == A.nrows && T.nnz == A.nnz == |ts|
    requires Pointers(ts, A.ncols, T.rowPtr) && AllFilled(ts, A.ncols, |ts|, T.cols, T.values)
    ensures IsTranspose(T, A)
  {
    EntriesFacts(A);
    StartBounds(ts, A.ncols);
    forall i, j | 0 <= i <= j <= A.ncols ensures T.rowPtr[i] <= T.rowPtr[j] { StartMonotone(ts, i, j); }
    forall k | 0 <= k < T.nnz ensures T.cols[k] < T.ncols { SlotColumnsInRange(ts, A.ncols, A.nrows, T.cols, T.values, k); }
    forall c | 0 <= c < A.ncols ensures Row(T, c) == ColCells(ts, c) {
      StartNext(ts, c);
      FilledWhole(ts, A.ncols, c, T.cols, T.values);
    }
  }

  ghost function ColumnOfSlot(ts: seq<Triple>, k: nat, hi: nat): (c: nat)
    requires Start(ts, 0) <= k < Start(ts, hi)
    ensures c < hi && Start(ts, c) <= k < Start(ts, c + 1)
  {
    if Start(ts, hi - 1) <= k then hi - 1 else ColumnOfSlot(ts, k, hi - 1)
  }

  lemma {:induction false} ColCellsFrom(ts: seq<Triple>, c: nat, m: nat)
    requires m < |ColCells(ts, c)|
    ensures exists k | 0 <= k < |ts| :: ts[k].row == ColCells(ts, c)[m].col
  {
    var front := ts[..|ts| - 1];
    if m < |ColCells(front, c)| {
      ColCellsFrom(front, c, m);
      var k :| 0 <= k < |front| && front[k].row == ColCells(front, c)[m].col;
      assert ts[k] == front[k];
    } else {
      assert ts[|ts| - 1].row == ColCells(ts, c)[m].col;
    }
  }

  /** Counts per column; `ghost ts` is the entry list of A. */
  method CountColumns(A: Csr, ghost ts: seq<Triple>) returns (counts: array<nat>)
    requires WellFormed(A) && ts == Entries(A)
    ensures fresh(counts) && Counts(ts, A.ncols, counts[..])
  {
    counts := new nat[A.ncols](_ => 0);
    EntriesFacts(A);
    for i := 0 to A.nnz
      invariant Counts(ts[..i], A.ncols, counts[..])
    {
      CountStep(ts, A.ncols, i, counts[..]);
      var col := A.cols[i];
      ghost var counts' := counts[..][col := counts[col] + 1];
      counts[col] := counts[col] + 1;
      assert counts[..] == counts';
    }
    assert ts[..A.nnz] == ts;
  }

  method BuildPointers(n: nat, counts: array<nat>, ghost ts: seq<Triple>) returns (rowPtr: array<nat>)
    requires ColsBelow(ts, n) && Counts(ts, n, counts[..])
    ensures fresh(rowPtr) && Pointers(ts, n, rowPtr[..])
  {
    rowPtr := new nat[n + 1];
    rowPtr[0] := 0;
    StartBounds(ts, n);
    for i := 0 to n
      invariant forall c | 0 <= c <= i :: rowPtr[c] == Start(ts, c)
    {
      StartNext(ts, i);
      assert counts[..][i] == |ColCells(ts, i)|;
      rowPtr[i + 1] := rowPtr[i] + counts[i];
    }
  }

  /** State of the fill after k entries. */
  ghost predicate FillState(ts: seq<Triple>, n: nat, k: nat, counts: seq<nat>, cols: seq<nat>, vals: seq<real>)
  {
    && k <= |ts| == |cols| == |vals|
    && Counts(ts[..k], n, counts) && AllFilled(ts, n, k, cols, vals)
  }

  lemma FillStart(ts: seq<Triple>, n: nat, counts: seq<nat>, cols: seq<nat>, vals: seq<real>)
    requires ColsBelow(ts, n) && |ts| == |cols| == |vals|
    requires |counts| == n && forall c | 0 <= c < n :: counts[c] == 0
    ensures FillState(ts, n, 0, counts, cols, vals)
  {
    forall c | 0 <= c < n ensures Filled(ts, 0, c, cols, vals) { SlotBound(ts, n, 0, c); }
  }

  /** The body of the fill loop, for entry k of the list. */
  method PlaceEntry(ghost ts: seq<Triple>, ghost n: nat, ghost k: nat, row: nat, col: nat, val: real,
                    rowPtr: array<nat>, counts: array<nat>, cols: array<nat>, values: array<real>)
    requires rowPtr != counts && rowPtr != cols && counts != cols
    requires ColsBelow(ts, n) && k < |ts| && ts[k] == Triple(row, col, val)
    requires Pointers(ts, n, rowPtr[..]) && FillState(ts, n, k, counts[..], cols[..], values[..])
    modifies counts, cols, values
    ensures FillState(ts, n, k + 1, counts[..], cols[..], values[..])
  {
    CountStep(ts, n, k, counts[..]);
    FillPosition(ts, n, k);
    assert rowPtr[..][col] == Start(ts, col) && counts[..][col] == |ColCells(ts[..k], col)|;
    var newIdx := rowPtr[col] + counts[col];
    ghost var cols', values' := cols[..][newIdx := row], values[..][newIdx := val];
    ghost var counts' := counts[..][col := counts[col] + 1];
    FillStep(ts, n, k, cols[..], values[..], newIdx, cols', values');
    values[newIdx] := val;
    cols[newIdx] := row;
    counts[col] := counts[col] + 1;
    assert cols[..] == cols' && values[..] == values' && counts[..] == counts';
  }

  /** The fill loops. */
  method FillAll(A: Csr, ghost ts: seq<Triple>, rowPtr: array<nat>, counts: array<nat>, cols: array<nat>, values: array<real>)
    requires rowPtr != counts && rowPtr != cols && counts != cols
    requires WellFormed(A) && ts == Entries(A) && ColsBelow(ts, A.ncols) && Pointers(ts, A.ncols, rowPtr[..])
    requires FillState(ts, A.ncols, 0, counts[..], cols[..], values[..])
    modifies counts, cols, values
    ensures FillState(ts, A.ncols, |ts|, counts[..], cols[..], values[..])
  {
    for row := 0 to A.nrows
      invariant FillState(ts, A.ncols, A.rowPtr[row], counts[..], cols[..], values[..])
    {
      for idx := A.rowPtr[row] to A.rowPtr[row + 1]
        invariant FillState(ts, A.ncols, idx, counts[..], cols[..], values[..])
      {
        EntryAt(A, row, idx);
        PlaceEntry(ts, A.ncols, idx, row, A.cols[idx], A.values[idx], rowPtr, counts, cols, values);
      }
    }
  }

  method Transpose(A: Csr) returns (T: Csr)
    requires WellFormed(A)
    ensures IsTranspose(T, A) && T.nnz == A.nnz
  {
    ghost var ts := Entries(A);
    EntriesFacts(A);
    var counts := CountColumns(A, ts);
    var rowPtr := BuildPointers(A.ncols, counts, ts);
    counts := new nat[A.ncols](_ => 0);
    var values, cols := new real[A.nnz], new nat[A.nnz];
    FillStart(ts, A.ncols, counts[..], cols[..], values[..]);
    FillAll(A, ts, rowPtr, counts, cols, values);
    T := Csr(A.ncols, A.nrows, A.nnz, values[..], cols[..], rowPtr[..]);
    FilledIsTranspose(A, T, ts);
  }

  // ---- what transposition means ----

  /** Row r of the matrix is the block of entries from lo on. */
  ghost predicate Block(ts: seq<Triple>, row: seq<Cell>, lo: nat, r: nat) {
    && lo + |row| <= |ts|
    && forall k | 0 <= k < |ts| ::
      if lo <= k < lo + |row| then ts[k] == Triple(r, row[k - lo].col, row[k - lo].val) else ts[k].row != r
  }

  /** How many of the first k entries lie in a block of n entries from lo on. */
  function Clamp(lo: nat, n: nat, k: nat): (m: nat)
    ensures m <= n
  {
    if k <= lo then 0 else if k >= lo + n then n else k - lo
  }

  /** One more entry, seen from column c and row r. */
  lemma EntryStep(cells: seq<Cell>, cells': seq<Cell>, t: Triple, row: seq<Cell>, m: nat, m': nat, c: nat, r: nat)
    requires cells' == if t.col == c then cells + [Cell(t.row, t.val)] else cells
    requires m <= |row| && Vals(cells, r) == Vals(row[..m], c)
    requires if t.row == r then m' == m + 1 && m < |row| && row[m] == Cell(t.col, t.val) else m' == m
    ensures Vals(cells', r) == Vals(row[..m'], c)
  {
    ValsAppend(cells, Cell(t.row, t.val), r);
    if t.row == r { ValsSnoc(row, m, c); }
  }

  /** Collecting a column of the first k entries and reading it at r is reading the started row r. */
  lemma {:induction false} PrefixVals(ts: seq<Triple>, row: seq<Cell>, lo: nat, r: nat, k: nat, c: nat)
    requires Block(ts, row, lo, r) && k <= |ts|
    ensures Vals(ColCells(ts[..k], c), r) == Vals(row[..Clamp(lo, |row|, k)], c)
  {
    if k > 0 {
      PrefixVals(ts, row, lo, r, k - 1, c);
      ColCellsSnoc(ts, k - 1, c);
      EntryStep(ColCells(ts[..k - 1], c), ColCells(ts[..k], c), ts[k - 1],
        row, Clamp(lo, |row|, k - 1), Clamp(lo, |row|, k), c, r);
    }
  }

  lemma RowIsBlock(A: Csr, r: nat)
    requires WellFormed(A) && r < A.nrows
    ensures Block(Entries(A), Row(A, r), A.rowPtr[r], r)
  {
    var ts, row, lo := Entries(A), Row(A, r), A.rowPtr[r];
    forall k | 0 <= k < A.nnz
      ensures if lo <= k < lo + |row| then ts[k] == Triple(r, row[k - lo].col, row[k - lo].val) else ts[k].row != r
    {
      if lo <= k && k < lo + |row| { EntryAt(A, r, k); }
    }
  }

  /** The values stored at (c, r) of the transpose are those at (r, c), in the same order. */
  lemma TransposeVals(A: Csr, T: Csr, r: nat, c: nat)
    requires WellFormed(A) && IsTranspose(T, A) && r < A.nrows && c < A.ncols
    ensures Vals(Row(T, c), r) == Vals(Row(A, r), c)
  {
    RowIsBlock(A, r);
    PrefixVals(Entries(A), Row(A, r), A.rowPtr[r], r, A.nnz, c);
    assert Entries(A)[..A.nnz] == Entries(A) && Row(A, r)[..|Row(A, r)|] == Row(A, r);
  }

  lemma TransposeDense(A: Csr, T: Csr)
    requires WellFormed(A) && IsTranspose(T, A)
    ensures Dense(T) == LinAlg.Transpose(Dense(A), A.ncols)
  {
    var D, E := Dense(T), LinAlg.Transpose(Dense(A), A.ncols);
    forall i, j | 0 <= i < A.ncols && 0 <= j < A.nrows ensures D[i][j] == E[i][j] { TransposeVals(A, T, j, i); }
    forall i | 0 <= i < A.ncols ensures D[i] == E[i] {}
  }

  lemma {:induction false} ColCellsSorted(ts: seq<Triple>, c: nat)
    requires forall k, l | 0 <= k < l < |ts| :: ts[k].row <= ts[l].row
    ensures Sorted(ColCells(ts, c))
  {
    if ts != [] {
      var front := ts[..|ts| - 1];
      ColCellsSorted(front, c);
      var cells := ColCells(front, c);
      forall m | 0 <= m < |cells| ensures cells[m].col <= ts[|ts| - 1].row {
        ColCellsFrom(front, c, m);
        var k :| 0 <= k < |front| && front[k].row == cells[m].col;
        assert ts[k] == front[k];
      }
    }
  }

  lemma TransposeSorted(A: Csr, T: Csr)
    requires WellFormed(A) && IsTranspose(T, A)
    ensures RowsSorted(T)
  {
    EntriesFacts(A);
    forall c | 0 <= c < T.nrows ensures Sorted(Row(T, c)) { ColCellsSorted(Entries(A), c); }
  }

  lemma OutOfRangeEmpty(A: Csr, i: nat, j: nat)
    requires WellFormed(A) && i < A.nrows && j >= A.ncols
    ensures Vals(Row(A, i), j) == []
  {
    ValsEmpty(Row(A, i), j);
  }

  /** Every row of the transpose is strictly increasing exactly when no row of A stores a column twice. */
  lemma TransposeStrict(A: Csr, T: Csr)
    requires WellFormed(A) && IsTranspose(T, A)
    ensures (forall c | 0 <= c < T.nrows :: StrictlySorted(Row(T, c)))
       <==> (forall r | 0 <= r < A.nrows :: NoDuplicates(Row(A, r)))
  {
    TransposeSorted(A, T);
    forall c | 0 <= c < T.nrows ensures StrictlySorted(Row(T, c)) <==> NoDuplicates(Row(T, c)) {
      StrictIffNoDuplicates(Row(T, c));
    }
    if forall c | 0 <= c < T.nrows :: NoDuplicates(Row(T, c)) { DuplicatesBack(A, T); }
    if forall r | 0 <= r < A.nrows :: NoDuplicates(Row(A, r)) { DuplicatesForth(A, T); }
  }

  lemma DuplicatesBack(A: Csr, T: Csr)
    requires WellFormed(A) && IsTranspose(T, A) && forall c | 0 <= c < T.nrows :: NoDuplicates(Row(T, c))
    ensures forall r | 0 <= r < A.nrows :: NoDuplicates(Row(A, r))
  {
    forall r | 0 <= r < A.nrows ensures NoDuplicates(Row(A, r)) {
      forall c: nat ensures |Vals(Row(A, r), c)| <= 1 {
        if c < A.ncols {
          TransposeVals(A, T, r, c);
          assert NoDuplicates(Row(T, c));
        } else {
          OutOfRangeEmpty(A, r, c);
        }
      }
    }
  }

  lemma DuplicatesForth(A: Csr, T: Csr)
    requires WellFormed(A) && IsTranspose(T, A) && forall r | 0 <= r < A.nrows :: NoDuplicates(Row(A, r))
    ensures forall c | 0 <= c < T.nrows :: NoDuplicates(Row(T, c))
  {
    forall c | 0 <= c < T.nrows ensures NoDuplicates(Row(T, c)) {
      forall r: nat ensures |Vals(Row(T, c), r)| <= 1 {
        if r < A.nrows {
          TransposeVals(A, T, r, c);
          assert NoDuplicates(Row(A, r));
        } else {
          OutOfRangeEmpty(T, c, r);
        }
      }
    }
  }

  lemma TwiceSameVals(A: Csr, T: Csr, TT: Csr, i: nat, j: nat)
    requires WellFormed(A) && IsTranspose(T, A) && IsTranspose(TT, T) && i < A.nrows
    ensures Vals(Row(TT, i), j) == Vals(Row(A, i), j)
  {
    if j < A.ncols {
      TransposeVals(A, T, i, j);
      TransposeVals(T, TT, j, i);
    } else {
      OutOfRangeEmpty(A, i, j);
      OutOfRangeEmpty(TT, i, j);
    }
  }

  /** Transposing twice returns the identical arrays exactly when every row of A
      is sorted and its storage has no spare slots. */
  lemma TransposeTwice(A: Csr, T: Csr, TT: Csr)
    requires WellFormed(A) && IsTranspose(T, A) && IsTranspose(TT, T)
    ensures TT == A <==> RowsSorted(A) && Exact(A)
  {
    TransposeSorted(T, TT);
    if RowsSorted(A) && Exact(A) {
      forall i | 0 <= i < A.nrows ensures Row(TT, i) == Row(A, i) {
        forall j: nat ensures Vals(Row(TT, i), j) == Vals(Row(A, i), j) { TwiceSameVals(A, T, TT, i, j); }
        SortedDetermined(Row(TT, i), Row(A, i));
      }
      RowsDetermine(TT, A);
    }
  }
}
