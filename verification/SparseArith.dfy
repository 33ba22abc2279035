/** Products and scaled sums of CSR matrices. */
module SparseArith {
  import opened Sums
  import opened LinAlg
  import opened SparseMatrix
  import opened SparseOps
  import opened SparseBuild

  lemma FmaTotal(a: real, c: real, s: seq<real>, w: real)
    ensures Fma(a, c, Total(s + [w])) == Fma(a, c, Total(s)) + Mul(c, w)
  {
    TotalSnoc(s, w);
    assert c * (Total(s) + w) == c * Total(s) + c * w;
  }

  /** acc is `before` plus v times the given cells. */
  ghost predicate Accumulated(before: Vec, v: real, cells: seq<Cell>, acc: Vec) {
    |acc| == |before| && forall c | 0 <= c < |acc| :: AccumulatedAt(before[c], v, cells, c, acc[c])
  }

  ghost predicate AccumulatedAt(before: real, v: real, cells: seq<Cell>, c: nat, a: real) {
    a == Fma(before, v, Total(Vals(cells, c)))
  }

  lemma AccumulateStep(before: Vec, v: real, row: seq<Cell>, m: nat, acc: Vec, acc': Vec)
    requires m < |row| && row[m].col < |acc| && Accumulated(before, v, row[..m], acc)
    requires acc' == acc[row[m].col := acc[row[m].col] + Mul(v, row[m].val)]
    ensures Accumulated(before, v, row[..m + 1], acc')
  {
    forall c | 0 <= c < |acc'| ensures AccumulatedAt(before[c], v, row[..m + 1], c, acc'[c]) {
      assert AccumulatedAt(before[c], v, row[..m], c, acc[c]);
      ValsSnoc(row, m, c);
      FmaTotal(before[c], v, Vals(row[..m], c), row[m].val);
    }
  }

  lemma AccumulateNothing(before: Vec, v: real)
    ensures Accumulated(before, v, [], before)
  {
    forall c | 0 <= c < |before| ensures AccumulatedAt(before[c], v, [], c, before[c]) { FmaUnit(before[c], v); }
  }

  /** Adds v times entry k of B, which is cell m of the row, to the dense accumulator. */
  method AccumulateCell(B: Csr, k: nat, v: real, acc: array<real>, ghost before: Vec, ghost row: seq<Cell>, ghost m: nat)
    requires WellFormed(B) && k < B.nnz && acc.Length == B.ncols
    requires m < |row| && row[m] == Cell(B.cols[k], B.values[k]) && Accumulated(before, v, row[..m], acc[..])
    modifies acc
    ensures Accumulated(before, v, row[..m + 1], acc[..])
  {
    ghost var acc' := acc[..][B.cols[k] := acc[B.cols[k]] + Mul(v, B.values[k])];
    AccumulateStep(before, v, row, m, acc[..], acc');
    acc[B.cols[k]] := acc[B.cols[k]] + Mul(v, B.values[k]);
    assert acc[..] == acc';
  }

  /** Adds v times row `j` of B to the dense accumulator. */
  method AccumulateRow(B: Csr, j: nat, v: real, acc: array<real>)
    requires WellFormed(B) && j < B.nrows && acc.Length == B.ncols
    modifies acc
    ensures Accumulated(old(acc[..]), v, Row(B, j), acc[..])
  {
    ghost var row, before, m := Row(B, j), acc[..], 0;
    AccumulateNothing(before, v);
    assert row[..m] == [];
    for k := B.rowPtr[j] to B.rowPtr[j + 1]
      invariant m == k - B.rowPtr[j] && Accumulated(before, v, row[..m], acc[..])
    {
      AccumulateCell(B, k, v, acc, before, row, m);
      m := m + 1;
    }
    assert row[..m] == row;
  }

  /** acc holds the products of the given cells of A with every column of D. */
  ghost predicate PartialRow(cells: seq<Cell>, D: Mat, acc: Vec) {
    InRange(cells, |D|) && forall c {:trigger PartialAt(cells, D, c, acc[c])} | 0 <= c < |acc| :: PartialAt(cells, D, c, acc[c])
  }

  ghost predicate PartialAt(cells: seq<Cell>, D: Mat, c: nat, a: real)
    requires InRange(cells, |D|)
  {
    a == RowDot(cells, Column(D, c))
  }

  lemma PartialStep(row: seq<Cell>, m: nat, B: Csr, acc: Vec, acc': Vec)
    requires WellFormed(B) && m < |row| && InRange(row, B.nrows) && |acc| == B.ncols
    requires PartialRow(row[..m], Dense(B), acc) && Accumulated(acc, row[m].val, Row(B, row[m].col), acc')
    ensures PartialRow(row[..m + 1], Dense(B), acc')
  {
    var D, t := Dense(B), row[m];
    forall c | 0 <= c < |acc'| ensures PartialAt(row[..m + 1], D, c, acc'[c]) {
      assert PartialAt(row[..m], D, c, acc[c]) && AccumulatedAt(acc[c], t.val, Row(B, t.col), c, acc'[c]);
      RowDotSnoc(row, m, Column(D, c));
      FmaMul(acc[c], t.val, Column(D, c)[t.col]);
    }
  }

  lemma WholeRow(A: Csr, B: Csr, i: nat, acc: Vec)
    requires WellFormed(A) && WellFormed(B) && A.ncols == B.nrows && i < A.nrows && |acc| == B.ncols
    requires PartialRow(Row(A, i), Dense(B), acc)
    ensures acc == MatMul(Dense(A), Dense(B), B.ncols)[i]
  {
    var product := MatMul(Dense(A), Dense(B), B.ncols)[i];
    RowInRange(A, i);
    forall c | 0 <= c < B.ncols ensures acc[c] == product[c] {
      assert PartialAt(Row(A, i), Dense(B), c, acc[c]);
      RowDotDense(Row(A, i), A.ncols, Column(Dense(B), c));
    }
  }

  lemma PartialNothing(D: Mat, acc: Vec)
    requires forall c | 0 <= c < |acc| :: acc[c] == 0.0
    ensures PartialRow([], D, acc)
  {}

  /** Adds entry k of A, times its row of B, to the accumulator. */
  method AccumulateEntry(A: Csr, B: Csr, k: nat, acc: array<real>, ghost row: seq<Cell>, ghost m: nat)
    requires WellFormed(A) && WellFormed(B) && A.ncols == B.nrows && k < A.nnz && acc.Length == B.ncols
    requires InRange(row, B.nrows) && m < |row| && row[m] == Cell(A.cols[k], A.values[k])
    requires PartialRow(row[..m], Dense(B), acc[..])
    modifies acc
    ensures PartialRow(row[..m + 1], Dense(B), acc[..])
  {
    ghost var before := acc[..];
    AccumulateRow(B, A.cols[k], A.values[k], acc);
    PartialStep(row, m, B, before, acc[..]);
  }

  /** The loop over row i of A. */
  method AccumulateEntries(A: Csr, B: Csr, i: nat, acc: array<real>, ghost row: seq<Cell>)
    requires WellFormed(A) && WellFormed(B) && A.ncols == B.nrows && i < A.nrows && acc.Length == B.ncols
    requires row == Row(A, i) && InRange(row, B.nrows) && PartialRow([], Dense(B), acc[..])
    modifies acc
    ensures PartialRow(row, Dense(B), acc[..])
  {
    ghost var m := 0;
    assert row[..m] == [];
    for k := A.rowPtr[i] to A.rowPtr[i + 1]
      invariant m == k - A.rowPtr[i]
      invariant PartialRow(row[..m], Dense(B), acc[..])
    {
      AccumulateEntry(A, B, k, acc, row, m);
      m := m + 1;
    }
    assert row[..m] == row;
  }

  /** Row i of the dense product. */
  method ProductRow(A: Csr, B: Csr, i: nat) returns (acc: array<real>)
    requires WellFormed(A) && WellFormed(B) && A.ncols == B.nrows && i < A.nrows
    ensures fresh(acc) && acc[..] == MatMul(Dense(A), Dense(B), B.ncols)[i]
  {
    acc := new real[B.ncols](_ => 0.0);
    RowInRange(A, i);
    PartialNothing(Dense(B), acc[..]);
    AccumulateEntries(A, B, i, acc, Row(A, i));
    WholeRow(A, B, i, acc[..]);
  }

  /** The product as the code computes it: the exact dense product, then small entries dropped. */
  method MatrixMult(A: Csr, B: Csr) returns (C: Csr, status: Status)
    requires WellFormed(A) && WellFormed(B)
    ensures status == ErrSize <==> A.ncols != B.nrows
    ensures status == Success ==>
      C.nrows == A.nrows && C.ncols == B.ncols && Stores(C, MatMul(Dense(A), Dense(B), B.ncols), TOL_DEFAULT)
  {
    if A.ncols != B.nrows {
      return Csr(0, 0, 0, [], [], [0]), ErrSize;
    }
    ghost var product := MatMul(Dense(A), Dense(B), B.ncols);
    var dense: Mat := [];
    for i := 0 to A.nrows
      invariant |dense| == i && forall r | 0 <= r < i :: dense[r] == product[r]
    {
      var acc := ProductRow(A, B, i);
      dense := dense + [acc[..]];
    }
    assert dense == product;
    C := FromDense(dense, B.ncols, TOL_DEFAULT);
    status := Success;
  }

  /** Dense meaning of the product: A B with entries of magnitude <= TOL_DEFAULT zeroed. */
  lemma ProductMeaning(A: Csr, B: Csr, C: Csr, i: nat, j: nat)
    requires WellFormed(A) && WellFormed(B) && A.ncols == B.nrows && C.nrows == A.nrows && C.ncols == B.ncols
    requires Stores(C, MatMul(Dense(A), Dense(B), B.ncols), TOL_DEFAULT)
    requires i < A.nrows && j < B.ncols
    ensures var d := Dot(Dense(A)[i], Column(Dense(B), j)); Dense(C)[i][j] == if Abs(d) > TOL_DEFAULT then d else 0.0
  {
    StoresMeaning(C, MatMul(Dense(A), Dense(B), B.ncols), TOL_DEFAULT, i, j);
  }

  /** alpha v + beta w. */
  function Combined(alpha: real, v: real, beta: real, w: real): real {
    Fma(Mul(alpha, v), beta, w)
  }

  lemma CombinedIs(alpha: real, v: real, beta: real, w: real)
    ensures Combined(alpha, v, beta, w) == alpha * v + beta * w
  {}

  /** The block of row i holds A's values combined with the entries of B at the same places. */
  ghost predicate RowCombined(A: Csr, rowB: seq<Cell>, alpha: real, beta: real, i: nat, values: seq<real>)
    requires WellFormed(A) && i < A.nrows && A.nnz <= |values|
  {
    forall k | A.rowPtr[i] <= k < A.rowPtr[i + 1] ::
      values[k] == Combined(alpha, A.values[k], beta, First(Vals(rowB, A.cols[k])))
  }

  /** C has the pattern of A, each stored value combined with the entry of B at its place. */
  ghost predicate IsCombination(C: Csr, A: Csr, B: Csr, alpha: real, beta: real)
    requires WellFormed(A) && WellFormed(B) && A.nrows == B.nrows
  {
    && |C.values| == |A.values| && C == A.(values := C.values)
    && forall i | 0 <= i < A.nrows :: RowCombined(A, Row(B, i), alpha, beta, i, C.values)
  }

  /** The inner loop of the sum, for row i. */
  method CombineRow(A: Csr, B: Csr, alpha: real, beta: real, i: nat, values: array<real>)
    requires WellFormed(A) && WellFormed(B) && A.nrows == B.nrows && A.ncols == B.ncols && i < A.nrows
    requires values.Length == |A.values|
    requires forall k | A.rowPtr[i] <= k < A.nnz :: values[k] == Mul(alpha, A.values[k])
    modifies values
    ensures RowCombined(A, Row(B, i), alpha, beta, i, values[..])
    ensures forall k | 0 <= k < A.rowPtr[i] || A.rowPtr[i + 1] <= k < values.Length :: values[k] == old(values[k])
  {
    ghost var rowB := Row(B, i);
    for j := A.rowPtr[i] to A.rowPtr[i + 1]
      invariant forall k | A.rowPtr[i] <= k < j ::
        values[k] == Combined(alpha, A.values[k], beta, First(Vals(rowB, A.cols[k])))
      invariant forall k | 0 <= k < A.rowPtr[i] || j <= k < values.Length :: values[k] == old(values[k])
    {
      var b := GetValue(B, i, A.cols[j]);
      values[j] := Fma(values[j], beta, b);
    }
  }

  lemma RowCombinedFrame(A: Csr, rowB: seq<Cell>, alpha: real, beta: real, r: nat, values: seq<real>, values': seq<real>, lo: nat)
    requires WellFormed(A) && r < A.nrows && A.nnz <= |values| == |values'| && A.rowPtr[r + 1] <= lo
    requires RowCombined(A, rowB, alpha, beta, r, values)
    requires forall k | 0 <= k < lo && k < |values| :: values'[k] == values[k]
    ensures RowCombined(A, rowB, alpha, beta, r, values')
  {}

  method AddScaled(A: Csr, B: Csr, alpha: real, beta: real) returns (C: Csr, status: Status)
    requires WellFormed(A) && WellFormed(B)
    ensures status == ErrSize <==> A.nrows != B.nrows || A.ncols != B.ncols
    ensures status == Success ==> IsCombination(C, A, B, alpha, beta)
  {
    if A.nrows != B.nrows || A.ncols != B.ncols {
      return Csr(0, 0, 0, [], [], [0]), ErrSize;
    }
    var values := new real[|A.values|](k requires 0 <= k < |A.values| => Mul(alpha, A.values[k]));
    for i := 0 to A.nrows
      invariant forall r | 0 <= r < i :: RowCombined(A, Row(B, r), alpha, beta, r, values[..])
      invariant forall k | A.rowPtr[i] <= k < A.nnz :: values[k] == Mul(alpha, A.values[k])
    {
      ghost var before := values[..];
      CombineRow(A, B, alpha, beta, i, values);
      ghost var after := values[..];
      forall r | 0 <= r < i ensures RowCombined(A, Row(B, r), alpha, beta, r, after) {
        RowCombinedFrame(A, Row(B, r), alpha, beta, r, before, after, A.rowPtr[i]);
      }
    }
    C := A.(values := values[..]);
    status := Success;
  }

  lemma {:induction false} CombinedVals(r: seq<Cell>, s: seq<Cell>, alpha: real, beta: real, w: real, j: nat)
    requires |r| == |s|
    requires forall m | 0 <= m < |r| :: s[m].col == r[m].col
    requires forall m | 0 <= m < |r| && r[m].col == j :: s[m].val == Combined(alpha, r[m].val, beta, w)
    ensures |Vals(s, j)| == |Vals(r, j)|
    ensures forall p | 0 <= p < |Vals(r, j)| :: Vals(s, j)[p] == Combined(alpha, Vals(r, j)[p], beta, w)
  {
    if r != [] { CombinedVals(r[..|r| - 1], s[..|s| - 1], alpha, beta, w, j); }
  }

  lemma TotalOfAtMostOne(s: seq<real>)
    requires |s| <= 1
    ensures Total(s) == First(s)
  {
    if |s| == 1 { assert Total(s) == Total(s[..0]) + s[0]; }
  }

  lemma CombinedRow(A: Csr, B: Csr, C: Csr, alpha: real, beta: real, i: nat, j: nat)
    requires WellFormed(A) && WellFormed(B) && WellFormed(C) && A.nrows == B.nrows == C.nrows && i < A.nrows
    requires IsCombination(C, A, B, alpha, beta)
    ensures var v, w := Vals(Row(A, i), j), Vals(Row(C, i), j);
      && |w| == |v|
      && forall p | 0 <= p < |v| :: w[p] == Combined(alpha, v[p], beta, First(Vals(Row(B, i), j)))
  {
    var r, s := Row(A, i), Row(C, i);
    assert RowCombined(A, Row(B, i), alpha, beta, i, C.values);
    forall m | 0 <= m < |r| && r[m].col == j
      ensures s[m].val == Combined(alpha, r[m].val, beta, First(Vals(Row(B, i), j)))
    {
      assert s[m].val == C.values[A.rowPtr[i] + m];
    }
    CombinedVals(r, s, alpha, beta, First(Vals(Row(B, i), j)), j);
  }

  /** Every stored value of A's entry is combined with the first one of B's. */
  lemma {:induction false} TotalCombined(v: seq<real>, w: seq<real>, alpha: real, beta: real, b: real)
    requires |v| == |w| && forall p | 0 <= p < |v| :: w[p] == Combined(alpha, v[p], beta, b)
    ensures Total(w) == Mul(alpha, Total(v)) + Mul(|v| as real, Mul(beta, b))
  {
    if v != [] {
      var n := |v| - 1;
      TotalCombined(v[..n], w[..n], alpha, beta, b);
      MulAdd(alpha, Total(v[..n]), v[n]);
      OneMore(n as real, Mul(beta, b));
      FmaMul(Mul(alpha, v[n]), beta, b);
    }
  }

  lemma OneMore(n: real, x: real)
    ensures Mul(n + 1.0, x) == Mul(n, x) + x
  {}

  /** What B adds at (i, j): its first stored value, once for each value A stores there. */
  ghost function Added(A: Csr, B: Csr, beta: real, i: nat, j: nat): real
    requires WellFormed(A) && WellFormed(B) && i < A.nrows && i < B.nrows
  {
    Mul(|Vals(Row(A, i), j)| as real, Mul(beta, First(Vals(Row(B, i), j))))
  }

  lemma CombinedIff(A: Csr, B: Csr, C: Csr, alpha: real, beta: real, i: nat, j: nat)
    requires WellFormed(A) && WellFormed(B) && A.nrows == B.nrows && A.ncols == B.ncols
    requires IsCombination(C, A, B, alpha, beta) && i < A.nrows && j < A.ncols
    ensures WellFormed(C)
    ensures Dense(C)[i][j] == Combined(alpha, Dense(A)[i][j], beta, Dense(B)[i][j])
       <==> Added(A, B, beta, i, j) == Mul(beta, Dense(B)[i][j])
  {
    CombinedRow(A, B, C, alpha, beta, i, j);
    TotalCombined(Vals(Row(A, i), j), Vals(Row(C, i), j), alpha, beta, First(Vals(Row(B, i), j)));
    FmaMul(Mul(alpha, Dense(A)[i][j]), beta, Dense(B)[i][j]);
  }

  /** The sum is exact at (i, j) if and only if what B adds there is what it should. */
  lemma AddScaledExactIff(A: Csr, B: Csr, C: Csr, alpha: real, beta: real, i: nat, j: nat)
    requires WellFormed(A) && WellFormed(B) && A.nrows == B.nrows && A.ncols == B.ncols
    requires IsCombination(C, A, B, alpha, beta) && i < A.nrows && j < A.ncols
    ensures WellFormed(C)
    ensures Dense(C)[i][j] == alpha * Dense(A)[i][j] + beta * Dense(B)[i][j]
       <==> Added(A, B, beta, i, j) == Mul(beta, Dense(B)[i][j])
  {
    CombinedIff(A, B, C, alpha, beta, i, j);
    CombinedIs(alpha, Dense(A)[i][j], beta, Dense(B)[i][j]);
  }

  /** Without repeated columns: if and only if A stores that place or B contributes nothing there. */
  lemma AddScaledExactOnce(A: Csr, B: Csr, C: Csr, alpha: real, beta: real, i: nat, j: nat)
    requires WellFormed(A) && WellFormed(B) && A.nrows == B.nrows && A.ncols == B.ncols
    requires IsCombination(C, A, B, alpha, beta) && i < A.nrows && j < A.ncols
    requires NoDuplicates(Row(A, i)) && NoDuplicates(Row(B, i))
    ensures WellFormed(C)
    ensures Dense(C)[i][j] == alpha * Dense(A)[i][j] + beta * Dense(B)[i][j]
       <==> Vals(Row(A, i), j) != [] || Mul(beta, Dense(B)[i][j]) == 0.0
  {
    AddScaledExactIff(A, B, C, alpha, beta, i, j);
    TotalOfAtMostOne(Vals(Row(B, i), j));
    ZeroOrOne(Vals(Row(A, i), j), Mul(beta, Dense(B)[i][j]));
  }

  lemma ZeroOrOne(v: seq<real>, x: real)
    requires |v| <= 1
    ensures Mul(|v| as real, x) == x <==> v != [] || x == 0.0
  {}

  /** Outside A's pattern an entry of B is lost. */
  lemma AddScaledLosesEntry(A: Csr, B: Csr, C: Csr, alpha: real, beta: real, i: nat, j: nat)
    requires WellFormed(A) && WellFormed(B) && A.nrows == B.nrows && A.ncols == B.ncols
    requires IsCombination(C, A, B, alpha, beta) && i < A.nrows && j < A.ncols
    requires Vals(Row(A, i), j) == [] && Mul(beta, Dense(B)[i][j]) != 0.0
    ensures WellFormed(C) && Dense(C)[i][j] == 0.0 != alpha * Dense(A)[i][j] + beta * Dense(B)[i][j]
  {
    CombinedRow(A, B, C, alpha, beta, i, j);
    AddScaledExactIff(A, B, C, alpha, beta, i, j);
    ZeroOrOne([], Mul(beta, First(Vals(Row(B, i), j))));
  }

  /** The 1 by 1 matrix that stores exactly the given values, in order. */
  ghost predicate OneByOne(A: Csr, values: seq<real>) {
    && A.nrows == A.ncols == 1 && A.nnz == |A.cols| == |values| && A.values == values
    && A.rowPtr == [0, |values|] && forall k | 0 <= k < |A.cols| :: A.cols[k] == 0
  }

  lemma {:induction false} AllVals(row: seq<Cell>, values: seq<real>)
    requires |row| == |values| && forall k | 0 <= k < |row| :: row[k] == Cell(0, values[k])
    ensures Vals(row, 0) == values
  {
    if row != [] {
      AllVals(row[..|row| - 1], values[..|row| - 1]);
      assert values == values[..|row| - 1] + [values[|row| - 1]];
    }
  }

  lemma OneByOneVals(A: Csr, values: seq<real>)
    requires OneByOne(A, values)
    ensures WellFormed(A) && Vals(Row(A, 0), 0) == values && Dense(A)[0][0] == Total(values)
  {
    AllVals(Row(A, 0), values);
  }

  /** Adding the 1 by 1 matrix of one to the one that stores nothing gives zero. */
  lemma ZeroPlusOneIsZero(A: Csr, B: Csr, C: Csr)
    requires OneByOne(A, []) && OneByOne(B, [1.0]) && WellFormed(A) && WellFormed(B) && IsCombination(C, A, B, 1.0, 1.0)
    ensures WellFormed(C) && Dense(A)[0][0] == 0.0 && Dense(B)[0][0] == 1.0 && Dense(C)[0][0] == 0.0
  {
    OneByOneVals(A, []);
    OneByOneVals(B, [1.0]);
    TotalOfAtMostOne([1.0]);
    AddScaledLosesEntry(A, B, C, 1.0, 1.0, 0, 0);
  }

  /** With a place stored twice the other operand counts twice: one and zero, plus one, is three. */
  lemma RepeatedPlaceCountsTwice(A: Csr, B: Csr, C: Csr)
    requires OneByOne(A, [1.0, 0.0]) && OneByOne(B, [1.0]) && WellFormed(A) && WellFormed(B) && IsCombination(C, A, B, 1.0, 1.0)
    ensures WellFormed(C) && Dense(A)[0][0] == 1.0 && Dense(B)[0][0] == 1.0 && Dense(C)[0][0] == 3.0
  {
    OneByOneVals(A, [1.0, 0.0]);
    OneByOneVals(B, [1.0]);
    TotalOfAtMostOne([1.0]);
    TotalOfTwo(1.0, 0.0);
    CombinedRow(A, B, C, 1.0, 1.0, 0, 0);
    TotalCombined(Vals(Row(A, 0), 0), Vals(Row(C, 0), 0), 1.0, 1.0, 1.0);
  }

  lemma TotalOfTwo(a: real, b: real)
    ensures Total([a, b]) == a + b
  {
    TotalOfAtMostOne([a]);
    assert [a, b][..1] == [a];
  }
}
