/** Vectors, matrices and the inner-product algebra used by the solvers. */
module LinAlg {
  import opened Sums

  type Vec = seq<real>
  type Mat = seq<seq<real>>

  /** Total accessor: entries outside the vector read as zero. */
  function At(u: Vec, i: int): real {
    if 0 <= i < |u| then u[i] else 0.0
  }

  function Dot(u: Vec, v: Vec): real {
    Sum(|u|, i => Mul(At(u, i), At(v, i)))
  }

  /** u + c v, the only vector update the kernels perform. */
  function Axpy(u: Vec, c: real, v: Vec): (w: Vec)
    requires |u| == |v|
    ensures |w| == |u|
    ensures forall i | 0 <= i < |u| :: w[i] == Fma(u[i], c, v[i])
  {
    seq(|u|, i requires 0 <= i < |u| => Fma(u[i], c, v[i]))
  }

  function Zero(n: nat): (z: Vec)
    ensures |z| == n
    ensures forall i | 0 <= i < n :: z[i] == 0.0
  {
    seq(n, _ => 0.0)
  }

  predicate IsMat(A: Mat, m: nat, n: nat) {
    |A| == m && forall i | 0 <= i < m :: |A[i]| == n
  }

  /** Total accessor of a matrix entry. */
  function Entry(A: Mat, i: int, j: int): real {
    if 0 <= i < |A| then At(A[i], j) else 0.0
  }

  function MatVec(A: Mat, x: Vec): (y: Vec)
    ensures |y| == |A|
    ensures forall i | 0 <= i < |A| :: y[i] == Dot(A[i], x)
  {
    seq(|A|, i requires 0 <= i < |A| => Dot(A[i], x))
  }

  ghost predicate Symmetric(A: Mat) {
    forall i, j | 0 <= i < |A| && 0 <= j < |A| :: Entry(A, i, j) == Entry(A, j, i)
  }

  ghost predicate PosDef(A: Mat) {
    forall x: Vec | |x| == |A| && x != Zero(|A|) :: Dot(x, MatVec(A, x)) > 0.0
  }

  ghost predicate Spd(A: Mat, n: nat) {
    IsMat(A, n, n) && Symmetric(A) && PosDef(A)
  }

  lemma DotSym(u: Vec, v: Vec)
    requires |u| == |v|
    ensures Dot(u, v) == Dot(v, u)
  {
    var f, g := (i: int) => Mul(At(u, i), At(v, i)), (i: int) => Mul(At(v, i), At(u, i));
    forall i | 0 <= i < |u| ensures f(i) == g(i) { MulComm(At(u, i), At(v, i)); }
    SumExt(|u|, f, g);
  }

  lemma MulComm(a: real, b: real)
    ensures Mul(a, b) == Mul(b, a)
  {}

  lemma MulZero(a: real)
    ensures Mul(a, 0.0) == Mul(0.0, a) == 0.0
  {}

  lemma MulFma(a: real, c: real, b: real, w: real)
    ensures Mul(Fma(a, c, b), w) == Fma(Mul(a, w), c, Mul(b, w))
  {}

  lemma DotAxpy(u: Vec, c: real, v: Vec, w: Vec)
    requires |u| == |v| == |w|
    ensures Dot(Axpy(u, c, v), w) == Fma(Dot(u, w), c, Dot(v, w))
  {
    var f, g := (i: int) => Mul(At(u, i), At(w, i)), (i: int) => Mul(At(v, i), At(w, i));
    var h := (i: int) => Mul(At(Axpy(u, c, v), i), At(w, i));
    forall i | 0 <= i < |u| ensures h(i) == Fma(f(i), c, g(i)) { MulFma(u[i], c, v[i], w[i]); }
    SumFma(|u|, f, c, g, h);
  }

  lemma DotAxpyRight(w: Vec, u: Vec, c: real, v: Vec)
    requires |u| == |v| == |w|
    ensures Dot(w, Axpy(u, c, v)) == Fma(Dot(w, u), c, Dot(w, v))
  {
    DotSym(w, Axpy(u, c, v));
    DotAxpy(u, c, v, w);
    DotSym(u, w);
    DotSym(v, w);
  }

  lemma DotZero(u: Vec, n: nat)
    requires |u| == n
    ensures Dot(Zero(n), u) == 0.0 && Dot(u, Zero(n)) == 0.0
  {
    var f := (i: int) => Mul(At(Zero(n), i), At(u, i));
    forall i | 0 <= i < n ensures f(i) == 0.0 { MulZero(At(u, i)); }
    SumZero(n, f);
    DotSym(u, Zero(n));
  }

  function Unit(n: nat, i: nat): (e: Vec)
    ensures |e| == n
    ensures forall k | 0 <= k < n :: e[k] == if k == i then 1.0 else 0.0
  {
    seq(n, k requires 0 <= k < n => if k == i then 1.0 else 0.0)
  }

  lemma DotUnit(n: nat, i: nat, v: Vec)
    requires i < n && |v| == n
    ensures Dot(Unit(n, i), v) == v[i]
  {
    var f := (k: int) => Mul(At(Unit(n, i), k), At(v, k));
    forall k | 0 <= k < n && k != i ensures f(k) == 0.0 { MulZero(At(v, k)); }
    assert f(i) == Mul(1.0, v[i]) == v[i];
    SumSingle(n, i, f);
  }

  lemma SquarePos(a: real, q: real)
    requires q == a * a
    ensures q >= 0.0
    ensures a != 0.0 ==> q > 0.0
  {
    if a > 0.0 {
      MulPos(a, a, q);
    } else if a < 0.0 {
      MulPos(-a, -a, q);
    }
  }

  /** The inner product is definite: it vanishes on the zero vector only. */
  lemma DotSelf(u: Vec)
    ensures Dot(u, u) >= 0.0
    ensures u != Zero(|u|) ==> Dot(u, u) > 0.0
    ensures u == Zero(|u|) ==> Dot(u, u) == 0.0
  {
    var f := (i: int) => Mul(At(u, i), At(u, i));
    forall i | 0 <= i < |u| ensures f(i) >= 0.0 { SquarePos(At(u, i), f(i)); }
    SumNonNeg(|u|, f);
    if u == Zero(|u|) {
      DotZero(u, |u|);
    } else {
      var k :| 0 <= k < |u| && u[k] != 0.0;
      SquarePos(u[k], f(k));
      SumPos(|u|, k, f);
    }
  }

  lemma MatVecAxpy(A: Mat, n: nat, x: Vec, c: real, p: Vec)
    requires IsMat(A, n, n) && |x| == |p| == n
    ensures MatVec(A, Axpy(x, c, p)) == Axpy(MatVec(A, x), c, MatVec(A, p))
  {
    forall i | 0 <= i < n
      ensures MatVec(A, Axpy(x, c, p))[i] == Axpy(MatVec(A, x), c, MatVec(A, p))[i]
    {
      DotAxpyRight(A[i], x, c, p);
    }
  }

  /** The terms of x^T A y, the common form of both sides of `Adjoint`. */
  function Terms(A: Mat, x: Vec, y: Vec): (int, int) -> real {
    (i, j) => Mul(At(x, i), Mul(Entry(A, i, j), At(y, j)))
  }

  lemma BilinearByRows(A: Mat, m: nat, n: nat, x: Vec, y: Vec)
    requires IsMat(A, m, n) && |x| == m && |y| == n
    ensures Dot(x, MatVec(A, y)) == DoubleSum(m, n, Terms(A, x, y))
  {
    var row := (i: int) => Mul(At(x, i), At(MatVec(A, y), i));
    forall i | 0 <= i < m
      ensures row(i) == Sum(n, j => Terms(A, x, y)(i, j))
    {
      var f, h := (j: int) => Mul(At(A[i], j), At(y, j)), (j: int) => Terms(A, x, y)(i, j);
      forall j | 0 <= j < n ensures h(j) == Mul(At(x, i), f(j)) {
        assert Terms(A, x, y)(i, j) == Mul(At(x, i), Mul(Entry(A, i, j), At(y, j)));
      }
      SumScale(n, At(x, i), f, h);
    }
    DoubleSumRows(m, n, Terms(A, x, y), row);
  }

  /** x . (A y) = (A^T x) . y for every m by n matrix. */
  lemma Adjoint(A: Mat, m: nat, n: nat, x: Vec, y: Vec)
    requires IsMat(A, m, n) && |x| == m && |y| == n
    ensures Dot(x, MatVec(A, y)) == Dot(MatVec(Transpose(A, n), x), y)
  {
    var T := Transpose(A, n);
    BilinearByRows(A, m, n, x, y);
    BilinearByRows(T, n, m, y, x);
    SumSwap(m, n, Terms(A, x, y));
    forall i, j | 0 <= i < n && 0 <= j < m
      ensures Flip(Terms(A, x, y))(i, j) == Terms(T, y, x)(i, j)
    {
      TermsFlip(A, m, n, x, y, i, j);
    }
    DoubleSumExt(n, m, Flip(Terms(A, x, y)), Terms(T, y, x));
    DotSym(y, MatVec(T, x));
  }

  lemma TermsFlip(A: Mat, m: nat, n: nat, x: Vec, y: Vec, i: int, j: int)
    requires IsMat(A, m, n) && |x| == m && |y| == n && 0 <= i < n && 0 <= j < m
    ensures Terms(A, x, y)(j, i) == Terms(Transpose(A, n), y, x)(i, j)
  {
    assert Entry(Transpose(A, n), i, j) == Entry(A, j, i);
    Rotate(At(x, j), Entry(A, j, i), At(y, i));
  }

  /** A symmetric matrix is self-adjoint for the inner product. */
  lemma SelfAdjoint(A: Mat, n: nat, x: Vec, y: Vec)
    requires IsMat(A, n, n) && Symmetric(A) && |x| == |y| == n
    ensures Dot(x, MatVec(A, y)) == Dot(MatVec(A, x), y)
  {
    Adjoint(A, n, n, x, y);
    var T := Transpose(A, n);
    forall i | 0 <= i < n ensures T[i] == A[i] {
      forall j | 0 <= j < n ensures T[i][j] == A[i][j] { assert Entry(A, i, j) == Entry(A, j, i); }
    }
    assert T == A;
  }

  lemma Rotate(a: real, b: real, c: real)
    ensures Mul(a, Mul(b, c)) == Mul(c, Mul(b, a))
  {}

  /** Column j of B as a vector. */
  function Column(B: Mat, j: int): (c: Vec)
    ensures |c| == |B|
    ensures forall k | 0 <= k < |B| :: c[k] == Entry(B, k, j)
  {
    seq(|B|, k requires 0 <= k < |B| => Entry(B, k, j))
  }

  function Tabulate(m: nat, n: nat, f: (int, int) -> real): (A: Mat)
    ensures IsMat(A, m, n)
    ensures forall i, j | 0 <= i < m && 0 <= j < n :: A[i][j] == f(i, j)
  {
    seq(m, i requires 0 <= i < m => seq(n, j requires 0 <= j < n => f(i, j)))
  }

  /** The m by n product of A (m by l) and B (l by n). */
  function MatMul(A: Mat, B: Mat, n: nat): (C: Mat)
    ensures IsMat(C, |A|, n)
    ensures forall i, j | 0 <= i < |A| && 0 <= j < n :: C[i][j] == Dot(A[i], Column(B, j))
  {
    seq(|A|, i requires 0 <= i < |A| => seq(n, j requires 0 <= j < n => Dot(A[i], Column(B, j))))
  }

  /** (A B) x = A (B x). */
  lemma MatMulVec(A: Mat, B: Mat, m: nat, l: nat, n: nat, x: Vec)
    requires IsMat(A, m, l) && IsMat(B, l, n) && |x| == n
    ensures MatVec(MatMul(A, B, n), x) == MatVec(A, MatVec(B, x))
  {
    forall i | 0 <= i < m ensures MatVec(MatMul(A, B, n), x)[i] == MatVec(A, MatVec(B, x))[i] {
      Adjoint(B, l, n, A[i], x);
      var row, want := MatMul(A, B, n)[i], MatVec(Transpose(B, n), A[i]);
      forall j | 0 <= j < n ensures row[j] == want[j] { DotSym(A[i], Column(B, j)); }
      assert row == want;
    }
  }

  lemma ColumnOfProduct(B: Mat, C: Mat, l: nat, n: nat, p: nat, j: nat)
    requires IsMat(B, l, n) && IsMat(C, n, p) && j < p
    ensures Column(MatMul(B, C, p), j) == MatVec(B, Column(C, j))
  {}

  /** (A B) C = A (B C). */
  lemma MatMulAssoc(A: Mat, B: Mat, C: Mat, m: nat, l: nat, n: nat, p: nat)
    requires IsMat(A, m, l) && IsMat(B, l, n) && IsMat(C, n, p)
    ensures MatMul(MatMul(A, B, n), C, p) == MatMul(A, MatMul(B, C, p), p)
  {
    var L, R := MatMul(MatMul(A, B, n), C, p), MatMul(A, MatMul(B, C, p), p);
    forall i, j | 0 <= i < m && 0 <= j < p ensures L[i][j] == R[i][j] {
      var c := Column(C, j);
      MatMulVec(A, B, m, l, n, c);
      ColumnOfProduct(B, C, l, n, p, j);
      assert MatVec(MatMul(A, B, n), c)[i] == MatVec(A, MatVec(B, c))[i];
    }
    forall i | 0 <= i < m ensures L[i] == R[i] {}
  }

  function Transpose(A: Mat, n: nat): (T: Mat)
    ensures IsMat(T, n, |A|)
    ensures forall i, j | 0 <= i < n && 0 <= j < |A| :: T[i][j] == Entry(A, j, i)
  {
    seq(n, i requires 0 <= i < n => Column(A, i))
  }

  function Identity(n: nat): (I: Mat)
    ensures IsMat(I, n, n)
    ensures forall i | 0 <= i < n :: I[i] == Unit(n, i)
  {
    seq(n, i requires 0 <= i < n => Unit(n, i))
  }

  lemma IdentityVec(n: nat, x: Vec)
    requires |x| == n
    ensures MatVec(Identity(n), x) == x
  {
    forall i | 0 <= i < n ensures MatVec(Identity(n), x)[i] == x[i] { DotUnit(n, i, x); }
  }

  lemma MulIdentity(A: Mat, m: nat, n: nat)
    requires IsMat(A, m, n)
    ensures MatMul(A, Identity(n), n) == A && MatMul(Identity(m), A, n) == A
  {
    var R, L := MatMul(A, Identity(n), n), MatMul(Identity(m), A, n);
    forall i, j | 0 <= i < m && 0 <= j < n ensures R[i][j] == A[i][j] && L[i][j] == A[i][j] {
      assert Column(Identity(n), j) == Unit(n, j);
      DotSym(A[i], Unit(n, j));
      DotUnit(n, j, A[i]);
      DotUnit(m, i, Column(A, j));
    }
    forall i | 0 <= i < m ensures R[i] == A[i] && L[i] == A[i] {}
  }
}
