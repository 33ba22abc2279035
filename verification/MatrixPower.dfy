/** Matrix power by repeated squaring. */
module MatrixPower {
  import opened LinAlg

  datatype Status = Success | ErrSize

  /** The k-fold product A A ... A. */
  ghost function Power(A: Mat, n: nat, k: nat): (P: Mat)
    requires IsMat(A, n, n)
    ensures IsMat(P, n, n)
  {
    if k == 0 then Identity(n) else MatMul(Power(A, n, k - 1), A, n)
  }

  lemma {:induction false} PowerAdd(A: Mat, n: nat, j: nat, k: nat)
    requires IsMat(A, n, n)
    ensures MatMul(Power(A, n, j), Power(A, n, k), n) == Power(A, n, j + k)
  {
    if k == 0 {
      MulIdentity(Power(A, n, j), n, n);
    } else {
      PowerAdd(A, n, j, k - 1);
      MatMulAssoc(Power(A, n, j), Power(A, n, k - 1), A, n, n, n, n);
    }
  }

  lemma PowerOne(A: Mat, n: nat)
    requires IsMat(A, n, n)
    ensures Power(A, n, 1) == A
  {
    assert Power(A, n, 0) == Identity(n);
    MulIdentity(A, n, n);
  }

  lemma {:induction false} PowerOfSquare(A: Mat, n: nat, k: nat)
    requires IsMat(A, n, n)
    ensures Power(MatMul(A, A, n), n, k) == Power(A, n, 2 * k)
  {
    if k > 0 {
      PowerOfSquare(A, n, k - 1);
      PowerOne(A, n);
      PowerAdd(A, n, 1, 1);
      var m := 2 * (k - 1);
      PowerAdd(A, n, m, 2);
      assert 2 * k == m + 2;
    }
  }

  /** Taking one factor out of an odd power. */
  lemma OddPower(Ak: Mat, base: Mat, n: nat, power: nat)
    requires IsMat(Ak, n, n) && IsMat(base, n, n) && power % 2 == 1
    ensures MatMul(MatMul(Ak, base, n), Power(base, n, power - 1), n) == MatMul(Ak, Power(base, n, power), n)
  {
    MatMulAssoc(Ak, base, Power(base, n, power - 1), n, n, n, n);
    PowerOne(base, n);
    PowerAdd(base, n, 1, power - 1);
  }

  method MatrixPower(A: Mat, rows: nat, cols: nat, k: int) returns (Ak: Mat, status: Status)
    requires IsMat(A, rows, cols)
    ensures status == Success <==> rows == cols && k >= 0
    ensures status == Success ==> Ak == Power(A, rows, k)
    ensures status == ErrSize ==> Ak == Tabulate(rows, cols, (i, j) => 0.0)
  {
    if rows != cols || k < 0 {
      return Tabulate(rows, cols, (i, j) => 0.0), ErrSize;
    }
    var n := rows;
    if k == 0 {
      return Identity(n), Success;
    }
    var base := A;
    Ak := Identity(n);
    var power := k;
    MulIdentity(Power(A, n, k), n, n);
    while power > 0
      invariant power >= 0 && IsMat(Ak, n, n) && IsMat(base, n, n)
      invariant MatMul(Ak, Power(base, n, power), n) == Power(A, n, k)
    {
      ghost var half := power / 2;
      if power % 2 == 1 {
        OddPower(Ak, base, n, power);
        Ak := MatMul(Ak, base, n);
      }
      PowerOfSquare(base, n, half);
      if power > 1 {
        base := MatMul(base, base, n);
      }
      power := power / 2;
    }
    MulIdentity(Ak, n, n);
    status := Success;
  }
}
