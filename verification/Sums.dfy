/** Finite sums of real-valued functions over `0 .. n-1`, and the arithmetic
    shared by the numerical kernels, which are all stated in these terms. */
module Sums {

  function Sum(n: nat, f: int -> real): real {
    if n == 0 then 0.0 else Sum(n - 1, f) + f(n - 1)
  }

  function Abs(x: real): real {
    if x >= 0.0 then x else -x
  }

  /** Products and a + c b as named operations: equal operands give equal
      results without any reasoning about multiplication. */
  function Mul(a: real, b: real): real {
    a * b
  }

  function Fma(a: real, c: real, b: real): real {
    a + c * b
  }

  /** a less a product, the step of an elimination. */
  function SubMul(a: real, c: real, b: real): real {
    a - Mul(c, b)
  }

  lemma MulPos(a: real, b: real, q: real)
    requires a > 0.0 && b > 0.0 && q == a * b
    ensures q > 0.0
  {}

  lemma CancelMul(m: real, p: real, q: real)
    requires m != 0.0 && Mul(m, p) == Mul(m, q)
    ensures p == q
  {
    assert p == Mul(m, p) / m && q == Mul(m, q) / m;
  }

  /** The library's default tolerance. */
  const TOL_DEFAULT: real := 0.000000000001

  /** sqrt(q) < tol, without the square root. */
  predicate RootBelow(q: real, tol: real) {
    tol > 0.0 && q < tol * tol
  }

  lemma RootBelowIff(r: real, tol: real)
    requires r >= 0.0
    ensures RootBelow(r * r, tol) <==> r < tol
  {
    if r < tol {
      MulPos(tol - r, tol + r, (tol - r) * (tol + r));
    } else if tol > 0.0 {
      assert r * r - tol * tol == (r - tol) * (r + tol);
      if r > tol { MulPos(r - tol, r + tol, (r - tol) * (r + tol)); }
    }
  }

  lemma {:induction false} SumExt(n: nat, f: int -> real, g: int -> real)
    requires forall i | 0 <= i < n :: f(i) == g(i)
    ensures Sum(n, f) == Sum(n, g)
  {
    if n > 0 { SumExt(n - 1, f, g); }
  }

  lemma {:induction false} SumAdd(n: nat, f: int -> real, g: int -> real, h: int -> real)
    requires forall i | 0 <= i < n :: h(i) == f(i) + g(i)
    ensures Sum(n, h) == Sum(n, f) + Sum(n, g)
  {
    if n > 0 { SumAdd(n - 1, f, g, h); }
  }

  lemma {:induction false} SumScale(n: nat, c: real, f: int -> real, h: int -> real)
    requires forall i | 0 <= i < n :: h(i) == Mul(c, f(i))
    ensures Sum(n, h) == Mul(c, Sum(n, f))
  {
    if n > 0 {
      SumScale(n - 1, c, f, h);
      MulAdd(c, Sum(n - 1, f), f(n - 1));
    }
  }

  lemma MulAdd(c: real, a: real, b: real)
    ensures Mul(c, a + b) == Mul(c, a) + Mul(c, b)
  {}

  lemma {:induction false} SumFma(n: nat, f: int -> real, c: real, g: int -> real, h: int -> real)
    requires forall i | 0 <= i < n :: h(i) == Fma(f(i), c, g(i))
    ensures Sum(n, h) == Fma(Sum(n, f), c, Sum(n, g))
  {
    if n > 0 {
      SumFma(n - 1, f, c, g, h);
      FmaAdd(Sum(n - 1, f), f(n - 1), c, Sum(n - 1, g), g(n - 1));
    }
  }

  lemma FmaAdd(a: real, a': real, c: real, b: real, b': real)
    ensures Fma(a + a', c, b + b') == Fma(a, c, b) + Fma(a', c, b')
  {}

  lemma {:induction false} SumZero(n: nat, f: int -> real)
    requires forall i | 0 <= i < n :: f(i) == 0.0
    ensures Sum(n, f) == 0.0
  {
    if n > 0 { SumZero(n - 1, f); }
  }

  lemma {:induction false} SumLe(n: nat, f: int -> real, g: int -> real)
    requires forall i | 0 <= i < n :: f(i) <= g(i)
    ensures Sum(n, f) <= Sum(n, g)
  {
    if n > 0 { SumLe(n - 1, f, g); }
  }

  /** A sum with at most one non-zero term is that term. */
  lemma {:induction false} SumSingle(n: nat, k: int, f: int -> real)
    requires 0 <= k < n
    requires forall i | 0 <= i < n && i != k :: f(i) == 0.0
    ensures Sum(n, f) == f(k)
  {
    if k == n - 1 { SumZero(n - 1, f); } else { SumSingle(n - 1, k, f); }
  }

  /** Sum over the m by n rectangle, row by row. */
  function DoubleSum(m: nat, n: nat, f: (int, int) -> real): real {
    if m == 0 then 0.0 else DoubleSum(m - 1, n, f) + Sum(n, j => f(m - 1, j))
  }

  function Flip(f: (int, int) -> real): (int, int) -> real {
    (i, j) => f(j, i)
  }

  lemma {:induction false} DoubleSumExt(m: nat, n: nat, f: (int, int) -> real, g: (int, int) -> real)
    requires forall i, j | 0 <= i < m && 0 <= j < n :: f(i, j) == g(i, j)
    ensures DoubleSum(m, n, f) == DoubleSum(m, n, g)
  {
    if m > 0 {
      DoubleSumExt(m - 1, n, f, g);
      SumExt(n, j => f(m - 1, j), j => g(m - 1, j));
    }
  }

  /** The rectangle sum from its row sums. */
  lemma {:induction false} DoubleSumRows(m: nat, n: nat, f: (int, int) -> real, row: int -> real)
    requires forall i | 0 <= i < m :: row(i) == Sum(n, j => f(i, j))
    ensures DoubleSum(m, n, f) == Sum(m, row)
  {
    if m > 0 { DoubleSumRows(m - 1, n, f, row); }
  }

  /** Peeling the last column instead of the last row. */
  lemma {:induction false} DoubleSumLastColumn(m: nat, n: nat, f: (int, int) -> real)
    requires n > 0
    ensures DoubleSum(m, n, f) == DoubleSum(m, n - 1, f) + Sum(m, i => f(i, n - 1))
  {
    if m > 0 { DoubleSumLastColumn(m - 1, n, f); }
  }

  lemma {:induction false} DoubleSumEmpty(m: nat, f: (int, int) -> real)
    ensures DoubleSum(m, 0, f) == 0.0
  {
    if m > 0 { DoubleSumEmpty(m - 1, f); }
  }

  /** Exchange of the order of summation. */
  lemma {:induction false} SumSwap(m: nat, n: nat, f: (int, int) -> real)
    ensures DoubleSum(m, n, f) == DoubleSum(n, m, Flip(f))
  {
    if n == 0 {
      DoubleSumEmpty(m, f);
    } else {
      SumSwap(m, n - 1, f);
      DoubleSumLastColumn(m, n, f);
      SumExt(m, i => f(i, n - 1), i => Flip(f)(n - 1, i));
    }
  }

  lemma {:induction false} SumNonNeg(n: nat, f: int -> real)
    requires forall i | 0 <= i < n :: f(i) >= 0.0
    ensures Sum(n, f) >= 0.0
  {
    if n > 0 { SumNonNeg(n - 1, f); }
  }

  /** A non-negative sum with a positive term is positive. */
  lemma {:induction false} SumPos(n: nat, k: int, f: int -> real)
    requires forall i | 0 <= i < n :: f(i) >= 0.0
    requires 0 <= k < n && f(k) > 0.0
    ensures Sum(n, f) > 0.0
  {
    if k == n - 1 { SumNonNeg(n - 1, f); } else { SumPos(n - 1, k, f); }
  }
}
