/** One-dimensional finite-volume steps on a periodic grid: conservation, bounds and total variation. */
module FiniteVolume {
  import opened Sums
  import opened LinAlg

  /** Index of the left and right neighbour on a ring of n cells. */
  function Left(i: int, n: nat): int {
    if i == 0 then n - 1 else i - 1
  }

  function Right(i: int, n: nat): int {
    if i == n - 1 then 0 else i + 1
  }

  function Cells(u: Vec): int -> real {
    i => At(u, i)
  }

  function Jumps(u: Vec): int -> real {
    i => Abs(At(u, Right(i, |u|)) - At(u, i))
  }

  function Total(u: Vec): real {
    Sum(|u|, Cells(u))
  }

  /** Sum of the jumps between neighbours, around the ring. */
  function Variation(u: Vec): real {
    Sum(|u|, Jumps(u))
  }

  ghost predicate Within(u: Vec, lo: real, hi: real) {
    forall i | 0 <= i < |u| :: lo <= u[i] <= hi
  }

  // Sums around the ring

  lemma {:induction false} RotatedTo(n: nat, m: nat, f: int -> real, g: int -> real)
    requires 1 <= m <= n && g(0) == f(n - 1) && forall i | 0 < i < n :: g(i) == f(i - 1)
    ensures Sum(m, g) == Sum(m, f) - f(m - 1) + f(n - 1)
  {
    if m == 1 {
      assert Sum(1, g) == Sum(0, g) + g(0) && Sum(1, f) == Sum(0, f) + f(0);
    } else {
      RotatedTo(n, m - 1, f, g);
    }
  }

  /** A sum does not change when its terms move one place around the ring. */
  lemma Rotated(n: nat, f: int -> real, g: int -> real)
    requires n > 0 ==> g(0) == f(n - 1) && forall i | 0 < i < n :: g(i) == f(i - 1)
    ensures Sum(n, g) == Sum(n, f)
  {
    if n > 0 { RotatedTo(n, n, f, g); }
  }

  function LeftOf(n: nat, f: int -> real): int -> real {
    i => f(Left(i, n))
  }

  function RightOf(n: nat, f: int -> real): int -> real {
    i => f(Right(i, n))
  }

  lemma RingSums(n: nat, f: int -> real)
    ensures Sum(n, LeftOf(n, f)) == Sum(n, f) == Sum(n, RightOf(n, f))
  {
    var left, right := LeftOf(n, f), RightOf(n, f);
    forall i: int ensures left(i) == f(Left(i, n)) && right(i) == f(Right(i, n)) {}
    Rotated(n, f, left);
    Rotated(n, right, f);
  }

  // Three-point averages

  /** l a + c b + r d. */
  function Mix3(l: real, a: real, c: real, b: real, r: real, d: real): real {
    Mul(l, a) + Mul(c, b) + Mul(r, d)
  }

  /** v is the average of u over each cell and its two neighbours with the given weights. */
  ghost predicate IsMix(u: Vec, v: Vec, l: real, c: real, r: real) {
    |v| == |u| && forall i {:trigger MixAt(u, v, l, c, r, i)} | 0 <= i < |u| :: MixAt(u, v, l, c, r, i)
  }

  ghost predicate MixAt(u: Vec, v: Vec, l: real, c: real, r: real, i: nat)
    requires i < |u| == |v|
  {
    v[i] == Mix3(l, u[Left(i, |u|)], c, u[i], r, u[Right(i, |u|)])
  }

  predicate Weights(l: real, c: real, r: real) {
    l >= 0.0 && c >= 0.0 && r >= 0.0 && l + c + r == 1.0
  }

  lemma Mix3Sum(n: nat, l: real, f: int -> real, c: real, g: int -> real, r: real, h: int -> real, s: int -> real)
    requires forall i | 0 <= i < n :: s(i) == Mix3(l, f(i), c, g(i), r, h(i))
    ensures Sum(n, s) == Mix3(l, Sum(n, f), c, Sum(n, g), r, Sum(n, h))
  {
    var lf, cg, rh := i => Mul(l, f(i)), i => Mul(c, g(i)), i => Mul(r, h(i));
    var two := i => lf(i) + cg(i);
    SumScale(n, l, f, lf);
    SumScale(n, c, g, cg);
    SumScale(n, r, h, rh);
    SumAdd(n, lf, cg, two);
    SumAdd(n, two, rh, s);
  }

  lemma Mix3Same(l: real, c: real, r: real, a: real)
    requires l + c + r == 1.0
    ensures Mix3(l, a, c, a, r, a) == a
  {
    assert (l + c + r) * a == l * a + c * a + r * a;
  }

  lemma MixConserves(u: Vec, v: Vec, l: real, c: real, r: real)
    requires IsMix(u, v, l, c, r) && l + c + r == 1.0
    ensures Total(v) == Total(u)
  {
    var n, f := |u|, Cells(u);
    RingSums(n, f);
    forall i | 0 <= i < n ensures Cells(v)(i) == Mix3(l, LeftOf(n, f)(i), c, f(i), r, RightOf(n, f)(i)) {
      assert MixAt(u, v, l, c, r, i);
    }
    Mix3Sum(n, l, LeftOf(n, f), c, f, r, RightOf(n, f), Cells(v));
    Mix3Same(l, c, r, Sum(n, f));
  }

  lemma Mix3Within(l: real, a: real, c: real, b: real, r: real, d: real, lo: real, hi: real)
    requires Weights(l, c, r) && lo <= a <= hi && lo <= b <= hi && lo <= d <= hi
    ensures lo <= Mix3(l, a, c, b, r, d) <= hi
  {
    MulLe(l, lo, a); MulLe(c, lo, b); MulLe(r, lo, d);
    MulLe(l, a, hi); MulLe(c, b, hi); MulLe(r, d, hi);
    Mix3Same(l, c, r, lo);
    Mix3Same(l, c, r, hi);
  }

  lemma MulLe(w: real, a: real, b: real)
    requires w >= 0.0 && a <= b
    ensures Mul(w, a) <= Mul(w, b)
  {
    assert w * (b - a) >= 0.0;
  }

  lemma MixBounded(u: Vec, v: Vec, l: real, c: real, r: real, lo: real, hi: real)
    requires IsMix(u, v, l, c, r) && Weights(l, c, r) && Within(u, lo, hi)
    ensures Within(v, lo, hi)
  {
    forall i | 0 <= i < |v| ensures lo <= v[i] <= hi {
      assert MixAt(u, v, l, c, r, i);
      Mix3Within(l, u[Left(i, |u|)], c, u[i], r, u[Right(i, |u|)], lo, hi);
    }
  }

  lemma Mix3Difference(l: real, a: real, c: real, b: real, r: real, d: real, a': real, b': real, d': real)
    requires l >= 0.0 && c >= 0.0 && r >= 0.0
    ensures Abs(Mix3(l, a', c, b', r, d') - Mix3(l, a, c, b, r, d)) <= Mix3(l, Abs(a' - a), c, Abs(b' - b), r, Abs(d' - d))
  {
    MulDifference(l, a', a);
    MulDifference(c, b', b);
    MulDifference(r, d', d);
  }

  lemma MulDifference(w: real, x: real, y: real)
    requires w >= 0.0
    ensures Abs(Mul(w, x) - Mul(w, y)) == Mul(w, Abs(x - y))
  {
    MulMinus(w, x, y);
    MulMinus(w, y, x);
    if x >= y { MulLe(w, y, x); } else { MulLe(w, x, y); }
  }

  lemma MulMinus(w: real, x: real, y: real)
    ensures Mul(w, x - y) == Mul(w, x) - Mul(w, y)
  {}

  /** The jump of an average is at most the average of the jumps. */
  lemma JumpBound(u: Vec, v: Vec, l: real, c: real, r: real, k: nat, i: nat, j: nat, m: nat)
    requires IsMix(u, v, l, c, r) && Weights(l, c, r) && i < |u| && j < |u|
    requires k == Left(i, |u|) && j == Right(i, |u|) && m == Right(j, |u|)
    ensures Abs(v[j] - v[i]) <= Mix3(l, Abs(u[i] - u[k]), c, Abs(u[j] - u[i]), r, Abs(u[m] - u[j]))
  {
    Mix3Difference(l, u[k], c, u[i], r, u[j], u[i], u[j], u[m]);
    assert MixAt(u, v, l, c, r, i) && MixAt(u, v, l, c, r, j);
  }

  lemma JumpValues(u: Vec, v: Vec, i: nat)
    requires i < |u| == |v|
    ensures var n, f := |u|, Jumps(u);
      var j, k := Right(i, n), Left(i, n);
      && Jumps(v)(i) == Abs(v[j] - v[i]) && f(i) == Abs(u[j] - u[i])
      && LeftOf(n, f)(i) == Abs(u[i] - u[k]) && RightOf(n, f)(i) == Abs(u[Right(j, n)] - u[j])
  {
    var n := |u|;
    assert Right(Left(i, n), n) == i;
  }

  /** The average, cell by cell, of f over each cell and its neighbours. */
  function Averaged(n: nat, l: real, c: real, r: real, f: int -> real): int -> real {
    i => Mix3(l, LeftOf(n, f)(i), c, f(i), r, RightOf(n, f)(i))
  }

  lemma AveragedSum(n: nat, l: real, c: real, r: real, f: int -> real)
    requires l + c + r == 1.0
    ensures Sum(n, Averaged(n, l, c, r, f)) == Sum(n, f)
  {
    RingSums(n, f);
    Mix3Sum(n, l, LeftOf(n, f), c, f, r, RightOf(n, f), Averaged(n, l, c, r, f));
    Mix3Same(l, c, r, Sum(n, f));
  }

  lemma JumpAveraged(u: Vec, v: Vec, l: real, c: real, r: real, i: nat)
    requires IsMix(u, v, l, c, r) && Weights(l, c, r) && i < |u|
    ensures Jumps(v)(i) <= Averaged(|u|, l, c, r, Jumps(u))(i)
  {
    var n := |u|;
    JumpValues(u, v, i);
    JumpBound(u, v, l, c, r, Left(i, n), i, Right(i, n), Right(Right(i, n), n));
  }

  lemma MixVariation(u: Vec, v: Vec, l: real, c: real, r: real)
    requires IsMix(u, v, l, c, r) && Weights(l, c, r)
    ensures Variation(v) <= Variation(u)
  {
    var n, f := |u|, Jumps(u);
    AveragedSum(n, l, c, r, f);
    forall i | 0 <= i < n ensures Jumps(v)(i) <= Averaged(n, l, c, r, f)(i) { JumpAveraged(u, v, l, c, r, i); }
    SumLe(n, Jumps(v), Averaged(n, l, c, r, f));
  }
}
