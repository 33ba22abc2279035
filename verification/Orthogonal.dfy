/** At most n pairwise orthogonal non-zero vectors exist in dimension n. */
module Orthogonal {
  import opened Sums
  import opened LinAlg

  ghost predicate Orthogonals(vs: seq<Vec>, n: nat) {
    && (forall i | 0 <= i < |vs| :: |vs[i]| == n)
    && (forall i, j | 0 <= i < |vs| && 0 <= j < |vs| && i != j :: Dot(vs[i], vs[j]) == 0.0)
  }

  ghost predicate AllNonZero(vs: seq<Vec>) {
    forall i | 0 <= i < |vs| :: Dot(vs[i], vs[i]) > 0.0
  }

  /** The squared share of the i-th unit vector that lies along vs[j]. */
  ghost function Share(vs: seq<Vec>, i: int, j: int): real {
    if 0 <= j < |vs| && Dot(vs[j], vs[j]) != 0.0
    then At(vs[j], i) * At(vs[j], i) / Dot(vs[j], vs[j])
    else 0.0
  }

  /** The multiple of vs[j] that removes that share. */
  ghost function Coef(vs: seq<Vec>, i: int, j: int): real {
    if 0 <= j < |vs| && Dot(vs[j], vs[j]) != 0.0
    then -(At(vs[j], i) / Dot(vs[j], vs[j]))
    else 0.0
  }

  /** The i-th unit vector after adding coef(j) vs[j] for every j < k. */
  ghost function Remainder(vs: seq<Vec>, n: nat, i: nat, k: nat, coef: int -> real): (w: Vec)
    requires k <= |vs| && forall j | 0 <= j < |vs| :: |vs[j]| == n
    ensures |w| == n
  {
    if k == 0 then Unit(n, i)
    else Axpy(Remainder(vs, n, i, k - 1, coef), coef(k - 1), vs[k - 1])
  }

  /** Adding c v takes exactly s off the squared length of every w with w.v = v[i]. */
  ghost predicate Removes(v: Vec, i: int, c: real, s: real) {
    forall w: Vec | |w| == |v| && Dot(w, v) == At(v, i) ::
      Dot(Axpy(w, c, v), Axpy(w, c, v)) == Dot(w, w) - s
  }

  /** Before step j nothing along vs[j] has been removed yet. */
  ghost predicate Unprojected(vs: seq<Vec>, n: nat, i: nat, j: nat, coef: int -> real)
    requires j < |vs| && forall l | 0 <= l < |vs| :: |vs[l]| == n
  {
    Dot(Remainder(vs, n, i, j, coef), vs[j]) == At(vs[j], i)
  }

  lemma SquareOfRemainder(ww: real, a: real, q: real, c: real, s: real)
    requires c * q == -a && c * a == -s
    ensures Fma(Fma(ww, c, a), c, Fma(a, c, q)) == ww - s
  {}

  lemma ShareFacts(a: real, q: real, c: real, s: real)
    requires q > 0.0 && c == -(a / q) && s == a * a / q
    ensures c * q == -a && c * a == -s
  {}

  lemma RemovesFrom(w: Vec, v: Vec, a: real, q: real, c: real, s: real)
    requires |w| == |v| && Dot(w, v) == a && Dot(v, v) == q && c * q == -a && c * a == -s
    ensures Dot(Axpy(w, c, v), Axpy(w, c, v)) == Dot(w, w) - s
  {
    DotAxpy(w, c, v, Axpy(w, c, v));
    DotAxpyRight(w, w, c, v);
    DotAxpyRight(v, w, c, v);
    DotSym(v, w);
    SquareOfRemainder(Dot(w, w), a, q, c, s);
  }

  lemma RemovesShare(v: Vec, i: int, a: real, q: real, c: real, s: real)
    requires a == At(v, i) && q == Dot(v, v) && c * q == -a && c * a == -s
    ensures Removes(v, i, c, s)
  {
    forall w: Vec | |w| == |v| && Dot(w, v) == At(v, i) ensures Dot(Axpy(w, c, v), Axpy(w, c, v)) == Dot(w, w) - s {
      RemovesFrom(w, v, a, q, c, s);
    }
  }

  lemma FmaZero(a: real, c: real)
    ensures Fma(a, c, 0.0) == a
  {}

  lemma {:induction false} RemainderDots(vs: seq<Vec>, n: nat, i: nat, k: nat, coef: int -> real, j: nat)
    requires Orthogonals(vs, n) && i < n && k <= j < |vs|
    ensures Dot(Remainder(vs, n, i, k, coef), vs[j]) == At(vs[j], i)
  {
    if k == 0 {
      DotUnit(n, i, vs[j]);
    } else {
      RemainderDots(vs, n, i, k - 1, coef, j);
      DotAxpy(Remainder(vs, n, i, k - 1, coef), coef(k - 1), vs[k - 1], vs[j]);
      assert Dot(vs[k - 1], vs[j]) == 0.0;
      FmaZero(At(vs[j], i), coef(k - 1));
    }
  }

  lemma {:induction false} RemainderNorm(vs: seq<Vec>, n: nat, i: nat, k: nat,
                                         coef: int -> real, share: int -> real)
    requires (forall j | 0 <= j < |vs| :: |vs[j]| == n) && i < n && k <= |vs|
    requires forall j | 0 <= j < |vs| :: Removes(vs[j], i, coef(j), share(j))
    requires forall j | 0 <= j < |vs| :: Unprojected(vs, n, i, j, coef)
    ensures var w := Remainder(vs, n, i, k, coef); Dot(w, w) == 1.0 - Sum(k, share)
  {
    if k == 0 {
      DotUnit(n, i, Unit(n, i));
    } else {
      RemainderNorm(vs, n, i, k - 1, coef, share);
      assert Removes(vs[k - 1], i, coef(k - 1), share(k - 1));
      assert Unprojected(vs, n, i, k - 1, coef);
    }
  }

  lemma RemovesShareAt(vs: seq<Vec>, i: int, j: nat, c: real, s: real)
    requires AllNonZero(vs) && j < |vs| && c == Coef(vs, i, j) && s == Share(vs, i, j)
    ensures Removes(vs[j], i, c, s)
  {
    var a, q := At(vs[j], i), Dot(vs[j], vs[j]);
    ShareFacts(a, q, c, s);
    RemovesShare(vs[j], i, a, q, c, s);
  }

  /** Bessel's inequality for the i-th unit vector. */
  lemma Bessel(vs: seq<Vec>, n: nat, i: nat, share: int -> real)
    requires Orthogonals(vs, n) && AllNonZero(vs) && i < n
    requires forall j | 0 <= j < |vs| :: share(j) == Share(vs, i, j)
    ensures Sum(|vs|, share) <= 1.0
  {
    var coef := (j: int) => Coef(vs, i, j);
    forall j | 0 <= j < |vs| ensures Removes(vs[j], i, coef(j), share(j)) {
      RemovesShareAt(vs, i, j, coef(j), share(j));
    }
    forall j | 0 <= j < |vs| ensures Unprojected(vs, n, i, j, coef) {
      RemainderDots(vs, n, i, j, coef, j);
    }
    RemainderNorm(vs, n, i, |vs|, coef, share);
    DotSelf(Remainder(vs, n, i, |vs|, coef));
  }

  lemma {:induction false} SumOnes(n: nat, f: int -> real)
    requires forall i | 0 <= i < n :: f(i) == 1.0
    ensures Sum(n, f) == n as real
  {
    if n > 0 { SumOnes(n - 1, f); }
  }

  lemma QuotientAsProduct(a: real, q: real)
    requires q != 0.0
    ensures a * a / q == Mul(1.0 / q, Mul(a, a))
  {}

  lemma SharesOfOneVector(vs: seq<Vec>, n: nat, j: nat)
    requires Orthogonals(vs, n) && AllNonZero(vs) && j < |vs|
    ensures Sum(n, i => Share(vs, i, j)) == 1.0
  {
    var v := vs[j];
    var q := Dot(v, v);
    var squares, h := (i: int) => Mul(At(v, i), At(v, i)), (i: int) => Share(vs, i, j);
    forall i | 0 <= i < n ensures h(i) == Mul(1.0 / q, squares(i)) {
      QuotientAsProduct(At(v, i), q);
    }
    SumScale(n, 1.0 / q, squares, h);
    assert Mul(1.0 / q, q) == 1.0;
  }

  lemma AtMostDimension(vs: seq<Vec>, n: nat)
    requires Orthogonals(vs, n) && AllNonZero(vs)
    ensures |vs| <= n
  {
    var k, f := |vs|, (i: int, j: int) => Share(vs, i, j);
    var row := (i: int) => Sum(k, j => f(i, j));
    forall i | 0 <= i < n ensures row(i) <= 1.0 {
      Bessel(vs, n, i, j => f(i, j));
    }
    SumLe(n, row, i => 1.0);
    SumOnes(n, i => 1.0);
    DoubleSumRows(n, k, f, row);
    SumSwap(n, k, f);
    var one := (j: int) => 1.0;
    forall j | 0 <= j < k ensures one(j) == Sum(n, i => Flip(f)(j, i)) {
      SumExt(n, i => Flip(f)(j, i), i => Share(vs, i, j));
      SharesOfOneVector(vs, n, j);
    }
    DoubleSumRows(k, n, Flip(f), one);
    SumOnes(k, one);
  }
}
