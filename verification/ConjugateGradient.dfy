/** Linear conjugate gradient for A x = b with A symmetric positive definite. */
module ConjugateGradient {
  import opened Sums
  import opened LinAlg
  import opened Orthogonal

  datatype Config = Config(tolerance: real, maxIterations: int)

  /** `brokeDown`: the loop reached the division 0/0 in its step size. */
  datatype Result = Result(iterations: nat, residualSquared: real, converged: bool, brokeDown: bool)

  /** Every iterate, residual, direction and coefficient computed so far. */
  datatype History = History(xs: seq<Vec>, rs: seq<Vec>, ps: seq<Vec>, alphas: seq<real>, betas: seq<real>)

  function Residual(A: Mat, b: Vec, x: Vec): Vec
    requires |A| == |b|
  {
    Axpy(b, -1.0, MatVec(A, x))
  }

  ghost predicate Shape(h: History, n: nat) {
    && |h.xs| == |h.rs| == |h.ps| == |h.alphas| + 1 == |h.betas| + 1
    && (forall i | 0 <= i < |h.xs| :: |h.xs[i]| == n)
    && (forall i | 0 <= i < |h.rs| :: |h.rs[i]| == n)
    && (forall i | 0 <= i < |h.ps| :: |h.ps[i]| == n)
  }

  /** Step i of the run obeys the recurrences of the loop body. */
  ghost predicate StepOk(A: Mat, h: History, i: int)
    requires Shape(h, |A|) && 0 <= i < |h.alphas|
  {
    && h.xs[i + 1] == Axpy(h.xs[i], h.alphas[i], h.ps[i])
    && h.rs[i + 1] == Axpy(h.rs[i], -h.alphas[i], MatVec(A, h.ps[i]))
    && h.ps[i + 1] == Axpy(h.rs[i + 1], h.betas[i], h.ps[i])
    && h.alphas[i] > 0.0
    && Dot(h.rs[i], h.rs[i]) > 0.0
  }

  ghost predicate Follows(A: Mat, b: Vec, x0: Vec, h: History, n: nat) {
    && Shape(h, n) && |A| == |b| == n
    && h.xs[0] == x0 && h.rs[0] == Residual(A, b, x0) && h.ps[0] == h.rs[0]
    && forall i | 0 <= i < |h.alphas| :: StepOk(A, h, i)
  }

  ghost predicate Conjugates(A: Mat, ps: seq<Vec>) {
    forall i, j | 0 <= i < |ps| && 0 <= j < |ps| && i != j :: Dot(ps[i], MatVec(A, ps[j])) == 0.0
  }

  /** What every iteration keeps. */
  ghost predicate Inv(A: Mat, b: Vec, x0: Vec, h: History, n: nat) {
    && Follows(A, b, x0, h, n)
    && Orthogonals(h.rs, n)
    && Conjugates(A, h.ps)
    && h.rs[|h.alphas|] == Residual(A, b, h.xs[|h.alphas|])
    && Dot(h.rs[|h.alphas|], h.ps[|h.alphas|]) == Dot(h.rs[|h.alphas|], h.rs[|h.alphas|])
    && (h.rs[|h.alphas|] == Zero(n) ==> h.ps[|h.alphas|] == Zero(n))
  }

  lemma CancelFactor(a: real, b: real)
    requires a > 0.0 && Fma(0.0, -a, b) == 0.0
    ensures b == 0.0
  {
    if b > 0.0 { MulPos(a, b, a * b); }
    if b < 0.0 { MulPos(a, -b, -(a * b)); }
  }

  /** Directions never vanish while the residual does not, so p^T A p > 0. */
  lemma CurvaturePositive(A: Mat, n: nat, r: Vec, p: Vec)
    requires Spd(A, n) && |r| == |p| == n
    requires Dot(r, p) == Dot(r, r) > 0.0
    ensures Dot(p, MatVec(A, p)) > 0.0
  {
    if p == Zero(n) { DotZero(r, n); }
  }

  lemma ConjugateToPast(A: Mat, b: Vec, x0: Vec, h: History, n: nat, i: nat)
    requires Spd(A, n) && Inv(A, b, x0, h, n) && i <= |h.alphas|
    ensures var k := |h.alphas|; var Ap := MatVec(A, h.ps[k]);
      Dot(h.rs[i], Ap) == if i == k then Dot(h.ps[k], Ap) else 0.0
  {
    var Ap := MatVec(A, h.ps[|h.alphas|]);
    if i > 0 {
      assert StepOk(A, h, i - 1);
      DotAxpy(h.rs[i], h.betas[i - 1], h.ps[i - 1], Ap);
    }
  }

  lemma OrthogonalToNew(w: Vec, r: Vec, Ap: Vec, alpha: real)
    requires |w| == |r| == |Ap| && Fma(Dot(w, r), -alpha, Dot(w, Ap)) == 0.0
    ensures Dot(w, Axpy(r, -alpha, Ap)) == 0.0
  {
    DotAxpyRight(w, r, -alpha, Ap);
  }

  /** The step size and the direction weight as the loop computes them. */
  ghost predicate Coefficients(h: History, Ap: Vec, r': Vec, alpha: real, beta: real, pAp: real, rr: real, rr': real)
    requires |h.rs| == |h.ps| == |h.alphas| + 1
  {
    var k := |h.alphas|;
    && pAp == Dot(h.ps[k], Ap) && rr == Dot(h.rs[k], h.rs[k]) && rr' == Dot(r', r')
    && alpha > 0.0 && rr > 0.0
    && Fma(rr, -alpha, pAp) == 0.0 && beta * rr == rr'
  }

  /** r' is orthogonal to every earlier residual. */
  lemma NewResidualOrthogonal(A: Mat, b: Vec, x0: Vec, h: History, n: nat, alpha: real, pAp: real, rr: real, i: nat)
    requires Spd(A, n) && Inv(A, b, x0, h, n) && i <= |h.alphas|
    requires var k := |h.alphas|; pAp == Dot(h.ps[k], MatVec(A, h.ps[k])) && rr == Dot(h.rs[k], h.rs[k])
    requires Fma(rr, -alpha, pAp) == 0.0
    ensures var k := |h.alphas|; Dot(h.rs[i], Axpy(h.rs[k], -alpha, MatVec(A, h.ps[k]))) == 0.0
  {
    var k := |h.alphas|;
    ConjugateToPast(A, b, x0, h, n, i);
    if i != k { FmaZero(0.0, -alpha); }
    OrthogonalToNew(h.rs[i], h.rs[k], MatVec(A, h.ps[k]), alpha);
  }

  lemma ConjugateThroughResiduals(r: Vec, r': Vec, w: Vec, a: real, q: Vec, beta: real, p: Vec)
    requires |r| == |r'| == |w| == |q| == |p| && r' == Axpy(r, -a, q) && a > 0.0
    requires Dot(w, r) == Dot(w, r') == 0.0 && Dot(p, q) == 0.0
    ensures Dot(Axpy(w, beta, p), q) == 0.0
  {
    DotAxpyRight(w, r, -a, q);
    CancelFactor(a, Dot(w, q));
    DotAxpy(w, beta, p, q);
    FmaZero(0.0, beta);
  }

  lemma StepAt(A: Mat, b: Vec, x0: Vec, h: History, n: nat, i: nat)
    requires Inv(A, b, x0, h, n) && i < |h.alphas|
    ensures StepOk(A, h, i) && Dot(h.ps[|h.alphas|], MatVec(A, h.ps[i])) == 0.0
  {}

  lemma NewDirectionConjugateToOld(A: Mat, b: Vec, x0: Vec, h: History, n: nat, r': Vec, beta: real, i: nat)
    requires IsMat(A, n, n) && Inv(A, b, x0, h, n) && i < |h.alphas| && |r'| == n
    requires Dot(h.rs[i], r') == Dot(h.rs[i + 1], r') == 0.0
    ensures Dot(Axpy(r', beta, h.ps[|h.alphas|]), MatVec(A, h.ps[i])) == 0.0
  {
    DotSym(r', h.rs[i]);
    DotSym(r', h.rs[i + 1]);
    StepAt(A, b, x0, h, n, i);
    ConjugateThroughResiduals(h.rs[i], h.rs[i + 1], r', h.alphas[i], MatVec(A, h.ps[i]), beta, h.ps[|h.alphas|]);
  }

  lemma NewDirectionConjugateToLast(r: Vec, r': Vec, alpha: real, Ap: Vec, beta: real, p: Vec,
                                    pAp: real, rr: real, rr': real)
    requires |r| == |r'| == |Ap| == |p| && alpha > 0.0
    requires r' == Axpy(r, -alpha, Ap) && Dot(r, r') == 0.0
    requires pAp == Dot(p, Ap) && rr == Dot(r, r) && rr' == Dot(r', r')
    requires Fma(rr, -alpha, pAp) == 0.0 && beta * rr == rr'
    ensures Dot(Axpy(r', beta, p), Ap) == 0.0
  {
    DotSym(r', r);
    DotAxpyRight(r', r, -alpha, Ap);
    DotAxpy(r', beta, p, Ap);
    ScaledCancel(alpha, Dot(r', Ap), beta, pAp, rr, rr');
  }

  lemma ScaledCancel(alpha: real, rAp: real, beta: real, pAp: real, rr: real, rr': real)
    requires alpha > 0.0 && Fma(rr, -alpha, pAp) == 0.0 && beta * rr == rr' && Fma(0.0, -alpha, rAp) == rr'
    ensures Fma(rAp, beta, pAp) == 0.0
  {
    var z := Fma(rAp, beta, pAp);
    calc {
      alpha * z;
      alpha * rAp + beta * (alpha * pAp);
      0.0;
    }
    CancelFactor(alpha, z);
  }

  function Extend(h: History, x: Vec, r: Vec, p: Vec, alpha: real, beta: real): History {
    History(h.xs + [x], h.rs + [r], h.ps + [p], h.alphas + [alpha], h.betas + [beta])
  }

  lemma ResidualKept(A: Mat, n: nat, b: Vec, x: Vec, alpha: real, p: Vec)
    requires IsMat(A, n, n) && |b| == |x| == |p| == n
    ensures Axpy(Residual(A, b, x), -alpha, MatVec(A, p)) == Residual(A, b, Axpy(x, alpha, p))
  {
    MatVecAxpy(A, n, x, alpha, p);
    var l, r := Axpy(Residual(A, b, x), -alpha, MatVec(A, p)), Residual(A, b, Axpy(x, alpha, p));
    forall i | 0 <= i < n ensures l[i] == r[i] {}
  }

  lemma ExtendSteps(A: Mat, h: History, x': Vec, r': Vec, p': Vec, alpha: real, beta: real, i: nat)
    requires Shape(h, |A|) && |x'| == |r'| == |p'| == |A| && i < |h.alphas| && StepOk(A, h, i)
    ensures StepOk(A, Extend(h, x', r', p', alpha, beta), i)
  {}

  lemma ExtendFollows(A: Mat, b: Vec, x0: Vec, h: History, n: nat, alpha: real, beta: real,
                      x': Vec, r': Vec, p': Vec)
    requires Follows(A, b, x0, h, n) && IsMat(A, n, n) && alpha > 0.0
    requires Dot(h.rs[|h.alphas|], h.rs[|h.alphas|]) > 0.0
    requires x' == Axpy(h.xs[|h.alphas|], alpha, h.ps[|h.alphas|])
    requires r' == Axpy(h.rs[|h.alphas|], -alpha, MatVec(A, h.ps[|h.alphas|]))
    requires p' == Axpy(r', beta, h.ps[|h.alphas|])
    ensures Follows(A, b, x0, Extend(h, x', r', p', alpha, beta), n)
  {
    var h' := Extend(h, x', r', p', alpha, beta);
    forall i | 0 <= i < |h'.alphas| ensures StepOk(A, h', i) {
      if i < |h.alphas| { ExtendSteps(A, h, x', r', p', alpha, beta, i); }
    }
  }

  lemma ExtendOrthogonals(rs: seq<Vec>, n: nat, r': Vec)
    requires Orthogonals(rs, n) && |r'| == n
    requires forall i | 0 <= i < |rs| :: Dot(rs[i], r') == 0.0
    ensures Orthogonals(rs + [r'], n)
  {
    forall i | 0 <= i < |rs| ensures Dot(r', rs[i]) == 0.0 { DotSym(r', rs[i]); }
  }

  lemma ExtendConjugates(A: Mat, n: nat, ps: seq<Vec>, p': Vec)
    requires IsMat(A, n, n) && Symmetric(A) && Conjugates(A, ps) && |p'| == n
    requires forall i | 0 <= i < |ps| :: |ps[i]| == n && Dot(p', MatVec(A, ps[i])) == 0.0
    ensures Conjugates(A, ps + [p'])
  {
    forall i | 0 <= i < |ps| ensures Dot(ps[i], MatVec(A, p')) == 0.0 {
      SelfAdjoint(A, n, p', ps[i]);
      DotSym(MatVec(A, p'), ps[i]);
    }
  }

  lemma NewSlope(r: Vec, r': Vec, p: Vec, Ap: Vec, alpha: real, beta: real, pAp: real, rr: real)
    requires |r| == |r'| == |p| == |Ap|
    requires r' == Axpy(r, -alpha, Ap) && Dot(r, p) == rr
    requires pAp == Dot(p, Ap) && Fma(rr, -alpha, pAp) == 0.0
    ensures Dot(r', Axpy(r', beta, p)) == Dot(r', r')
  {
    DotSym(Ap, p);
    DotAxpy(r, -alpha, Ap, p);
    DotAxpyRight(r', r', beta, p);
    FmaZero(Dot(r', r'), beta);
  }

  lemma FmaZeroCoefficient(c: real)
    requires c == 0.0
    ensures forall a, b :: Fma(a, c, b) == a
  {}

  lemma ZeroDirection(n: nat, r': Vec, beta: real, p: Vec, rr: real)
    requires r' == Zero(n) && |p| == n && rr > 0.0 && beta * rr == Dot(r', r')
    ensures Axpy(r', beta, p) == Zero(n)
  {
    DotZero(r', n);
    CancelFactor(rr, beta);
    FmaZeroCoefficient(beta);
    var p' := Axpy(r', beta, p);
    forall i | 0 <= i < n ensures p'[i] == 0.0 {}
  }

  lemma NewPairs(A: Mat, b: Vec, x0: Vec, h: History, n: nat, alpha: real, beta: real, r': Vec, p': Vec,
                 pAp: real, rr: real, rr': real)
    requires Spd(A, n) && Inv(A, b, x0, h, n)
    requires var k := |h.alphas|; var Ap := MatVec(A, h.ps[k]);
      && Coefficients(h, Ap, r', alpha, beta, pAp, rr, rr')
      && r' == Axpy(h.rs[k], -alpha, Ap)
      && p' == Axpy(r', beta, h.ps[k])
    ensures forall i | 0 <= i < |h.rs| :: Dot(h.rs[i], r') == 0.0
    ensures forall i | 0 <= i < |h.ps| :: |h.ps[i]| == n && Dot(p', MatVec(A, h.ps[i])) == 0.0
  {
    var k := |h.alphas|;
    forall i | 0 <= i < |h.rs| ensures Dot(h.rs[i], r') == 0.0 {
      NewResidualOrthogonal(A, b, x0, h, n, alpha, pAp, rr, i);
    }
    forall i | 0 <= i < |h.ps| ensures |h.ps[i]| == n && Dot(p', MatVec(A, h.ps[i])) == 0.0 {
      if i < k {
        NewDirectionConjugateToOld(A, b, x0, h, n, r', beta, i);
      } else {
        NewDirectionConjugateToLast(h.rs[k], r', alpha, MatVec(A, h.ps[k]), beta, h.ps[k], pAp, rr, rr');
      }
    }
  }

  /** One loop iteration keeps orthogonality, conjugacy and r = b - A x. */
  lemma IterationKeepsInv(A: Mat, b: Vec, x0: Vec, h: History, n: nat, alpha: real, beta: real,
                          x': Vec, r': Vec, p': Vec, pAp: real, rr: real, rr': real)
    requires Spd(A, n) && |b| == n && Inv(A, b, x0, h, n)
    requires var k := |h.alphas|; var Ap := MatVec(A, h.ps[k]);
      && Coefficients(h, Ap, r', alpha, beta, pAp, rr, rr')
      && x' == Axpy(h.xs[k], alpha, h.ps[k])
      && r' == Axpy(h.rs[k], -alpha, Ap)
      && p' == Axpy(r', beta, h.ps[k])
    ensures Inv(A, b, x0, Extend(h, x', r', p', alpha, beta), n)
  {
    var k := |h.alphas|;
    ExtendFollows(A, b, x0, h, n, alpha, beta, x', r', p');
    NewPairs(A, b, x0, h, n, alpha, beta, r', p', pAp, rr, rr');
    ExtendOrthogonals(h.rs, n, r');
    ExtendConjugates(A, n, h.ps, p');
    ResidualKept(A, n, b, h.xs[k], alpha, h.ps[k]);
    NewSlope(h.rs[k], r', h.ps[k], MatVec(A, h.ps[k]), alpha, beta, pAp, rr);
    if r' == Zero(n) { ZeroDirection(n, r', beta, h.ps[k], rr); }
  }

  /** The number of completed iterations never exceeds the dimension. */
  lemma IterationsBounded(A: Mat, b: Vec, x0: Vec, h: History, n: nat)
    requires Inv(A, b, x0, h, n)
    ensures |h.alphas| <= n
  {
    var vs := h.rs[..|h.alphas|];
    forall i | 0 <= i < |vs| ensures Dot(vs[i], vs[i]) > 0.0 { assert StepOk(A, h, i); }
    AtMostDimension(vs, n);
  }

  lemma QuotientFacts(rr: real, pAp: real, rr': real, alpha: real, beta: real)
    requires rr > 0.0 && pAp > 0.0 && alpha == rr / pAp && beta == rr' / rr
    ensures alpha > 0.0 && Fma(rr, -alpha, pAp) == 0.0 && beta * rr == rr'
  {}

  /** Outside the breakdown both divisors of the iteration are positive. */
  lemma StepDefined(A: Mat, n: nat, r: Vec, p: Vec, pAp: real, rr: real)
    requires Spd(A, n) && |r| == |p| == n && (r == Zero(n) ==> p == Zero(n))
    requires pAp == Dot(p, MatVec(A, p)) && rr == Dot(r, r) && pAp != 0.0
    ensures pAp > 0.0 && rr > 0.0
  {
    if p == Zero(n) { DotZero(MatVec(A, p), n); }
    DotSelf(r);
  }

  lemma BreakdownMeansSolved(A: Mat, n: nat, b: Vec, x: Vec, r: Vec, p: Vec)
    requires Spd(A, n) && |r| == |p| == |x| == |b| == n && r == Residual(A, b, x)
    requires Dot(p, MatVec(A, p)) == 0.0 && Dot(r, p) == Dot(r, r)
    ensures Dot(r, r) == 0.0 && MatVec(A, x) == b
  {
    DotSelf(r);
    if Dot(r, r) > 0.0 { CurvaturePositive(A, n, r, p); }
    forall i | 0 <= i < n ensures MatVec(A, x)[i] == b[i] { assert r[i] == 0.0; }
  }

  /** The loop body: both divisions are defined and the new state is again in the invariant. */
  lemma BodyKeepsInv(A: Mat, b: Vec, x0: Vec, h: History, n: nat, pAp: real, rr: real,
                     alpha: real, x': Vec, r': Vec, rr': real, beta: real, p': Vec)
    requires Spd(A, n) && |b| == n && Inv(A, b, x0, h, n) && pAp != 0.0
    requires var k := |h.alphas|; var Ap := MatVec(A, h.ps[k]);
      && pAp == Dot(h.ps[k], Ap) && rr == Dot(h.rs[k], h.rs[k]) && alpha == rr / pAp
      && x' == Axpy(h.xs[k], alpha, h.ps[k]) && r' == Axpy(h.rs[k], -alpha, Ap) && rr' == Dot(r', r')
      && (rr != 0.0 ==> beta == rr' / rr) && p' == Axpy(r', beta, h.ps[k])
    ensures rr != 0.0
    ensures Inv(A, b, x0, Extend(h, x', r', p', alpha, beta), n)
  {
    var k := |h.alphas|;
    StepDefined(A, n, h.rs[k], h.ps[k], pAp, rr);
    QuotientFacts(rr, pAp, rr', alpha, beta);
    IterationKeepsInv(A, b, x0, h, n, alpha, beta, x', r', p', pAp, rr, rr');
  }

  lemma DivisorNonZero(A: Mat, b: Vec, x0: Vec, h: History, n: nat, pAp: real, rr: real)
    requires Spd(A, n) && Inv(A, b, x0, h, n) && pAp != 0.0
    requires var k := |h.alphas|; pAp == Dot(h.ps[k], MatVec(A, h.ps[k])) && rr == Dot(h.rs[k], h.rs[k])
    ensures rr != 0.0
  {
    StepDefined(A, n, h.rs[|h.alphas|], h.ps[|h.alphas|], pAp, rr);
  }

  /** The initial history. */
  function Start(x: Vec, r: Vec): History {
    History([x], [r], [r], [], [])
  }

  lemma StartInv(A: Mat, b: Vec, x0: Vec, n: nat)
    requires Spd(A, n) && |b| == |x0| == n
    ensures Inv(A, b, x0, Start(x0, Residual(A, b, x0)), n)
  {}

  /** A breakdown solves the system exactly and needs a tolerance that is not positive. */
  lemma Breakdown(A: Mat, b: Vec, x0: Vec, h: History, n: nat, rr: real, tol: real)
    requires Spd(A, n) && Inv(A, b, x0, h, n) && |b| == n
    requires var k := |h.alphas|; Dot(h.ps[k], MatVec(A, h.ps[k])) == 0.0 && rr == Dot(h.rs[k], h.rs[k])
    requires !RootBelow(rr, tol)
    ensures tol <= 0.0 && MatVec(A, h.xs[|h.alphas|]) == b
  {
    var k := |h.alphas|;
    BreakdownMeansSolved(A, n, b, h.xs[k], h.rs[k], h.ps[k]);
    if tol > 0.0 { MulPos(tol, tol, tol * tol); }
  }

  /** The loop's variables hold the latest entries of the run. */
  ghost predicate Latest(A: Mat, b: Vec, x0: Vec, h: History, x: Vec, r: Vec, p: Vec, rr: real) {
    && Inv(A, b, x0, h, |b|)
    && x == h.xs[|h.alphas|] && r == h.rs[|h.alphas|] && p == h.ps[|h.alphas|] && rr == Dot(r, r)
  }

  /** The updates of one iteration that did not break down. */
  method Iterate(A: Mat, b: Vec, x: Vec, r: Vec, p: Vec, rr: real, Ap: Vec, pAp: real, ghost x0: Vec, ghost h: History)
    returns (x': Vec, r': Vec, p': Vec, rr': real, ghost h': History)
    requires Spd(A, |b|) && Latest(A, b, x0, h, x, r, p, rr)
    requires Ap == MatVec(A, p) && pAp == Dot(p, Ap) && pAp != 0.0
    ensures Latest(A, b, x0, h', x', r', p', rr') && |h'.alphas| == |h.alphas| + 1
  {
    DivisorNonZero(A, b, x0, h, |b|, pAp, rr);
    var alpha := rr / pAp;
    x' := Axpy(x, alpha, p);
    r' := Axpy(r, -alpha, Ap);
    rr' := Dot(r', r');
    var beta := rr' / rr;
    p' := Axpy(r', beta, p);
    BodyKeepsInv(A, b, x0, h, |b|, pAp, rr, alpha, x', r', rr', beta, p');
    h' := Extend(h, x', r', p', alpha, beta);
  }

  method ConjugateGradientLinear(A: Mat, b: Vec, x0: Vec, config: Config)
    returns (x: Vec, result: Result, ghost h: History)
    requires Spd(A, |b|) && |x0| == |b|
    ensures Inv(A, b, x0, h, |b|)
    ensures |h.alphas| == result.iterations && h.xs[result.iterations] == x
    ensures result.residualSquared == Dot(Residual(A, b, x), Residual(A, b, x))
    ensures result.converged <==> RootBelow(result.residualSquared, config.tolerance) && result.iterations < config.maxIterations
    ensures result.brokeDown ==> config.tolerance <= 0.0 && MatVec(A, x) == b
    ensures result.iterations <= |b|
    ensures config.maxIterations > |b| ==> if config.tolerance > 0.0 then result.converged else result.brokeDown
  {
    x := x0;
    var r := Residual(A, b, x);
    var p := r;
    var rr := Dot(r, r);
    h := Start(x, r);
    StartInv(A, b, x0, |b|);
    var iterations, converged, brokeDown := 0, false, false;
    while iterations < config.maxIterations
      invariant Latest(A, b, x0, h, x, r, p, rr) && |h.alphas| == iterations
      invariant !converged && !brokeDown && 0 <= iterations
      invariant iterations <= config.maxIterations || iterations == 0
    {
      if RootBelow(rr, config.tolerance) {
        converged := true;
        break;
      }
      var Ap := MatVec(A, p);
      var pAp := Dot(p, Ap);
      if pAp == 0.0 {
        Breakdown(A, b, x0, h, |b|, rr, config.tolerance);
        brokeDown := true;
        break;
      }
      x, r, p, rr, h := Iterate(A, b, x, r, p, rr, Ap, pAp, x0, h);
      iterations := iterations + 1;
    }
    IterationsBounded(A, b, x0, h, |b|);
    result := Result(iterations, rr, converged, brokeDown);
  }
}
