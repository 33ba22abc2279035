/** The BFGS inverse-Hessian update and the minimiser built on it. */
module Bfgs {
  import opened Sums
  import opened LinAlg

  /** One entry of H - rho Hy s^T - rho s (Hy)^T + (1 + rho y^T H y) rho s s^T. */
  function CodedEntry(h: real, hyi: real, hyj: real, si: real, sj: real, rho: real, yHy: real): real {
    h - hyi * sj * rho - si * hyj * rho + (1.0 + rho * yHy) * (si * sj) * rho
  }

  /** The rank-two update as coded. */
  function UpdateHessian(H: Mat, s: Vec, y: Vec, rho: real): Mat {
    var Hy := MatVec(H, y);
    Tabulate(|s|, |s|, (i, j) =>
      CodedEntry(Entry(H, i, j), At(Hy, i), At(Hy, j), At(s, i), At(s, j), rho, Dot(y, Hy)))
  }

  /** The two coefficients every row, column and quadratic form of the update is built from. */
  function Alpha(rho: real, yHy: real, u: real, v: real): real {
    rho * ((1.0 + rho * yHy) * u - v)
  }

  function Beta(rho: real, u: real): real {
    -(rho * u)
  }

  /** I - rho s y^T. */
  function Projector(s: Vec, y: Vec, rho: real): Mat {
    Tabulate(|s|, |s|, (i, j) => Fma(if i == j then 1.0 else 0.0, Beta(rho, At(s, i)), At(y, j)))
  }

  /** (I - rho s y^T) H (I - rho y s^T) + rho s s^T, the textbook form. */
  function ProductForm(H: Mat, s: Vec, y: Vec, rho: real): Mat {
    var V := Projector(s, y, rho);
    var P := MatMul(MatMul(V, H, |s|), Transpose(V, |s|), |s|);
    Tabulate(|s|, |s|, (i, j) => Fma(Entry(P, i, j), rho, Mul(At(s, i), At(s, j))))
  }

  ghost predicate Square(H: Mat, s: Vec, y: Vec, n: nat) {
    IsMat(H, n, n) && Symmetric(H) && |s| == |y| == n
  }

  lemma UpdateSymmetric(H: Mat, s: Vec, y: Vec, rho: real, n: nat)
    requires Square(H, s, y, n)
    ensures IsMat(UpdateHessian(H, s, y, rho), n, n) && Symmetric(UpdateHessian(H, s, y, rho))
  {
    var U, Hy := UpdateHessian(H, s, y, rho), MatVec(H, y);
    forall i, j | 0 <= i < n && 0 <= j < n ensures Entry(U, i, j) == Entry(U, j, i) {
      assert Entry(H, i, j) == Entry(H, j, i);
      CodedEntrySymmetric(Entry(H, i, j), At(Hy, i), At(Hy, j), At(s, i), At(s, j), rho, Dot(y, Hy));
    }
  }

  lemma CodedEntrySymmetric(h: real, hyi: real, hyj: real, si: real, sj: real, rho: real, yHy: real)
    ensures CodedEntry(h, hyi, hyj, si, sj, rho, yHy) == CodedEntry(h, hyj, hyi, sj, si, rho, yHy)
  {
    assert si * sj == sj * si;
  }

  /** Row i of the update as two vector updates of row i of H. */
  lemma UpdateRow(H: Mat, s: Vec, y: Vec, rho: real, n: nat, i: nat)
    requires Square(H, s, y, n) && i < n
    ensures var Hy := MatVec(H, y);
      UpdateHessian(H, s, y, rho)[i]
      == Axpy(Axpy(H[i], Alpha(rho, Dot(y, Hy), s[i], Hy[i]), s), Beta(rho, s[i]), Hy)
  {
    var Hy := MatVec(H, y);
    var row, want := UpdateHessian(H, s, y, rho)[i],
                     Axpy(Axpy(H[i], Alpha(rho, Dot(y, Hy), s[i], Hy[i]), s), Beta(rho, s[i]), Hy);
    forall j | 0 <= j < n ensures row[j] == want[j] {
      RowEntry(H[i][j], Hy[i], Hy[j], s[i], s[j], rho, Dot(y, Hy));
    }
  }

  lemma RowEntry(h: real, hyi: real, hyj: real, si: real, sj: real, rho: real, yHy: real)
    ensures CodedEntry(h, hyi, hyj, si, sj, rho, yHy)
         == Fma(Fma(h, Alpha(rho, yHy, si, hyi), sj), Beta(rho, si), hyj)
  {}

  /** H' x, coordinate by coordinate. */
  lemma UpdateTimes(H: Mat, s: Vec, y: Vec, rho: real, n: nat, x: Vec, i: nat)
    requires Square(H, s, y, n) && |x| == n && i < n
    ensures var Hy := MatVec(H, y);
      Dot(UpdateHessian(H, s, y, rho)[i], x)
      == Fma(Fma(Dot(H[i], x), Alpha(rho, Dot(y, Hy), s[i], Hy[i]), Dot(s, x)), Beta(rho, s[i]), Dot(Hy, x))
  {
    var Hy := MatVec(H, y);
    var a, b := Alpha(rho, Dot(y, Hy), s[i], Hy[i]), Beta(rho, s[i]);
    UpdateRow(H, s, y, rho, n, i);
    DotAxpy(H[i], a, s, x);
    DotAxpy(Axpy(H[i], a, s), b, Hy, x);
  }

  /** The secant equation H' y = s. */
  lemma SecantEquation(H: Mat, s: Vec, y: Vec, rho: real, n: nat, sy: real)
    requires Square(H, s, y, n) && sy == Dot(s, y) && rho * sy == 1.0
    ensures MatVec(UpdateHessian(H, s, y, rho), y) == s
  {
    var Hy := MatVec(H, y);
    DotSym(Hy, y);
    forall i | 0 <= i < n ensures MatVec(UpdateHessian(H, s, y, rho), y)[i] == s[i] {
      UpdateTimes(H, s, y, rho, n, y, i);
      SecantEntry(Hy[i], s[i], rho, Dot(y, Hy), sy);
    }
  }

  lemma SecantEntry(hyi: real, si: real, rho: real, yHy: real, sy: real)
    requires rho * sy == 1.0
    ensures Fma(Fma(hyi, Alpha(rho, yHy, si, hyi), sy), Beta(rho, si), yHy) == si
  {
    calc {
      Alpha(rho, yHy, si, hyi) * sy;
      (rho * sy) * ((1.0 + rho * yHy) * si - hyi);
      (1.0 + rho * yHy) * si - hyi;
    }
  }

  lemma UpdateTimesVector(H: Mat, s: Vec, y: Vec, rho: real, n: nat, x: Vec)
    requires Square(H, s, y, n) && |x| == n
    ensures var Hy := MatVec(H, y);
      MatVec(UpdateHessian(H, s, y, rho), x)
      == Axpy(Axpy(MatVec(H, x), Beta(rho, Dot(s, x)), Hy), Alpha(rho, Dot(y, Hy), Dot(s, x), Dot(Hy, x)), s)
  {
    var Hy := MatVec(H, y);
    var sx, hyx, yHy := Dot(s, x), Dot(Hy, x), Dot(y, Hy);
    var got, want := MatVec(UpdateHessian(H, s, y, rho), x),
                     Axpy(Axpy(MatVec(H, x), Beta(rho, sx), Hy), Alpha(rho, yHy, sx, hyx), s);
    forall i | 0 <= i < n ensures got[i] == want[i] {
      UpdateTimes(H, s, y, rho, n, x, i);
      RegroupEntry(Dot(H[i], x), s[i], Hy[i], sx, hyx, rho, yHy);
    }
  }

  lemma RegroupEntry(hx: real, si: real, hyi: real, sx: real, hyx: real, rho: real, yHy: real)
    ensures Fma(Fma(hx, Alpha(rho, yHy, si, hyi), sx), Beta(rho, si), hyx)
         == Fma(Fma(hx, Beta(rho, sx), hyi), Alpha(rho, yHy, sx, hyx), si)
  {}

  /** x^T H' x in inner products. */
  lemma FormOfUpdate(H: Mat, s: Vec, y: Vec, rho: real, n: nat, x: Vec)
    requires Square(H, s, y, n) && |x| == n
    ensures var Hx, Hy := MatVec(H, x), MatVec(H, y); var sx, hyx := Dot(s, x), Dot(Hy, x);
      Dot(x, MatVec(UpdateHessian(H, s, y, rho), x))
      == Fma(Fma(Dot(x, Hx), Beta(rho, sx), hyx), Alpha(rho, Dot(y, Hy), sx, hyx), sx)
  {
    var Hx, Hy := MatVec(H, x), MatVec(H, y);
    var t, q := Beta(rho, Dot(s, x)), Alpha(rho, Dot(y, Hy), Dot(s, x), Dot(Hy, x));
    UpdateTimesVector(H, s, y, rho, n, x);
    DotSym(x, s);
    DotSym(x, Hy);
    DotAxpyRight(x, Hx, t, Hy);
    DotAxpyRight(x, Axpy(Hx, t, Hy), q, s);
  }

  /** w^T H w for w = x + t y in inner products. */
  lemma FormOfShifted(H: Mat, n: nat, x: Vec, t: real, y: Vec)
    requires IsMat(H, n, n) && Symmetric(H) && |x| == |y| == n
    ensures var w, Hx, Hy := Axpy(x, t, y), MatVec(H, x), MatVec(H, y);
      Dot(w, MatVec(H, w))
      == Fma(Fma(Dot(x, Hx), t, Dot(Hy, x)), t, Fma(Dot(Hy, x), t, Dot(y, Hy)))
  {
    var Hx, Hy := MatVec(H, x), MatVec(H, y);
    MatVecAxpy(H, n, x, t, y);
    DotSym(x, Hy);
    SelfAdjoint(H, n, y, x);
    DotAxpyRight(x, Hx, t, Hy);
    DotAxpyRight(y, Hx, t, Hy);
    DotAxpy(x, t, y, Axpy(Hx, t, Hy));
  }

  lemma CompleteSquare(xHx: real, hyx: real, yHy: real, sx: real, rho: real, t: real)
    requires t == Beta(rho, sx)
    ensures Fma(Fma(xHx, t, hyx), Alpha(rho, yHy, sx, hyx), sx)
         == Fma(Fma(xHx, t, hyx), t, Fma(hyx, t, yHy)) + rho * (sx * sx)
  {
    assert Alpha(rho, yHy, sx, hyx) * sx == rho * (sx * sx) + (rho * sx) * (rho * sx) * yHy - rho * sx * hyx;
    assert t * (t * yHy) == (rho * sx) * (rho * sx) * yHy;
  }

  /** x^T H' x = w^T H w + g with w = x + t y, t = -rho (s.x), g = rho (s.x)^2. */
  lemma QuadraticForm(H: Mat, s: Vec, y: Vec, rho: real, n: nat, x: Vec) returns (t: real, g: real)
    requires Square(H, s, y, n) && |x| == n && rho > 0.0
    ensures t == Beta(rho, Dot(s, x)) && g >= 0.0 && (t != 0.0 ==> g > 0.0)
    ensures var w := Axpy(x, t, y);
      Dot(x, MatVec(UpdateHessian(H, s, y, rho), x)) == Dot(w, MatVec(H, w)) + g
  {
    var Hx, Hy, sx := MatVec(H, x), MatVec(H, y), Dot(s, x);
    t, g := Beta(rho, sx), rho * (sx * sx);
    FormOfUpdate(H, s, y, rho, n, x);
    FormOfShifted(H, n, x, t, y);
    CompleteSquare(Dot(x, Hx), Dot(Hy, x), Dot(y, Hy), sx, rho, t);
    GainPositive(rho, sx, t, g);
  }

  lemma GainPositive(rho: real, sx: real, t: real, g: real)
    requires rho > 0.0 && t == Beta(rho, sx) && g == rho * (sx * sx)
    ensures g >= 0.0 && (t != 0.0 ==> g > 0.0)
  {
    SquarePos(sx, sx * sx);
    if sx != 0.0 { MulPos(rho, sx * sx, g); }
  }

  /** One vector of the positive-definiteness argument. */
  lemma UpdatePositiveAt(H: Mat, s: Vec, y: Vec, rho: real, n: nat, x: Vec)
    requires Square(H, s, y, n) && PosDef(H) && rho > 0.0 && |x| == n && x != Zero(n)
    ensures Dot(x, MatVec(UpdateHessian(H, s, y, rho), x)) > 0.0
  {
    var t, g := QuadraticForm(H, s, y, rho, n, x);
    var w := Axpy(x, t, y);
    if w == Zero(n) {
      DotZero(MatVec(H, w), n);
      if t == 0.0 { ShiftByNothing(x, t, y, n); }
    }
  }

  lemma ShiftByNothing(x: Vec, t: real, y: Vec, n: nat)
    requires |x| == |y| == n && t == 0.0
    ensures Axpy(x, t, y) == x
  {}

  lemma UpdatePosDef(H: Mat, s: Vec, y: Vec, rho: real, n: nat)
    requires Square(H, s, y, n) && PosDef(H) && rho > 0.0
    ensures PosDef(UpdateHessian(H, s, y, rho))
  {
    var U := UpdateHessian(H, s, y, rho);
    forall x: Vec | |x| == |U| && x != Zero(|U|) ensures Dot(x, MatVec(U, x)) > 0.0 {
      UpdatePositiveAt(H, s, y, rho, n, x);
    }
  }

  lemma ProjectorRow(s: Vec, y: Vec, rho: real, n: nat, i: nat)
    requires |s| == |y| == n && i < n
    ensures Projector(s, y, rho)[i] == Axpy(Unit(n, i), Beta(rho, s[i]), y)
  {
    var row, want := Projector(s, y, rho)[i], Axpy(Unit(n, i), Beta(rho, s[i]), y);
    forall j | 0 <= j < n ensures row[j] == want[j] {}
  }

  lemma SymmetricColumn(H: Mat, n: nat, j: nat)
    requires IsMat(H, n, n) && Symmetric(H) && j < n
    ensures Column(H, j) == H[j]
  {
    forall k | 0 <= k < n ensures Column(H, j)[k] == H[j][k] { assert Entry(H, k, j) == Entry(H, j, k); }
  }

  /** Row i of V H is row i of H minus rho s_i (Hy)^T. */
  lemma ProjectedRow(H: Mat, s: Vec, y: Vec, rho: real, n: nat, i: nat)
    requires Square(H, s, y, n) && i < n
    ensures MatMul(Projector(s, y, rho), H, n)[i] == Axpy(H[i], Beta(rho, s[i]), MatVec(H, y))
  {
    var d := Beta(rho, s[i]);
    var row, want := MatMul(Projector(s, y, rho), H, n)[i], Axpy(H[i], d, MatVec(H, y));
    ProjectorRow(s, y, rho, n, i);
    forall j | 0 <= j < n ensures row[j] == want[j] {
      SymmetricColumn(H, n, j);
      DotAxpy(Unit(n, i), d, y, H[j]);
      DotUnit(n, i, H[j]);
      DotSym(y, H[j]);
      assert Entry(H, i, j) == Entry(H, j, i);
    }
  }

  lemma ProductEntry(H: Mat, s: Vec, y: Vec, rho: real, n: nat, i: nat, j: nat)
    requires Square(H, s, y, n) && i < n && j < n
    ensures var V, Hy := Projector(s, y, rho), MatVec(H, y);
      MatMul(MatMul(V, H, n), Transpose(V, n), n)[i][j]
      == Fma(Fma(H[i][j], Beta(rho, s[i]), Hy[j]), Beta(rho, s[j]), Fma(Hy[i], Beta(rho, s[i]), Dot(Hy, y)))
  {
    var V, Hy := Projector(s, y, rho), MatVec(H, y);
    var row := Axpy(H[i], Beta(rho, s[i]), Hy);
    ProjectedRow(H, s, y, rho, n, i);
    assert Column(Transpose(V, n), j) == V[j];
    ProjectorRow(s, y, rho, n, j);
    DotSym(row, Unit(n, j));
    DotUnit(n, j, row);
    DotAxpy(H[i], Beta(rho, s[i]), Hy, y);
    DotAxpyRight(row, Unit(n, j), Beta(rho, s[j]), y);
  }

  lemma FormsAgree(h: real, hyi: real, hyj: real, si: real, sj: real, yHy: real, rho: real)
    ensures CodedEntry(h, hyi, hyj, si, sj, rho, yHy)
         == Fma(Fma(Fma(h, Beta(rho, si), hyj), Beta(rho, sj), Fma(hyi, Beta(rho, si), yHy)), rho, Mul(si, sj))
  {
    assert Beta(rho, sj) * (Beta(rho, si) * yHy) == (rho * yHy) * (si * sj) * rho;
  }

  /** The coded rank-two update is the textbook product form. */
  lemma UpdateIsProductForm(H: Mat, s: Vec, y: Vec, rho: real, n: nat)
    requires Square(H, s, y, n)
    ensures UpdateHessian(H, s, y, rho) == ProductForm(H, s, y, rho)
  {
    var U, F, Hy := UpdateHessian(H, s, y, rho), ProductForm(H, s, y, rho), MatVec(H, y);
    DotSym(Hy, y);
    forall i, j | 0 <= i < n && 0 <= j < n ensures U[i][j] == F[i][j] {
      ProductEntry(H, s, y, rho, n, i, j);
      FormsAgree(H[i][j], Hy[i], Hy[j], s[i], s[j], Dot(y, Hy), rho);
    }
    forall i | 0 <= i < n ensures U[i] == F[i] {}
  }

  datatype Config = Config(tolerance: real, maxIterations: int)

  /** One completed iteration: the data it started from and the point it moved to. */
  datatype Iteration = Iteration(H: Mat, x: Vec, grad: Vec, direction: Vec, alpha: real, xNew: Vec, gradNew: Vec, HNew: Mat)

  /** Curvature below this threshold skips the update. */
  const MIN_CURVATURE: real := 0.0000000001

  function Direction(H: Mat, grad: Vec): Vec
    requires |H| == |grad|
  {
    Axpy(Zero(|grad|), -1.0, MatVec(H, grad))
  }

  lemma IdentitySpd(n: nat)
    ensures Spd(Identity(n), n)
  {
    var I := Identity(n);
    forall x: Vec | |x| == n && x != Zero(n) ensures Dot(x, MatVec(I, x)) > 0.0 {
      IdentityVec(n, x);
      DotSelf(x);
    }
  }

  lemma Slope(H: Mat, grad: Vec, n: nat)
    requires IsMat(H, n, n) && |grad| == n
    ensures Dot(grad, Direction(H, grad)) == -Dot(grad, MatVec(H, grad))
  {
    DotAxpyRight(grad, Zero(n), -1.0, MatVec(H, grad));
    DotZero(grad, n);
  }

  lemma Descent(H: Mat, grad: Vec, n: nat)
    requires Spd(H, n) && |grad| == n
    ensures Dot(grad, Direction(H, grad)) < 0.0 <==> grad != Zero(n)
  {
    Slope(H, grad, n);
    if grad == Zero(n) { DotZero(MatVec(H, grad), n); }
  }

  lemma UpdateSpd(H: Mat, s: Vec, y: Vec, n: nat, sy: real, rho: real)
    requires Spd(H, n) && |s| == |y| == n && sy == Dot(s, y) && sy > 0.0 && rho == 1.0 / sy
    ensures Spd(UpdateHessian(H, s, y, rho), n) && MatVec(UpdateHessian(H, s, y, rho), y) == s
  {
    assert rho > 0.0 && rho * sy == 1.0;
    UpdateSymmetric(H, s, y, rho, n);
    UpdatePosDef(H, s, y, rho, n);
    SecantEquation(H, s, y, rho, n, sy);
  }

  function NewHessian(H: Mat, s: Vec, y: Vec): Mat {
    if Dot(s, y) > MIN_CURVATURE then UpdateHessian(H, s, y, 1.0 / Dot(s, y)) else H
  }

  lemma NewHessianOk(H: Mat, s: Vec, y: Vec, n: nat)
    requires Spd(H, n) && |s| == |y| == n
    ensures Spd(NewHessian(H, s, y), n)
    ensures if Dot(s, y) > MIN_CURVATURE then MatVec(NewHessian(H, s, y), y) == s else NewHessian(H, s, y) == H
  {
    var sy := Dot(s, y);
    if sy > MIN_CURVATURE { UpdateSpd(H, s, y, n, sy, 1.0 / sy); }
  }

  /** The vectors of an iteration all have length n. */
  predicate Sized(it: Iteration, n: nat) {
    |it.x| == |it.grad| == |it.xNew| == |it.gradNew| == |it.H| == n
  }

  /** The iteration is what the loop body computes, nothing more. */
  ghost predicate Computed(it: Iteration, gradF: Vec -> Vec, n: nat) {
    && Sized(it, n) && it.grad == gradF(it.x) && it.gradNew == gradF(it.xNew)
    && it.direction == Direction(it.H, it.grad) && it.xNew == Axpy(it.x, it.alpha, it.direction)
    && it.HNew == NewHessian(it.H, Axpy(it.xNew, -1.0, it.x), Axpy(it.gradNew, -1.0, it.grad))
  }

  /** A run of the loop from x0 and the identity that has reached H and x: each iteration is computed from where
      the one before it ended, and did not start below the tolerance. */
  ghost predicate Run(log: seq<Iteration>, H: Mat, x: Vec, x0: Vec, gradF: Vec -> Vec, tol: real) {
    if log == [] then H == Identity(|x0|) && x == x0
    else
      var last := log[|log| - 1];
      && Run(log[..|log| - 1], last.H, last.x, x0, gradF, tol)
      && Computed(last, gradF, |x0|) && !RootBelow(Dot(last.grad, last.grad), tol)
      && H == last.HNew && x == last.xNew
  }

  lemma NotConvergedNonZero(grad: Vec, tol: real)
    requires !RootBelow(Dot(grad, grad), tol) && tol > 0.0
    ensures grad != Zero(|grad|)
  {
    MulPos(tol, tol, tol * tol);
    DotSelf(grad);
  }

  /** From a positive definite H the loop body keeps it so and meets the secant equation, or leaves H alone. */
  lemma ComputedKeepsSpd(it: Iteration, gradF: Vec -> Vec, n: nat)
    requires Computed(it, gradF, n) && Spd(it.H, n)
    ensures Spd(it.HNew, n)
    ensures var s, y := Axpy(it.xNew, -1.0, it.x), Axpy(it.gradNew, -1.0, it.grad);
      if Dot(s, y) > MIN_CURVATURE then MatVec(it.HNew, y) == s else it.HNew == it.H
  {
    NewHessianOk(it.H, Axpy(it.xNew, -1.0, it.x), Axpy(it.gradNew, -1.0, it.grad), n);
  }

  /** Every H a run reaches is symmetric positive definite. */
  lemma {:induction false} RunSpd(log: seq<Iteration>, H: Mat, x: Vec, x0: Vec, gradF: Vec -> Vec, tol: real)
    requires Run(log, H, x, x0, gradF, tol)
    ensures Spd(H, |x0|)
  {
    if log == [] {
      IdentitySpd(|x0|);
    } else {
      var last := log[|log| - 1];
      RunSpd(log[..|log| - 1], last.H, last.x, x0, gradF, tol);
      ComputedKeepsSpd(last, gradF, |x0|);
    }
  }

  /** Every search direction of every run has negative slope, and every updated H meets its secant equation. */
  lemma {:induction false} EveryDirectionDescends(log: seq<Iteration>, H: Mat, x: Vec, x0: Vec,
                                                  gradF: Vec -> Vec, tol: real, i: nat)
    requires Run(log, H, x, x0, gradF, tol) && i < |log|
    ensures var it := log[i];
      && Sized(it, |x0|) && Spd(it.H, |x0|)
      && (Dot(it.grad, it.direction) < 0.0 <==> it.grad != Zero(|x0|))
      && (tol > 0.0 ==> Dot(it.grad, it.direction) < 0.0)
      && var s, y := Axpy(it.xNew, -1.0, it.x), Axpy(it.gradNew, -1.0, it.grad);
        if Dot(s, y) > MIN_CURVATURE then MatVec(it.HNew, y) == s else it.HNew == it.H
  {
    var front, last := log[..|log| - 1], log[|log| - 1];
    if i < |log| - 1 {
      EveryDirectionDescends(front, last.H, last.x, x0, gradF, tol, i);
    } else {
      RunSpd(front, last.H, last.x, x0, gradF, tol);
      Descent(last.H, last.grad, |x0|);
      if tol > 0.0 { NotConvergedNonZero(last.grad, tol); }
      ComputedKeepsSpd(last, gradF, |x0|);
    }
  }

  // The steps a run takes

  lemma StepValue(x: real, alpha: real, d: real, g: real, ag: real)
    requires d == Fma(0.0, -1.0, g) && ag == alpha * g
    ensures Fma(Fma(x, alpha, d), -1.0, x) == -ag
  {}

  lemma StepEntry(x: Vec, alpha: real, H: Mat, grad: Vec, k: nat)
    requires k < |x| == |grad| == |H|
    ensures Axpy(Axpy(x, alpha, Direction(H, grad)), -1.0, x)[k] == -Mul(alpha, Dot(H[k], grad))
  {
    var d := Direction(H, grad);
    assert d[k] == Fma(0.0, -1.0, Dot(H[k], grad));
    StepValue(x[k], alpha, d[k], Dot(H[k], grad), Mul(alpha, Dot(H[k], grad)));
  }

  lemma StepAlong(x: Vec, alpha: real, d: Vec)
    requires |x| == |d|
    ensures Axpy(Axpy(x, alpha, d), -1.0, x) == Axpy(Zero(|x|), alpha, d)
  {
    var s, t := Axpy(Axpy(x, alpha, d), -1.0, x), Axpy(Zero(|x|), alpha, d);
    forall k | 0 <= k < |x| ensures s[k] == t[k] {
      assert s[k] == Fma(Fma(x[k], alpha, d[k]), -1.0, x[k]) && t[k] == Fma(0.0, alpha, d[k]);
    }
  }

  lemma StepSlope(x: Vec, alpha: real, d: Vec, grad: Vec)
    requires |x| == |d| == |grad|
    ensures Dot(grad, Axpy(Axpy(x, alpha, d), -1.0, x)) == Fma(0.0, alpha, Dot(grad, d))
  {
    StepAlong(x, alpha, d);
    DotAxpyRight(grad, Zero(|x|), alpha, d);
    DotZero(grad, |x|);
  }

  lemma NegativeProductIff(alpha: real, slope: real)
    requires slope < 0.0
    ensures Fma(0.0, alpha, slope) < 0.0 <==> alpha > 0.0
  {
    if alpha > 0.0 { MulPos(alpha, -slope, -(alpha * slope)); }
    if alpha < 0.0 { MulPos(-alpha, -slope, alpha * slope); }
  }

  /** The step is minus its length times H times the gradient, entry by entry. */
  ghost predicate Moves(it: Iteration, n: nat) {
    && Sized(it, n)
    && forall k | 0 <= k < n :: Axpy(it.xNew, -1.0, it.x)[k] == -Mul(it.alpha, Dot(it.H[k], it.grad))
  }

  ghost predicate GoesDown(it: Iteration, n: nat) {
    Sized(it, n) && Dot(it.grad, Axpy(it.xNew, -1.0, it.x)) < 0.0
  }

  lemma ComputedMoves(it: Iteration, gradF: Vec -> Vec, n: nat)
    requires Computed(it, gradF, n)
    ensures Moves(it, n) && (Dot(it.grad, it.direction) < 0.0 ==> (GoesDown(it, n) <==> it.alpha > 0.0))
  {
    forall k | 0 <= k < n ensures Axpy(it.xNew, -1.0, it.x)[k] == -Mul(it.alpha, Dot(it.H[k], it.grad)) {
      StepEntry(it.x, it.alpha, it.H, it.grad, k);
    }
    StepSlope(it.x, it.alpha, it.direction, it.grad);
    if Dot(it.grad, it.direction) < 0.0 { NegativeProductIff(it.alpha, Dot(it.grad, it.direction)); }
  }

  /** The point iteration i of a log starts from. */
  function StartOf(log: seq<Iteration>, x0: Vec, i: nat): Vec
    requires i <= |log|
  {
    if i == 0 then x0 else log[i - 1].xNew
  }

  lemma RunEnds(log: seq<Iteration>, H: Mat, x: Vec, x0: Vec, gradF: Vec -> Vec, tol: real)
    requires Run(log, H, x, x0, gradF, tol)
    ensures x == StartOf(log, x0, |log|) && (log == [] ==> H == Identity(|x0|))
  {}

  /** Every iteration of every run starts where the one before ended, moves by minus its length times H times the
      gradient there, and so goes downhill if and only if the length is positive. */
  lemma {:induction false} EveryStep(log: seq<Iteration>, H: Mat, x: Vec, x0: Vec, gradF: Vec -> Vec, tol: real, i: nat)
    requires Run(log, H, x, x0, gradF, tol) && i < |log|
    ensures log[i].x == StartOf(log, x0, i) && log[i].grad == gradF(log[i].x) && (i == 0 ==> log[i].H == Identity(|x0|))
    ensures Moves(log[i], |x0|) && (tol > 0.0 ==> (GoesDown(log[i], |x0|) <==> log[i].alpha > 0.0))
  {
    var front, last := log[..|log| - 1], log[|log| - 1];
    if i < |log| - 1 {
      EveryStep(front, last.H, last.x, x0, gradF, tol, i);
    } else {
      RunEnds(front, last.H, last.x, x0, gradF, tol);
      EveryDirectionDescends(log, H, x, x0, gradF, tol, i);
      ComputedMoves(last, gradF, |x0|);
    }
  }

  lemma IdentityStep(x: Vec, x': Vec, alpha: real, g: Vec, k: nat)
    requires k < |x| == |x'| == |g| && Axpy(x', -1.0, x)[k] == -Mul(alpha, Dot(Identity(|x|)[k], g))
    ensures x'[k] == Fma(x[k], -alpha, g[k])
  {
    IdentityVec(|x|, g);
    assert Dot(Identity(|x|)[k], g) == MatVec(Identity(|x|), g)[k] == g[k];
    assert Axpy(x', -1.0, x)[k] == Fma(x'[k], -1.0, x[k]);
  }

  /** The first step goes straight down the gradient. */
  lemma FirstStep(log: seq<Iteration>, H: Mat, x: Vec, x0: Vec, gradF: Vec -> Vec, tol: real, k: nat)
    requires Run(log, H, x, x0, gradF, tol) && log != [] && k < |x0|
    ensures log[0].x == x0 && |log[0].xNew| == |gradF(x0)| == |x0|
    ensures log[0].xNew[k] == Fma(x0[k], -log[0].alpha, gradF(x0)[k])
  {
    EveryStep(log, H, x, x0, gradF, tol, 0);
    IdentityStep(x0, log[0].xNew, log[0].alpha, log[0].grad, k);
  }

  lemma ExtendRun(log: seq<Iteration>, it: Iteration, x0: Vec, gradF: Vec -> Vec, tol: real)
    requires Run(log, it.H, it.x, x0, gradF, tol) && Computed(it, gradF, |x0|)
    requires !RootBelow(Dot(it.grad, it.grad), tol)
    ensures Run(log + [it], it.HNew, it.xNew, x0, gradF, tol)
  {
    assert (log + [it])[..|log|] == log;
  }

  /** Every step length of the run is the line search's. */
  ghost predicate Searched(log: seq<Iteration>, lineSearch: (Vec, Vec, Vec) -> real) {
    forall i | 0 <= i < |log| :: log[i].alpha == lineSearch(log[i].x, log[i].direction, log[i].grad)
  }

  ghost predicate Descending(log: seq<Iteration>) {
    forall i | 0 <= i < |log| :: Dot(log[i].grad, log[i].direction) < 0.0
  }

  /** From each logged point to the next the step goes down the slope at the first. */
  ghost predicate Downhill(log: seq<Iteration>, x0: Vec) {
    forall i | 0 <= i < |log| :: log[i].x == StartOf(log, x0, i) && GoesDown(log[i], |x0|)
  }

  lemma RunGoesDownhill(log: seq<Iteration>, H: Mat, x: Vec, x0: Vec, gradF: Vec -> Vec, tol: real)
    requires Run(log, H, x, x0, gradF, tol) && tol > 0.0 && forall i | 0 <= i < |log| :: log[i].alpha > 0.0
    ensures Downhill(log, x0)
  {
    forall i | 0 <= i < |log| ensures log[i].x == StartOf(log, x0, i) && GoesDown(log[i], |x0|) {
      EveryStep(log, H, x, x0, gradF, tol, i);
    }
  }

  ghost predicate PositiveRule(lineSearch: (Vec, Vec, Vec) -> real) {
    forall x, d, g :: lineSearch(x, d, g) > 0.0
  }

  lemma RunDescends(log: seq<Iteration>, H: Mat, x: Vec, x0: Vec, gradF: Vec -> Vec, tol: real)
    requires Run(log, H, x, x0, gradF, tol) && tol > 0.0
    ensures Descending(log)
  {
    forall i | 0 <= i < |log| ensures Dot(log[i].grad, log[i].direction) < 0.0 {
      EveryDirectionDescends(log, H, x, x0, gradF, tol, i);
    }
  }

  /** The body of the loop from a point that is not below the tolerance. */
  method Iterate(gradF: Vec -> Vec, lineSearch: (Vec, Vec, Vec) -> real, x: Vec, grad: Vec, H: Mat)
    returns (xNew: Vec, gradNew: Vec, HNew: Mat, ghost it: Iteration)
    requires forall z: Vec | |z| == |x| :: |gradF(z)| == |x|
    requires |H| == |x| && grad == gradF(x)
    ensures Computed(it, gradF, |x|) && it.H == H && it.x == x && it.grad == grad
    ensures it.xNew == xNew && it.gradNew == gradNew && it.HNew == HNew && |xNew| == |HNew| == |x|
    ensures it.alpha == lineSearch(it.x, it.direction, it.grad)
  {
    var direction := Direction(H, grad);
    var alpha := lineSearch(x, direction, grad);
    xNew := Axpy(x, alpha, direction);
    gradNew := gradF(xNew);
    var s, y := Axpy(xNew, -1.0, x), Axpy(gradNew, -1.0, grad);
    HNew := NewHessian(H, s, y);
    it := Iteration(H, x, grad, direction, alpha, xNew, gradNew, HNew);
  }

  /** The same as one more iteration of a run. */
  method ExtendedRun(gradF: Vec -> Vec, lineSearch: (Vec, Vec, Vec) -> real, x: Vec, grad: Vec, H: Mat, tol: real,
                     ghost x0: Vec, ghost log: seq<Iteration>)
    returns (xNew: Vec, gradNew: Vec, HNew: Mat, ghost log': seq<Iteration>)
    requires forall z: Vec | |z| == |x| :: |gradF(z)| == |x|
    requires |H| == |x| == |x0| && grad == gradF(x) && !RootBelow(Dot(grad, grad), tol)
    requires Run(log, H, x, x0, gradF, tol) && Searched(log, lineSearch)
    ensures |xNew| == |HNew| == |x| && gradNew == gradF(xNew)
    ensures Run(log', HNew, xNew, x0, gradF, tol) && Searched(log', lineSearch) && |log'| == |log| + 1
  {
    ghost var it;
    xNew, gradNew, HNew, it := Iterate(gradF, lineSearch, x, grad, H);
    ExtendRun(log, it, x0, gradF, tol);
    log' := log + [it];
  }

  /** The minimiser for any gradient and any step-length rule: its iterations are a run of the recurrences. */
  method Minimize(gradF: Vec -> Vec, lineSearch: (Vec, Vec, Vec) -> real, x0: Vec, config: Config)
    returns (xmin: Vec, gradSquared: real, iterations: nat, converged: bool, ghost log: seq<Iteration>)
    requires forall x: Vec | |x| == |x0| :: |gradF(x)| == |x0|
    ensures |xmin| == |x0| && gradSquared == Dot(gradF(xmin), gradF(xmin))
    ensures |log| == iterations && iterations <= if config.maxIterations > 0 then config.maxIterations else 0
    ensures exists H: Mat :: Run(log, H, xmin, x0, gradF, config.tolerance)
    ensures Searched(log, lineSearch) && (config.tolerance > 0.0 ==> Descending(log))
    ensures xmin == StartOf(log, x0, |log|) && (config.tolerance > 0.0 && PositiveRule(lineSearch) ==> Downhill(log, x0))
    ensures converged <==> RootBelow(gradSquared, config.tolerance) && iterations < config.maxIterations
  {
    var n := |x0|;
    var x := x0;
    var grad := gradF(x);
    gradSquared := Dot(grad, grad);
    var H := Identity(n);
    iterations, converged, log := 0, false, [];
    while iterations < config.maxIterations
      invariant |x| == |H| == n && grad == gradF(x) && gradSquared == Dot(grad, grad)
      invariant |log| == iterations && (iterations == 0 || iterations <= config.maxIterations) && !converged
      invariant Run(log, H, x, x0, gradF, config.tolerance)
      invariant Searched(log, lineSearch)
    {
      if RootBelow(gradSquared, config.tolerance) {
        converged := true;
        break;
      }
      x, grad, H, log := ExtendedRun(gradF, lineSearch, x, grad, H, config.tolerance, x0, log);
      gradSquared := Dot(grad, grad);
      iterations := iterations + 1;
    }
    RunEnds(log, H, x, x0, gradF, config.tolerance);
    if config.tolerance > 0.0 {
      RunDescends(log, H, x, x0, gradF, config.tolerance);
      if PositiveRule(lineSearch) { RunGoesDownhill(log, H, x, x0, gradF, config.tolerance); }
    }
    xmin := x;
  }
}
