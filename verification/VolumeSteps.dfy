/** The finite-volume time steps: fluxes, advection, diffusion and their composition, run any number of times. */
module VolumeSteps {
  import opened Sums
  import opened LinAlg
  import opened FiniteVolume

  /** Godunov and MUSCL have numbers in the source but no flux: they fall through to the zero flux. */
  datatype Scheme = Upwind | LaxFriedrichs | LaxWendroff | Unimplemented

  /** Flux through an interface with the given values left and right of it. */
  function InterfaceFlux(scheme: Scheme, v: real, l: real, r: real): real {
    match scheme
    case Upwind => if v >= 0.0 then v * l else v * r
    case LaxFriedrichs => 0.5 * v * (l + r) - 0.5 * Abs(v) * (r - l)
    case LaxWendroff => v * (l + r) / 2.0 - v * v * (r - l) / 2.0
    case Unimplemented => 0.0
  }

  /** The upwind and the Lax-Friedrichs flux are the same flux. */
  lemma UpwindIsLaxFriedrichs(v: real, l: real, r: real)
    ensures InterfaceFlux(Upwind, v, l, r) == InterfaceFlux(LaxFriedrichs, v, l, r)
  {
    assert v * (l + r) == v * l + v * r && v * (r - l) == v * r - v * l;
    assert v < 0.0 ==> (-v) * (r - l) == v * l - v * r;
  }

  /** Flux through interface i of a ring of n cells: interface 0 and interface n are the same place. */
  function FluxAt(u: Vec, v: real, scheme: Scheme, i: nat): real
    requires 0 < |u| && i <= |u|
  {
    InterfaceFlux(scheme, v, u[if i == 0 then |u| - 1 else i - 1], u[if i == |u| then 0 else i])
  }

  /** The fluxes through the first n interfaces. */
  function FluxesTo(u: Vec, v: real, scheme: Scheme, n: nat): (f: Vec)
    requires 0 < |u| && n <= |u| + 1
    ensures |f| == n && forall i {:trigger f[i]} | 0 <= i < n :: f[i] == FluxAt(u, v, scheme, i)
  {
    if n == 0 then [] else FluxesTo(u, v, scheme, n - 1) + [FluxAt(u, v, scheme, n - 1)]
  }

  function Fluxes(u: Vec, v: real, scheme: Scheme): (f: Vec)
    requires 0 < |u|
    ensures |f| == |u| + 1 && forall i {:trigger f[i]} | 0 <= i <= |u| :: f[i] == FluxAt(u, v, scheme, i)
  {
    FluxesTo(u, v, scheme, |u| + 1)
  }

  method UpwindFluxes(u: array<real>, flux: array<real>, v: real)
    requires u.Length > 0 && flux.Length == u.Length + 1 && u != flux
    modifies flux
    ensures flux[..] == Fluxes(u[..], v, Upwind)
  {
    var n := u.Length;
    for i := 0 to n + 1
      invariant forall k | 0 <= k < i :: flux[k] == FluxAt(u[..], v, Upwind, k)
    {
      if v >= 0.0 {
        if i == 0 {
          flux[i] := v * u[n - 1];
        } else {
          flux[i] := v * u[i - 1];
        }
      } else {
        if i == n {
          flux[i] := v * u[0];
        } else {
          flux[i] := v * u[i];
        }
      }
    }
  }

  /** Inner interfaces first, then the one interface the ends of the ring share. */
  method CentredFluxes(u: array<real>, flux: array<real>, v: real, scheme: Scheme)
    requires u.Length > 0 && flux.Length == u.Length + 1 && u != flux
    modifies flux
    ensures flux[..] == Fluxes(u[..], v, scheme)
  {
    var n := u.Length;
    ghost var f := Fluxes(u[..], v, scheme);
    for i := 1 to n
      invariant forall k | 1 <= k < i :: flux[k] == f[k]
    {
      flux[i] := InterfaceFlux(scheme, v, u[i - 1], u[i]);
    }
    flux[0] := InterfaceFlux(scheme, v, u[n - 1], u[0]);
    flux[n] := flux[0];
    assert f[0] == f[n] == InterfaceFlux(scheme, v, u[n - 1], u[0]);
  }

  method ComputeFluxes(u: array<real>, flux: array<real>, v: real, scheme: Scheme)
    requires u.Length > 0 && flux.Length == u.Length + 1 && u != flux
    modifies flux
    ensures flux[..] == Fluxes(u[..], v, scheme)
  {
    match scheme
    case Upwind => UpwindFluxes(u, flux, v);
    case LaxFriedrichs => CentredFluxes(u, flux, v, scheme);
    case LaxWendroff => CentredFluxes(u, flux, v, scheme);
    case Unimplemented =>
      for i := 0 to u.Length + 1
        invariant forall k | 0 <= k < i :: flux[k] == 0.0
      {
        flux[i] := 0.0;
      }
  }

  /** u - ratio (right flux - left flux). */
  function Balance(u: real, ratio: real, left: real, right: real): real {
    u - ratio * (right - left)
  }

  /** The conservative update of the first n cells with the given interface fluxes. */
  function BalancedTo(u: Vec, f: Vec, ratio: real, n: nat): (w: Vec)
    requires |f| == |u| + 1 && n <= |u|
    ensures |w| == n && forall i {:trigger w[i]} | 0 <= i < n :: w[i] == Balance(u[i], ratio, f[i], f[i + 1])
  {
    if n == 0 then [] else BalancedTo(u, f, ratio, n - 1) + [Balance(u[n - 1], ratio, f[n - 1], f[n])]
  }

  function Balanced(u: Vec, f: Vec, ratio: real): (w: Vec)
    requires |f| == |u| + 1
    ensures |w| == |u| && forall i {:trigger w[i]} | 0 <= i < |u| :: w[i] == Balance(u[i], ratio, f[i], f[i + 1])
  {
    BalancedTo(u, f, ratio, |u|)
  }

  function Cfl(v: real, dx: real, dt: real): real
    requires dx > 0.0
  {
    Abs(v) * dt / dx
  }

  function Advected(u: Vec, v: real, dx: real, dt: real, scheme: Scheme): (w: Vec)
    requires 0 < |u| && dx > 0.0
    ensures |w| == |u|
  {
    if Cfl(v, dx, dt) > 1.0 then u else Balanced(u, Fluxes(u, v, scheme), dt / dx)
  }

  method Update(u: array<real>, uNew: array<real>, flux: array<real>, ratio: real)
    requires uNew.Length == u.Length && flux.Length == u.Length + 1 && u != uNew && flux != uNew
    modifies uNew
    ensures uNew[..] == Balanced(u[..], flux[..], ratio)
  {
    for i := 0 to u.Length
      invariant forall k | 0 <= k < i :: uNew[k] == Balance(u[k], ratio, flux[k], flux[k + 1])
    {
      uNew[i] := u[i] - ratio * (flux[i + 1] - flux[i]);
    }
  }

  method Copy(u: array<real>, uNew: array<real>)
    requires uNew.Length == u.Length && u != uNew
    modifies uNew
    ensures uNew[..] == u[..]
  {
    for i := 0 to u.Length
      invariant forall k | 0 <= k < i :: uNew[k] == u[k]
    {
      uNew[i] := u[i];
    }
  }

  method Advance(u: array<real>, uNew: array<real>, v: real, ratio: real, scheme: Scheme)
    requires u.Length > 0 && uNew.Length == u.Length && u != uNew
    modifies uNew
    ensures uNew[..] == Balanced(u[..], Fluxes(u[..], v, scheme), ratio)
  {
    var flux := new real[u.Length + 1](_ => 0.0);
    ComputeFluxes(u, flux, v, scheme);
    Update(u, uNew, flux, ratio);
  }

  method Advection(u: array<real>, uNew: array<real>, v: real, dx: real, dt: real, scheme: Scheme)
    requires u.Length > 0 && uNew.Length == u.Length && u != uNew && dx > 0.0
    modifies uNew
    ensures uNew[..] == Advected(u[..], v, dx, dt, scheme)
  {
    var cfl := Cfl(v, dx, dt);
    if cfl > 1.0 {
      Copy(u, uNew);
      return;
    }
    Advance(u, uNew, v, dt / dx, scheme);
  }

  // Every scheme conserves the total: what leaves a cell enters its neighbour

  function Outflow(f: Vec): int -> real {
    i => At(f, i + 1) - At(f, i)
  }

  lemma {:induction false} Telescope(n: nat, f: Vec)
    requires n < |f|
    ensures Sum(n, Outflow(f)) == f[n] - f[0]
  {
    if n > 0 { Telescope(n - 1, f); }
  }

  lemma BalanceIsFma(u: real, ratio: real, left: real, right: real)
    ensures Balance(u, ratio, left, right) == Fma(u, -ratio, right - left)
  {}

  lemma BalancedConserves(u: Vec, f: Vec, ratio: real)
    requires |f| == |u| + 1 && f[0] == f[|u|]
    ensures Total(Balanced(u, f, ratio)) == Total(u)
  {
    var w := Balanced(u, f, ratio);
    forall i | 0 <= i < |u| ensures Cells(w)(i) == Fma(Cells(u)(i), -ratio, Outflow(f)(i)) {
      BalanceIsFma(u[i], ratio, f[i], f[i + 1]);
    }
    SumFma(|u|, Cells(u), -ratio, Outflow(f), Cells(w));
    Telescope(|u|, f);
  }

  lemma AdvectionConserves(u: Vec, v: real, dx: real, dt: real, scheme: Scheme)
    requires 0 < |u| && dx > 0.0
    ensures Total(Advected(u, v, dx, dt, scheme)) == Total(u)
  {
    BalancedConserves(u, Fluxes(u, v, scheme), dt / dx);
  }

  // The upwind step is a three-point average

  lemma RatioOf(a: real, dt: real, dx: real)
    requires dx > 0.0
    ensures a * dt / dx == a * (dt / dx)
  {
    var q, p := dt / dx, a * dt / dx;
    assert q * dx == dt && p * dx == a * dt;
    assert (p - a * q) * dx == 0.0;
  }

  lemma UpwindCell(u: real, ratio: real, v: real, c: real, l: real, r: real)
    requires c == Abs(v) * ratio
    ensures Balance(u, ratio, InterfaceFlux(Upwind, v, l, u), InterfaceFlux(Upwind, v, u, r))
         == if v >= 0.0 then Mix3(c, l, 1.0 - c, u, 0.0, r) else Mix3(0.0, l, 1.0 - c, u, c, r)
  {
    OneMinus(c, u);
    Regroup(ratio, v, u, l);
    Regroup(ratio, v, r, u);
    if v >= 0.0 {
      assert c * l == (v * ratio) * l && c * u == (v * ratio) * u;
    } else {
      Negated(v, ratio, c, u);
      Negated(v, ratio, c, r);
    }
  }

  lemma Regroup(ratio: real, v: real, x: real, y: real)
    ensures ratio * (v * x - v * y) == (v * ratio) * x - (v * ratio) * y
  {}

  lemma OneMinus(c: real, u: real)
    ensures (1.0 - c) * u == u - c * u
  {}

  lemma Negated(v: real, ratio: real, c: real, x: real)
    requires c == (-v) * ratio
    ensures c * x == -((v * ratio) * x)
  {}

  lemma RightwardIsMix(u: Vec, v: real, ratio: real, c: real)
    requires 0 < |u| && c == Abs(v) * ratio && v >= 0.0
    ensures IsMix(u, Balanced(u, Fluxes(u, v, Upwind), ratio), c, 1.0 - c, 0.0)
  {
    var n, f, d := |u|, Fluxes(u, v, Upwind), 1.0 - c;
    var w := Balanced(u, f, ratio);
    forall i | 0 <= i < n ensures MixAt(u, w, c, d, 0.0, i) {
      UpwindCell(u[i], ratio, v, c, u[Left(i, n)], u[Right(i, n)]);
      assert f[i] == InterfaceFlux(Upwind, v, u[Left(i, n)], u[i]) && f[i + 1] == InterfaceFlux(Upwind, v, u[i], u[Right(i, n)]);
    }
  }

  lemma LeftwardIsMix(u: Vec, v: real, ratio: real, c: real)
    requires 0 < |u| && c == Abs(v) * ratio && v < 0.0
    ensures IsMix(u, Balanced(u, Fluxes(u, v, Upwind), ratio), 0.0, 1.0 - c, c)
  {
    var n, f, d := |u|, Fluxes(u, v, Upwind), 1.0 - c;
    var w := Balanced(u, f, ratio);
    forall i | 0 <= i < n ensures MixAt(u, w, 0.0, d, c, i) {
      UpwindCell(u[i], ratio, v, c, u[Left(i, n)], u[Right(i, n)]);
      assert f[i] == InterfaceFlux(Upwind, v, u[Left(i, n)], u[i]) && f[i + 1] == InterfaceFlux(Upwind, v, u[i], u[Right(i, n)]);
    }
  }

  lemma SameFluxes(u: Vec, v: real)
    requires 0 < |u|
    ensures Fluxes(u, v, LaxFriedrichs) == Fluxes(u, v, Upwind)
  {
    var f, g, n := Fluxes(u, v, LaxFriedrichs), Fluxes(u, v, Upwind), |u|;
    forall i | 0 <= i <= n ensures f[i] == g[i] {
      UpwindIsLaxFriedrichs(v, u[if i == 0 then n - 1 else i - 1], u[if i == n then 0 else i]);
    }
  }

  lemma RatioPositive(dx: real, dt: real, q: real)
    requires dx > 0.0 && dt > 0.0 && q == dt / dx
    ensures q > 0.0
  {}

  lemma CflIs(v: real, dx: real, dt: real, q: real, c: real)
    requires dx > 0.0 && q == dt / dx && c == Abs(v) * q
    ensures Cfl(v, dx, dt) == c
  {
    RatioOf(Abs(v), dt, dx);
  }

  lemma CourantWeights(v: real, dx: real, dt: real, q: real, c: real)
    requires dx > 0.0 && dt > 0.0 && q == dt / dx && c == Abs(v) * q && Cfl(v, dx, dt) <= 1.0
    ensures 0.0 <= c <= 1.0
  {
    CflIs(v, dx, dt, q, c);
    RatioPositive(dx, dt, q);
    NonNegProduct(Abs(v), q);
  }

  lemma NonNegProduct(a: real, b: real)
    requires a >= 0.0 && b >= 0.0
    ensures a * b >= 0.0
  {}

  // Diffusion

  function Alpha(d: real, dx: real, dt: real): real
    requires dx > 0.0
  {
    d * dt / (dx * dx)
  }

  /** u + alpha (right - 2 u + left). */
  function Spread(u: real, alpha: real, l: real, r: real): real {
    u + alpha * (r - 2.0 * u + l)
  }

  function Diffused(u: Vec, d: real, dx: real, dt: real): (w: Vec)
    requires dx > 0.0
    ensures |w| == |u|
  {
    if Alpha(d, dx, dt) > 0.5 then u else SpreadOut(u, Alpha(d, dx, dt))
  }

  function SpreadOut(u: Vec, alpha: real): (w: Vec)
    ensures |w| == |u|
    ensures forall i {:trigger w[i]} | 0 <= i < |u| :: w[i] == Spread(u[i], alpha, u[Left(i, |u|)], u[Right(i, |u|)])
  {
    seq(|u|, i => Spread(At(u, i), alpha, At(u, Left(i, |u|)), At(u, Right(i, |u|))))
  }

  method DiffuseCells(u: array<real>, uNew: array<real>, alpha: real)
    requires u.Length >= 2 && uNew.Length == u.Length && u != uNew
    modifies uNew
    ensures uNew[..] == SpreadOut(u[..], alpha)
  {
    var n := u.Length;
    for i := 1 to n - 1
      invariant forall k | 1 <= k < i :: uNew[k] == Spread(u[k], alpha, u[k - 1], u[k + 1])
    {
      uNew[i] := Spread(u[i], alpha, u[i - 1], u[i + 1]);
    }
    uNew[0] := Spread(u[0], alpha, u[n - 1], u[1]);
    uNew[n - 1] := Spread(u[n - 1], alpha, u[n - 2], u[0]);
  }

  method Diffusion(u: array<real>, uNew: array<real>, d: real, dx: real, dt: real)
    requires u.Length >= 2 && uNew.Length == u.Length && u != uNew && dx > 0.0
    modifies uNew
    ensures uNew[..] == Diffused(u[..], d, dx, dt)
  {
    var alpha := Alpha(d, dx, dt);
    if alpha > 0.5 {
      Copy(u, uNew);
      return;
    }
    DiffuseCells(u, uNew, alpha);
  }

  lemma SpreadIsMix3(u: real, alpha: real, l: real, r: real)
    ensures Spread(u, alpha, l, r) == Mix3(alpha, l, 1.0 - 2.0 * alpha, u, alpha, r)
  {}

  lemma SpreadIsMix(u: Vec, alpha: real)
    ensures IsMix(u, SpreadOut(u, alpha), alpha, 1.0 - 2.0 * alpha, alpha)
  {
    var w, n, d := SpreadOut(u, alpha), |u|, 1.0 - 2.0 * alpha;
    forall i | 0 <= i < n ensures MixAt(u, w, alpha, d, alpha, i) {
      SpreadIsMix3(u[i], alpha, u[Left(i, n)], u[Right(i, n)]);
    }
  }

  lemma AlphaNonNegative(d: real, dx: real, dt: real)
    requires d >= 0.0 && dx > 0.0 && dt > 0.0
    ensures Alpha(d, dx, dt) >= 0.0
  {
    NonNegProduct(d, dt);
    var a, b := d * dt, dx * dx;
    SquarePos(dx, b);
    QuotientNonNegative(a, b);
  }

  lemma QuotientNonNegative(a: real, b: real)
    requires a >= 0.0 && b > 0.0
    ensures a / b >= 0.0
  {}

  // What a step keeps

  /** Same total, still within the bounds, no more variation. */
  ghost predicate Tame(u: Vec, w: Vec) {
    && |w| == |u| && Total(w) == Total(u) && Variation(w) <= Variation(u)
    && forall lo, hi | Within(u, lo, hi) :: Within(w, lo, hi)
  }

  lemma MixTame(u: Vec, w: Vec, l: real, c: real, r: real)
    requires IsMix(u, w, l, c, r) && Weights(l, c, r)
    ensures Tame(u, w)
  {
    MixConserves(u, w, l, c, r);
    MixVariation(u, w, l, c, r);
    forall lo, hi | Within(u, lo, hi) ensures Within(w, lo, hi) { MixBounded(u, w, l, c, r, lo, hi); }
  }

  lemma RightwardTame(u: Vec, v: real, ratio: real, c: real)
    requires 0 < |u| && c == Abs(v) * ratio && v >= 0.0 && 0.0 <= c <= 1.0
    ensures Tame(u, Balanced(u, Fluxes(u, v, Upwind), ratio))
  {
    RightwardIsMix(u, v, ratio, c);
    MixTame(u, Balanced(u, Fluxes(u, v, Upwind), ratio), c, 1.0 - c, 0.0);
  }

  lemma LeftwardTame(u: Vec, v: real, ratio: real, c: real)
    requires 0 < |u| && c == Abs(v) * ratio && v < 0.0 && 0.0 <= c <= 1.0
    ensures Tame(u, Balanced(u, Fluxes(u, v, Upwind), ratio))
  {
    LeftwardIsMix(u, v, ratio, c);
    MixTame(u, Balanced(u, Fluxes(u, v, Upwind), ratio), 0.0, 1.0 - c, c);
  }

  lemma CourantTame(u: Vec, v: real, ratio: real, c: real, scheme: Scheme)
    requires 0 < |u| && c == Abs(v) * ratio && 0.0 <= c <= 1.0 && (scheme == Upwind || scheme == LaxFriedrichs)
    ensures Tame(u, Balanced(u, Fluxes(u, v, scheme), ratio))
  {
    SameFluxes(u, v);
    if v >= 0.0 { RightwardTame(u, v, ratio, c); } else { LeftwardTame(u, v, ratio, c); }
  }

  lemma SelfTame(u: Vec)
    ensures Tame(u, u)
  {}

  lemma AdvectionTame(u: Vec, v: real, dx: real, dt: real, scheme: Scheme)
    requires 0 < |u| && dx > 0.0 && dt > 0.0 && (scheme == Upwind || scheme == LaxFriedrichs)
    ensures Tame(u, Advected(u, v, dx, dt, scheme))
  {
    if Cfl(v, dx, dt) > 1.0 {
      SelfTame(u);
    } else {
      var q := dt / dx;
      var c := Abs(v) * q;
      CourantWeights(v, dx, dt, q, c);
      CourantTame(u, v, q, c, scheme);
    }
  }

  lemma DiffusionTame(u: Vec, d: real, dx: real, dt: real)
    requires d >= 0.0 && dx > 0.0 && dt > 0.0
    ensures Tame(u, Diffused(u, d, dx, dt))
  {
    var alpha := Alpha(d, dx, dt);
    if alpha <= 0.5 {
      AlphaNonNegative(d, dx, dt);
      SpreadIsMix(u, alpha);
      MixTame(u, SpreadOut(u, alpha), alpha, 1.0 - 2.0 * alpha, alpha);
    }
  }

  /** One split step: advection, then diffusion. */
  function Stepped(u: Vec, v: real, d: real, dx: real, dt: real, scheme: Scheme): (w: Vec)
    requires 0 < |u| && dx > 0.0
    ensures |w| == |u|
  {
    Diffused(Advected(u, v, dx, dt, scheme), d, dx, dt)
  }

  method AdvectionDiffusion(u: array<real>, uNew: array<real>, v: real, d: real, dx: real, dt: real, scheme: Scheme)
    requires u.Length >= 2 && uNew.Length == u.Length && u != uNew && dx > 0.0
    modifies uNew
    ensures uNew[..] == Stepped(u[..], v, d, dx, dt, scheme)
  {
    var uAdv := new real[u.Length](_ => 0.0);
    Advection(u, uAdv, v, dx, dt, scheme);
    Diffusion(uAdv, uNew, d, dx, dt);
  }

  function Steps(u: Vec, v: real, d: real, dx: real, dt: real, scheme: Scheme, k: nat): (w: Vec)
    requires 0 < |u| && dx > 0.0
    ensures |w| == |u|
  {
    if k == 0 then u else Stepped(Steps(u, v, d, dx, dt, scheme, k - 1), v, d, dx, dt, scheme)
  }

  /** Any number of upwind or Lax-Friedrichs advection-diffusion steps keeps the total, stays within the initial
      bounds, and never adds variation. */
  lemma {:induction false} StepsTame(u: Vec, v: real, d: real, dx: real, dt: real, scheme: Scheme, k: nat)
    requires 0 < |u| && d >= 0.0 && dx > 0.0 && dt > 0.0 && (scheme == Upwind || scheme == LaxFriedrichs)
    ensures Tame(u, Steps(u, v, d, dx, dt, scheme, k))
  {
    if k > 0 {
      var mid := Steps(u, v, d, dx, dt, scheme, k - 1);
      StepsTame(u, v, d, dx, dt, scheme, k - 1);
      AdvectionTame(mid, v, dx, dt, scheme);
      DiffusionTame(Advected(mid, v, dx, dt, scheme), d, dx, dt);
    }
  }

  /** The two schemes take the same steps. */
  lemma {:induction false} SameSteps(u: Vec, v: real, d: real, dx: real, dt: real, k: nat)
    requires 0 < |u| && dx > 0.0
    ensures Steps(u, v, d, dx, dt, LaxFriedrichs, k) == Steps(u, v, d, dx, dt, Upwind, k)
  {
    if k > 0 {
      SameSteps(u, v, d, dx, dt, k - 1);
      SameFluxes(Steps(u, v, d, dx, dt, Upwind, k - 1), v);
    }
  }

  // The default case of the flux routine

  predicate Constant(u: Vec) {
    forall i | 0 <= i < |u| :: u[i] == u[0]
  }

  lemma NonZeroProduct(a: real, b: real, q: real)
    requires q == a * b
    ensures q == 0.0 <==> a == 0.0 || b == 0.0
  {
    if a > 0.0 && b > 0.0 { MulPos(a, b, q); }
    if a > 0.0 && b < 0.0 { MulPos(a, -b, -q); }
    if a < 0.0 && b > 0.0 { MulPos(-a, b, -q); }
    if a < 0.0 && b < 0.0 { MulPos(-a, -b, q); }
  }

  lemma BalanceKeepsIff(u: real, ratio: real, left: real, right: real)
    ensures Balance(u, ratio, left, right) == u <==> ratio == 0.0 || right == left
  {
    NonZeroProduct(ratio, right - left, ratio * (right - left));
  }

  lemma EqualFluxIff(v: real, a: real, b: real)
    ensures v * a == v * b <==> v == 0.0 || a == b
  {
    NonZeroProduct(v, a - b, v * (a - b));
    assert v * (a - b) == v * a - v * b;
  }

  /** The cell upwind of i. */
  function Upstream(v: real, i: int, n: nat): int {
    if v >= 0.0 then Left(i, n) else Right(i, n)
  }

  lemma EqualUpwindIff(v: real, l: real, m: real, r: real)
    ensures InterfaceFlux(Upwind, v, m, r) == InterfaceFlux(Upwind, v, l, m)
       <==> v == 0.0 || (if v >= 0.0 then l else r) == m
  {
    EqualFluxIff(v, m, l);
    EqualFluxIff(v, r, m);
  }

  lemma UpwindKeepsIff(u: Vec, v: real, ratio: real, i: nat)
    requires i < |u|
    ensures Balanced(u, Fluxes(u, v, Upwind), ratio)[i] == u[i] <==> ratio == 0.0 || v == 0.0 || u[Upstream(v, i, |u|)] == u[i]
  {
    var n, f := |u|, Fluxes(u, v, Upwind);
    BalanceKeepsIff(u[i], ratio, f[i], f[i + 1]);
    assert f[i] == InterfaceFlux(Upwind, v, u[Left(i, n)], u[i]) && f[i + 1] == InterfaceFlux(Upwind, v, u[i], u[Right(i, n)]);
    EqualUpwindIff(v, u[Left(i, n)], u[i], u[Right(i, n)]);
  }

  lemma {:induction false} ConstantTo(u: Vec, v: real, k: nat)
    requires k < |u| && forall i | 0 <= i < |u| :: u[Upstream(v, i, |u|)] == u[i]
    ensures u[k] == u[0]
  {
    if k > 0 {
      ConstantTo(u, v, k - 1);
      assert u[Upstream(v, k, |u|)] == u[k] && u[Upstream(v, k - 1, |u|)] == u[k - 1];
    }
  }

  lemma UpwindIdleIff(u: Vec, v: real, ratio: real)
    requires 0 < |u|
    ensures Balanced(u, Fluxes(u, v, Upwind), ratio) == u <==> ratio == 0.0 || v == 0.0 || Constant(u)
  {
    var w := Balanced(u, Fluxes(u, v, Upwind), ratio);
    forall i | 0 <= i < |u| ensures w[i] == u[i] <==> ratio == 0.0 || v == 0.0 || u[Upstream(v, i, |u|)] == u[i] {
      UpwindKeepsIff(u, v, ratio, i);
    }
    if w == u && ratio != 0.0 && v != 0.0 {
      forall i | 0 <= i < |u| ensures u[Upstream(v, i, |u|)] == u[i] { assert w[i] == u[i]; }
      forall k | 0 <= k < |u| ensures u[k] == u[0] { ConstantTo(u, v, k); }
    }
  }

  /** A scheme without a flux leaves the cells alone. */
  lemma ZeroFluxIdle(u: Vec, v: real, dx: real, dt: real)
    requires 0 < |u| && dx > 0.0
    ensures Advected(u, v, dx, dt, Unimplemented) == u
  {
    var w := Balanced(u, Fluxes(u, v, Unimplemented), dt / dx);
    forall i | 0 <= i < |u| ensures w[i] == u[i] { BalanceKeepsIff(u[i], dt / dx, 0.0, 0.0); }
  }

  lemma ZeroRatioIff(dx: real, dt: real)
    requires dx > 0.0
    ensures dt / dx == 0.0 <==> dt == 0.0
  {
    NonZeroProduct(dt / dx, dx, dt);
  }

  /** The default case steps like upwind, as its comment says, if and only if the step is refused, nothing moves,
      no time passes, or all cells are equal. */
  lemma DefaultIsUpwindIff(u: Vec, v: real, dx: real, dt: real)
    requires 0 < |u| && dx > 0.0
    ensures Advected(u, v, dx, dt, Unimplemented) == Advected(u, v, dx, dt, Upwind)
       <==> Cfl(v, dx, dt) > 1.0 || v == 0.0 || dt == 0.0 || Constant(u)
  {
    ZeroFluxIdle(u, v, dx, dt);
    ZeroRatioIff(dx, dt);
    UpwindIdleIff(u, v, dt / dx);
  }

  /** Two unequal cells and a unit step: upwind moves them, the default case does not. */
  lemma DefaultDiffersFromUpwind()
    ensures Advected([0.0, 1.0], 1.0, 1.0, 1.0, Unimplemented) != Advected([0.0, 1.0], 1.0, 1.0, 1.0, Upwind)
  {
    var u: Vec := [0.0, 1.0];
    assert u[1] != u[0];
    DefaultIsUpwindIff(u, 1.0, 1.0, 1.0);
  }
}
