/** The laws the finite-volume steps solve, with the divisions multiplied out. */
module VolumeLaws {
  import opened Sums
  import opened LinAlg
  import opened FiniteVolume
  import opened VolumeSteps

  // Diffusion

  lemma AlphaTimes(d: real, dx: real, dt: real, h: real)
    requires dx > 0.0 && h == dx * dx
    ensures h > 0.0 && Alpha(d, dx, dt) * h == d * dt
  {
    MulPos(dx, dx, h);
  }

  lemma ProductOrder(a: real, h: real, b: real)
    requires h > 0.0
    ensures a * h > b * h <==> a > b
  {
    if a > b { MulPos(a - b, h, a * h - b * h); }
    if a < b { MulPos(b - a, h, b * h - a * h); }
  }

  /** The step is taken if and only if twice the diffusivity times the time step is at most the square of the cell size. */
  lemma StableIff(d: real, dx: real, dt: real)
    requires dx > 0.0
    ensures Alpha(d, dx, dt) <= 0.5 <==> 2.0 * (d * dt) <= dx * dx
  {
    AlphaTimes(d, dx, dt, dx * dx);
    ProductOrder(Alpha(d, dx, dt), dx * dx, 0.5);
  }

  lemma SpreadTimes(u: real, alpha: real, l: real, r: real, h: real, k: real)
    requires alpha * h == k
    ensures (Spread(u, alpha, l, r) - u) * h == k * (l - 2.0 * u + r)
  {
    assert (Spread(u, alpha, l, r) - u) * h == (alpha * h) * (r - 2.0 * u + l);
  }

  lemma SpreadAt(u: Vec, alpha: real, i: nat, h: real, k: real)
    requires i < |u| && alpha * h == k
    ensures (SpreadOut(u, alpha)[i] - u[i]) * h == k * (u[Left(i, |u|)] - 2.0 * u[i] + u[Right(i, |u|)])
  {
    SpreadTimes(u[i], alpha, u[Left(i, |u|)], u[Right(i, |u|)], h, k);
  }

  lemma DiffusedIs(u: Vec, d: real, dx: real, dt: real, alpha: real)
    requires dx > 0.0 && alpha == Alpha(d, dx, dt)
    ensures Diffused(u, d, dx, dt) == if alpha <= 0.5 then SpreadOut(u, alpha) else u
  {}

  /** A diffusion step changes each cell by the second difference of its neighbours, or nothing when it would be unstable. */
  lemma DiffusionLaw(u: Vec, d: real, dx: real, dt: real, i: nat)
    requires dx > 0.0 && i < |u|
    ensures var w := Diffused(u, d, dx, dt);
      if 2.0 * (d * dt) <= dx * dx
      then (w[i] - u[i]) * (dx * dx) == (d * dt) * (u[Left(i, |u|)] - 2.0 * u[i] + u[Right(i, |u|)])
      else w == u
  {
    StableIff(d, dx, dt);
    AlphaTimes(d, dx, dt, dx * dx);
    DiffusedIs(u, d, dx, dt, Alpha(d, dx, dt));
    SpreadAt(u, Alpha(d, dx, dt), i, dx * dx, d * dt);
  }

  // Advection

  /** The limit: the flow crosses at most one cell per step. */
  lemma CflIff(v: real, dx: real, dt: real)
    requires dx > 0.0
    ensures Cfl(v, dx, dt) <= 1.0 <==> Abs(v) * dt <= dx
  {
    assert Cfl(v, dx, dt) * dx == Abs(v) * dt;
    ProductOrder(Cfl(v, dx, dt), dx, 1.0);
  }

  lemma BalanceTimes(u: real, ratio: real, left: real, right: real, dx: real, dt: real)
    requires ratio * dx == dt
    ensures (Balance(u, ratio, left, right) - u) * dx == dt * (left - right)
  {
    assert (Balance(u, ratio, left, right) - u) * dx == (ratio * dx) * (left - right);
  }

  lemma BalancedBy(u: Vec, f: Vec, ratio: real, i: nat, dx: real, dt: real)
    requires i < |u| && |f| == |u| + 1 && ratio * dx == dt
    ensures (Balanced(u, f, ratio)[i] - u[i]) * dx == dt * (f[i] - f[i + 1])
  {
    BalanceTimes(u[i], ratio, f[i], f[i + 1], dx, dt);
  }

  /** The flux through an interface comes from the cells on its two sides. */
  lemma FluxesAround(u: Vec, v: real, scheme: Scheme, i: nat)
    requires i < |u|
    ensures Fluxes(u, v, scheme)[i] == InterfaceFlux(scheme, v, u[Left(i, |u|)], u[i])
    ensures Fluxes(u, v, scheme)[i + 1] == InterfaceFlux(scheme, v, u[i], u[Right(i, |u|)])
  {
    var f := Fluxes(u, v, scheme);
    assert f[i] == FluxAt(u, v, scheme, i) && f[i + 1] == FluxAt(u, v, scheme, i + 1);
  }

  lemma Quotient(dt: real, dx: real)
    requires dx > 0.0
    ensures dt / dx * dx == dt
  {}

  /** With any scheme a cell gains what flows in on the left less what flows out on the right, or nothing above the limit. */
  lemma AdvectionLaw(u: Vec, v: real, dx: real, dt: real, scheme: Scheme, i: nat, f: Vec)
    requires dx > 0.0 && i < |u| && f == Fluxes(u, v, scheme)
    ensures var w := Advected(u, v, dx, dt, scheme);
      if Cfl(v, dx, dt) <= 1.0 then (w[i] - u[i]) * dx == dt * (f[i] - f[i + 1]) else w == u
  {
    Quotient(dt, dx);
    BalancedBy(u, f, dt / dx, i, dx, dt);
  }

  lemma FullCell(w: real, u: real, up: real, v: real, dx: real, dt: real)
    requires dx > 0.0 && Abs(v) * dt == dx && (w - u) * dx == (Abs(v) * dt) * (up - u)
    ensures w == up
  {
    assert ((w - u) - (up - u)) * dx == 0.0;
    ProductOrder(w - u, dx, up - u);
  }

  lemma UpwindGain(v: real, dt: real, l: real, m: real, r: real)
    ensures dt * (InterfaceFlux(Upwind, v, l, m) - InterfaceFlux(Upwind, v, m, r))
         == (Abs(v) * dt) * ((if v >= 0.0 then l else r) - m)
  {
    if v >= 0.0 {
      assert dt * (v * l - v * m) == (v * dt) * (l - m);
    } else {
      assert dt * (v * m - v * r) == (-v * dt) * (r - m);
    }
  }

  /** When the flow crosses exactly one cell per step, upwind moves every value one cell downstream. */
  lemma UpwindShifts(u: Vec, v: real, dx: real, dt: real, i: nat)
    requires dx > 0.0 && i < |u| && Abs(v) * dt == dx
    ensures Advected(u, v, dx, dt, Upwind)[i] == u[if v >= 0.0 then Left(i, |u|) else Right(i, |u|)]
  {
    var l, m, r := u[Left(i, |u|)], u[i], u[Right(i, |u|)];
    CflIff(v, dx, dt);
    AdvectionLaw(u, v, dx, dt, Upwind, i, Fluxes(u, v, Upwind));
    FluxesAround(u, v, Upwind, i);
    UpwindGain(v, dt, l, m, r);
    FullCell(Advected(u, v, dx, dt, Upwind)[i], m, if v >= 0.0 then l else r, v, dx, dt);
  }

  /** Lax-Wendroff is upwind with the diffusion |v| (1 - |v|) / 2 taken out; at unit speed the two agree. */
  lemma LaxWendroffIsUpwindPlus(v: real, l: real, r: real)
    ensures 2.0 * (InterfaceFlux(LaxWendroff, v, l, r) - InterfaceFlux(Upwind, v, l, r)) == (Abs(v) - v * v) * (r - l)
    ensures Abs(v) == 1.0 ==> InterfaceFlux(LaxWendroff, v, l, r) == InterfaceFlux(Upwind, v, l, r)
  {
    assert v * (l + r) == v * l + v * r && (Abs(v) - v * v) * (r - l) == Abs(v) * (r - l) - v * v * (r - l);
    assert v < 0.0 ==> (-v) * (r - l) == v * l - v * r;
    assert v * (r - l) == v * r - v * l;
    if Abs(v) == 1.0 { assert v * v == 1.0; }
  }
}
