/** What the finite differences give on polynomials: exact derivatives up to degree two, zero on constants. */
module DifferenceLaws {
  import opened FiniteDifference

  // One direction

  /** a + b x + c x^2. */
  function Poly(a: real, b: real, c: real, x: real): real {
    a + b * x + c * (x * x)
  }

  lemma AcrossBoth(a: real, b: real, c: real, x: real, h: real)
    ensures Poly(a, b, c, x + h) - Poly(a, b, c, x - h) == 2.0 * h * (b + 2.0 * c * x)
  {
    assert (x + h) * (x + h) == x * x + 2.0 * (h * x) + h * h;
    assert (x - h) * (x - h) == x * x - 2.0 * (h * x) + h * h;
  }

  lemma AcrossThree(a: real, b: real, c: real, x: real, h: real)
    ensures Poly(a, b, c, x - h) - 2.0 * Poly(a, b, c, x) + Poly(a, b, c, x + h) == 2.0 * c * (h * h)
  {
    assert (x + h) * (x + h) == x * x + 2.0 * (h * x) + h * h;
    assert (x - h) * (x - h) == x * x - 2.0 * (h * x) + h * h;
  }

  lemma Rescaled(h: real, inv: real, m: real)
    requires h * inv == 1.0
    ensures 0.5 * (2.0 * h * m) * inv == m
  {
    assert 0.5 * (2.0 * h * m) * inv == (h * inv) * m;
  }

  lemma RescaledTwice(hh: real, inv2: real, c: real)
    requires hh * inv2 == 1.0
    ensures (2.0 * c * hh) * inv2 == 2.0 * c
  {
    assert (2.0 * c * hh) * inv2 == (2.0 * c) * (hh * inv2);
  }

  lemma Inverses(h: real)
    requires h != 0.0
    ensures h * (1.0 / h) == 1.0 && h * h != 0.0 && (h * h) * InvSquare(h) == 1.0
  {}

  /** On a polynomial of degree two both stencils are exact. */
  lemma StencilsExact(a: real, b: real, c: real, x: real, h: real)
    requires h != 0.0
    ensures var l, m, r := Poly(a, b, c, x - h), Poly(a, b, c, x), Poly(a, b, c, x + h);
      Stencil(1, l, m, r, h) == b + 2.0 * c * x && Stencil(2, l, m, r, h) == 2.0 * c
  {
    Inverses(h);
    AcrossBoth(a, b, c, x, h);
    Rescaled(h, 1.0 / h, b + 2.0 * c * x);
    AcrossThree(a, b, c, x, h);
    RescaledTwice(h * h, InvSquare(h), c);
  }

  /** On equal values every stencil gives zero. */
  lemma StencilsFlat(v: real, h: real, order: int)
    requires h != 0.0
    ensures Stencil(order, v, v, v, h) == 0.0
  {}

  /** The points of a grid with spacing h. */
  function Grid(k: int, h: real): real {
    k as real * h
  }

  lemma GridNeighbours(k: int, h: real)
    ensures Grid(k - 1, h) == Grid(k, h) - h && Grid(k + 1, h) == Grid(k, h) + h
  {
    assert (k - 1) as real == k as real - 1.0 && (k + 1) as real == k as real + 1.0;
  }

  /** The array samples a + b x + c x^2. */
  ghost predicate Samples(u: array<real>, a: real, b: real, c: real, h: real)
    reads u
  {
    forall k | 0 <= k < u.Length :: u[k] == Poly(a, b, c, Grid(k, h))
  }

  lemma InteriorExact(u: array<real>, a: real, b: real, c: real, h: real, k: nat)
    requires Samples(u, a, b, c, h) && h != 0.0 && 0 < k < u.Length - 1
    ensures Stencil(1, u[k - 1], u[k], u[k + 1], h) == b + 2.0 * c * Grid(k, h)
    ensures Stencil(2, u[k - 1], u[k], u[k + 1], h) == 2.0 * c
  {
    GridNeighbours(k, h);
    StencilsExact(a, b, c, Grid(k, h), h);
  }

  /** The derivative of a sampled polynomial of degree two: exact at every interior point. */
  method DerivativeOfPoly(u: array<real>, h: real, a: real, b: real, c: real) returns (du: array<real>, ddu: array<real>)
    requires u.Length >= 2 && h != 0.0 && Samples(u, a, b, c, h)
    ensures du.Length == ddu.Length == u.Length
    ensures forall k | 0 < k < u.Length - 1 :: du[k] == b + 2.0 * c * Grid(k, h) && ddu[k] == 2.0 * c
  {
    var n := u.Length;
    du, ddu := new real[n](_ => 0.0), new real[n](_ => 0.0);
    FirstDerivative(u, du, 1.0 / h);
    SecondDerivative(u, ddu, InvSquare(h));
    forall k | 0 < k < n - 1 ensures du[k] == b + 2.0 * c * Grid(k, h) && ddu[k] == 2.0 * c {
      InteriorExact(u, a, b, c, h, k);
    }
  }

  /** The derivatives of equal values: zero at every point, the ends included. */
  method DerivativeOfConstant(u: array<real>, h: real, order: int, v: real) returns (du: array<real>)
    requires u.Length >= 2 && h != 0.0 && forall k | 0 <= k < u.Length :: u[k] == v
    ensures du.Length == u.Length && forall k | 0 <= k < u.Length :: du[k] == 0.0
  {
    du := new real[u.Length](_ => 0.0);
    Derivative(u, du, h, order);
    StencilsFlat(v, h, order);
  }

  // Two directions

  /** one + x X + y Y + xx X^2 + xy X Y + yy Y^2. */
  datatype Field = Field(one: real, x: real, y: real, xx: real, xy: real, yy: real)

  function Value(p: Field, x: real, y: real): real {
    p.one + p.x * x + p.y * y + p.xx * (x * x) + p.xy * (x * y) + p.yy * (y * y)
  }

  lemma ValueInX(p: Field, x: real, y: real)
    ensures Value(p, x, y) == Poly(p.one + p.y * y + p.yy * (y * y), p.x + p.xy * y, p.xx, x)
  {
    assert (p.x + p.xy * y) * x == p.x * x + p.xy * (x * y);
  }

  lemma ValueInY(p: Field, x: real, y: real)
    ensures Value(p, x, y) == Poly(p.one + p.x * x + p.xx * (x * x), p.y + p.xy * x, p.yy, y)
  {
    assert (p.y + p.xy * x) * y == p.y * y + p.xy * (x * y);
  }

  ghost predicate SampledAt(u: array2<real>, p: Field, dx: real, dy: real, i: int, j: int)
    requires Inside(u, i, j)
    reads u
  {
    u[i, j] == Value(p, Grid(i, dx), Grid(j, dy))
  }

  ghost predicate SamplesField(u: array2<real>, p: Field, dx: real, dy: real)
    reads u
  {
    forall i, j | Inside(u, i, j) :: SampledAt(u, p, dx, dy, i, j)
  }

  function SlopeX(p: Field, x: real, y: real): real {
    (p.x + p.xy * y) + 2.0 * p.xx * x
  }

  function SlopeY(p: Field, x: real, y: real): real {
    (p.y + p.xy * x) + 2.0 * p.yy * y
  }

  lemma StencilsInX(p: Field, x: real, y: real, h: real)
    requires h != 0.0
    ensures var l, m, r := Value(p, x - h, y), Value(p, x, y), Value(p, x + h, y);
      Stencil(1, l, m, r, h) == SlopeX(p, x, y) && Stencil(2, l, m, r, h) == 2.0 * p.xx
  {
    ValueInX(p, x - h, y);
    ValueInX(p, x, y);
    ValueInX(p, x + h, y);
    StencilsExact(p.one + p.y * y + p.yy * (y * y), p.x + p.xy * y, p.xx, x, h);
  }

  lemma StencilsInY(p: Field, x: real, y: real, h: real)
    requires h != 0.0
    ensures var l, m, r := Value(p, x, y - h), Value(p, x, y), Value(p, x, y + h);
      Stencil(1, l, m, r, h) == SlopeY(p, x, y) && Stencil(2, l, m, r, h) == 2.0 * p.yy
  {
    ValueInY(p, x, y - h);
    ValueInY(p, x, y);
    ValueInY(p, x, y + h);
    StencilsExact(p.one + p.x * x + p.xx * (x * x), p.y + p.xy * x, p.yy, y, h);
  }

  lemma AlongXExact(u: array2<real>, p: Field, dx: real, dy: real, i: int, j: int)
    requires SamplesField(u, p, dx, dy) && dx != 0.0 && Inside(u, i, j) && 0 < i < u.Length0 - 1
    ensures AlongX(u, dx, 1, i, j) == SlopeX(p, Grid(i, dx), Grid(j, dy)) && AlongX(u, dx, 2, i, j) == 2.0 * p.xx
  {
    var x, y := Grid(i, dx), Grid(j, dy);
    assert SampledAt(u, p, dx, dy, i - 1, j) && SampledAt(u, p, dx, dy, i, j) && SampledAt(u, p, dx, dy, i + 1, j);
    GridNeighbours(i, dx);
    StencilsInX(p, x, y, dx);
  }

  lemma AlongYExact(u: array2<real>, p: Field, dx: real, dy: real, i: int, j: int)
    requires SamplesField(u, p, dx, dy) && dy != 0.0 && Inside(u, i, j) && 0 < j < u.Length1 - 1
    ensures AlongY(u, dy, 1, i, j) == SlopeY(p, Grid(i, dx), Grid(j, dy)) && AlongY(u, dy, 2, i, j) == 2.0 * p.yy
  {
    var x, y := Grid(i, dx), Grid(j, dy);
    assert SampledAt(u, p, dx, dy, i, j - 1) && SampledAt(u, p, dx, dy, i, j) && SampledAt(u, p, dx, dy, i, j + 1);
    GridNeighbours(j, dy);
    StencilsInY(p, x, y, dy);
  }

  predicate Interior(u: array2<real>, i: int, j: int) {
    0 < i < u.Length0 - 1 && 0 < j < u.Length1 - 1
  }

  /** The gradient of a sampled field of degree two. */
  method GradientOfField(u: array2<real>, p: Field, dx: real, dy: real) returns (gx: array2<real>, gy: array2<real>)
    requires u.Length0 >= 2 && u.Length1 >= 2 && dx != 0.0 && dy != 0.0 && SamplesField(u, p, dx, dy)
    ensures SameShape(u, gx) && SameShape(u, gy)
    ensures forall i, j | Interior(u, i, j) ::
      gx[i, j] == SlopeX(p, Grid(i, dx), Grid(j, dy)) && gy[i, j] == SlopeY(p, Grid(i, dx), Grid(j, dy))
  {
    gx, gy := new real[u.Length0, u.Length1]((_, _) => 0.0), new real[u.Length0, u.Length1]((_, _) => 0.0);
    Gradient(u, gx, gy, dx, dy);
    forall i, j | Interior(u, i, j)
      ensures gx[i, j] == SlopeX(p, Grid(i, dx), Grid(j, dy)) && gy[i, j] == SlopeY(p, Grid(i, dx), Grid(j, dy))
    {
      AlongXExact(u, p, dx, dy, i, j);
      AlongYExact(u, p, dx, dy, i, j);
    }
  }

  /** Divergence and curl of a pair of sampled fields. */
  method DivergenceOfFields(u: array2<real>, v: array2<real>, p: Field, q: Field, dx: real, dy: real)
    returns (div: array2<real>, curl: array2<real>)
    requires u.Length0 >= 2 && u.Length1 >= 2 && SameShape(u, v) && dx != 0.0 && dy != 0.0
    requires SamplesField(u, p, dx, dy) && SamplesField(v, q, dx, dy)
    ensures SameShape(u, div) && SameShape(u, curl)
    ensures forall i, j | Interior(u, i, j) :: var x, y := Grid(i, dx), Grid(j, dy);
      div[i, j] == SlopeX(p, x, y) + SlopeY(q, x, y) && curl[i, j] == SlopeX(q, x, y) - SlopeY(p, x, y)
  {
    div, curl := new real[u.Length0, u.Length1]((_, _) => 0.0), new real[u.Length0, u.Length1]((_, _) => 0.0);
    Divergence(u, v, div, dx, dy);
    Curl(u, v, curl, dx, dy);
    forall i, j | Interior(u, i, j)
      ensures var x, y := Grid(i, dx), Grid(j, dy);
        div[i, j] == SlopeX(p, x, y) + SlopeY(q, x, y) && curl[i, j] == SlopeX(q, x, y) - SlopeY(p, x, y)
    {
      AlongXExact(u, p, dx, dy, i, j);
      AlongYExact(u, p, dx, dy, i, j);
      AlongXExact(v, q, dx, dy, i, j);
      AlongYExact(v, q, dx, dy, i, j);
    }
  }

  /** The Laplacian of a sampled field of degree two. */
  method LaplacianOfField(u: array2<real>, p: Field, dx: real, dy: real) returns (lap: array2<real>)
    requires u.Length0 >= 2 && u.Length1 >= 2 && dx != 0.0 && dy != 0.0 && SamplesField(u, p, dx, dy)
    ensures SameShape(u, lap) && forall i, j | Interior(u, i, j) :: lap[i, j] == 2.0 * p.xx + 2.0 * p.yy
  {
    lap := new real[u.Length0, u.Length1]((_, _) => 0.0);
    Laplacian(u, lap, dx, dy);
    forall i, j | Interior(u, i, j) ensures lap[i, j] == 2.0 * p.xx + 2.0 * p.yy {
      AlongXExact(u, p, dx, dy, i, j);
      AlongYExact(u, p, dx, dy, i, j);
    }
  }

  /** All differences of equal values are zero, at the edges too. */
  lemma FlatEverywhere(u: array2<real>, v: real, dx: real, dy: real, order: int, i: int, j: int)
    requires dx != 0.0 && dy != 0.0 && Inside(u, i, j) && forall k, l | Inside(u, k, l) :: u[k, l] == v
    ensures AlongX(u, dx, order, i, j) == 0.0 && AlongY(u, dy, order, i, j) == 0.0
  {
    StencilsFlat(v, dx, order);
    StencilsFlat(v, dy, order);
  }
}
