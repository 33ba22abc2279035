/** Second-order periodic finite differences: directional derivatives, gradient, divergence, curl and Laplacian. */
module FiniteDifference {
  import opened Sums
  import opened FiniteVolume

  function Centred(l: real, r: real, inv: real): real {
    0.5 * (r - l) * inv
  }

  function Second(l: real, c: real, r: real, inv2: real): real {
    (l - 2.0 * c + r) * inv2
  }

  /** The stencil of the given order for grid spacing h; orders other than 1 and 2 give zero. */
  function Stencil(order: int, l: real, c: real, r: real, h: real): real
    requires h != 0.0
  {
    if order == 1 then Centred(l, r, 1.0 / h)
    else if order == 2 then Second(l, c, r, InvSquare(h))
    else 0.0
  }

  function InvSquare(h: real): real
    requires h != 0.0
  {
    1.0 / (h * h)
  }

  // One dimension

  method FirstDerivative(u: array<real>, du: array<real>, inv: real)
    requires u.Length >= 2 && du.Length == u.Length && u != du
    modifies du
    ensures forall i | 0 <= i < u.Length :: du[i] == Centred(u[Left(i, u.Length)], u[Right(i, u.Length)], inv)
  {
    var n := u.Length;
    for i := 1 to n - 1
      invariant forall k | 1 <= k < i :: du[k] == Centred(u[k - 1], u[k + 1], inv)
    {
      du[i] := Centred(u[i - 1], u[i + 1], inv);
    }
    du[0] := Centred(u[n - 1], u[1], inv);
    du[n - 1] := Centred(u[n - 2], u[0], inv);
  }

  /** The loop over the interior points. */
  method SecondInside(u: array<real>, du: array<real>, inv2: real)
    requires u.Length >= 2 && du.Length == u.Length && u != du
    modifies du
    ensures forall k | 1 <= k < u.Length - 1 :: du[k] == Second(u[k - 1], u[k], u[k + 1], inv2)
  {
    for i := 1 to u.Length - 1
      invariant forall k | 1 <= k < i :: du[k] == Second(u[k - 1], u[k], u[k + 1], inv2)
    {
      du[i] := Second(u[i - 1], u[i], u[i + 1], inv2);
    }
  }

  method SecondDerivative(u: array<real>, du: array<real>, inv2: real)
    requires u.Length >= 2 && du.Length == u.Length && u != du
    modifies du
    ensures forall i | 0 <= i < u.Length :: du[i] == Second(u[Left(i, u.Length)], u[i], u[Right(i, u.Length)], inv2)
  {
    var n := u.Length;
    SecondInside(u, du, inv2);
    du[0] := Second(u[n - 1], u[0], u[1], inv2);
    du[n - 1] := Second(u[n - 2], u[n - 1], u[0], inv2);
  }

  method Derivative(u: array<real>, du: array<real>, h: real, order: int)
    requires u.Length >= 2 && du.Length == u.Length && u != du && h != 0.0
    modifies du
    ensures forall i | 0 <= i < u.Length :: du[i] == Stencil(order, u[Left(i, u.Length)], u[i], u[Right(i, u.Length)], h)
  {
    if order == 1 {
      FirstDerivative(u, du, 1.0 / h);
    } else if order == 2 {
      SecondDerivative(u, du, InvSquare(h));
    } else {
      for i := 0 to u.Length
        invariant forall k | 0 <= k < i :: du[k] == 0.0
      {
        du[i] := 0.0;
      }
    }
  }

  // Two dimensions, on arrays

  predicate SameShape(u: array2<real>, v: array2<real>) {
    v.Length0 == u.Length0 && v.Length1 == u.Length1
  }

  predicate Inside(u: array2<real>, i: int, j: int) {
    0 <= i < u.Length0 && 0 <= j < u.Length1
  }

  /** The derivative in the first index at one cell. */
  function AlongX(u: array2<real>, h: real, order: int, i: int, j: int): real
    requires Inside(u, i, j) && h != 0.0
    reads u
  {
    Stencil(order, u[Left(i, u.Length0), j], u[i, j], u[Right(i, u.Length0), j], h)
  }

  /** The derivative in the second index at one cell. */
  function AlongY(u: array2<real>, h: real, order: int, i: int, j: int): real
    requires Inside(u, i, j) && h != 0.0
    reads u
  {
    Stencil(order, u[i, Left(j, u.Length1)], u[i, j], u[i, Right(j, u.Length1)], h)
  }

  ghost predicate IsAlongX(u: array2<real>, du: array2<real>, h: real, order: int)
    requires SameShape(u, du) && h != 0.0
    reads u, du
  {
    forall i, j {:trigger du[i, j]} | Inside(u, i, j) :: du[i, j] == AlongX(u, h, order, i, j)
  }

  ghost predicate IsAlongY(u: array2<real>, du: array2<real>, h: real, order: int)
    requires SameShape(u, du) && h != 0.0
    reads u, du
  {
    forall i, j {:trigger du[i, j]} | Inside(u, i, j) :: du[i, j] == AlongY(u, h, order, i, j)
  }

  /** The derivative of column j, through a copied slice. */
  method ColumnX(u: array2<real>, du: array2<real>, j: nat, h: real, order: int)
    requires u.Length0 >= 2 && SameShape(u, du) && u != du && h != 0.0 && j < u.Length1
    modifies du
    ensures forall i | 0 <= i < u.Length0 :: du[i, j] == AlongX(u, h, order, i, j)
    ensures forall i, k | Inside(u, i, k) && k != j :: du[i, k] == old(du[i, k])
  {
    var n := u.Length0;
    var slice, dSlice := new real[n](_ => 0.0), new real[n](_ => 0.0);
    for i := 0 to n
      invariant forall k | 0 <= k < i :: slice[k] == u[k, j]
      invariant forall i, k | Inside(u, i, k) :: du[i, k] == old(du[i, k])
    {
      slice[i] := u[i, j];
    }
    Derivative(slice, dSlice, h, order);
    forall i | 0 <= i < n ensures dSlice[i] == AlongX(u, h, order, i, j) {
      assert slice[Left(i, n)] == u[Left(i, n), j] && slice[Right(i, n)] == u[Right(i, n), j];
    }
    for i := 0 to n
      invariant forall k | 0 <= k < n :: dSlice[k] == AlongX(u, h, order, k, j)
      invariant forall k | 0 <= k < i :: du[k, j] == AlongX(u, h, order, k, j)
      invariant forall i, k | Inside(u, i, k) && k != j :: du[i, k] == old(du[i, k])
    {
      du[i, j] := dSlice[i];
    }
  }

  /** The derivative of row i, through a copied slice. */
  method RowY(u: array2<real>, du: array2<real>, i: nat, h: real, order: int)
    requires u.Length1 >= 2 && SameShape(u, du) && u != du && h != 0.0 && i < u.Length0
    modifies du
    ensures forall j | 0 <= j < u.Length1 :: du[i, j] == AlongY(u, h, order, i, j)
    ensures forall k, j | Inside(u, k, j) && k != i :: du[k, j] == old(du[k, j])
  {
    var n := u.Length1;
    var slice, dSlice := new real[n](_ => 0.0), new real[n](_ => 0.0);
    for j := 0 to n
      invariant forall k | 0 <= k < j :: slice[k] == u[i, k]
      invariant forall k, j | Inside(u, k, j) :: du[k, j] == old(du[k, j])
    {
      slice[j] := u[i, j];
    }
    Derivative(slice, dSlice, h, order);
    forall j | 0 <= j < n ensures dSlice[j] == AlongY(u, h, order, i, j) {
      assert slice[Left(j, n)] == u[i, Left(j, n)] && slice[Right(j, n)] == u[i, Right(j, n)];
    }
    for j := 0 to n
      invariant forall k | 0 <= k < n :: dSlice[k] == AlongY(u, h, order, i, k)
      invariant forall k | 0 <= k < j :: du[i, k] == AlongY(u, h, order, i, k)
      invariant forall k, j | Inside(u, k, j) && k != i :: du[k, j] == old(du[k, j])
    {
      du[i, j] := dSlice[j];
    }
  }

  method DerivativeX(u: array2<real>, du: array2<real>, h: real, order: int)
    requires u.Length0 >= 2 && SameShape(u, du) && u != du && h != 0.0
    modifies du
    ensures IsAlongX(u, du, h, order)
  {
    for j := 0 to u.Length1
      invariant forall i, k | Inside(u, i, k) && k < j :: du[i, k] == AlongX(u, h, order, i, k)
    {
      ColumnX(u, du, j, h, order);
    }
  }

  method DerivativeY(u: array2<real>, du: array2<real>, h: real, order: int)
    requires u.Length1 >= 2 && SameShape(u, du) && u != du && h != 0.0
    modifies du
    ensures IsAlongY(u, du, h, order)
  {
    for i := 0 to u.Length0
      invariant forall k, j | Inside(u, k, j) && k < i :: du[k, j] == AlongY(u, h, order, k, j)
    {
      RowY(u, du, i, h, order);
    }
  }

  method Gradient(u: array2<real>, gx: array2<real>, gy: array2<real>, dx: real, dy: real)
    requires u.Length0 >= 2 && u.Length1 >= 2 && SameShape(u, gx) && SameShape(u, gy) && u != gx && gx != gy && gy != u
    requires dx != 0.0 && dy != 0.0
    modifies gx, gy
    ensures IsAlongX(u, gx, dx, 1) && IsAlongY(u, gy, dy, 1)
  {
    DerivativeX(u, gx, dx, 1);
    DerivativeY(u, gy, dy, 1);
  }

  /** The whole-array sum or difference. */
  method Combine(a: array2<real>, b: array2<real>, c: array2<real>, sign: real)
    requires SameShape(a, b) && SameShape(a, c) && a != c && b != c
    modifies c
    ensures forall i, j {:trigger c[i, j]} | Inside(a, i, j) :: c[i, j] == Fma(a[i, j], sign, b[i, j])
  {
    for i := 0 to a.Length0
      invariant forall k, j {:trigger c[k, j]} | Inside(a, k, j) && k < i :: c[k, j] == Fma(a[k, j], sign, b[k, j])
    {
      for j := 0 to a.Length1
        invariant forall k, l {:trigger c[k, l]} | Inside(a, k, l) && (k < i || (k == i && l < j)) ::
          c[k, l] == Fma(a[k, l], sign, b[k, l])
      {
        c[i, j] := Fma(a[i, j], sign, b[i, j]);
      }
    }
  }

  /** d fx/dx + d fy/dy. */
  method Divergence(fx: array2<real>, fy: array2<real>, div: array2<real>, dx: real, dy: real)
    requires fx.Length0 >= 2 && fx.Length1 >= 2 && SameShape(fx, fy) && SameShape(fx, div) && fx != div && fy != div
    requires dx != 0.0 && dy != 0.0
    modifies div
    ensures forall i, j | Inside(fx, i, j) :: div[i, j] == AlongX(fx, dx, 1, i, j) + AlongY(fy, dy, 1, i, j)
  {
    var nx, ny := fx.Length0, fx.Length1;
    var dfxdx, dfydy := new real[nx, ny]((_, _) => 0.0), new real[nx, ny]((_, _) => 0.0);
    DerivativeX(fx, dfxdx, dx, 1);
    DerivativeY(fy, dfydy, dy, 1);
    Combine(dfxdx, dfydy, div, 1.0);
  }

  /** d fy/dx - d fx/dy. */
  method Curl(fx: array2<real>, fy: array2<real>, curl: array2<real>, dx: real, dy: real)
    requires fx.Length0 >= 2 && fx.Length1 >= 2 && SameShape(fx, fy) && SameShape(fx, curl) && fx != curl && fy != curl
    requires dx != 0.0 && dy != 0.0
    modifies curl
    ensures forall i, j | Inside(fx, i, j) :: curl[i, j] == AlongX(fy, dx, 1, i, j) - AlongY(fx, dy, 1, i, j)
  {
    var nx, ny := fx.Length0, fx.Length1;
    var dfydx, dfxdy := new real[nx, ny]((_, _) => 0.0), new real[nx, ny]((_, _) => 0.0);
    DerivativeX(fy, dfydx, dx, 1);
    DerivativeY(fx, dfxdy, dy, 1);
    Combine(dfydx, dfxdy, curl, -1.0);
  }

  // Mixed differences commute

  lemma MixedStencils(ll: real, lr: real, rl: real, rr: real, a: real, b: real)
    ensures Centred(Centred(ll, lr, b), Centred(rl, rr, b), a) == Centred(Centred(ll, rl, a), Centred(lr, rr, a), b)
  {}

  /** On every periodic grid the discrete curl of a discrete gradient is exactly zero. */
  lemma CurlOfGradientIsZero(u: array2<real>, gx: array2<real>, gy: array2<real>, dx: real, dy: real, i: int, j: int)
    requires SameShape(u, gx) && SameShape(u, gy) && dx != 0.0 && dy != 0.0 && Inside(u, i, j)
    requires IsAlongX(u, gx, dx, 1) && IsAlongY(u, gy, dy, 1)
    ensures AlongX(gy, dx, 1, i, j) - AlongY(gx, dy, 1, i, j) == 0.0
  {
    var l, r, d, t := Left(i, u.Length0), Right(i, u.Length0), Left(j, u.Length1), Right(j, u.Length1);
    var a, b := 1.0 / dx, 1.0 / dy;
    assert gy[l, j] == Centred(u[l, d], u[l, t], b) && gy[r, j] == Centred(u[r, d], u[r, t], b);
    assert gx[i, d] == Centred(u[l, d], u[r, d], a) && gx[i, t] == Centred(u[l, t], u[r, t], a);
    MixedStencils(u[l, d], u[l, t], u[r, d], u[r, t], a, b);
  }

  method CurlOfGradient(u: array2<real>, dx: real, dy: real) returns (curl: array2<real>)
    requires u.Length0 >= 2 && u.Length1 >= 2 && dx != 0.0 && dy != 0.0
    ensures fresh(curl) && SameShape(u, curl) && forall i, j | Inside(u, i, j) :: curl[i, j] == 0.0
  {
    var nx, ny := u.Length0, u.Length1;
    var gx, gy := new real[nx, ny]((_, _) => 0.0), new real[nx, ny]((_, _) => 0.0);
    curl := new real[nx, ny]((_, _) => 0.0);
    Gradient(u, gx, gy, dx, dy);
    Curl(gx, gy, curl, dx, dy);
    forall i, j | Inside(u, i, j) ensures curl[i, j] == 0.0 { CurlOfGradientIsZero(u, gx, gy, dx, dy, i, j); }
  }

  // The Laplacian, case by case

  /** The five-point stencil. */
  function Five(l: real, r: real, d: real, t: real, c: real, kx: real, ky: real): real {
    Second(l, c, r, kx) + Second(d, c, t, ky)
  }

  function FiveAt(u: array2<real>, kx: real, ky: real, i: int, j: int): real
    requires Inside(u, i, j)
    reads u
  {
    Five(u[Left(i, u.Length0), j], u[Right(i, u.Length0), j], u[i, Left(j, u.Length1)], u[i, Right(j, u.Length1)], u[i, j],
         kx, ky)
  }

  /** The cells of row j away from the left and right edge; jl and jr are the rows below and above it. */
  method RowCells(u: array2<real>, lap: array2<real>, j: nat, jl: nat, jr: nat, kx: real, ky: real)
    requires u.Length0 >= 2 && u.Length1 >= 2 && SameShape(u, lap) && u != lap
    requires j < u.Length1 && jl == Left(j, u.Length1) && jr == Right(j, u.Length1)
    modifies lap
    ensures forall i | 1 <= i < u.Length0 - 1 :: lap[i, j] == FiveAt(u, kx, ky, i, j)
    ensures forall i, k | Inside(u, i, k) && k != j :: lap[i, k] == old(lap[i, k])
  {
    for i := 1 to u.Length0 - 1
      invariant forall k | 1 <= k < i :: lap[k, j] == FiveAt(u, kx, ky, k, j)
      invariant forall i, k | Inside(u, i, k) && k != j :: lap[i, k] == old(lap[i, k])
    {
      lap[i, j] := Five(u[i - 1, j], u[i + 1, j], u[i, jl], u[i, jr], u[i, j], kx, ky);
    }
  }

  /** The cells of edge column i away from the corners; il and ir are the columns left and right of it. */
  method EdgeCells(u: array2<real>, lap: array2<real>, i: nat, il: nat, ir: nat, kx: real, ky: real)
    requires u.Length0 >= 2 && u.Length1 >= 2 && SameShape(u, lap) && u != lap
    requires i < u.Length0 && il == Left(i, u.Length0) && ir == Right(i, u.Length0)
    modifies lap
    ensures forall j | 1 <= j < u.Length1 - 1 :: lap[i, j] == FiveAt(u, kx, ky, i, j)
    ensures forall k, j | Inside(u, k, j) && k != i :: lap[k, j] == old(lap[k, j])
  {
    for j := 1 to u.Length1 - 1
      invariant forall k | 1 <= k < j :: lap[i, k] == FiveAt(u, kx, ky, i, k)
      invariant forall k, j | Inside(u, k, j) && k != i :: lap[k, j] == old(lap[k, j])
    {
      lap[i, j] := Five(u[il, j], u[ir, j], u[i, j - 1], u[i, j + 1], u[i, j], kx, ky);
    }
  }

  /** Interior rows, then bottom and top row, all without their end cells. */
  method MiddleColumns(u: array2<real>, lap: array2<real>, kx: real, ky: real)
    requires u.Length0 >= 2 && u.Length1 >= 2 && SameShape(u, lap) && u != lap
    modifies lap
    ensures forall i, j | Inside(u, i, j) && 1 <= i < u.Length0 - 1 :: lap[i, j] == FiveAt(u, kx, ky, i, j)
  {
    var ny := u.Length1;
    for j := 1 to ny - 1
      invariant forall i, k | Inside(u, i, k) && 1 <= i < u.Length0 - 1 && 1 <= k < j :: lap[i, k] == FiveAt(u, kx, ky, i, k)
    {
      RowCells(u, lap, j, j - 1, j + 1, kx, ky);
    }
    RowCells(u, lap, 0, ny - 1, 1, kx, ky);
    RowCells(u, lap, ny - 1, ny - 2, 0, kx, ky);
  }

  /** One cell, given the indices of its four neighbours. */
  method OneCell(u: array2<real>, lap: array2<real>, i: nat, j: nat, il: nat, ir: nat, jl: nat, jr: nat, kx: real, ky: real)
    requires u.Length0 >= 2 && u.Length1 >= 2 && SameShape(u, lap) && u != lap
    requires i < u.Length0 && il == Left(i, u.Length0) && ir == Right(i, u.Length0)
    requires j < u.Length1 && jl == Left(j, u.Length1) && jr == Right(j, u.Length1)
    modifies lap
    ensures lap[i, j] == FiveAt(u, kx, ky, i, j)
    ensures forall k, l | Inside(u, k, l) && (k != i || l != j) :: lap[k, l] == old(lap[k, l])
  {
    lap[i, j] := Five(u[il, j], u[ir, j], u[i, jl], u[i, jr], u[i, j], kx, ky);
  }

  method Corners(u: array2<real>, lap: array2<real>, kx: real, ky: real)
    requires u.Length0 >= 2 && u.Length1 >= 2 && SameShape(u, lap) && u != lap
    modifies lap
    ensures forall i, j | Inside(u, i, j) && (i == 0 || i == u.Length0 - 1) && (j == 0 || j == u.Length1 - 1) ::
      lap[i, j] == FiveAt(u, kx, ky, i, j)
    ensures forall i, j | Inside(u, i, j) && (0 < i < u.Length0 - 1 || 0 < j < u.Length1 - 1) :: lap[i, j] == old(lap[i, j])
  {
    var x, y := u.Length0 - 1, u.Length1 - 1;
    OneCell(u, lap, 0, 0, x, 1, y, 1, kx, ky);
    OneCell(u, lap, x, 0, x - 1, 0, y, 1, kx, ky);
    OneCell(u, lap, 0, y, x, 1, y - 1, 0, kx, ky);
    OneCell(u, lap, x, y, x - 1, 0, y - 1, 0, kx, ky);
  }

  method FillLaplacian(u: array2<real>, lap: array2<real>, kx: real, ky: real)
    requires u.Length0 >= 2 && u.Length1 >= 2 && SameShape(u, lap) && u != lap
    modifies lap
    ensures forall i, j | Inside(u, i, j) :: lap[i, j] == FiveAt(u, kx, ky, i, j)
  {
    MiddleColumns(u, lap, kx, ky);
    EdgeCells(u, lap, 0, u.Length0 - 1, 1, kx, ky);
    EdgeCells(u, lap, u.Length0 - 1, u.Length0 - 2, 0, kx, ky);
    Corners(u, lap, kx, ky);
  }

  lemma SumOfSeconds(u: array2<real>, dx: real, dy: real, i: int, j: int)
    requires Inside(u, i, j) && dx != 0.0 && dy != 0.0
    ensures FiveAt(u, InvSquare(dx), InvSquare(dy), i, j) == AlongX(u, dx, 2, i, j) + AlongY(u, dy, 2, i, j)
  {}

  /** The nine-case Laplacian equals the sum of the two directional second derivatives, cell by cell. */
  method Laplacian(u: array2<real>, lap: array2<real>, dx: real, dy: real)
    requires u.Length0 >= 2 && u.Length1 >= 2 && SameShape(u, lap) && u != lap && dx != 0.0 && dy != 0.0
    modifies lap
    ensures forall i, j | Inside(u, i, j) :: lap[i, j] == AlongX(u, dx, 2, i, j) + AlongY(u, dy, 2, i, j)
  {
    FillLaplacian(u, lap, InvSquare(dx), InvSquare(dy));
    forall i, j | Inside(u, i, j) ensures lap[i, j] == AlongX(u, dx, 2, i, j) + AlongY(u, dy, 2, i, j) {
      SumOfSeconds(u, dx, dy, i, j);
    }
  }
}
