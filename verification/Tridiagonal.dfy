/** The Thomas algorithm for tridiagonal systems. */
module Tridiagonal {
  import opened Sums
  import opened LinAlg

  datatype Status = Success | ErrSingular | ErrInvalidSize

  /** Lower, main and upper diagonal and right-hand side of an n by n system. */
  datatype System = System(a: Vec, b: Vec, c: Vec, d: Vec)

  predicate SizesMatch(s: System) {
    |s.b| >= 1 && |s.a| == |s.c| == |s.b| - 1 && |s.d| == |s.b|
  }

  /** Row i of the system holds for x. */
  ghost predicate RowHolds(s: System, x: Vec, i: int)
    requires SizesMatch(s) && |x| == |s.b| && 0 <= i < |s.b|
  {
    (if i == 0 then 0.0 else s.a[i - 1] * x[i - 1]) + s.b[i] * x[i]
    + (if i == |s.b| - 1 then 0.0 else s.c[i] * x[i + 1]) == s.d[i]
  }

  ghost predicate Solves(s: System, x: Vec)
    requires SizesMatch(s)
  {
    |x| == |s.b| && forall i | 0 <= i < |x| :: RowHolds(s, x, i)
  }

  /** Quotient with 0 in place of an undefined result. */
  function Quot(p: real, q: real): real {
    if q == 0.0 then 0.0 else p / q
  }

  /** The i-th pivot of the forward sweep. */
  ghost function Pivot(s: System, i: nat): real
    requires SizesMatch(s) && i < |s.b|
    decreases i, 0
  {
    if i == 0 then s.b[0] else SubMul(s.b[i], s.a[i - 1], UpperRatio(s, i - 1))
  }

  ghost function UpperRatio(s: System, i: nat): real
    requires SizesMatch(s) && i < |s.c|
    decreases i, 1
  {
    Quot(s.c[i], Pivot(s, i))
  }

  ghost function Rhs(s: System, i: nat): real
    requires SizesMatch(s) && i < |s.b|
  {
    if i == 0 then Quot(s.d[0], Pivot(s, 0)) else Quot(SubMul(s.d[i], s.a[i - 1], Rhs(s, i - 1)), Pivot(s, i))
  }

  ghost predicate PivotsNonZero(s: System)
    requires SizesMatch(s)
  {
    forall i | 0 <= i < |s.b| :: Pivot(s, i) != 0.0
  }

  /** x satisfies row i of the eliminated, bidiagonal system. */
  ghost predicate Eliminated(s: System, x: Vec, i: int)
    requires SizesMatch(s) && |x| == |s.b| && 0 <= i < |s.b|
  {
    x[i] == if i == |s.b| - 1 then Rhs(s, i) else SubMul(Rhs(s, i), UpperRatio(s, i), x[i + 1])
  }

  /** a, b, c, d: the row; x0, x1, x2: the unknowns it couples; r0, u0: the row
      above after elimination; m, r1, u1: this row after elimination. */
  lemma RowStep(a: real, b: real, c: real, d: real, x0: real, x1: real, x2: real,
                r0: real, u0: real, m: real, r1: real, u1: real)
    requires m != 0.0 && m == SubMul(b, a, u0) && r1 == Quot(SubMul(d, a, r0), m) && u1 == Quot(c, m)
    requires x0 == SubMul(r0, u0, x1)
    ensures a * x0 + b * x1 + c * x2 == d <==> x1 == SubMul(r1, u1, x2)
  {
    assert m * r1 == d - a * r0 && m * u1 == c;
    assert m * (r1 - u1 * x2) == m * r1 - (m * u1) * x2;
    assert a * x0 + b * x1 == a * r0 + m * x1 by {
      assert a * x0 == a * r0 - a * (u0 * x1);
      assert a * (u0 * x1) == (a * u0) * x1;
    }
    if a * x0 + b * x1 + c * x2 == d {
      assert m * x1 == m * (r1 - u1 * x2);
      CancelMul(m, x1, r1 - u1 * x2);
    }
  }

  /** Given the row above eliminated, a row holds exactly when its eliminated form does. */
  lemma RowIffEliminated(s: System, x: Vec, i: nat)
    requires SizesMatch(s) && |x| == |s.b| && i < |s.b| && PivotsNonZero(s)
    requires i > 0 ==> Eliminated(s, x, i - 1)
    ensures RowHolds(s, x, i) <==> Eliminated(s, x, i)
  {
    var n := |s.b|;
    var a, r0, u0, x0 := 0.0, 0.0, 0.0, 0.0;
    if i > 0 { a, r0, u0, x0 := s.a[i - 1], Rhs(s, i - 1), UpperRatio(s, i - 1), x[i - 1]; }
    var c, u1, x2 := 0.0, 0.0, 0.0;
    if i < n - 1 { c, u1, x2 := s.c[i], UpperRatio(s, i), x[i + 1]; }
    if i > 0 {
      RowStep(a, s.b[i], c, s.d[i], x0, x[i], x2, r0, u0, Pivot(s, i), Rhs(s, i), u1);
    } else {
      RowStep(0.0, s.b[i], c, s.d[i], SubMul(0.0, 0.0, x[i]), x[i], x2, 0.0, 0.0, Pivot(s, i), Rhs(s, i), u1);
    }
  }

  lemma {:induction false} SolvesIffEliminated(s: System, x: Vec, k: nat)
    requires SizesMatch(s) && |x| == |s.b| && PivotsNonZero(s) && k <= |s.b|
    ensures (forall i | 0 <= i < k :: RowHolds(s, x, i)) <==> (forall i | 0 <= i < k :: Eliminated(s, x, i))
  {
    if k > 0 {
      SolvesIffEliminated(s, x, k - 1);
      if forall i | 0 <= i < k - 1 :: Eliminated(s, x, i) { RowIffEliminated(s, x, k - 1); }
    }
  }

  /** The eliminated system has one solution. */
  lemma {:induction false} EliminatedUnique(s: System, x: Vec, z: Vec, k: nat)
    requires SizesMatch(s) && |x| == |z| == |s.b| && k < |s.b|
    requires forall i | 0 <= i < |s.b| :: Eliminated(s, x, i) && Eliminated(s, z, i)
    ensures x[k] == z[k]
    decreases |s.b| - k
  {
    assert Eliminated(s, x, k) && Eliminated(s, z, k);
    if k < |s.b| - 1 { EliminatedUnique(s, x, z, k + 1); }
  }

  lemma SolutionUnique(s: System, x: Vec, z: Vec)
    requires SizesMatch(s) && PivotsNonZero(s) && Solves(s, x) && Solves(s, z)
    ensures x == z
  {
    SolvesIffEliminated(s, x, |s.b|);
    SolvesIffEliminated(s, z, |s.b|);
    forall k | 0 <= k < |s.b| ensures x[k] == z[k] { EliminatedUnique(s, x, z, k); }
  }

  /** Row dominance with a margin of TOL_DEFAULT. */
  ghost predicate Dominant(s: System)
    requires SizesMatch(s)
  {
    forall i | 0 <= i < |s.b| :: DominantRow(s, i)
  }

  ghost predicate DominantRow(s: System, i: int)
    requires SizesMatch(s) && 0 <= i < |s.b|
  {
    Abs(s.b[i]) >= (if i == 0 then 0.0 else Abs(s.a[i - 1])) + (if i == |s.b| - 1 then 0.0 else Abs(s.c[i])) + TOL_DEFAULT
  }

  lemma AbsMul(a: real, b: real)
    ensures Abs(Mul(a, b)) == Mul(Abs(a), Abs(b))
  {
    if a >= 0.0 { if b >= 0.0 { assert a * b >= 0.0; } else { assert a * (-b) >= 0.0; } }
    else { if b >= 0.0 { assert (-a) * b >= 0.0; } else { assert (-a) * (-b) >= 0.0; } }
  }

  lemma RatioSmall(c: real, m: real, u: real)
    requires m != 0.0 && Abs(m) >= Abs(c) && u == Quot(c, m)
    ensures Abs(u) <= 1.0
  {
    assert Mul(u, m) == c;
    AbsMul(u, m);
    if Abs(u) > 1.0 { GrowBy(Abs(u), Abs(m)); }
  }

  lemma GrowBy(p: real, q: real)
    requires p > 1.0 && q > 0.0
    ensures Mul(p, q) > q
  {
    assert (p - 1.0) * q > 0.0;
  }

  lemma ShrinkBy(p: real, q: real)
    requires p >= 0.0 && q <= 1.0
    ensures Mul(p, q) <= p
  {
    if q < 1.0 && p > 0.0 { MulPos(p, 1.0 - q, p - p * q); }
  }

  lemma PivotBound(b: real, a: real, u: real, c: real)
    requires Abs(u) <= 1.0 && Abs(b) >= Abs(a) + Abs(c) + TOL_DEFAULT
    ensures Abs(SubMul(b, a, u)) >= Abs(c) + TOL_DEFAULT
  {
    AbsMul(a, u);
    ShrinkBy(Abs(a), Abs(u));
  }

  /** Dominance keeps every pivot at least TOL_DEFAULT away from zero. */
  lemma {:induction false} DominantPivots(s: System, i: nat)
    requires SizesMatch(s) && Dominant(s) && i < |s.b|
    ensures Abs(Pivot(s, i)) >= TOL_DEFAULT + (if i == |s.b| - 1 then 0.0 else Abs(s.c[i]))
    ensures i < |s.c| ==> Abs(UpperRatio(s, i)) <= 1.0
  {
    assert DominantRow(s, i);
    if i > 0 {
      DominantPivots(s, i - 1);
      PivotBound(s.b[i], s.a[i - 1], UpperRatio(s, i - 1), if i == |s.b| - 1 then 0.0 else s.c[i]);
    }
    if i < |s.c| { RatioSmall(s.c[i], Pivot(s, i), UpperRatio(s, i)); }
  }

  ghost predicate Sizable(s: System, k: nat)
    requires SizesMatch(s) && k < |s.b|
  {
    Abs(Pivot(s, k)) >= TOL_DEFAULT
  }

  /** Some pivot after the first is below the tolerance. */
  ghost predicate Singular(s: System)
    requires SizesMatch(s)
  {
    exists i | 1 <= i < |s.b| :: !Sizable(s, i)
  }

  lemma DominantNotSingular(s: System)
    requires SizesMatch(s) && Dominant(s)
    ensures !Singular(s) && s.b[0] != 0.0
  {
    forall i | 0 <= i < |s.b| ensures Abs(Pivot(s, i)) >= TOL_DEFAULT { DominantPivots(s, i); }
    assert Abs(Pivot(s, 0)) >= TOL_DEFAULT;
  }

  ghost predicate Swept(s: System, cp: seq<real>, dp: seq<real>)
    requires SizesMatch(s)
  {
    && |cp| == |s.c| && |dp| == |s.b|
    && (forall k | 0 <= k < |cp| :: cp[k] == UpperRatio(s, k))
    && (forall k | 0 <= k < |dp| :: dp[k] == Rhs(s, k))
  }

  /** The first i entries of the sweep are done. */
  ghost predicate SweptTo(s: System, cp: seq<real>, dp: seq<real>, i: nat)
    requires SizesMatch(s) && i <= |cp| == |s.c| && |dp| == |s.b|
  {
    && (forall k {:trigger cp[k]} | 0 <= k < i :: cp[k] == UpperRatio(s, k))
    && (forall k {:trigger dp[k]} | 0 <= k < i :: dp[k] == Rhs(s, k))
    && (forall k {:trigger Sizable(s, k)} | 1 <= k < i :: Sizable(s, k))
  }

  /** The forward sweep stops at the first pivot below the tolerance. */
  method ForwardSweep(s: System) returns (singular: bool, cp: array<real>, dp: array<real>)
    requires SizesMatch(s) && |s.b| >= 2 && s.b[0] != 0.0
    ensures fresh(cp) && fresh(dp)
    ensures singular <==> Singular(s)
    ensures !singular ==> PivotsNonZero(s) && Swept(s, cp[..], dp[..])
  {
    var n := |s.b|;
    cp, dp := new real[n - 1], new real[n];
    cp[0], dp[0] := Quot(s.c[0], s.b[0]), Quot(s.d[0], s.b[0]);
    for i := 1 to n - 1
      invariant SweptTo(s, cp[..], dp[..], i)
    {
      assert cp[i - 1] == cp[..][i - 1] && dp[i - 1] == dp[..][i - 1];
      var m := SubMul(s.b[i], s.a[i - 1], cp[i - 1]);
      assert m == Pivot(s, i);
      if Abs(m) < TOL_DEFAULT {
        assert !Sizable(s, i);
        return true, cp, dp;
      }
      cp[i] := Quot(s.c[i], m);
      dp[i] := Quot(SubMul(s.d[i], s.a[i - 1], dp[i - 1]), m);
    }
    assert cp[n - 2] == cp[..][n - 2] && dp[n - 2] == dp[..][n - 2];
    var m := SubMul(s.b[n - 1], s.a[n - 2], cp[n - 2]);
    assert m == Pivot(s, n - 1);
    if Abs(m) < TOL_DEFAULT {
      assert !Sizable(s, n - 1);
      return true, cp, dp;
    }
    dp[n - 1] := Quot(SubMul(s.d[n - 1], s.a[n - 2], dp[n - 2]), m);
    forall k | 0 <= k < n ensures Pivot(s, k) != 0.0 { if k > 0 { assert Sizable(s, k); } }
    singular := false;
  }

  /** Division by the first pivot is unguarded and the last row reads a(n-1), so a
      conforming call needs n >= 2 and b(1) /= 0. */
  method SolveTridiagonal(s: System, x: array<real>) returns (status: Status)
    requires SizesMatch(s) && x.Length == |s.b| ==> |s.b| >= 2 && s.b[0] != 0.0
    modifies x
    ensures status == ErrInvalidSize <==> !(|s.a| == |s.c| == |s.b| - 1 && |s.d| == x.Length == |s.b|)
    ensures status == ErrSingular <==> SizesMatch(s) && x.Length == |s.b| && Singular(s)
    ensures status == Success ==> Solves(s, x[..]) && forall z: Vec | Solves(s, z) :: z == x[..]
    ensures status != Success ==> x[..] == old(x[..])
    ensures SizesMatch(s) && x.Length == |s.b| && Dominant(s) ==> status == Success
  {
    var n := |s.b|;
    if |s.a| != n - 1 || |s.c| != n - 1 || |s.d| != n || x.Length != n {
      return ErrInvalidSize;
    }
    if Dominant(s) { DominantNotSingular(s); }
    var singular, cp, dp := ForwardSweep(s);
    if singular {
      return ErrSingular;
    }
    ghost var ratios, rhs := cp[..], dp[..];
    x[n - 1] := dp[n - 1];
    for i := n - 1 downto 0
      invariant cp[..] == ratios && dp[..] == rhs
      invariant x[n - 1] == rhs[n - 1]
      invariant forall k | i <= k < n - 1 :: x[k] == SubMul(rhs[k], ratios[k], x[k + 1])
    {
      x[i] := SubMul(dp[i], cp[i], x[i + 1]);
    }
    status := Success;
    BackSubstituted(s, ratios, rhs, x[..]);
  }

  lemma BackSubstituted(s: System, cp: seq<real>, dp: seq<real>, x: Vec)
    requires SizesMatch(s) && PivotsNonZero(s) && Swept(s, cp, dp) && |x| == |s.b|
    requires x[|x| - 1] == dp[|x| - 1]
    requires forall k | 0 <= k < |x| - 1 :: x[k] == SubMul(dp[k], cp[k], x[k + 1])
    ensures Solves(s, x) && forall z: Vec | Solves(s, z) :: z == x
  {
    forall k | 0 <= k < |x| ensures Eliminated(s, x, k) {}
    SolvesIffEliminated(s, x, |x|);
    forall z: Vec | Solves(s, z) ensures z == x { SolutionUnique(s, z, x); }
  }
}
