/** Solving with precomputed LU and Cholesky factors. */
module TriangularSolve {
  import opened Sums
  import opened LinAlg

  datatype Status = Success | ErrSingular

  /** The lower triangular part; the solvers read nothing else of L. */
  ghost function Tril(L: Mat, n: nat): (T: Mat)
    requires IsMat(L, n, n)
    ensures IsMat(T, n, n)
  {
    seq(n, i requires 0 <= i < n => L[i][..i + 1] + Zero(n - i - 1))
  }

  /** The upper triangular part. */
  ghost function Triu(U: Mat, n: nat): (T: Mat)
    requires IsMat(U, n, n)
    ensures IsMat(T, n, n)
  {
    seq(n, i requires 0 <= i < n => Zero(i) + U[i][i..])
  }

  function Permute(b: Vec, P: seq<nat>): (r: Vec)
    requires forall i | 0 <= i < |P| :: P[i] < |b|
    ensures |r| == |P|
    ensures forall i | 0 <= i < |P| :: r[i] == b[P[i]]
  {
    seq(|P|, i requires 0 <= i < |P| => b[P[i]])
  }

  lemma DotSnoc(u: Vec, v: Vec, j: nat)
    requires j < |u| && j < |v|
    ensures Dot(u[..j + 1], v[..j + 1]) == Dot(u[..j], v[..j]) + Mul(u[j], v[j])
  {
    SumExt(j, i => Mul(At(u[..j + 1], i), At(v[..j + 1], i)), i => Mul(At(u[..j], i), At(v[..j], i)));
  }

  lemma DotRangeSnoc(u: Vec, v: Vec, lo: nat, j: nat)
    requires lo <= j < |u| && j < |v|
    ensures Dot(u[lo..j + 1], v[lo..j + 1]) == Dot(u[lo..j], v[lo..j]) + Mul(u[j], v[j])
  {
    DotSnoc(u[lo..], v[lo..], j - lo);
    assert u[lo..][..j - lo] == u[lo..j] && u[lo..][..j - lo + 1] == u[lo..j + 1];
    assert v[lo..][..j - lo] == v[lo..j] && v[lo..][..j - lo + 1] == v[lo..j + 1];
  }

  lemma {:induction false} DotConcat(a: Vec, b: Vec, c: Vec, d: Vec)
    requires |a| == |c| && |b| == |d|
    ensures Dot(a + b, c + d) == Dot(a, c) + Dot(b, d)
  {
    var m, k := |a|, |b|;
    if k == 0 {
      assert a + b == a && c + d == c;
    } else {
      DotConcat(a, b[..k - 1], c, d[..k - 1]);
      DotSnoc(b, d, k - 1);
      DotSnoc(a + b, c + d, m + k - 1);
      assert b[..k] == b && d[..k] == d && (a + b)[..m + k] == a + b && (c + d)[..m + k] == c + d;
      assert (a + b)[..m + k - 1] == a + b[..k - 1] && (c + d)[..m + k - 1] == c + d[..k - 1];
    }
  }

  lemma DotSingle(p: real, q: real)
    ensures Dot([p], [q]) == Mul(p, q)
  {
    assert Sum(1, i => Mul(At([p], i), At([q], i))) == Sum(0, i => Mul(At([p], i), At([q], i))) + Mul(p, q);
  }

  /** Rows 0 .. |y|-1 of the forward system L y = rhs hold. */
  ghost predicate ForwardSolved(L: Mat, n: nat, rhs: Vec, y: Vec)
    requires IsMat(L, n, n) && |rhs| == n
  {
    |y| <= n && forall k | 0 <= k < |y| :: ForwardRow(L, n, rhs, y, k)
  }

  ghost predicate ForwardRow(L: Mat, n: nat, rhs: Vec, y: Vec, k: int)
    requires IsMat(L, n, n) && |rhs| == n && 0 <= k < |y| <= n
  {
    Dot(L[k][..k + 1], y[..k + 1]) == rhs[k]
  }

  /** Rows n-|z| .. n-1 of the backward system U x = rhs hold for the tail z of x. */
  ghost predicate BackwardSolved(U: Mat, n: nat, rhs: Vec, z: Vec)
    requires IsMat(U, n, n) && |rhs| == n
  {
    |z| <= n && forall k | n - |z| <= k < n :: BackwardRow(U, n, rhs, z, k)
  }

  ghost predicate BackwardRow(U: Mat, n: nat, rhs: Vec, z: Vec, k: int)
    requires IsMat(U, n, n) && |rhs| == n && 0 <= n - |z| <= k < n
  {
    Dot(U[k][k..], z[k - (n - |z|)..]) == rhs[k]
  }

  lemma PivotCancels(s: real, l: real, v: real)
    requires l != 0.0 && v == s / l
    ensures Mul(l, v) == s
  {}

  lemma ForwardStep(L: Mat, n: nat, rhs: Vec, y: Vec, s: real, v: real)
    requires IsMat(L, n, n) && |rhs| == n && ForwardSolved(L, n, rhs, y) && |y| < n
    requires s == rhs[|y|] - Dot(L[|y|][..|y|], y) && L[|y|][|y|] != 0.0 && v == s / L[|y|][|y|]
    ensures ForwardSolved(L, n, rhs, y + [v])
  {
    var i, y' := |y|, y + [v];
    forall k | 0 <= k < |y'| ensures ForwardRow(L, n, rhs, y', k) {
      if k < i {
        assert ForwardRow(L, n, rhs, y, k);
        assert y'[..k + 1] == y[..k + 1];
      } else {
        DotSnoc(L[i], y', i);
        assert y'[..i] == y;
        PivotCancels(s, L[i][i], v);
      }
    }
  }

  lemma BackwardStep(U: Mat, n: nat, rhs: Vec, z: Vec, i: nat, s: real, v: real)
    requires IsMat(U, n, n) && |rhs| == n && BackwardSolved(U, n, rhs, z) && i + 1 + |z| == n
    requires s == rhs[i] - Dot(U[i][i + 1..], z) && U[i][i] != 0.0 && v == s / U[i][i]
    ensures BackwardSolved(U, n, rhs, [v] + z)
  {
    var z' := [v] + z;
    forall k | i <= k < n ensures BackwardRow(U, n, rhs, z', k) {
      if k > i {
        assert BackwardRow(U, n, rhs, z, k);
        assert z'[k - i..] == z[k - (i + 1)..];
      } else {
        assert U[i][i..] == [U[i][i]] + U[i][i + 1..] && z'[0..] == [v] + z;
        DotConcat([U[i][i]], U[i][i + 1..], [v], z);
        DotSingle(U[i][i], v);
        PivotCancels(s, U[i][i], v);
      }
    }
  }

  lemma DotZeroTail(u: Vec, v: Vec, n: nat)
    requires |u| <= |v| == n
    ensures Dot(u + Zero(n - |u|), v) == Dot(u, v[..|u|])
  {
    var k := |u|;
    DotConcat(u, Zero(n - k), v[..k], v[k..]);
    assert v == v[..k] + v[k..];
    DotZero(v[k..], n - k);
  }

  lemma DotZeroHead(u: Vec, v: Vec, n: nat)
    requires |u| <= |v| == n
    ensures Dot(Zero(n - |u|) + u, v) == Dot(u, v[n - |u|..])
  {
    var k := n - |u|;
    DotConcat(Zero(k), u, v[..k], v[k..]);
    assert v == v[..k] + v[k..];
    DotZero(v[..k], k);
  }

  lemma ForwardIsTril(L: Mat, n: nat, rhs: Vec, y: Vec)
    requires IsMat(L, n, n) && |rhs| == |y| == n && ForwardSolved(L, n, rhs, y)
    ensures MatVec(Tril(L, n), y) == rhs
  {
    forall k | 0 <= k < n ensures MatVec(Tril(L, n), y)[k] == rhs[k] {
      assert ForwardRow(L, n, rhs, y, k);
      DotZeroTail(L[k][..k + 1], y, n);
    }
  }

  lemma BackwardIsTriu(U: Mat, n: nat, rhs: Vec, x: Vec)
    requires IsMat(U, n, n) && |rhs| == |x| == n && BackwardSolved(U, n, rhs, x)
    ensures MatVec(Triu(U, n), x) == rhs
  {
    forall k | 0 <= k < n ensures MatVec(Triu(U, n), x)[k] == rhs[k] {
      assert BackwardRow(U, n, rhs, x, k);
      DotZeroHead(U[k][k..], x, n);
    }
  }

  /** Forward substitution in place: y holds the right-hand side, then the solution.
      Only the Cholesky solver guards its divisions. */
  method ForwardSubstitute(L: Mat, y: array<real>, guarded: bool) returns (status: Status)
    requires IsMat(L, y.Length, y.Length)
    requires !guarded ==> forall i | 0 <= i < y.Length :: Entry(L, i, i) != 0.0
    modifies y
    ensures status == ErrSingular <==> guarded && exists i | 0 <= i < y.Length :: Abs(Entry(L, i, i)) < TOL_DEFAULT
    ensures status == Success ==> MatVec(Tril(L, y.Length), y[..]) == old(y[..])
  {
    var n := y.Length;
    ghost var rhs := y[..];
    for i := 0 to n
      invariant y[i..] == rhs[i..]
      invariant guarded ==> forall k | 0 <= k < i :: Abs(Entry(L, k, k)) >= TOL_DEFAULT
      invariant ForwardSolved(L, n, rhs, y[..i])
    {
      var sum := y[i];
      ghost var before := y[..];
      for j := 0 to i
        invariant y[..] == before
        invariant sum == rhs[i] - Dot(L[i][..j], y[..j])
      {
        DotSnoc(L[i], y[..], j);
        assert y[..][..j] == y[..j] && y[..][..j + 1] == y[..j + 1];
        sum := SubMul(sum, L[i][j], y[j]);
      }
      if guarded && Abs(L[i][i]) < TOL_DEFAULT {
        assert Abs(Entry(L, i, i)) < TOL_DEFAULT;
        return ErrSingular;
      }
      assert Entry(L, i, i) != 0.0;
      ghost var done := before[..i];
      assert y[..i] == done && L[i][..i] == L[i][..|done|];
      ForwardStep(L, n, rhs, done, sum, sum / L[i][i]);
      y[i] := sum / L[i][i];
      assert y[..i + 1] == done + [sum / L[i][i]];
      assert y[i + 1..] == rhs[i + 1..] by {
        assert y[i + 1..] == before[i + 1..] && before[i..] == rhs[i..];
        assert before[i..][1..] == before[i + 1..] && rhs[i..][1..] == rhs[i + 1..];
      }
    }
    assert y[..n] == y[..];
    ForwardIsTril(L, n, rhs, y[..]);
    status := Success;
  }

  /** Backward substitution; stops at the first small diagonal entry met from the end. */
  method BackSubstitute(U: Mat, y: Vec, x: array<real>) returns (status: Status)
    requires IsMat(U, x.Length, x.Length) && |y| == x.Length
    modifies x
    ensures status == ErrSingular <==> exists i | 0 <= i < |y| :: Abs(Entry(U, i, i)) < TOL_DEFAULT
    ensures status == Success ==> MatVec(Triu(U, |y|), x[..]) == y
  {
    var n := x.Length;
    for i := n downto 0
      invariant forall k | i <= k < n :: Abs(Entry(U, k, k)) >= TOL_DEFAULT
      invariant BackwardSolved(U, n, y, x[i..])
    {
      var sum := y[i];
      ghost var before := x[..];
      assert before[i + 1..] == x[i + 1..];
      for j := i + 1 to n
        invariant x[..] == before
        invariant sum == y[i] - Dot(U[i][i + 1..j], before[i + 1..j])
      {
        DotRangeSnoc(U[i], before, i + 1, j);
        sum := SubMul(sum, U[i][j], x[j]);
      }
      if Abs(U[i][i]) < TOL_DEFAULT {
        assert Abs(Entry(U, i, i)) < TOL_DEFAULT;
        return ErrSingular;
      }
      ghost var tail := before[i + 1..];
      assert U[i][i + 1..n] == U[i][i + 1..] && before[i + 1..n] == tail;
      BackwardStep(U, n, y, tail, i, sum, sum / U[i][i]);
      x[i] := sum / U[i][i];
      assert x[i..] == [sum / U[i][i]] + tail;
    }
    assert x[0..] == x[..];
    BackwardIsTriu(U, n, y, x[..]);
    status := Success;
  }

  /** L is divided by without a check, so its diagonal must not vanish. */
  method LuSolve(L: Mat, U: Mat, P: seq<nat>, b: Vec, x: array<real>) returns (status: Status)
    requires |P| == |b| == x.Length && forall i | 0 <= i < |P| :: P[i] < |b|
    requires IsMat(L, |b|, |b|) && IsMat(U, |b|, |b|)
    requires forall i | 0 <= i < |b| :: Entry(L, i, i) != 0.0
    modifies x
    ensures status == ErrSingular <==> exists i | 0 <= i < |b| :: Abs(Entry(U, i, i)) < TOL_DEFAULT
    ensures status == Success ==>
      MatVec(Tril(L, |b|), MatVec(Triu(U, |b|), x[..])) == Permute(b, P)
  {
    var n := |b|;
    var y := new real[n];
    for i := 0 to n
      invariant forall k | 0 <= k < i :: y[k] == b[P[k]]
    {
      y[i] := b[P[i]];
    }
    assert y[..] == Permute(b, P);
    var forward := ForwardSubstitute(L, y, false);
    status := BackSubstitute(U, y[..], x);
  }

  method CholeskySolve(L: Mat, b: Vec, x: array<real>) returns (status: Status)
    requires IsMat(L, |b|, |b|) && x.Length == |b|
    modifies x
    ensures status == ErrSingular <==> exists i | 0 <= i < |b| :: Abs(Entry(L, i, i)) < TOL_DEFAULT
    ensures status == Success ==>
      MatVec(Tril(L, |b|), MatVec(Transpose(Tril(L, |b|), |b|), x[..])) == b
  {
    var n := |b|;
    var y := new real[n](i requires 0 <= i < n => b[i]);
    assert y[..] == b;
    status := ForwardSubstitute(L, y, true);
    if status == Success {
      TransposeOfTril(L, n);
      var T := Transpose(L, n);
      assert forall i | 0 <= i < n :: Entry(T, i, i) == Entry(L, i, i);
      status := BackSubstitute(T, y[..], x);
    }
  }

  lemma TransposeOfTril(L: Mat, n: nat)
    requires IsMat(L, n, n)
    ensures Triu(Transpose(L, n), n) == Transpose(Tril(L, n), n)
  {
    var V, W := Triu(Transpose(L, n), n), Transpose(Tril(L, n), n);
    forall i, j | 0 <= i < n && 0 <= j < n ensures V[i][j] == W[i][j] {}
    forall i | 0 <= i < n ensures V[i] == W[i] {}
  }

  lemma {:induction false} ForwardUnique(L: Mat, n: nat, rhs: Vec, y: Vec, z: Vec, k: nat)
    requires IsMat(L, n, n) && |rhs| == |y| == |z| == n && k <= n
    requires ForwardSolved(L, n, rhs, y) && ForwardSolved(L, n, rhs, z)
    requires forall i | 0 <= i < n :: Entry(L, i, i) != 0.0
    ensures y[..k] == z[..k]
  {
    if k > 0 {
      ForwardUnique(L, n, rhs, y, z, k - 1);
      assert ForwardRow(L, n, rhs, y, k - 1) && ForwardRow(L, n, rhs, z, k - 1);
      DotSnoc(L[k - 1], y, k - 1);
      DotSnoc(L[k - 1], z, k - 1);
      assert Entry(L, k - 1, k - 1) != 0.0;
      CancelMul(L[k - 1][k - 1], y[k - 1], z[k - 1]);
    }
  }

  lemma TrilIsForward(L: Mat, n: nat, y: Vec)
    requires IsMat(L, n, n) && |y| == n
    ensures ForwardSolved(L, n, MatVec(Tril(L, n), y), y)
  {
    var rhs := MatVec(Tril(L, n), y);
    forall k | 0 <= k < n ensures ForwardRow(L, n, rhs, y, k) {
      DotZeroTail(L[k][..k + 1], y, n);
    }
  }

  /** A lower triangular matrix with a non-zero diagonal is injective. */
  lemma TrilInjective(L: Mat, n: nat, y: Vec, z: Vec)
    requires IsMat(L, n, n) && |y| == |z| == n && forall i | 0 <= i < n :: Entry(L, i, i) != 0.0
    requires MatVec(Tril(L, n), y) == MatVec(Tril(L, n), z)
    ensures y == z
  {
    TrilIsForward(L, n, y);
    TrilIsForward(L, n, z);
    ForwardUnique(L, n, MatVec(Tril(L, n), y), y, z, n);
    assert y[..n] == y && z[..n] == z;
  }

  lemma {:induction false} TriuInjectiveFrom(U: Mat, n: nat, x: Vec, z: Vec, k: nat)
    requires IsMat(U, n, n) && |x| == |z| == n && k <= n
    requires forall i | 0 <= i < n :: Entry(U, i, i) != 0.0
    requires MatVec(Triu(U, n), x) == MatVec(Triu(U, n), z)
    ensures x[k..] == z[k..]
    decreases n - k
  {
    if k < n {
      TriuInjectiveFrom(U, n, x, z, k + 1);
      UpperRow(U, n, x, k);
      UpperRow(U, n, z, k);
      assert Entry(U, k, k) != 0.0;
      CancelMul(U[k][k], x[k], z[k]);
      assert x[k..] == [x[k]] + x[k + 1..] && z[k..] == [z[k]] + z[k + 1..];
    }
  }

  lemma UpperRow(U: Mat, n: nat, x: Vec, k: nat)
    requires IsMat(U, n, n) && |x| == n && k < n
    ensures MatVec(Triu(U, n), x)[k] == Mul(U[k][k], x[k]) + Dot(U[k][k + 1..], x[k + 1..])
  {
    DotZeroHead(U[k][k..], x, n);
    DotConcat([U[k][k]], U[k][k + 1..], [x[k]], x[k + 1..]);
    assert U[k][k..] == [U[k][k]] + U[k][k + 1..] && x[k..] == [x[k]] + x[k + 1..];
    DotSingle(U[k][k], x[k]);
  }

  /** The system both solvers solve has one solution. */
  lemma FactoredUnique(L: Mat, U: Mat, n: nat, x: Vec, z: Vec)
    requires IsMat(L, n, n) && IsMat(U, n, n) && |x| == |z| == n
    requires forall i | 0 <= i < n :: Entry(L, i, i) != 0.0
    requires forall i | 0 <= i < n :: Entry(U, i, i) != 0.0
    requires MatVec(Tril(L, n), MatVec(Triu(U, n), x)) == MatVec(Tril(L, n), MatVec(Triu(U, n), z))
    ensures x == z
  {
    TrilInjective(L, n, MatVec(Triu(U, n), x), MatVec(Triu(U, n), z));
    TriuInjectiveFrom(U, n, x, z, 0);
    assert x[0..] == x && z[0..] == z;
  }

  function PermuteRows(A: Mat, P: seq<nat>): Mat
    requires forall i | 0 <= i < |P| :: P[i] < |A|
  {
    seq(|P|, i requires 0 <= i < |P| => A[P[i]])
  }

  /** When P A = L U and P reaches every row, the LU solver's x solves A x = b. */
  lemma LuSolutionSolves(A: Mat, L: Mat, U: Mat, P: seq<nat>, n: nat, b: Vec, x: Vec)
    requires IsMat(A, n, n) && IsMat(L, n, n) && IsMat(U, n, n) && |P| == |b| == |x| == n
    requires (forall i | 0 <= i < n :: P[i] < n) && forall k | 0 <= k < n :: k in P
    requires PermuteRows(A, P) == MatMul(Tril(L, n), Triu(U, n), n)
    requires MatVec(Tril(L, n), MatVec(Triu(U, n), x)) == Permute(b, P)
    ensures MatVec(A, x) == b
  {
    MatMulVec(Tril(L, n), Triu(U, n), n, n, n, x);
    forall k | 0 <= k < n ensures MatVec(A, x)[k] == b[k] {
      assert k in P;
      var i :| 0 <= i < n && P[i] == k;
      assert MatVec(PermuteRows(A, P), x)[i] == Permute(b, P)[i];
    }
  }

  /** When A = L L^T, the Cholesky solver's x solves A x = b. */
  lemma CholeskySolutionSolves(A: Mat, L: Mat, n: nat, b: Vec, x: Vec)
    requires IsMat(A, n, n) && IsMat(L, n, n) && |b| == |x| == n
    requires A == MatMul(Tril(L, n), Transpose(Tril(L, n), n), n)
    requires MatVec(Tril(L, n), MatVec(Transpose(Tril(L, n), n), x)) == b
    ensures MatVec(A, x) == b
  {
    MatMulVec(Tril(L, n), Transpose(Tril(L, n), n), n, n, n, x);
  }
}
