/** Bracketing root finders: the secant method with the Illinois rule, and Newton's method with bisection. */
module Bracketing {
  import opened Sums

  datatype Status = Success | MaxIter | InvalidInput

  datatype Params = Params(tol: real, tolF: real, maxIter: nat)

  function Middle(a: real, b: real): real {
    0.5 * (a + b)
  }

  lemma MiddleIsHalfway(a: real, b: real)
    ensures Middle(a, b) - a == b - Middle(a, b)
  {}

  /** x y > 0 and x y < 0 by signs. */
  predicate SameSide(x: real, y: real) {
    (x > 0.0 && y > 0.0) || (x < 0.0 && y < 0.0)
  }

  predicate Across(x: real, y: real) {
    (x > 0.0 && y < 0.0) || (x < 0.0 && y > 0.0)
  }

  lemma ProductSigns(x: real, y: real)
    ensures x * y > 0.0 <==> SameSide(x, y)
    ensures x * y < 0.0 <==> Across(x, y)
  {
    if x > 0.0 && y > 0.0 { MulPos(x, y, x * y); }
    if x < 0.0 && y < 0.0 { MulPos(-x, -y, -x * -y); }
    if x > 0.0 && y < 0.0 { MulPos(x, -y, x * -y); }
    if x < 0.0 && y > 0.0 { MulPos(-x, y, -x * y); }
  }

  /** The source's sign tests multiply the two values. */
  method TestSameSide(x: real, y: real) returns (r: bool)
    ensures r == SameSide(x, y)
  {
    ProductSigns(x, y);
    r := x * y > 0.0;
  }

  method TestAcross(x: real, y: real) returns (r: bool)
    ensures r == Across(x, y)
  {
    ProductSigns(x, y);
    r := x * y < 0.0;
  }

  /** f changes sign, perhaps through zero, between the ends. */
  predicate SignChange(f: real -> real, lo: real, hi: real) {
    lo <= hi && !SameSide(f(lo), f(hi))
  }

  // The secant method

  /** The bracket with the function values stored for it; the Illinois rule may have halved one of them. */
  datatype Bracket = Bracket(lo: real, hi: real, flo: real, fhi: real, side: int)

  /** The bracket the loop starts from. When the ends come in the wrong order the code stores f of the lower end twice. */
  function Entry(f: real -> real, a: real, b: real): Bracket {
    if a < b then Bracket(a, b, f(a), f(b), 0) else Bracket(b, a, f(b), f(b), 0)
  }

  function SecantPoint(s: Bracket): real
    requires s.fhi != s.flo
  {
    s.lo - s.flo * (s.hi - s.lo) / (s.fhi - s.flo)
  }

  function Clamped(x: real, lo: real, hi: real): real {
    var y := if hi < x then hi else x;
    if y < lo then lo else y
  }

  /** The next trial point: the clamped secant point, or the middle when the stored values are too close. */
  function Trial(s: Bracket, tiny: real): real
    requires tiny > 0.0
  {
    if Abs(s.fhi - s.flo) < tiny then Middle(s.lo, s.hi) else Clamped(SecantPoint(s), s.lo, s.hi)
  }

  /** The bracket after trying x, with the Illinois rule. */
  function Updated(s: Bracket, x: real, fx: real): Bracket {
    if Across(fx, s.flo) then Bracket(s.lo, x, if s.side == -1 then s.flo * 0.5 else s.flo, fx, -1)
    else Bracket(x, s.hi, fx, if s.side == 1 then s.fhi * 0.5 else s.fhi, 1)
  }

  /** The bracket after k turns of the loop. */
  function After(f: real -> real, tiny: real, s: Bracket, k: nat): Bracket
    requires tiny > 0.0
  {
    if k == 0 then s
    else
      var m := After(f, tiny, s, k - 1);
      Updated(m, Trial(m, tiny), f(Trial(m, tiny)))
  }

  predicate Narrow(s: Bracket, p: Params) {
    s.hi - s.lo < Scale(p.tol, s.lo)
  }

  /** The width tolerance at x. */
  function Scale(tol: real, x: real): real {
    tol * (1.0 + Abs(x))
  }

  /** It is the tolerance near zero and grows by the tolerance per unit of distance from zero, on either side. */
  lemma ScaleGrows(tol: real, x: real, r: real)
    requires r >= 0.0 && (x == r || x == -r)
    ensures Scale(tol, 0.0) == tol && Scale(tol, x) - tol == tol * r
  {}

  /** A bracket is narrow when its width is below the tolerance plus the tolerance times its lower end's size. */
  lemma NarrowIff(s: Bracket, p: Params, r: real)
    requires r >= 0.0 && (s.lo == r || s.lo == -r)
    ensures Narrow(s, p) <==> s.hi < s.lo + p.tol + p.tol * r
  {
    ScaleGrows(p.tol, s.lo, r);
  }

  /** None of the first k turns ended the loop. */
  predicate Running(f: real -> real, tiny: real, p: Params, s: Bracket, k: nat)
    requires tiny > 0.0
  {
    k == 0 || (
      && Running(f, tiny, p, s, k - 1)
      && !Narrow(After(f, tiny, s, k - 1), p)
      && Abs(f(Trial(After(f, tiny, s, k - 1), tiny))) >= p.tolF)
  }

  // What holds for every order of the ends

  /** A sign change is inside, and the value stored for the lower end has the true sign. */
  ghost predicate Kept(f: real -> real, s: Bracket) {
    SignChange(f, s.lo, s.hi) && SameSide(s.flo, f(s.lo))
  }

  ghost predicate Inside(s: Bracket, t: Bracket) {
    t.lo <= s.lo && s.hi <= t.hi
  }

  lemma EntryKept(f: real -> real, a: real, b: real, tolF: real)
    requires !SameSide(f(a), f(b)) && tolF > 0.0 && Abs(Entry(f, a, b).flo) >= tolF
    ensures Kept(f, Entry(f, a, b))
  {}

  lemma TrialWithin(s: Bracket, tiny: real)
    requires tiny > 0.0 && s.lo <= s.hi
    ensures s.lo <= Trial(s, tiny) <= s.hi
  {}

  lemma UpdatedKept(f: real -> real, s: Bracket, x: real)
    requires Kept(f, s) && s.lo <= x <= s.hi && f(x) != 0.0
    ensures Kept(f, Updated(s, x, f(x))) && Inside(Updated(s, x, f(x)), s)
  {}

  /** While the loop runs, every bracket holds a sign change and lies inside all earlier ones. */
  lemma {:induction false} AfterKept(f: real -> real, tiny: real, p: Params, s: Bracket, j: nat, k: nat)
    requires tiny > 0.0 && p.tolF > 0.0 && Kept(f, s) && j <= k && Running(f, tiny, p, s, k)
    ensures Kept(f, After(f, tiny, s, k)) && Inside(After(f, tiny, s, k), After(f, tiny, s, j))
    decreases k
  {
    if k > 0 {
      var m := After(f, tiny, s, k - 1);
      AfterKept(f, tiny, p, s, if j < k then j else 0, k - 1);
      TrialWithin(m, tiny);
      UpdatedKept(f, m, Trial(m, tiny));
    }
  }

  // The Illinois rule

  /** Whether turn k kept the lower end: the trial value is across zero from the value there. */
  ghost predicate KeepsLow(f: real -> real, tiny: real, s: Bracket, k: nat)
    requires tiny > 0.0
  {
    var m := After(f, tiny, s, k);
    Across(f(Trial(m, tiny)), f(m.lo))
  }

  /** For how many turns in a row, up to turn k, the lower end (or the upper end) has stayed. */
  ghost function Stays(f: real -> real, tiny: real, s: Bracket, k: nat, low: bool): nat
    requires tiny > 0.0
  {
    if k == 0 || KeepsLow(f, tiny, s, k - 1) != low then 0 else Stays(f, tiny, s, k - 1, low) + 1
  }

  ghost function Halved(v: real, n: nat): real {
    if n == 0 then v else Halved(v, n - 1) * 0.5
  }

  /** The value at x, halved once for every turn in a row after the first that x stayed. */
  ghost predicate Stores(v: real, fx: real, stays: nat) {
    v == Halved(fx, if stays == 0 then 0 else stays - 1)
  }

  /** `both` says whether the loop started with the true value at the upper end. */
  ghost predicate Weighted(f: real -> real, s: Bracket, low: nat, high: nat, both: bool) {
    && Stores(s.flo, f(s.lo), low) && (both ==> Stores(s.fhi, f(s.hi), high))
    && (s.side == -1 <==> low > 0) && (s.side == 1 <==> high > 0)
  }

  lemma UpdatedWeighted(f: real -> real, s: Bracket, x: real, low: nat, high: nat, both: bool)
    requires SameSide(s.flo, f(s.lo)) && Weighted(f, s, low, high, both)
    ensures Across(f(x), f(s.lo)) ==> Weighted(f, Updated(s, x, f(x)), low + 1, 0, both)
    ensures !Across(f(x), f(s.lo)) ==> Weighted(f, Updated(s, x, f(x)), 0, high + 1, both)
  {}

  /** While the loop runs, the value stored for an end is the value there, halved for every turn the end stayed on;
      for the upper end when a < b. */
  lemma {:induction false} IllinoisWeights(f: real -> real, tiny: real, p: Params, a: real, b: real, k: nat)
    requires tiny > 0.0 && p.tolF > 0.0 && !SameSide(f(a), f(b)) && Abs(Entry(f, a, b).flo) >= p.tolF
    requires Running(f, tiny, p, Entry(f, a, b), k)
    ensures var s := Entry(f, a, b);
      Weighted(f, After(f, tiny, s, k), Stays(f, tiny, s, k, true), Stays(f, tiny, s, k, false), a < b)
  {
    var s := Entry(f, a, b);
    if k > 0 {
      var m := After(f, tiny, s, k - 1);
      IllinoisWeights(f, tiny, p, a, b, k - 1);
      EntryKept(f, a, b, p.tolF);
      AfterKept(f, tiny, p, s, 0, k - 1);
      UpdatedWeighted(f, m, Trial(m, tiny), Stays(f, tiny, s, k - 1, true), Stays(f, tiny, s, k - 1, false), a < b);
    }
  }

  // What holds when the ends come in order

  /** Both stored values have the true, opposite signs. */
  ghost predicate Sound(f: real -> real, s: Bracket) {
    s.lo < s.hi && SameSide(s.flo, f(s.lo)) && SameSide(s.fhi, f(s.hi)) && Across(s.flo, s.fhi)
  }

  /** Past the first checks the value stored for the upper end has the true sign if and only if a < b. */
  lemma StoredSignIff(f: real -> real, a: real, b: real, tolF: real)
    requires !SameSide(f(a), f(b)) && tolF > 0.0 && Abs(Entry(f, a, b).flo) >= tolF && Abs(Entry(f, a, b).fhi) >= tolF
    ensures SameSide(Entry(f, a, b).fhi, f(Entry(f, a, b).hi)) <==> a < b
    ensures a < b ==> Sound(f, Entry(f, a, b))
  {}

  /** For every a > b, a function for which the wrong sign is stored. */
  lemma SwappedEndsStoreTheWrongSign(a: real, b: real, tolF: real)
    requires a > b && tolF > 0.0
    ensures var f := (x: real) => if x == a then tolF else -tolF;
      !SameSide(f(a), f(b)) && Across(Entry(f, a, b).fhi, f(Entry(f, a, b).hi))
  {}

  lemma QuotientInside(p: real, d: real, w: real)
    requires 0.0 < p < d && w > 0.0
    ensures 0.0 < p * w / d < w
  {
    var q := p * w / d;
    assert q * d == p * w;
    Between(p, d, w, q);
  }

  lemma Between(p: real, d: real, w: real, q: real)
    requires 0.0 < p < d && w > 0.0 && q * d == p * w
    ensures 0.0 < q < w
  {
    MulPos(p, w, p * w);
    MulLess(p, d, w);
    if q <= 0.0 { NonPositive(q, d); }
    if q >= w { MulAtLeast(q, w, d); }
  }

  lemma MulLess(p: real, d: real, w: real)
    requires p < d && w > 0.0
    ensures p * w < d * w
  {
    MulPos(d - p, w, (d - p) * w);
    assert (d - p) * w == d * w - p * w;
  }

  lemma MulAtLeast(q: real, w: real, d: real)
    requires q >= w && d > 0.0
    ensures q * d >= d * w
  {
    NonPositive(w - q, d);
    assert (w - q) * d == d * w - q * d;
  }

  lemma NonPositive(x: real, d: real)
    requires x <= 0.0 && d > 0.0
    ensures x * d <= 0.0
  {
    if x < 0.0 { MulPos(-x, d, -x * d); }
  }

  lemma QuotientNegated(x: real, d: real)
    requires d != 0.0
    ensures x / d == -((-x) / d) == (-x) / (-d)
  {}

  lemma NegatedProduct(x: real, w: real)
    ensures -(x * w) == (-x) * w
  {}

  /** Between opposite values the secant point is strictly inside the bracket. */
  lemma SecantInside(s: Bracket)
    requires s.lo < s.hi && Across(s.flo, s.fhi)
    ensures s.lo < SecantPoint(s) < s.hi
  {
    var w, d := s.hi - s.lo, s.fhi - s.flo;
    var x := s.flo * w;
    NegatedProduct(s.flo, w);
    if s.flo < 0.0 {
      QuotientInside(-s.flo, d, w);
      QuotientNegated(x, d);
    } else {
      QuotientInside(s.flo, -d, w);
      QuotientNegated(x, d);
      QuotientNegated(x, -d);
    }
  }

  lemma OnChord(lo: real, hi: real, flo: real, fhi: real, x: real, q: real)
    requires fhi != flo && q * (fhi - flo) == flo * (hi - lo)
    ensures flo * (hi - x) + fhi * (x - lo) == 0.0 <==> x == lo - q
  {
    var d := fhi - flo;
    calc {
      flo * (hi - x) + fhi * (x - lo);
      flo * (hi - lo) + (x - lo) * d;
      q * d + (x - lo) * d;
      (q + (x - lo)) * d;
    }
    if (q + (x - lo)) * d == 0.0 { ZeroFactor(q + (x - lo), d); }
  }

  lemma ZeroFactor(u: real, d: real)
    requires d != 0.0 && u * d == 0.0
    ensures u == 0.0
  {
    assert u == u * d / d;
  }

  /** The secant point is the one point where the chord through the stored values meets zero. */
  lemma SecantIsChordZero(s: Bracket, x: real)
    requires s.fhi != s.flo
    ensures s.flo * (s.hi - x) + s.fhi * (x - s.lo) == 0.0 <==> x == SecantPoint(s)
  {
    OnChord(s.lo, s.hi, s.flo, s.fhi, x, s.flo * (s.hi - s.lo) / (s.fhi - s.flo));
  }

  lemma TrialInside(f: real -> real, s: Bracket, tiny: real)
    requires Sound(f, s) && tiny > 0.0
    ensures s.lo < Trial(s, tiny) < s.hi
    ensures Abs(s.fhi - s.flo) >= tiny ==> Trial(s, tiny) == SecantPoint(s)
  {
    SecantInside(s);
  }

  lemma UpdatedSound(f: real -> real, s: Bracket, x: real)
    requires Sound(f, s) && s.lo < x < s.hi && f(x) != 0.0
    ensures Sound(f, Updated(s, x, f(x)))
    ensures Inside(Updated(s, x, f(x)), s) && Updated(s, x, f(x)).hi - Updated(s, x, f(x)).lo < s.hi - s.lo
  {}

  /** With a < b every turn of the loop keeps both stored signs true and strictly shrinks the bracket,
      and the next trial point is strictly inside it. */
  lemma {:induction false} AfterSound(f: real -> real, tiny: real, p: Params, s: Bracket, k: nat)
    requires tiny > 0.0 && p.tolF > 0.0 && Sound(f, s) && Running(f, tiny, p, s, k)
    ensures var t := After(f, tiny, s, k);
      Sound(f, t) && t.lo < Trial(t, tiny) < t.hi && t.hi - t.lo <= s.hi - s.lo && (k > 0 ==> t.hi - t.lo < s.hi - s.lo)
  {
    if k > 0 {
      var m := After(f, tiny, s, k - 1);
      AfterSound(f, tiny, p, s, k - 1);
      UpdatedSound(f, m, Trial(m, tiny));
    }
    TrialInside(f, After(f, tiny, s, k), tiny);
  }

  /** The root is the middle of a narrow sign-changing bracket within the given ends. */
  ghost predicate Enclosed(f: real -> real, p: Params, a: real, b: real, root: real) {
    exists lo, hi :: Encloses(f, p, a, b, root, lo, hi)
  }

  ghost predicate Encloses(f: real -> real, p: Params, a: real, b: real, root: real, lo: real, hi: real) {
    && (if a < b then a <= lo && hi <= b else b <= lo && hi <= a)
    && SignChange(f, lo, hi) && hi - lo < Scale(p.tol, lo) && root == Middle(lo, hi)
  }

  lemma NarrowEncloses(f: real -> real, tiny: real, p: Params, a: real, b: real, k: nat)
    requires tiny > 0.0 && p.tolF > 0.0 && !SameSide(f(a), f(b)) && Abs(Entry(f, a, b).flo) >= p.tolF
    requires Running(f, tiny, p, Entry(f, a, b), k) && Narrow(After(f, tiny, Entry(f, a, b), k), p)
    ensures var t := After(f, tiny, Entry(f, a, b), k); Enclosed(f, p, a, b, Middle(t.lo, t.hi))
  {
    var s := Entry(f, a, b);
    var t := After(f, tiny, s, k);
    EntryKept(f, a, b, p.tolF);
    AfterKept(f, tiny, p, s, 0, k);
    assert Encloses(f, p, a, b, Middle(t.lo, t.hi), t.lo, t.hi);
  }

  /** Moves the end whose stored value has the sign of the trial value, halving the other when it stayed twice. */
  method Narrowed(s: Bracket, xNew: real, fNew: real) returns (t: Bracket)
    ensures t == Updated(s, xNew, fNew)
  {
    var xLow, xHigh, fLow, fHigh, side := s.lo, s.hi, s.flo, s.fhi, s.side;
    var across := TestAcross(fNew, fLow);
    if across {
      xHigh, fHigh := xNew, fNew;
      if side == -1 {
        fLow := fLow * 0.5;
      }
      side := -1;
    } else {
      xLow, fLow := xNew, fNew;
      if side == 1 {
        fHigh := fHigh * 0.5;
      }
      side := 1;
    }
    t := Bracket(xLow, xHigh, fLow, fHigh, side);
  }

  /** How the loop from s ends: on turn `turns`, the first to meet a test, or after the last one. */
  ghost predicate SecantEnds(f: real -> real, tiny: real, p: Params, s: Bracket, root: real, converged: bool, turns: nat)
    requires tiny > 0.0
  {
    if converged then
      && 0 < turns <= p.maxIter && Running(f, tiny, p, s, turns - 1)
      && var t := After(f, tiny, s, turns - 1); Abs(f(root)) < p.tolF || (Narrow(t, p) && root == Middle(t.lo, t.hi))
    else
      && turns == p.maxIter && Running(f, tiny, p, s, turns)
      && var t := After(f, tiny, s, turns); root == Middle(t.lo, t.hi)
  }

  lemma SecantExit(f: real -> real, tiny: real, p: Params, s: Bracket, t: Bracket, root: real, k: nat)
    requires tiny > 0.0 && k < p.maxIter && Running(f, tiny, p, s, k) && t == After(f, tiny, s, k)
    requires Abs(f(root)) < p.tolF || (Narrow(t, p) && root == Middle(t.lo, t.hi))
    ensures SecantEnds(f, tiny, p, s, root, true, k + 1)
  {}

  /** The loop, from any bracket. */
  method SecantLoop(f: real -> real, tiny: real, p: Params, s: Bracket) returns (root: real, converged: bool, turns: nat)
    requires tiny > 0.0
    ensures SecantEnds(f, tiny, p, s, root, converged, turns)
  {
    var t := s;
    for i := 0 to p.maxIter
      invariant t == After(f, tiny, s, i) && Running(f, tiny, p, s, i)
    {
      if Narrow(t, p) {
        SecantExit(f, tiny, p, s, t, Middle(t.lo, t.hi), i);
        return Middle(t.lo, t.hi), true, i + 1;
      }
      var xNew := Trial(t, tiny);
      var fNew := f(xNew);
      if Abs(fNew) < p.tolF {
        SecantExit(f, tiny, p, s, t, xNew, i);
        return xNew, true, i + 1;
      }
      t := Narrowed(t, xNew, fNew);
    }
    return Middle(t.lo, t.hi), false, p.maxIter;
  }

  lemma SecantEncloses(f: real -> real, tiny: real, p: Params, a: real, b: real, root: real, turns: nat)
    requires tiny > 0.0 && p.tolF > 0.0 && !SameSide(f(a), f(b)) && Abs(Entry(f, a, b).flo) >= p.tolF
    requires SecantEnds(f, tiny, p, Entry(f, a, b), root, true, turns)
    ensures Abs(f(root)) < p.tolF || Enclosed(f, p, a, b, root)
  {
    if Abs(f(root)) >= p.tolF { NarrowEncloses(f, tiny, p, a, b, turns - 1); }
  }

  /** How the search from the ends a and b ends. */
  ghost predicate SecantStops(f: real -> real, tiny: real, p: Params, a: real, b: real,
                              root: real, status: Status, turns: nat)
    requires tiny > 0.0
  {
    && (status == InvalidInput <==> SameSide(f(a), f(b)))
    && var s := Entry(f, a, b); status != InvalidInput ==>
      if Abs(s.flo) < p.tolF then status == Success && turns == 0 && root == s.lo && Abs(f(root)) < p.tolF
      else if Abs(s.fhi) < p.tolF then status == Success && turns == 0 && root == s.hi && Abs(f(root)) < p.tolF
      else SecantEnds(f, tiny, p, s, root, status == Success, turns)
  }

  method SolveSecant(f: real -> real, a: real, b: real, p: Params, tiny: real)
    returns (root: real, status: Status, turns: nat)
    requires tiny > 0.0
    ensures SecantStops(f, tiny, p, a, b, root, status, turns)
    ensures status == Success && p.tolF > 0.0 ==> Abs(f(root)) < p.tolF || Enclosed(f, p, a, b, root)
  {
    var fLow, fHigh := f(a), f(b);
    var invalid := TestSameSide(fLow, fHigh);
    if invalid {
      return Middle(a, b), InvalidInput, 0;
    }
    var xLow, xHigh := a, b;
    if !(a < b) {
      xLow, xHigh := b, a;
      fLow := fHigh;
      fHigh := f(xLow);
    }
    if Abs(fLow) < p.tolF {
      return xLow, Success, 0;
    }
    if Abs(fHigh) < p.tolF {
      return xHigh, Success, 0;
    }
    var converged;
    root, converged, turns := SecantLoop(f, tiny, p, Bracket(xLow, xHigh, fLow, fHigh, 0));
    status := if converged then Success else MaxIter;
    if converged && p.tolF > 0.0 { SecantEncloses(f, tiny, p, a, b, root, turns); }
  }

  // Newton's method inside a bracket

  datatype Point = Point(lo: real, hi: real, x: real)

  function Start(a: real, b: real): Point {
    if a < b then Point(a, b, Middle(a, b)) else Point(b, a, Middle(b, a))
  }

  /** The Newton point, or the middle when the slope is too small or the point leaves the bracket. */
  function NewtonTrial(f: real -> real, df: real -> real, tiny: real, s: Point): real
    requires tiny > 0.0
  {
    if Abs(df(s.x)) > tiny then
      var y := s.x + -f(s.x) / df(s.x);
      if y < s.lo || y > s.hi then Middle(s.lo, s.hi) else y
    else Middle(s.lo, s.hi)
  }

  function Moved(f: real -> real, s: Point, y: real): Point {
    if Across(f(y), f(s.lo)) then Point(s.lo, y, y) else Point(y, s.hi, y)
  }

  function NewtonAfter(f: real -> real, df: real -> real, tiny: real, s: Point, k: nat): Point
    requires tiny > 0.0
  {
    if k == 0 then s
    else
      var m := NewtonAfter(f, df, tiny, s, k - 1);
      Moved(f, m, NewtonTrial(f, df, tiny, m))
  }

  predicate Converged(f: real -> real, p: Params, s: Point) {
    Abs(f(s.x)) < p.tolF || s.hi - s.lo < Scale(p.tol, s.x)
  }

  /** The loop ends at a value inside (-tolF, tolF) or a width below the tolerance at the estimate. */
  lemma ConvergedIff(f: real -> real, p: Params, s: Point, r: real)
    requires r >= 0.0 && (s.x == r || s.x == -r)
    ensures Converged(f, p, s) <==> -p.tolF < f(s.x) < p.tolF || s.hi < s.lo + p.tol + p.tol * r
  {
    ScaleGrows(p.tol, s.x, r);
  }

  predicate NewtonRunning(f: real -> real, df: real -> real, tiny: real, p: Params, s: Point, k: nat)
    requires tiny > 0.0
  {
    k == 0 || (NewtonRunning(f, df, tiny, p, s, k - 1) && !Converged(f, p, NewtonAfter(f, df, tiny, s, k - 1)))
  }

  /** The zero of the tangent at x. */
  ghost predicate TangentZero(f: real -> real, df: real -> real, x: real, z: real) {
    f(x) + df(x) * (z - x) == 0.0
  }

  lemma SlopeCancels(y: real, m: real, dz: real)
    requires m != 0.0
    ensures y + m * dz == 0.0 <==> dz == -y / m
  {
    if y + m * dz == 0.0 { assert m * dz == -y; }
  }

  lemma Steep(m: real, tiny: real)
    requires tiny > 0.0 && Abs(m) > tiny
    ensures m != 0.0
  {}

  lemma OnTangent(f: real -> real, df: real -> real, x: real, z: real)
    requires df(x) != 0.0
    ensures TangentZero(f, df, x, z) <==> z == x + -f(x) / df(x)
  {
    SlopeCancels(f(x), df(x), z - x);
  }

  /** With a steep enough slope the trial point is where the tangent meets zero if that is in the bracket, and the middle
      if it is not. */
  lemma TrialIsTangentZero(f: real -> real, df: real -> real, tiny: real, s: Point, z: real)
    requires tiny > 0.0 && Abs(df(s.x)) > tiny && TangentZero(f, df, s.x, z)
    ensures NewtonTrial(f, df, tiny, s) == if s.lo <= z <= s.hi then z else Middle(s.lo, s.hi)
  {
    Steep(df(s.x), tiny);
    OnTangent(f, df, s.x, z);
  }

  /** There is always such a point. */
  lemma HasTangentZero(f: real -> real, df: real -> real, tiny: real, x: real)
    requires tiny > 0.0 && Abs(df(x)) > tiny
    ensures exists z :: TangentZero(f, df, x, z)
  {
    Steep(df(x), tiny);
    OnTangent(f, df, x, x + -f(x) / df(x));
  }

  lemma FlatTrialIsMiddle(f: real -> real, df: real -> real, tiny: real, s: Point)
    requires tiny > 0.0 && Abs(df(s.x)) <= tiny
    ensures NewtonTrial(f, df, tiny, s) == Middle(s.lo, s.hi)
  {}

  lemma NewtonTrialWithin(f: real -> real, df: real -> real, tiny: real, s: Point)
    requires tiny > 0.0 && s.lo <= s.hi
    ensures s.lo <= NewtonTrial(f, df, tiny, s) <= s.hi
  {}

  /** A move keeps the sign change if and only if the lower end is no root, or the trial value opposes the upper end. */
  lemma MovedIff(f: real -> real, s: Point, y: real)
    requires SignChange(f, s.lo, s.hi) && s.lo <= y <= s.hi
    ensures SignChange(f, Moved(f, s, y).lo, Moved(f, s, y).hi) <==> f(s.lo) != 0.0 || !SameSide(f(y), f(s.hi))
  {}

  /** A sign change is inside, and the lower end is a root only if it is the point about to be tested. */
  ghost predicate NewtonKept(f: real -> real, s: Point) {
    s.lo <= s.x <= s.hi && SignChange(f, s.lo, s.hi) && (f(s.lo) != 0.0 || s.x == s.lo)
  }

  /** While the loop runs, every bracket holds a sign change and lies inside all earlier ones. */
  lemma {:induction false} NewtonAfterKept(f: real -> real, df: real -> real, tiny: real, p: Params, s: Point,
                                           j: nat, k: nat)
    requires tiny > 0.0 && p.tolF > 0.0 && NewtonKept(f, s) && j <= k && NewtonRunning(f, df, tiny, p, s, k)
    ensures var m, t := NewtonAfter(f, df, tiny, s, j), NewtonAfter(f, df, tiny, s, k);
      NewtonKept(f, t) && m.lo <= t.lo && t.hi <= m.hi
    decreases k
  {
    if k > 0 {
      var m := NewtonAfter(f, df, tiny, s, k - 1);
      NewtonAfterKept(f, df, tiny, p, s, if j < k then j else 0, k - 1);
      NewtonTrialWithin(f, df, tiny, m);
      MovedIff(f, m, NewtonTrial(f, df, tiny, m));
    }
  }

  /** The function that is zero at a and one elsewhere. */
  function Spike(a: real): real -> real {
    x => if x == a then 0.0 else 1.0
  }

  /** Started with a root at the lower end, the bracket loses it at once and for good: for every a < b, at every
      later turn the ends have the same sign and the value at the estimate is one. */
  lemma {:induction false} RootAtLowerEndIsLost(a: real, b: real, tiny: real, k: nat)
    requires a < b && tiny > 0.0 && k > 0
    ensures !SameSide(Spike(a)(a), Spike(a)(b))
    ensures var s := NewtonAfter(Spike(a), (x: real) => 0.0, tiny, Start(a, b), k);
      a < s.lo <= s.hi == b && s.x == s.lo && Spike(a)(s.x) == 1.0 && !SignChange(Spike(a), s.lo, s.hi)
  {
    if k > 1 { RootAtLowerEndIsLost(a, b, tiny, k - 1); }
  }

  /** One turn: the trial point, and the bracket narrowed to the half that keeps the sign of the lower end. */
  method NewtonTurn(f: real -> real, df: real -> real, tiny: real, xLow: real, xHigh: real, x: real)
    returns (lo: real, hi: real, xNew: real)
    requires tiny > 0.0
    ensures var s := Point(xLow, xHigh, x); Point(lo, hi, xNew) == Moved(f, s, NewtonTrial(f, df, tiny, s))
  {
    lo, hi := xLow, xHigh;
    if Abs(df(x)) > tiny {
      xNew := x + -f(x) / df(x);
      if xNew < xLow || xNew > xHigh {
        xNew := Middle(xLow, xHigh);
      }
    } else {
      xNew := Middle(xLow, xHigh);
    }
    var across := TestAcross(f(xNew), f(xLow));
    if across {
      hi := xNew;
    } else {
      lo := xNew;
    }
  }

  /** The search stopped on turn `turns`, the first to meet a convergence test. */
  ghost predicate NewtonFound(f: real -> real, df: real -> real, tiny: real, p: Params, s: Point, root: real, turns: nat)
    requires tiny > 0.0
  {
    && 0 < turns <= p.maxIter && NewtonRunning(f, df, tiny, p, s, turns - 1)
    && var t := NewtonAfter(f, df, tiny, s, turns - 1); Converged(f, p, t) && root == t.x
  }

  lemma NewtonExit(f: real -> real, df: real -> real, tiny: real, p: Params, s: Point, t: Point, k: nat)
    requires tiny > 0.0 && k < p.maxIter && NewtonRunning(f, df, tiny, p, s, k)
    requires t == NewtonAfter(f, df, tiny, s, k) && Converged(f, p, t)
    ensures NewtonFound(f, df, tiny, p, s, t.x, k + 1)
  {}

  /** The loop, from any starting point. */
  method NewtonLoop(f: real -> real, df: real -> real, tiny: real, p: Params, s: Point)
    returns (root: real, converged: bool, turns: nat)
    requires tiny > 0.0
    ensures converged ==> NewtonFound(f, df, tiny, p, s, root, turns)
    ensures !converged ==>
      turns == p.maxIter && NewtonRunning(f, df, tiny, p, s, turns) && root == NewtonAfter(f, df, tiny, s, turns).x
  {
    var xLow, xHigh, x := s.lo, s.hi, s.x;
    for i := 0 to p.maxIter
      invariant Point(xLow, xHigh, x) == NewtonAfter(f, df, tiny, s, i) && NewtonRunning(f, df, tiny, p, s, i)
    {
      if Converged(f, p, Point(xLow, xHigh, x)) {
        NewtonExit(f, df, tiny, p, s, Point(xLow, xHigh, x), i);
        return x, true, i + 1;
      }
      xLow, xHigh, x := NewtonTurn(f, df, tiny, xLow, xHigh, x);
    }
    return x, false, p.maxIter;
  }

  /** How the search from the ends a and b ends. */
  ghost predicate NewtonEnds(f: real -> real, df: real -> real, tiny: real, p: Params, a: real, b: real,
                             root: real, status: Status, turns: nat)
    requires tiny > 0.0
  {
    && (status == InvalidInput <==> SameSide(f(a), f(b)))
    && (status == Success ==> NewtonFound(f, df, tiny, p, Start(a, b), root, turns))
    && (status == MaxIter ==>
          && turns == p.maxIter && NewtonRunning(f, df, tiny, p, Start(a, b), turns)
          && root == NewtonAfter(f, df, tiny, Start(a, b), turns).x)
  }

  method SolveNewton(f: real -> real, df: real -> real, a: real, b: real, p: Params, tiny: real)
    returns (root: real, status: Status, turns: nat)
    requires tiny > 0.0
    ensures NewtonEnds(f, df, tiny, p, a, b, root, status, turns)
    ensures status == Success && p.tolF > 0.0 && f(Start(a, b).lo) != 0.0 ==>
      Abs(f(root)) < p.tolF || NewtonEnclosed(f, p, a, b, root)
  {
    var invalid := TestSameSide(f(a), f(b));
    if invalid {
      return Middle(a, b), InvalidInput, 0;
    }
    var xLow, xHigh := a, b;
    if !(a < b) {
      xLow, xHigh := b, a;
    }
    var converged;
    root, converged, turns := NewtonLoop(f, df, tiny, p, Point(xLow, xHigh, Middle(xLow, xHigh)));
    status := if converged then Success else MaxIter;
    if converged && p.tolF > 0.0 && f(Start(a, b).lo) != 0.0 {
      ConvergedEncloses(f, df, tiny, p, a, b, turns - 1);
    }
  }

  // Affine functions

  ghost predicate AffineAt(f: real -> real, df: real -> real, c: real, d: real, x: real) {
    f(x) == c * x + d && df(x) == c
  }

  /** f(x) = c x + d everywhere, and df is its slope. */
  ghost predicate IsAffine(f: real -> real, df: real -> real, c: real, d: real) {
    forall x :: AffineAt(f, df, c, d, x)
  }

  lemma ShiftedValue(c: real, d: real, z: real, x: real)
    requires c * z + d == 0.0
    ensures c * x + d == c * (x - z) == -(c * (z - x))
  {}

  lemma AffineValue(f: real -> real, df: real -> real, c: real, d: real, z: real, x: real)
    requires IsAffine(f, df, c, d) && c * z + d == 0.0
    ensures df(x) == c && f(x) == c * (x - z) && f(z) == 0.0 && TangentZero(f, df, x, z)
  {
    assert AffineAt(f, df, c, d, x) && AffineAt(f, df, c, d, z);
    ShiftedValue(c, d, z, x);
  }

  lemma OneSide(c: real, u: real, v: real)
    requires c != 0.0 && SameSide(u, v)
    ensures SameSide(c * u, c * v)
  {
    ProductSigns(c, u);
    ProductSigns(c, v);
  }

  /** Where an affine function changes sign it has its zero. */
  lemma AffineZeroBetween(f: real -> real, df: real -> real, c: real, d: real, z: real, lo: real, hi: real)
    requires IsAffine(f, df, c, d) && c != 0.0 && c * z + d == 0.0 && lo <= hi && !SameSide(f(lo), f(hi))
    ensures lo <= z <= hi
  {
    AffineValue(f, df, c, d, z, lo);
    AffineValue(f, df, c, d, z, hi);
    if z < lo || z > hi { OneSide(c, lo - z, hi - z); }
  }

  lemma ChordZero(c: real, u: real, v: real)
    ensures (c * u) * v + (c * v) * -u == 0.0
  {}

  /** On an affine function the first trial of the secant method is the root. */
  lemma AffineTrial(f: real -> real, df: real -> real, c: real, d: real, tiny: real, a: real, b: real, z: real)
    requires IsAffine(f, df, c, d) && c != 0.0 && c * z + d == 0.0 && tiny > 0.0
    requires a < b && !SameSide(f(a), f(b)) && Abs(f(b) - f(a)) >= tiny
    ensures Trial(Entry(f, a, b), tiny) == z && f(z) == 0.0
  {
    var s := Entry(f, a, b);
    AffineValue(f, df, c, d, z, a);
    AffineValue(f, df, c, d, z, b);
    AffineZeroBetween(f, df, c, d, z, a, b);
    ChordZero(c, a - z, b - z);
    SecantIsChordZero(s, z);
  }

  lemma {:induction false} SecantRunningEarlier(f: real -> real, tiny: real, p: Params, s: Bracket, j: nat, k: nat)
    requires tiny > 0.0 && j <= k && Running(f, tiny, p, s, k)
    ensures Running(f, tiny, p, s, j)
    decreases k
  {
    if j < k { SecantRunningEarlier(f, tiny, p, s, j, k - 1); }
  }

  lemma StopsAtRoot(f: real -> real, tiny: real, p: Params, a: real, b: real, root: real, status: Status, turns: nat)
    requires tiny > 0.0 && p.tolF > 0.0 && p.maxIter >= 1 && !SameSide(f(a), f(b)) && f(Trial(Entry(f, a, b), tiny)) == 0.0
    requires SecantStops(f, tiny, p, a, b, root, status, turns)
    ensures status == Success && turns <= 1
  {
    var s := Entry(f, a, b);
    assert !Running(f, tiny, p, s, 1);
    if status == MaxIter { SecantRunningEarlier(f, tiny, p, s, 1, turns); }
    if status == Success && turns > 1 { SecantRunningEarlier(f, tiny, p, s, 1, turns - 1); }
  }

  /** With the ends in order and values far enough apart, the secant method succeeds on an affine function in one turn. */
  lemma AffineInOneTurn(f: real -> real, df: real -> real, c: real, d: real, tiny: real, p: Params, a: real, b: real,
                        root: real, status: Status, turns: nat)
    requires IsAffine(f, df, c, d) && c != 0.0 && tiny > 0.0 && p.tolF > 0.0 && p.maxIter >= 1
    requires a < b && !SameSide(f(a), f(b)) && Abs(f(b) - f(a)) >= tiny
    requires SecantStops(f, tiny, p, a, b, root, status, turns)
    ensures status == Success && turns <= 1
  {
    AffineRoot(c, d);
    AffineTrial(f, df, c, d, tiny, a, b, -d / c);
    StopsAtRoot(f, tiny, p, a, b, root, status, turns);
  }

  lemma {:induction false} RunningEarlier(f: real -> real, df: real -> real, tiny: real, p: Params, s: Point, j: nat, k: nat)
    requires tiny > 0.0 && j <= k && NewtonRunning(f, df, tiny, p, s, k)
    ensures NewtonRunning(f, df, tiny, p, s, j)
    decreases k
  {
    if j < k { RunningEarlier(f, df, tiny, p, s, j, k - 1); }
  }

  lemma AffineRoot(c: real, d: real)
    requires c != 0.0
    ensures c * (-d / c) + d == 0.0
  {}

  lemma SecondTurnHits(f: real -> real, df: real -> real, c: real, d: real, tiny: real, a: real, b: real, z: real)
    requires IsAffine(f, df, c, d) && tiny > 0.0 && Abs(c) > tiny && c * z + d == 0.0 && !SameSide(f(a), f(b))
    ensures NewtonAfter(f, df, tiny, Start(a, b), 1).x == z && f(z) == 0.0
  {
    var s := Start(a, b);
    AffineValue(f, df, c, d, z, s.x);
    AffineZeroBetween(f, df, c, d, z, s.lo, s.hi);
    TrialIsTangentZero(f, df, tiny, s, z);
  }

  lemma NotRunningPast(f: real -> real, df: real -> real, tiny: real, p: Params, s: Point, k: nat)
    requires tiny > 0.0 && p.tolF > 0.0 && f(NewtonAfter(f, df, tiny, s, k).x) == 0.0
    ensures !NewtonRunning(f, df, tiny, p, s, k + 1)
  {}

  /** A search whose second turn starts at a root ends there at the latest. */
  lemma EndsAtRoot(f: real -> real, df: real -> real, tiny: real, p: Params, a: real, b: real, root: real, status: Status,
                   turns: nat)
    requires tiny > 0.0 && p.tolF > 0.0 && p.maxIter >= 2 && !SameSide(f(a), f(b))
    requires NewtonEnds(f, df, tiny, p, a, b, root, status, turns) && f(NewtonAfter(f, df, tiny, Start(a, b), 1).x) == 0.0
    ensures status == Success && turns <= 2 && (turns == 2 ==> f(root) == 0.0)
  {
    var s := Start(a, b);
    NotRunningPast(f, df, tiny, p, s, 1);
    if status == MaxIter { RunningEarlier(f, df, tiny, p, s, 2, turns); }
    if status == Success && turns > 2 { RunningEarlier(f, df, tiny, p, s, 2, turns - 1); }
  }

  /** On an affine function with a steep enough slope Newton's method succeeds within two turns. */
  lemma AffineInTwoTurns(f: real -> real, df: real -> real, c: real, d: real, tiny: real, p: Params, a: real, b: real,
                         root: real, status: Status, turns: nat)
    requires IsAffine(f, df, c, d) && tiny > 0.0 && Abs(c) > tiny && p.tolF > 0.0 && p.maxIter >= 2
    requires !SameSide(f(a), f(b)) && NewtonEnds(f, df, tiny, p, a, b, root, status, turns)
    ensures status == Success && turns <= 2 && (turns == 2 ==> f(root) == 0.0)
  {
    AffineRoot(c, d);
    SecondTurnHits(f, df, c, d, tiny, a, b, -d / c);
    EndsAtRoot(f, df, tiny, p, a, b, root, status, turns);
  }

  /** The root lies in a narrow sign-changing bracket within the given ends. */
  ghost predicate NewtonEnclosed(f: real -> real, p: Params, a: real, b: real, root: real) {
    exists lo, hi :: NewtonEncloses(f, p, a, b, root, lo, hi)
  }

  ghost predicate NewtonEncloses(f: real -> real, p: Params, a: real, b: real, root: real, lo: real, hi: real) {
    && (if a < b then a <= lo && hi <= b else b <= lo && hi <= a)
    && SignChange(f, lo, hi) && lo <= root <= hi && hi - lo < Scale(p.tol, root)
  }

  lemma ConvergedEncloses(f: real -> real, df: real -> real, tiny: real, p: Params, a: real, b: real, k: nat)
    requires tiny > 0.0 && p.tolF > 0.0 && !SameSide(f(a), f(b)) && f(Start(a, b).lo) != 0.0
    requires NewtonRunning(f, df, tiny, p, Start(a, b), k) && Converged(f, p, NewtonAfter(f, df, tiny, Start(a, b), k))
    ensures var t := NewtonAfter(f, df, tiny, Start(a, b), k); Abs(f(t.x)) < p.tolF || NewtonEnclosed(f, p, a, b, t.x)
  {
    NewtonAfterKept(f, df, tiny, p, Start(a, b), 0, k);
    var t := NewtonAfter(f, df, tiny, Start(a, b), k);
    assert t.hi - t.lo < Scale(p.tol, t.x) ==> NewtonEncloses(f, p, a, b, t.x, t.lo, t.hi);
  }
}
