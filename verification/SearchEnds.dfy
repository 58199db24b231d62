// When the Wolfe line search ends.  With the gradient of a smooth function that is bounded below it always does.
// Where the function only has a subgradient, or the stored gradient is that of another point, its only other exit
// looks at values up to twice the first one: it ends from every positive value, and need not end from any other.

module SearchEnds {
  import opened Sums
  import opened Vectors
  import opened InverseHessian
  import opened Bfgs

  function Value(line: Line, lambda: real): real
    requires |line.x| == |line.d|
  {
    line.p.f(line.At(lambda))
  }

  ghost predicate Near(line: Line, lambda: real, eps: real, delta: real)
    requires |line.x| == |line.d|
  {
    delta > 0.0 && forall mu: real :: lambda - delta < mu < lambda + delta ==>
      Value(line, lambda) - eps < Value(line, mu) < Value(line, lambda) + eps
  }

  ghost predicate Continuous(line: Line, lambda: real, eps: real)
    requires |line.x| == |line.d|
  {
    exists delta: real :: Near(line, lambda, eps, delta)
  }

  /** Bounded below from x on, with the first value that of x. */
  ghost predicate Bounded(line: Line, b: real) {
    && line.Valid() && line.valx == line.p.f(line.x)
    && forall lambda: real :: lambda > 0.0 ==> Value(line, lambda) >= b
  }

  /** Continuous as well; of the gradient nothing is assumed. */
  ghost predicate Tame(line: Line, b: real) {
    Bounded(line, b) && forall lambda: real, eps: real :: lambda >= 0.0 && eps > 0.0 ==> Continuous(line, lambda, eps)
  }

  /** The slope that the gradient gives at lambda. */
  function Slope(line: Line, lambda: real): real
    requires line.p.Valid() && |line.x| == |line.d| == line.p.n
  {
    Dot(line.p.grad(line.At(lambda)), line.d)
  }

  /** Steps shorter than delta from points up to far rise by no more than the gradient says, up to eps. */
  ghost predicate Follows(line: Line, far: real, eps: real, delta: real)
    requires line.Valid()
  {
    delta > 0.0 && forall lo: real, hi: real :: 0.0 <= lo <= far && lo < hi < lo + delta ==>
      Value(line, hi) <= Value(line, lo) + Mul(hi - lo, Slope(line, lo) + eps)
  }

  ghost predicate Differentiable(line: Line, far: real, eps: real)
    requires line.Valid()
  {
    exists delta: real :: Follows(line, far, eps, delta)
  }

  /** The search starts with the gradient at x, and along the line the gradient is that of the function: the
      function is continuously differentiable from x on. */
  ghost predicate Smooth(line: Line, b: real) {
    && Bounded(line, b) && line.slope == Slope(line, 0.0)
    && forall far: real, eps: real :: far >= 0.0 && eps > 0.0 ==> Differentiable(line, far, eps)
  }

  /** The search starts with the gradient at x, and along the line the gradient is a subgradient of a convex
      function. */
  ghost predicate Convex(line: Line)
    requires line.Valid()
  {
    && line.slope == Slope(line, 0.0)
    && forall lo: real, hi: real :: Value(line, hi) >= Value(line, lo) + Mul(hi - lo, Slope(line, lo))
  }

  ghost predicate Ends(line: Line, lambda0: real, lambdaInit: real)
    requires line.Valid()
  {
    exists n: nat :: !StillSearching(line, lambda0, lambdaInit, n)
  }

  // ---------------------------------------------------------------------------------------------
  // The trials, whether or not they are accepted
  // ---------------------------------------------------------------------------------------------

  ghost predicate Midway(s: Search) {
    0.0 <= s.lmin < s.lambda && (!s.unbounded ==> s.lambda - s.lmin == s.lmax - s.lambda)
  }

  lemma {:induction false} TrialStep(line: Line, lambda0: real, t: nat)
    requires line.Valid() && lambda0 > 0.0
    ensures var s, s' := Trial(line, lambda0, t), Trial(line, lambda0, t + 1);
      && Midway(s) && Midway(s')
      && (s'.unbounded ==> s.unbounded && s'.lambda == 10.0 * s.lambda && line.Decreases(s.lambda))
      && (!s.unbounded ==> s'.lmax - s'.lmin == (s.lmax - s.lmin) / 2.0)
      && (!line.Decreases(s.lambda) ==> s'.lmin == s.lmin)
  {
    if t == 0 {
    } else {
      TrialStep(line, lambda0, t - 1);
    }
  }

  // ---------------------------------------------------------------------------------------------
  // A function bounded below stops the steps from growing
  // ---------------------------------------------------------------------------------------------

  lemma {:induction false} Grows(line: Line, lambda0: real, t: nat)
    requires line.Valid() && lambda0 > 0.0 && Trial(line, lambda0, t).unbounded
    ensures Trial(line, lambda0, t).lambda >= Mul((t + 1) as real, lambda0)
  {
    if t == 0 {
    } else {
      TrialStep(line, lambda0, t - 1);
      Grows(line, lambda0, t - 1);
      TenTimes(t as real, lambda0, Trial(line, lambda0, t - 1).lambda);
    }
  }

  lemma {:induction false} TenTimes(t: real, lambda0: real, lambda: real)
    requires t >= 1.0 && lambda0 > 0.0 && lambda >= Mul(t, lambda0)
    ensures 10.0 * lambda >= Mul(t + 1.0, lambda0)
  {
    ProductPositive(t, lambda0);
    assert Mul(t + 1.0, lambda0) == Mul(t, lambda0) + lambda0;
    assert Mul(t - 1.0, lambda0) == Mul(t, lambda0) - lambda0;
    assert Mul(t - 1.0, lambda0) >= 0.0;
  }

  /** A multiple of a positive number that exceeds x. */
  lemma {:induction false} Exceeds(step: real, x: real) returns (n: nat)
    requires step > 0.0
    ensures Mul(n as real, step) > x
  {
    var q := x / step;
    n := if q < 0.0 then 1 else q.Floor + 1;
    assert n as real > q;
    assert q * step == x;
    ProductPositive(n as real - q, step);
    assert Mul(n as real, step) == q * step + (n as real - q) * step;
  }

  lemma {:induction false} GetsBounded(line: Line, lambda0: real, b: real) returns (t: nat)
    requires Bounded(line, b) && lambda0 > 0.0
    ensures !Trial(line, lambda0, t).unbounded
  {
    var step := M1 * -line.slope;
    ProductPositive(lambda0, step);
    var n := Exceeds(lambda0 * step, line.valx - b);
    t := n + 1;
    if Trial(line, lambda0, t).unbounded {
      TrialStep(line, lambda0, n);
      Grows(line, lambda0, n);
      var lambda := Trial(line, lambda0, n).lambda;
      assert Value(line, lambda) >= b;
      TooFar(n as real, lambda0, lambda, line.slope, line.valx - b);
    }
  }

  /** A decrease this large is impossible. */
  lemma {:induction false} TooFar(n: real, lambda0: real, lambda: real, slope: real, room: real)
    requires n >= 0.0 && lambda0 > 0.0 && slope < 0.0 && lambda >= Mul(n + 1.0, lambda0)
    requires Mul(n, lambda0 * (M1 * -slope)) > room
    ensures -(M1 * lambda * slope) > room
  {
    var step := M1 * -slope;
    assert Mul(n + 1.0, lambda0) == Mul(n, lambda0) + lambda0;
    ProductPositive(lambda0, step);
    assert Mul(n, lambda0 * step) == Mul(n, lambda0) * step;
    assert -(M1 * lambda * slope) == lambda * step;
    AtLeast(lambda, Mul(n, lambda0), step);
  }

  lemma {:induction false} AtLeast(x: real, y: real, step: real)
    requires x >= y && step > 0.0
    ensures x * step >= y * step
  {
  }

  // ---------------------------------------------------------------------------------------------
  // Then the bracket shrinks to nothing
  // ---------------------------------------------------------------------------------------------

  function Width(s: Search): real {
    s.lmax - s.lmin
  }

  lemma {:induction false} Shrinks(line: Line, lambda0: real, t: nat, k: nat)
    requires line.Valid() && lambda0 > 0.0 && !Trial(line, lambda0, t).unbounded
    ensures var s, s' := Trial(line, lambda0, t), Trial(line, lambda0, t + k);
      !s'.unbounded && Width(s') > 0.0 && Mul((k + 1) as real, Width(s')) <= Width(s)
  {
    TrialStep(line, lambda0, t + k);
    if k == 0 {
    } else {
      Shrinks(line, lambda0, t, k - 1);
      TrialStep(line, lambda0, t + k - 1);
      Halved(k as real, Width(Trial(line, lambda0, t + k - 1)));
    }
  }

  lemma {:induction false} Halved(k: real, w: real)
    requires k >= 1.0 && w > 0.0
    ensures Mul(k + 1.0, w / 2.0) <= Mul(k, w)
  {
    assert Mul(k + 1.0, w / 2.0) == k * w - (k - 1.0) * (w / 2.0);
  }

  /** From some trial on, the bracket is narrower than eps. */
  lemma {:induction false} GetsNarrow(line: Line, lambda0: real, t: nat, eps: real) returns (m: nat)
    requires line.Valid() && lambda0 > 0.0 && !Trial(line, lambda0, t).unbounded && eps > 0.0
    ensures m >= t
    ensures forall u: nat {:trigger Trial(line, lambda0, u)} :: u >= m ==>
      !Trial(line, lambda0, u).unbounded && 0.0 < Width(Trial(line, lambda0, u)) < eps
  {
    var w := Width(Trial(line, lambda0, t));
    var k := Exceeds(eps, w);
    m := t + k;
    forall u: nat {:trigger Trial(line, lambda0, u)} | u >= m
      ensures !Trial(line, lambda0, u).unbounded && 0.0 < Width(Trial(line, lambda0, u)) < eps
    {
      Shrinks(line, lambda0, t, u - t);
      assert t + (u - t) == u;
      Narrow(k as real, (u - t + 1) as real, Width(Trial(line, lambda0, u)), eps, w);
    }
  }

  lemma {:induction false} Narrow(k: real, j: real, width: real, eps: real, w: real)
    requires 0.0 <= k <= j && eps > 0.0 && width > 0.0 && Mul(j, width) <= w < Mul(k, eps)
    ensures width < eps
  {
    AtLeast(j, k, width);
    assert k * (eps - width) == k * eps - k * width;
    PositiveFactor(k, eps - width);
  }

  lemma {:induction false} PositiveFactor(k: real, d: real)
    requires k >= 0.0 && k * d > 0.0
    ensures d > 0.0
  {
  }

  // ---------------------------------------------------------------------------------------------
  // The search
  // ---------------------------------------------------------------------------------------------

  /** While the search goes on, its bracket is known to have decreased at the lower end. */
  lemma {:induction false} StaysBracketed(line: Line, lambda0: real, lambdaInit: real, t: nat)
    requires line.Valid() && lambda0 > 0.0 && StillSearching(line, lambda0, lambdaInit, t)
    ensures line.Bracketed(Trial(line, lambda0, t))
  {
    if t == 0 {
    } else {
      StaysBracketed(line, lambda0, lambdaInit, t - 1);
      NextKeepsBracket(line, Trial(line, lambda0, t - 1));
    }
  }

  /** Once the bracket is narrow, a search that goes on only sees high values. */
  lemma {:induction false} OnlyHigh(line: Line, lambda0: real, lambdaInit: real, m: nat, u: nat)
    requires line.Valid() && lambda0 > 0.0 && line.valx > 0.0 && m <= u
    requires forall n: nat :: StillSearching(line, lambda0, lambdaInit, n)
    requires forall u: nat {:trigger Trial(line, lambda0, u)} :: u >= m ==>
      !Trial(line, lambda0, u).unbounded && 0.0 < Width(Trial(line, lambda0, u)) < lambdaInit * 0.00000001
    ensures Value(line, Trial(line, lambda0, u).lambda) > 2.0 * line.valx
    ensures Trial(line, lambda0, u).lmin == Trial(line, lambda0, m).lmin
  {
    HighHere(line, lambda0, lambdaInit, u);
    if u == m {
    } else {
      OnlyHigh(line, lambda0, lambdaInit, m, u - 1);
      TrialStep(line, lambda0, u - 1);
      HighFails(line, Trial(line, lambda0, u - 1).lambda);
    }
  }

  lemma {:induction false} HighHere(line: Line, lambda0: real, lambdaInit: real, u: nat)
    requires line.Valid() && lambda0 > 0.0 && StillSearching(line, lambda0, lambdaInit, u + 1)
    requires var next := Trial(line, lambda0, u + 1);
      !next.unbounded && Width(next) < lambdaInit * 0.00000001
    ensures Value(line, Trial(line, lambda0, u).lambda) > 2.0 * line.valx
  {
    var s := Trial(line, lambda0, u);
    assert GoesOn(line, lambdaInit, s);
    assert s.Next(line.Decreases(s.lambda)) == Trial(line, lambda0, u + 1);
  }

  lemma {:induction false} HighFails(line: Line, lambda: real)
    requires line.Valid() && line.valx > 0.0 && Value(line, lambda) > 2.0 * line.valx && lambda > 0.0
    ensures !line.Decreases(lambda)
  {
    ProductPositive(lambda, -line.slope);
    assert M1 * lambda * line.slope == -M1 * (lambda * -line.slope);
  }

  /** The value at the lower end of the bracket is not above the first one. */
  lemma {:induction false} LowEnd(line: Line, s: Search, b: real)
    requires Bounded(line, b) && line.Bracketed(s)
    ensures Value(line, s.lmin) <= line.valx
  {
    if s.lmin > 0.0 {
      ProductPositive(s.lmin, -line.slope);
      assert M1 * s.lmin * line.slope == -M1 * (s.lmin * -line.slope);
    } else {
      assert line.At(0.0) == line.x;
    }
  }

  /** From a positive value the search ends, whatever the gradient is. */
  lemma {:induction false} PositiveEnds(line: Line, lambda0: real, lambdaInit: real, b: real)
    requires Tame(line, b) && lambda0 > 0.0 && lambdaInit > 0.0 && line.valx > 0.0
    ensures Ends(line, lambda0, lambdaInit)
  {
    if forall n: nat :: StillSearching(line, lambda0, lambdaInit, n) {
      var t := GetsBounded(line, lambda0, b);
      var m := GetsNarrow(line, lambda0, t, lambdaInit * 0.00000001);
      StaysBracketed(line, lambda0, lambdaInit, m);
      var low := Trial(line, lambda0, m).lmin;
      LowEnd(line, Trial(line, lambda0, m), b);
      assert Continuous(line, low, line.valx);
      var delta: real :| Near(line, low, line.valx, delta);
      var u := GetsNarrow(line, lambda0, m, delta);
      OnlyHigh(line, lambda0, lambdaInit, m, u);
      TrialStep(line, lambda0, u);
      assert false;
    }
  }

  /** The width of the bracket is positive, and its upper end stays below the first one. */
  lemma {:induction false} StaysBelow(line: Line, lambda0: real, t: nat, k: nat)
    requires line.Valid() && lambda0 > 0.0 && !Trial(line, lambda0, t).unbounded
    ensures Trial(line, lambda0, t + k).lmax <= Trial(line, lambda0, t).lmax
  {
    if k == 0 {
    } else {
      StaysBelow(line, lambda0, t, k - 1);
      Shrinks(line, lambda0, t, k - 1);
      TrialStep(line, lambda0, t + k - 1);
      assert t + k - 1 + 1 == t + k;
    }
  }

  /** At the lower end the function falls at least by what the search asks for, and still falls too steeply. */
  lemma {:induction false} SteepEnd(line: Line, s: Search, b: real)
    requires Smooth(line, b) && line.Bracketed(s)
    ensures Value(line, s.lmin) <= line.valx + M1 * s.lmin * line.slope && Slope(line, s.lmin) < M2 * line.slope
  {
    if s.lmin == 0.0 {
      assert line.At(0.0) == line.x;
    }
  }

  /** A narrow bracket cannot be: across it the function falls by less than M1 times the first slope says, and its
      slope at the lower end is below M2 times the first. */
  lemma {:induction false} NoNarrowBracket(line: Line, s: Search, far: real, eps: real, delta: real, b: real)
    requires Smooth(line, b) && line.Bracketed(s) && !s.unbounded && s.lmin <= far && 0.0 < Width(s) < delta
    requires eps == (M2 - M1) * -line.slope
    ensures !Follows(line, far, eps, delta)
  {
    var lo, hi := s.lmin, s.lmax;
    var rate := Slope(line, lo) + eps;
    SteepEnd(line, s, b);
    TooShallow(rate, line.slope, lo, hi);
    assert !line.Decreases(hi);
    assert Value(line, hi) > Value(line, lo) + Mul(hi - lo, rate);
  }

  /** A rise at a rate below M1 times the slope. */
  lemma {:induction false} TooShallow(rate: real, slope: real, lo: real, hi: real)
    requires lo < hi && rate < M1 * slope
    ensures M1 * lo * slope + Mul(hi - lo, rate) < M1 * hi * slope
  {
    var h, most := hi - lo, M1 * slope;
    ProductPositive(h, most - rate);
    assert h * (most - rate) == h * most - h * rate;
    assert M1 * hi * slope == M1 * lo * slope + h * most;
  }

  /** With the gradient of a smooth function that is bounded below, the search ends from every value. */
  lemma {:induction false} SmoothEnds(line: Line, lambda0: real, lambdaInit: real, b: real)
    requires Smooth(line, b) && lambda0 > 0.0
    ensures Ends(line, lambda0, lambdaInit)
  {
    if forall n: nat :: StillSearching(line, lambda0, lambdaInit, n) {
      var t := GetsBounded(line, lambda0, b);
      TrialStep(line, lambda0, t);
      var far, eps := Trial(line, lambda0, t).lmax, (M2 - M1) * -line.slope;
      ProductPositive(M2 - M1, -line.slope);
      assert Differentiable(line, far, eps);
      var delta: real :| Follows(line, far, eps, delta);
      var m := GetsNarrow(line, lambda0, t, delta);
      StaysBelow(line, lambda0, t, m - t);
      assert t + (m - t) == m;
      StaysBracketed(line, lambda0, lambdaInit, m);
      NoNarrowBracket(line, Trial(line, lambda0, m), far, eps, delta, b);
    }
  }

  // ---------------------------------------------------------------------------------------------
  // A value that is not positive
  // ---------------------------------------------------------------------------------------------

  function Head(v: Vector): real {
    if v == [] then 0.0 else v[0]
  }

  function Abs(x: real): real {
    if x < 0.0 then -x else x
  }

  /** One variable; the absolute value above its least value, with a subgradient at the kink. */
  function Kink(value: real): Problem {
    Problem(1, v => value + Abs(Head(v)), v => seq(|v|, i => if Head(v) > 0.0 then 1.0 else -1.0))
  }

  /** The first line search from the kink. */
  function FromKink(value: real): Line {
    Line(Kink(value), [0.0], [1.0], value, -1.0)
  }

  lemma {:induction false} KinkAt(value: real, lambda: real)
    ensures Value(FromKink(value), lambda) == value + Abs(lambda)
    ensures Slope(FromKink(value), lambda) == if lambda > 0.0 then 1.0 else -1.0
  {
    var line := FromKink(value);
    var y, r := line.At(lambda), line.p.grad(line.At(lambda));
    assert y == [lambda];
    assert r == [if lambda > 0.0 then 1.0 else -1.0];
    assert Dot(r, line.d) == Dot(r[1..], line.d[1..]) + r[0] * line.d[0];
  }

  lemma {:induction false} KinkIsTame(value: real)
    ensures Tame(FromKink(value), value)
  {
    var line := FromKink(value);
    assert line.At(0.0) == line.x;
    forall lambda: real
      ensures Value(line, lambda) == value + Abs(lambda)
    {
      KinkAt(value, lambda);
    }
    forall lambda: real, eps: real | lambda >= 0.0 && eps > 0.0
      ensures Continuous(line, lambda, eps)
    {
      assert Near(line, lambda, eps, eps);
    }
  }

  lemma {:induction false} KinkIsConvex(value: real)
    ensures Convex(FromKink(value))
  {
    var line := FromKink(value);
    KinkAt(value, 0.0);
    forall lo: real, hi: real
      ensures Value(line, hi) >= Value(line, lo) + Mul(hi - lo, Slope(line, lo))
    {
      KinkAt(value, lo);
      KinkAt(value, hi);
      AbsAbove(lo, hi, Slope(line, lo));
    }
  }

  lemma {:induction false} AbsAbove(lo: real, hi: real, slope: real)
    requires slope == if lo > 0.0 then 1.0 else -1.0
    ensures Abs(hi) >= Abs(lo) + Mul(hi - lo, slope)
  {
  }

  /** From the kink, the first pass of a minimization searches along this line, and if the value there is not
      positive its search goes on for any number of trials. */
  lemma {:induction false} KinkNeverEnds(value: real, version: Version, n: nat)
    requires value <= 0.0
    ensures var line := FromKink(value);
      && line.valx == line.p.f(line.x) && line.d == Scaled(-1.0, Apply(version, [], line.p.grad(line.x)))
      && line.slope == Dot(line.p.grad(line.x), line.d) && StillSearching(line, 1.0, 1.0, n)
  {
    var line := FromKink(value);
    KinkAt(value, 0.0);
    assert line.At(0.0) == line.x;
    forall t: nat {:trigger Trial(line, 1.0, t)} | t < n
      ensures GoesOn(line, 1.0, Trial(line, 1.0, t))
    {
      TrialStep(line, 1.0, t);
      KinkAt(value, Trial(line, 1.0, t).lambda);
    }
  }

  /** On convex functions with subgradients the search ends for all lines that start at this value exactly if the
      value is positive. */
  lemma {:induction false} EndsIffPositive(value: real)
    ensures (forall line: Line, lambda0: real, lambdaInit: real, b: real ::
               Tame(line, b) && Convex(line) && line.valx == value && lambda0 > 0.0 && lambdaInit > 0.0 ==>
                 Ends(line, lambda0, lambdaInit))
      <==> value > 0.0
  {
    if value > 0.0 {
      forall line: Line, lambda0: real, lambdaInit: real, b: real
        | Tame(line, b) && Convex(line) && line.valx == value && lambda0 > 0.0 && lambdaInit > 0.0
        ensures Ends(line, lambda0, lambdaInit)
      {
        PositiveEnds(line, lambda0, lambdaInit, b);
      }
    } else {
      KinkIsTame(value);
      KinkIsConvex(value);
      forall n: nat
        ensures StillSearching(FromKink(value), 1.0, 1.0, n)
      {
        KinkNeverEnds(value, BFGS, n);
      }
      assert !Ends(FromKink(value), 1.0, 1.0);
    }
  }
}
