// The quasi-Newton minimizer: the stored inverse Hessian, the Wolfe line search, the outer loop.

module Bfgs {
  import opened Sums
  import opened Vectors
  import opened InverseHessian

  class BfgsInvHessian {
    const version: Version
    var delta: seq<Vector>
    var gamma: seq<Vector>
    var zeta: seq<Vector>
    var tau: seq<real>
    var rho: seq<real>

    ghost predicate Valid(n: nat)
      reads this
    {
      && |delta| == |gamma| == |zeta| == |tau| == |rho|
      && Sized(History(), n)
    }

    /** The stored vectors, update by update. */
    ghost function History(): (us: seq<Update>)
      reads this
      ensures |us| == |delta|
    {
      seq(|delta|, (k: int) requires 0 <= k < |delta| reads this =>
        if k < |gamma| && k < |zeta| && k < |tau| && k < |rho| then
          InverseHessian.Update(delta[k], gamma[k], zeta[k], tau[k], rho[k])
        else InverseHessian.Update([], [], [], 0.0, 0.0))
    }

    constructor (v: Version)
      ensures version == v && History() == []
      ensures forall n: nat :: Valid(n) && Curved(version, History(), n)
    {
      version := v;
      delta, gamma, zeta, tau, rho := [], [], [], [], [];
    }

    /** What update k adds to y for the argument x. */
    method AddUpdate(k: nat, x: Vector, y: Vector) returns (r: Vector)
      requires Valid(|x|) && Usable(version, History()) && k < |delta| && |y| == |x|
      ensures r == Contribute(version, History()[k], x, y)
    {
      assert History()[k] == InverseHessian.Update(delta[k], gamma[k], zeta[k], tau[k], rho[k]);
      var xdelta := Dot(x, delta[k]);
      var xzeta := Dot(x, zeta[k]);
      match version {
        case BFGS =>
          r := AddScaled(y, Mul(rho[k], xdelta), zeta[k]);
          r := AddScaled(r, Mul(rho[k], xzeta - Mul(Mul(rho[k], tau[k]), xdelta)), delta[k]);
        case DFP =>
          r := AddScaled(y, Mul(rho[k], xdelta), delta[k]);
          r := AddScaled(r, -(xzeta / tau[k]), zeta[k]);
      }
    }

    /** Multiply by the inverse Hessian approximation. */
    method Hmult(x: Vector) returns (y: Vector)
      requires Valid(|x|) && Usable(version, History())
      ensures |y| == |x| && y == Apply(version, History(), x)
    {
      y := x;
      ghost var us := History();
      for k := 0 to |delta|
        invariant |y| == |x| && Sized(us[..k], |x|) && Usable(version, us[..k])
        invariant y == Apply(version, us[..k], x)
      {
        ApplyNext(version, us, k, x);
        y := AddUpdate(k, x, y);
      }
      assert us[..|delta|] == us;
    }

    method Restart()
      modifies this
      ensures History() == []
      ensures forall n: nat :: Valid(n) && Curved(version, History(), n)
    {
      delta, gamma, zeta, tau, rho := [], [], [], [], [];
    }

    /**
     * Record the step deltak with gradient change gammak.  Positive curvature keeps the history
     * curved, hence the operator symmetric positive definite, and the new operator maps gammak to
     * deltak.
     */
    method Update(deltak: Vector, gammak: Vector)
      requires Valid(|deltak|) && Usable(version, History())
      requires |gammak| == |deltak| && Dot(deltak, gammak) != 0.0
      modifies this
      ensures Valid(|deltak|) && |History()| == |old(History())| + 1
      ensures History()[..|old(History())|] == old(History())
      ensures var u := History()[|old(History())|];
        u.delta == deltak && u.gamma == gammak && IsUpdate(version, old(History()), u, |deltak|)
      ensures old(Curved(version, History(), |deltak|)) && Dot(deltak, gammak) > 0.0 ==>
        && Curved(version, History(), |deltak|)
        && Positive(version, History(), |deltak|)
        && Apply(version, History(), gammak) == deltak
    {
      ghost var us := History();
      var y := Hmult(gammak);
      var r := 1.0 / Dot(deltak, gammak);
      Reciprocal(Dot(deltak, gammak), r);
      var z := match version
               case BFGS => AddScaled(deltak, -1.0, y)
               case DFP => y;
      Record(deltak, gammak, z, Dot(gammak, z), r);
      UpdateSucceeds(version, us, InverseHessian.Update(deltak, gammak, z, Dot(gammak, z), r), |deltak|);
    }

    /** One more entry in each of the stored vectors. */
    method Record(deltak: Vector, gammak: Vector, zetak: Vector, tauk: real, rhok: real)
      requires Valid(|deltak|) && |gammak| == |zetak| == |deltak|
      modifies this
      ensures Valid(|deltak|)
      ensures History() == old(History()) + [InverseHessian.Update(deltak, gammak, zetak, tauk, rhok)]
    {
      ghost var us := History();
      delta, gamma := delta + [deltak], gamma + [gammak];
      rho, zeta, tau := rho + [rhok], zeta + [zetak], tau + [tauk];
      assert History() == us + [InverseHessian.Update(deltak, gammak, zetak, tauk, rhok)];
    }
  }

  /** A recorded pair with positive curvature keeps everything the operator is used for. */
  lemma {:induction false} UpdateSucceeds(version: Version, us: seq<Update>, u: Update, n: nat)
    requires Sized(us, n) && Usable(version, us) && IsUpdate(version, us, u, n)
    ensures Curved(version, us, n) && Dot(u.delta, u.gamma) > 0.0 ==>
      && Curved(version, us + [u], n) && Positive(version, us + [u], n)
      && Apply(version, us + [u], u.gamma) == u.delta
  {
    if Curved(version, us, n) && Dot(u.delta, u.gamma) > 0.0 {
      CurvedPush(version, us, u, n);
      CurvedIsPositive(version, us + [u], n);
      Secant(version, us, u, n);
    }
  }

  lemma {:induction false} Reciprocal(x: real, r: real)
    requires x != 0.0 && r == 1.0 / x
    ensures Mul(r, x) == 1.0
  {
  }

  lemma {:induction false} CurvedPush(version: Version, us: seq<Update>, u: Update, n: nat)
    requires Curved(version, us, n) && IsUpdate(version, us, u, n) && Dot(u.delta, u.gamma) > 0.0
    ensures version.DFP? ==> u.tau != 0.0
    ensures Curved(version, us + [u], n)
  {
    CurvedIsPositive(version, us, n);
    if version.DFP? {
      DfpDivisor(us, u.delta, u.gamma, n);
    }
    assert (us + [u])[..|us|] == us;
  }

  // ---------------------------------------------------------------------------------------------
  // Wolfe line search
  // ---------------------------------------------------------------------------------------------

  const M1: real := 0.27
  const M2: real := 0.57

  /** The problem: a function and its gradient on vectors of length n. */
  datatype Problem = Problem(n: nat, f: Vector -> real, grad: Vector -> Vector) {
    ghost predicate Valid() {
      forall v: Vector :: |v| == n ==> |grad(v)| == n
    }
  }

  /** One line search: from x along d, where f(x) = valx and the slope is negative. */
  datatype Line = Line(p: Problem, x: Vector, d: Vector, valx: real, slope: real) {
    ghost predicate Valid() {
      p.Valid() && |x| == |d| == p.n && slope < 0.0
    }

    function At(lambda: real): Vector
      requires |x| == |d|
    {
      AddScaled(x, lambda, d)
    }

    /** Enough decrease at lambda. */
    predicate Decreases(lambda: real)
      requires |x| == |d|
    {
      p.f(At(lambda)) <= valx + M1 * lambda * slope
    }

    /** The slope at lambda has flattened enough. */
    ghost predicate Flattens(lambda: real)
      requires Valid()
    {
      Dot(p.grad(At(lambda)), d) >= M2 * slope
    }

    /**
     * What the search knows between trials: it moved up to lmin because the slope was still too
     * steep there, and once bounded, lmax failed to decrease and lambda is midway between.
     */
    ghost predicate Bracketed(s: Search)
      requires Valid()
    {
      && 0.0 <= s.lmin < s.lambda
      && (s.lmin > 0.0 ==> Decreases(s.lmin) && !Flattens(s.lmin))
      && (!s.unbounded ==> !Decreases(s.lmax) && s.lambda - s.lmin == s.lmax - s.lambda)
    }
  }

  /** The step length being tried and the bracket around it. */
  datatype Search = Search(lambda: real, lmin: real, lmax: real, unbounded: bool) {
    /** After a trial that did not meet both conditions. */
    function Next(decreased: bool): Search {
      var s := if decreased then this.(lmin := lambda) else this.(lmax := lambda, unbounded := false);
      s.(lambda := if s.unbounded then lambda * 10.0 else (s.lmax + s.lmin) / 2.0)
    }
  }

  /** A rejected trial keeps the bracket, and once bounded halves it. */
  lemma {:induction false} NextKeepsBracket(line: Line, s: Search)
    requires line.Valid() && line.Bracketed(s)
    requires !(line.Decreases(s.lambda) && line.Flattens(s.lambda))
    ensures var s' := s.Next(line.Decreases(s.lambda));
      && line.Bracketed(s')
      && (s.unbounded && s'.unbounded ==> s'.lambda == 10.0 * s.lambda)
      && (!s.unbounded ==> !s'.unbounded && s.lmin <= s'.lmin && s'.lmax <= s.lmax
                           && s'.lmax - s'.lmin == (s.lmax - s.lmin) / 2.0)
  {
  }

  /** The search before trial t, when the trials before it were rejected. */
  function Trial(line: Line, lambda0: real, t: nat): Search
    requires line.Valid()
  {
    if t == 0 then Search(lambda0, 0.0, 0.0, true)
    else
      var s := Trial(line, lambda0, t - 1);
      s.Next(line.Decreases(s.lambda))
  }

  /** The test for a blocked search after trial s, which led on to next. */
  ghost predicate GivesUp(line: Line, lambdaInit: real, s: Search, next: Search)
    requires line.Valid()
  {
    && line.p.f(line.At(s.lambda)) <= 2.0 * line.valx
    && (next.lambda < lambdaInit * 0.00000001
        || (!next.unbounded && next.lmax - next.lmin < lambdaInit * 0.00000001))
  }

  /** Trial s is neither accepted nor the last. */
  ghost predicate GoesOn(line: Line, lambdaInit: real, s: Search)
    requires line.Valid()
  {
    && !(line.Decreases(s.lambda) && line.Flattens(s.lambda))
    && !GivesUp(line, lambdaInit, s, s.Next(line.Decreases(s.lambda)))
  }

  /** One trial in numbers: when the value has decreased enough and the slope flattened enough, how the bracket and
      the step change otherwise, and when the search is given up. */
  lemma {:induction false} TrialRule(line: Line, lambdaInit: real, s: Search)
    requires line.Valid()
    ensures var y := line.At(s.lambda);
      var down := line.p.f(y) <= line.valx + 0.27 * s.lambda * line.slope;
      var lmin, lmax := if down then s.lambda else s.lmin, if down then s.lmax else s.lambda;
      var unbounded := s.unbounded && down;
      var next := if unbounded then 10.0 * s.lambda else (lmin + lmax) / 2.0;
      && (line.Decreases(s.lambda) <==> down)
      && (line.Flattens(s.lambda) <==> Dot(line.p.grad(y), line.d) >= 0.57 * line.slope)
      && s.Next(line.Decreases(s.lambda)) == Search(next, lmin, lmax, unbounded)
      && (GoesOn(line, lambdaInit, s) <==>
            && !(down && Dot(line.p.grad(y), line.d) >= 0.57 * line.slope)
            && !(line.p.f(y) <= 2.0 * line.valx
                 && (next < lambdaInit * 0.00000001 || (!unbounded && lmax - lmin < lambdaInit * 0.00000001))))
  {
  }

  /** The loop is still searching after n trials. */
  ghost predicate StillSearching(line: Line, lambda0: real, lambdaInit: real, n: nat)
    requires line.Valid()
  {
    forall t: nat {:trigger Trial(line, lambda0, t)} :: t < n ==> GoesOn(line, lambdaInit, Trial(line, lambda0, t))
  }

  /** The last of the first t trials that decreased the value, where the gradient was computed; -1 if none did. */
  function LastDecrease(line: Line, lambda0: real, t: nat): (u: int)
    requires line.Valid()
    ensures -1 <= u < t
  {
    if t == 0 then -1
    else if line.Decreases(Trial(line, lambda0, t - 1).lambda) then t - 1
    else LastDecrease(line, lambda0, t - 1)
  }

  /** The search reached trial t, which has step length lambda. */
  ghost predicate ReachedAt(line: Line, lambda0: real, lambdaInit: real, t: nat, lambda: real)
    requires line.Valid()
  {
    StillSearching(line, lambda0, lambdaInit, t) && lambda == Trial(line, lambda0, t).lambda
  }

  /** The search was given up after trial t, at its point y; r2 is the gradient at the last trial that decreased the
      value, and at y only if that is trial t or none did. */
  ghost predicate BlockedAt(line: Line, lambda0: real, lambdaInit: real, t: nat, y: Vector, r2: Vector)
    requires line.Valid()
  {
    var s, u := Trial(line, lambda0, t), LastDecrease(line, lambda0, t + 1);
    && StillSearching(line, lambda0, lambdaInit, t) && !(line.Decreases(s.lambda) && line.Flattens(s.lambda))
    && s.lambda > 0.0 && y == line.At(s.lambda) && GivesUp(line, lambdaInit, s, Trial(line, lambda0, t + 1))
    && r2 == line.p.grad(if u < 0 then y else line.At(Trial(line, lambda0, u).lambda))
  }

  datatype Outcome =
    | Wolfe(lambda: real, y: Vector, valy: real, r2: Vector)
    | Blocked(y: Vector, valy: real, r2: Vector)
    | OutOfTrials

  /** After t trials the gradient was computed if one of them decreased the value, and is that of the last. */
  ghost predicate GradientStored(line: Line, lambda0: real, t: nat, computed: bool, r2: Vector)
    requires line.Valid()
  {
    var u := LastDecrease(line, lambda0, t);
    (computed <==> u >= 0) && (u >= 0 ==> r2 == line.p.grad(line.At(Trial(line, lambda0, u).lambda)))
  }

  /** The search, cut off after `trials` trials; it is only cut off if it would have gone on. */
  method LineSearch(line: Line, lambda0: real, lambdaInit: real, trials: nat) returns (out: Outcome)
    requires line.Valid() && lambda0 > 0.0
    ensures out.Wolfe? ==>
      && out.lambda > 0.0 && out.y == line.At(out.lambda) && out.valy == line.p.f(out.y)
      && line.Decreases(out.lambda) && line.Flattens(out.lambda) && out.r2 == line.p.grad(out.y)
      && exists t: nat :: t < trials && ReachedAt(line, lambda0, lambdaInit, t, out.lambda)
    ensures out.Blocked? ==>
      && |out.y| == |out.r2| == line.p.n && out.valy == line.p.f(out.y)
      && exists t: nat :: t < trials && BlockedAt(line, lambda0, lambdaInit, t, out.y, out.r2)
    ensures out.OutOfTrials? <==> StillSearching(line, lambda0, lambdaInit, trials)
  {
    var lambda, lmin, lmax := lambda0, 0.0, 0.0;
    var unbounded, gradComputed := true, false;
    var r2: Vector := [];
    for t := 0 to trials
      invariant Search(lambda, lmin, lmax, unbounded) == Trial(line, lambda0, t)
      invariant line.Bracketed(Search(lambda, lmin, lmax, unbounded))
      invariant StillSearching(line, lambda0, lambdaInit, t)
      invariant GradientStored(line, lambda0, t, gradComputed, r2)
    {
      ghost var s := Search(lambda, lmin, lmax, unbounded);
      var y := line.At(lambda);
      var valy := line.p.f(y);
      if line.Decreases(lambda) {
        r2 := line.p.grad(y);
        gradComputed := true;
        if Dot(r2, line.d) >= M2 * line.slope {
          assert ReachedAt(line, lambda0, lambdaInit, t, lambda) && !GoesOn(line, lambdaInit, s);
          return Wolfe(lambda, y, valy, r2);
        }
        lmin := lambda;
      } else {
        lmax := lambda;
        unbounded := false;
      }
      NextKeepsBracket(line, s);
      if unbounded {
        lambda := lambda * 10.0;
      } else {
        lambda := (lmax + lmin) / 2.0;
      }
      ghost var next := s.Next(line.Decreases(s.lambda));
      assert Search(lambda, lmin, lmax, unbounded) == next == Trial(line, lambda0, t + 1);
      if valy <= 2.0 * line.valx
         && (lambda < lambdaInit * 0.00000001 || (!unbounded && lmax - lmin < lambdaInit * 0.00000001)) {
        if !gradComputed {
          r2 := line.p.grad(y);
        }
        assert BlockedAt(line, lambda0, lambdaInit, t, y, r2);
        return Blocked(y, valy, r2);
      }
    }
    return OutOfTrials;
  }

  // ---------------------------------------------------------------------------------------------
  // The outer loop
  // ---------------------------------------------------------------------------------------------

  /** One pass of the outer loop: point, stored gradient, direction, step length, next point. */
  datatype Iterate = Iterate(x: Vector, r: Vector, d: Vector, lambda: real, y: Vector, blocked: bool) {
    function TheLine(p: Problem): Line
      requires |r| == |d|
    {
      Line(p, x, d, p.f(x), Dot(r, d))
    }

    /** d descends for the stored gradient; a step that was not blocked meets both Wolfe conditions. */
    ghost predicate Good(p: Problem) {
      && p.Valid() && |x| == |r| == |d| == |y| == p.n
      && Nonzero(r) && Dot(r, d) < 0.0
      && (!blocked ==>
           && lambda > 0.0 && y == TheLine(p).At(lambda)
           && TheLine(p).Decreases(lambda) && TheLine(p).Flattens(lambda)
           && p.f(y) < p.f(x))
    }

    /** What the next pass starts from: the gradient there, unless this pass was blocked. */
    ghost predicate Leads(p: Problem, x': Vector, r': Vector) {
      x' == y && (!blocked ==> r' == p.grad(y))
    }
  }

  /** Pass k leads to pass k + 1. */
  ghost predicate Linked(p: Problem, run: seq<Iterate>, k: nat) {
    k + 1 < |run| ==> run[k].Leads(p, run[k + 1].x, run[k + 1].r)
  }

  ghost predicate IsRun(p: Problem, x0: Vector, run: seq<Iterate>, x: Vector, r: Vector) {
    && (forall k: nat :: k < |run| ==> run[k].Good(p))
    && (forall k: nat :: Linked(p, run, k))
    && (if run == [] then x == x0 && r == p.grad(x0)
        else run[0].x == x0 && run[0].r == p.grad(x0) && run[|run| - 1].Leads(p, x, r))
  }

  lemma LinkedPush(p: Problem, run: seq<Iterate>, it: Iterate, k: nat)
    requires Linked(p, run, k) && (run != [] ==> run[|run| - 1].Leads(p, it.x, it.r))
    ensures Linked(p, run + [it], k)
  {
  }

  lemma {:induction false} RunPush(p: Problem, x0: Vector, run: seq<Iterate>, it: Iterate, x': Vector, r': Vector)
    requires IsRun(p, x0, run, it.x, it.r) && it.Good(p) && it.Leads(p, x', r')
    ensures IsRun(p, x0, run + [it], x', r')
  {
    var run' := run + [it];
    forall k: nat
      ensures Linked(p, run', k)
    {
      LinkedPush(p, run, it, k);
    }
  }

  /** A restart is due every `restart` iterations. */
  predicate Due(iterations: nat, restart: nat)
    requires restart > 0
  {
    iterations == 0 || (iterations >= restart && Due(iterations - restart, restart))
  }

  lemma {:induction false} DueIsMultiple(iterations: nat, restart: nat)
    requires restart > 0
    ensures Due(iterations, restart) <==> iterations % restart == 0
  {
    if iterations >= restart {
      DueIsMultiple(iterations - restart, restart);
      OneLess(iterations, restart);
    }
  }

  lemma {:induction false} OneLess(x: nat, y: nat)
    requires 0 < y <= x
    ensures (x - y) % y == x % y
  {
    var q, r := (x - y) / y, (x - y) % y;
    assert x == (q + 1) * y + r;
    var s := x / y - (q + 1);
    assert s * y == r - x % y;
    if s >= 1 {
      assert s * y == (s - 1) * y + y;
    } else if s <= -1 {
      assert s * y == (s + 1) * y - y;
    }
  }

  method RestartIsDue(iterations: nat, restart: nat) returns (due: bool)
    requires restart > 0
    ensures due <==> Due(iterations, restart)
  {
    DueIsMultiple(iterations, restart);
    due := iterations % restart == 0;
  }

  /** Which passes ended with a restart: those that were blocked, and every `restart`-th one. */
  function Restarts(run: seq<Iterate>, iterations0: nat, restart: nat): (marks: seq<bool>)
    requires restart > 0
    ensures |marks| == |run|
    ensures forall k: nat :: k < |run| ==> marks[k] == (run[k].blocked || Due(iterations0 + k + 1, restart))
  {
    seq(|run|, (k: int) requires 0 <= k < |run| => run[k].blocked || Due(iterations0 + k + 1, restart))
  }

  lemma {:induction false} RestartsPush(run: seq<Iterate>, iterations0: nat, restart: nat, it: Iterate)
    requires restart > 0
    ensures Restarts(run + [it], iterations0, restart)
      == Restarts(run, iterations0, restart) + [it.blocked || Due(iterations0 + |run| + 1, restart)]
  {
    assert forall k: nat :: k < |run| ==> (run + [it])[k] == run[k];
  }

  /** The last n passes all restarted. */
  ghost predicate LastRestarted(marks: seq<bool>, n: nat) {
    n <= |marks| && forall k: nat :: |marks| - n <= k < |marks| ==> marks[k]
  }

  /** The last n, and not the one before them. */
  ghost predicate InARow(marks: seq<bool>, n: nat) {
    LastRestarted(marks, n) && (n < |marks| ==> !marks[|marks| - n - 1])
  }

  /** Of eleven passes in a row one does not restart, as the loop is left in the eleventh. */
  ghost predicate NeverEleven(marks: seq<bool>) {
    forall n: nat :: n <= |marks| ==> !LastRestarted(marks[..n], 11)
  }

  lemma {:induction false} RestartPush(marks: seq<bool>, n: nat, again: bool)
    requires InARow(marks, n) && NeverEleven(marks) && (n < 10 || !again)
    ensures InARow(marks + [again], if again then n + 1 else 0) && NeverEleven(marks + [again])
  {
    var marks' := marks + [again];
    forall m: nat | m <= |marks'|
      ensures !LastRestarted(marks'[..m], 11)
    {
      if m <= |marks| {
        assert marks'[..m] == marks[..m];
      } else {
        assert marks'[..m] == marks';
        var k: int := if again then |marks| - n - 1 else |marks|;
        assert k >= 0 ==> !marks'[k];
      }
    }
  }

  /** Over a whole run without blocked passes the value has strictly decreased. */
  lemma {:induction false} RunDecreases(p: Problem, x0: Vector, run: seq<Iterate>, x: Vector, r: Vector)
    requires IsRun(p, x0, run, x, r)
    ensures run != [] && (forall k: nat :: k < |run| ==> !run[k].blocked) ==> p.f(x) < p.f(x0)
  {
    if run != [] && (forall k: nat :: k < |run| ==> !run[k].blocked) {
      ValuesFall(p, x0, run, x, r, |run| - 1);
    }
  }

  lemma {:induction false} ValuesFall(p: Problem, x0: Vector, run: seq<Iterate>, x: Vector, r: Vector, k: nat)
    requires IsRun(p, x0, run, x, r) && k < |run| && forall j: nat :: j <= k ==> !run[j].blocked
    ensures p.f(run[k].y) < p.f(x0)
  {
    assert run[k].Good(p);
    if k > 0 {
      ValuesFall(p, x0, run, x, r, k - 1);
      assert Linked(p, run, k - 1);
    }
  }

  /** d = -H r is a descent direction for the stored gradient r. */
  lemma {:induction false} Descent(version: Version, us: seq<Update>, n: nat, r: Vector)
    requires Curved(version, us, n) && |r| == n && Nonzero(r)
    ensures Dot(r, Scaled(-1.0, Apply(version, us, r))) < 0.0
  {
    CurvedIsPositive(version, us, n);
    var h := Apply(version, us, r);
    DotCommutes(r, Scaled(-1.0, h));
    ScaledDot(-1.0, h, r);
    DotCommutes(r, h);
    assert Form(version, us, r, r) > 0.0;
  }

  /** A Wolfe exit has positive curvature along the step. */
  lemma {:induction false} WolfeCurvature(r: Vector, r2: Vector, d: Vector, lambda: real)
    requires |r| == |r2| == |d| && lambda > 0.0
    requires Dot(r, d) < 0.0 && Dot(r2, d) >= M2 * Dot(r, d)
    ensures Dot(Scaled(lambda, d), Scaled(-1.0, AddScaled(r, -1.0, r2))) > 0.0
  {
    var g := Scaled(-1.0, AddScaled(r, -1.0, r2));
    AddScaledDot(r, -1.0, r2, d);
    ScaledDot(-1.0, AddScaled(r, -1.0, r2), d);
    assert Dot(g, d) > 0.0;
    ScaledDot(lambda, d, g);
    DotCommutes(d, g);
    ProductPositive(lambda, Dot(d, g));
  }

  /** A decreasing step along a descent direction lowers the value. */
  lemma {:induction false} DecreaseIsStrict(line: Line, lambda: real)
    requires line.Valid() && lambda > 0.0 && line.Decreases(lambda)
    ensures line.p.f(line.At(lambda)) < line.valx
  {
    ProductPositive(lambda, -line.slope);
    assert M1 * lambda * line.slope == -M1 * (lambda * -line.slope);
  }

  /** The direction and the line search of one pass. */
  method SearchStep(hessian: BfgsInvHessian, p: Problem, x: Vector, r: Vector, valx: real, lambda: real,
                    lambdaInit: real, trials: nat)
    returns (out: Outcome, d: Vector)
    requires p.Valid() && |x| == |r| == p.n && valx == p.f(x) && lambda > 0.0 && Nonzero(r)
    requires hessian.Valid(p.n) && Curved(hessian.version, hessian.History(), p.n)
    ensures |d| == p.n && d == Scaled(-1.0, Apply(hessian.version, hessian.History(), r)) && Dot(r, d) < 0.0
    ensures out.Wolfe? ==>
      && Iterate(x, r, d, out.lambda, out.y, false).Good(p) && out.r2 == p.grad(out.y) && out.valy == p.f(out.y)
      && Dot(Scaled(out.lambda, d), Scaled(-1.0, AddScaled(r, -1.0, out.r2))) > 0.0
      && exists t: nat :: t < trials && ReachedAt(Line(p, x, d, valx, Dot(r, d)), lambda, lambdaInit, t, out.lambda)
    ensures out.Blocked? ==>
      && |out.y| == |out.r2| == p.n && out.valy == p.f(out.y)
      && (forall lambda: real :: Iterate(x, r, d, lambda, out.y, true).Good(p))
      && exists t: nat :: t < trials && BlockedAt(Line(p, x, d, valx, Dot(r, d)), lambda, lambdaInit, t, out.y, out.r2)
    ensures out.OutOfTrials? <==> StillSearching(Line(p, x, d, valx, Dot(r, d)), lambda, lambdaInit, trials)
  {
    var h := hessian.Hmult(r);
    d := Scaled(-1.0, h);
    Descent(hessian.version, hessian.History(), p.n, r);
    var line := Line(p, x, d, valx, Dot(r, d));
    out := LineSearch(line, lambda, lambdaInit, trials);
    if out.Wolfe? {
      WolfeCurvature(r, out.r2, d, out.lambda);
      DecreaseIsStrict(line, out.lambda);
    }
  }

  /** One more pair was recorded, on top of what the history was. */
  ghost predicate Recorded(version: Version, us: seq<Update>, us': seq<Update>, step: Vector, change: Vector) {
    && Sized(us, |step|) && Usable(version, us)
    && |us'| == |us| + 1 && us'[..|us|] == us
    && us'[|us|].delta == step && us'[|us|].gamma == change && IsUpdate(version, us, us'[|us|], |step|)
  }

  /** Restart the stored history, or record the step and the change of the gradient along it. */
  method Learn(hessian: BfgsInvHessian, n: nat, again: bool, step: Vector, change: Vector)
    requires hessian.Valid(n) && Curved(hessian.version, hessian.History(), n) && |step| == |change| == n
    requires !again ==> Dot(step, change) > 0.0
    modifies hessian
    ensures hessian.Valid(n) && Curved(hessian.version, hessian.History(), n)
    ensures again ==> hessian.History() == []
    ensures !again ==>
      && Recorded(hessian.version, old(hessian.History()), hessian.History(), step, change)
      && Apply(hessian.version, hessian.History(), change) == step
  {
    if again {
      hessian.Restart();
    } else {
      hessian.Update(step, change);
    }
  }

  // ---------------------------------------------------------------------------------------------
  // Whole runs
  // ---------------------------------------------------------------------------------------------

  /** What the caller chooses; `maxIter` and `converged` are the stopping rule, `trials` bounds each line search. */
  datatype Settings = Settings(version: Version, restart: nat, iterations0: nat, maxIter: nat,
                               converged: Vector -> bool, lambdaInit: real, trials: nat) {
    ghost predicate Valid(n: nat) {
      && restart > 0 && lambdaInit > 0.0
      && forall r: Vector :: |r| == n && !Nonzero(r) ==> converged(r)
    }
  }

  /** The line of the next pass: along minus the operator of the history us at the stored gradient r. */
  function NextLine(p: Problem, version: Version, us: seq<Update>, x: Vector, r: Vector): Line
    requires |x| == |r| && Sized(us, |r|) && Usable(version, us)
  {
    var d := Scaled(-1.0, Apply(version, us, r));
    Line(p, x, d, p.f(x), Dot(r, d))
  }

  /** The step a pass tries first: the one the pass before took, or lambdaInit at the start and after a blocked pass. */
  function FirstTrial(o: Settings, run: seq<Iterate>): real {
    if run == [] || run[|run| - 1].blocked then o.lambdaInit else run[|run| - 1].lambda
  }

  /** The direction is that of the history, and the search along it ended. */
  ghost predicate Searched(p: Problem, o: Settings, it: Iterate, lambda: real, us: seq<Update>, r': Vector) {
    && it.Good(p) && |r'| == p.n
    && Curved(o.version, us, p.n) && it.d == Scaled(-1.0, Apply(o.version, us, it.r))
    && exists t: nat :: t < o.trials && EndsAt(p, o, it, lambda, r', t)
  }

  /** The search starts at lambda and ends in trial t. */
  ghost predicate EndsAt(p: Problem, o: Settings, it: Iterate, lambda: real, r': Vector, t: nat)
    requires it.Good(p)
  {
    if it.blocked then BlockedAt(it.TheLine(p), lambda, o.lambdaInit, t, it.y, r')
    else ReachedAt(it.TheLine(p), lambda, o.lambdaInit, t, it.lambda)
  }

  /** Pass k restarts. */
  predicate Again(o: Settings, it: Iterate, k: nat)
    requires o.restart > 0
  {
    it.blocked || Due(o.iterations0 + k + 1, o.restart)
  }

  /** A restart empties the history; any other pass adds its step and the change of the gradient along it. */
  ghost predicate Learns(o: Settings, it: Iterate, us: seq<Update>, us': seq<Update>, r': Vector, again: bool)
    requires |r'| == |it.r|
  {
    if again then us' == []
    else Recorded(o.version, us, us', Scaled(it.lambda, it.d), AddScaled(r', -1.0, it.r))
  }

  /** One more pass after this run: it starts at it.x with gradient it.r and the last history, and leaves gradient r'
      and history us'. */
  ghost predicate NextPass(p: Problem, o: Settings, run: seq<Iterate>, hs: seq<seq<Update>>, it: Iterate,
    us': seq<Update>, r': Vector)
    requires o.restart > 0
  {
    && |hs| == |run| + 1 && !o.converged(it.r) && o.iterations0 + |run| < o.maxIter
    && Searched(p, o, it, FirstTrial(o, run), hs[|run|], r')
    && Learns(o, it, hs[|run|], us', r', Again(o, it, |run|))
  }

  /** Pass k of a run, hs[k] being the history before it. */
  ghost predicate PassAt(p: Problem, o: Settings, run: seq<Iterate>, hs: seq<seq<Update>>, r: Vector, k: nat)
    requires o.restart > 0
  {
    && k < |run| && k + 1 < |hs|
    && NextPass(p, o, run[..k], hs[..k + 1], run[k], hs[k + 1], if k + 1 < |run| then run[k + 1].r else r)
  }

  ghost predicate Follows(p: Problem, o: Settings, run: seq<Iterate>, hs: seq<seq<Update>>, r: Vector)
    requires o.restart > 0
  {
    && |hs| == |run| + 1 && hs[0] == []
    && forall k: nat :: k < |run| ==> PassAt(p, o, run, hs, r, k)
  }

  lemma {:induction false} FollowsPush(p: Problem, o: Settings, run: seq<Iterate>, hs: seq<seq<Update>>, it: Iterate,
    us': seq<Update>, r': Vector)
    requires o.restart > 0 && Follows(p, o, run, hs, it.r) && NextPass(p, o, run, hs, it, us', r')
    ensures Follows(p, o, run + [it], hs + [us'], r')
  {
    var run', hs' := run + [it], hs + [us'];
    forall k: nat | k < |run'|
      ensures PassAt(p, o, run', hs', r', k)
    {
      assert run'[..k] == run[..k] && hs'[..k + 1] == hs[..k + 1];
      if k < |run| {
        assert PassAt(p, o, run, hs, it.r, k);
      } else {
        assert run[..k] == run && hs[..k + 1] == hs;
      }
    }
  }

  /** From x with stored gradient r the search of the next pass has not ended after all its trials. */
  ghost predicate SearchRanOut(p: Problem, o: Settings, us: seq<Update>, lambda: real, x: Vector, r: Vector) {
    && |x| == |r| == p.n && Curved(o.version, us, p.n) && NextLine(p, o.version, us, x, r).Valid()
    && StillSearching(NextLine(p, o.version, us, x, r), lambda, o.lambdaInit, o.trials)
  }

  /** The loop gives up after ten passes in a row that restarted, in an eleventh that does. */
  ghost predicate Stalled(p: Problem, o: Settings, run: seq<Iterate>, hs: seq<seq<Update>>, x: Vector, r: Vector)
    requires o.restart > 0
  {
    && LastRestarted(Restarts(run, o.iterations0, o.restart), 10)
    && exists it: Iterate, r': Vector :: Eleventh(p, o, run, hs, x, r, it, r')
  }

  ghost predicate Eleventh(p: Problem, o: Settings, run: seq<Iterate>, hs: seq<seq<Update>>, x: Vector, r: Vector,
    it: Iterate, r': Vector)
    requires o.restart > 0
  {
    && |hs| == |run| + 1 && it.x == x && it.r == r && Again(o, it, |run|)
    && Searched(p, o, it, FirstTrial(o, run), hs[|run|], r')
  }

  lemma StallsIn(p: Problem, o: Settings, run: seq<Iterate>, hs: seq<seq<Update>>, it: Iterate, r': Vector,
    restarts: nat)
    requires o.restart > 0 && |hs| == |run| + 1 && Searched(p, o, it, FirstTrial(o, run), hs[|run|], r')
    requires InARow(Restarts(run, o.iterations0, o.restart), restarts) && restarts >= 10 && Again(o, it, |run|)
    ensures Stalled(p, o, run, hs, it.x, it.r)
  {
    assert Eleventh(p, o, run, hs, it.x, it.r, it, r');
  }

  lemma ChangeOf(r: Vector, r2: Vector)
    requires |r| == |r2|
    ensures Scaled(-1.0, AddScaled(r, -1.0, r2)) == AddScaled(r2, -1.0, r)
  {
  }

  /** The search of one pass, and the step the next one tries first. */
  method SearchPass(hessian: BfgsInvHessian, p: Problem, o: Settings, x: Vector, r: Vector, valx: real, lambda: real)
    returns (out: Outcome, next: real, d: Vector)
    requires p.Valid() && o.Valid(p.n) && |x| == |r| == p.n && valx == p.f(x) && lambda > 0.0 && !o.converged(r)
    requires hessian.version == o.version && hessian.Valid(p.n) && Curved(o.version, hessian.History(), p.n)
    ensures out.OutOfTrials? ==> SearchRanOut(p, o, hessian.History(), lambda, x, r)
    ensures !out.OutOfTrials? ==>
      && |d| == |out.y| == |out.r2| == p.n && out.valy == p.f(out.y) && next > 0.0
      && next == (if out.Blocked? then o.lambdaInit else out.lambda)
      && Searched(p, o, Iterate(x, r, d, next, out.y, out.Blocked?), lambda, hessian.History(), out.r2)
      && (out.Wolfe? ==> out.r2 == p.grad(out.y) && Dot(Scaled(next, d), AddScaled(out.r2, -1.0, r)) > 0.0)
  {
    out, d := SearchStep(hessian, p, x, r, valx, lambda, o.lambdaInit, o.trials);
    next := if out.Wolfe? then out.lambda else o.lambdaInit;
    ghost var it := Iterate(x, r, d, next, if out.OutOfTrials? then x else out.y, out.Blocked?);
    match out {
      case Wolfe(_, y, _, r2) =>
        ChangeOf(r, r2);
        ghost var t: nat :| t < o.trials && ReachedAt(Line(p, x, d, valx, Dot(r, d)), lambda, o.lambdaInit, t, next);
        assert EndsAt(p, o, it, lambda, r2, t);
      case Blocked(y, _, r2) =>
        assert it.Good(p);
        ghost var t: nat :| t < o.trials && BlockedAt(Line(p, x, d, valx, Dot(r, d)), lambda, o.lambdaInit, t, y, r2);
        assert EndsAt(p, o, it, lambda, r2, t);
      case OutOfTrials =>
    }
  }

  /** The history after a pass. */
  method LearnPass(hessian: BfgsInvHessian, o: Settings, ghost it: Iterate, step: real, d: Vector, r: Vector,
                   r2: Vector, again: bool)
    requires |d| == |r| == |r2| && it.lambda == step && it.d == d && it.r == r && hessian.version == o.version
    requires hessian.Valid(|r|) && Curved(o.version, hessian.History(), |r|)
    requires !again ==> Dot(Scaled(step, d), AddScaled(r2, -1.0, r)) > 0.0
    modifies hessian
    ensures hessian.Valid(|r|) && Curved(o.version, hessian.History(), |r|)
    ensures Learns(o, it, old(hessian.History()), hessian.History(), r2, again)
  {
    Learn(hessian, |r|, again, Scaled(step, d), AddScaled(r2, -1.0, r));
  }

  /** One pass of the outer loop: the search, then the history. */
  method Pass(hessian: BfgsInvHessian, p: Problem, o: Settings, x: Vector, r: Vector, valx: real, lambda: real,
              iterations: nat, ghost run: seq<Iterate>, ghost hs: seq<seq<Update>>)
    returns (out: Outcome, next: real, again: bool, ghost it: Iterate)
    requires p.Valid() && o.Valid(p.n) && |x| == |r| == p.n && valx == p.f(x) && lambda > 0.0
    requires !o.converged(r) && iterations == o.iterations0 + |run| + 1 <= o.maxIter
    requires |hs| == |run| + 1 && hs[|run|] == hessian.History() && lambda == FirstTrial(o, run)
    requires hessian.version == o.version && hessian.Valid(p.n) && Curved(o.version, hessian.History(), p.n)
    modifies hessian
    ensures hessian.Valid(p.n) && Curved(o.version, hessian.History(), p.n)
    ensures out.OutOfTrials? ==> SearchRanOut(p, o, hs[|run|], FirstTrial(o, run), x, r)
    ensures !out.OutOfTrials? ==>
      && |out.y| == |out.r2| == p.n && out.valy == p.f(out.y) && next > 0.0
      && it.x == x && it.r == r && it.blocked == out.Blocked? && it.Leads(p, out.y, out.r2)
      && next == (if it.blocked then o.lambdaInit else it.lambda)
      && Searched(p, o, it, FirstTrial(o, run), hs[|run|], out.r2) && again == Again(o, it, |run|)
      && Learns(o, it, hs[|run|], hessian.History(), out.r2, again)
  {
    var d: Vector;
    out, next, d := SearchPass(hessian, p, o, x, r, valx, lambda);
    again, it := false, Iterate(x, r, d, next, x, false);
    if !out.OutOfTrials? {
      it := Iterate(x, r, d, next, out.y, out.Blocked?);
      var due := RestartIsDue(iterations, o.restart);
      again := due || out.Blocked?;
      LearnPass(hessian, o, it, next, d, r, out.r2, again);
    }
  }

  /** What holds between passes: the run so far, its histories, and how many of its last passes restarted. */
  ghost predicate Underway(p: Problem, x0: Vector, o: Settings, run: seq<Iterate>, hs: seq<seq<Update>>, x: Vector,
    r: Vector, restarts: nat)
    requires o.restart > 0
  {
    && IsRun(p, x0, run, x, r) && Follows(p, o, run, hs, r)
    && InARow(Restarts(run, o.iterations0, o.restart), restarts)
    && NeverEleven(Restarts(run, o.iterations0, o.restart))
  }

  lemma {:induction false} MarksPush(run: seq<Iterate>, iterations0: nat, restart: nat, n: nat, it: Iterate,
    again: bool)
    requires restart > 0 && InARow(Restarts(run, iterations0, restart), n)
    requires NeverEleven(Restarts(run, iterations0, restart)) && (n < 10 || !again)
    requires again <==> it.blocked || Due(iterations0 + |run| + 1, restart)
    ensures InARow(Restarts(run + [it], iterations0, restart), if again then n + 1 else 0)
    ensures NeverEleven(Restarts(run + [it], iterations0, restart))
  {
    RestartPush(Restarts(run, iterations0, restart), n, again);
    RestartsPush(run, iterations0, restart, it);
  }

  lemma {:induction false} UnderwayPush(p: Problem, x0: Vector, o: Settings, run: seq<Iterate>,
    hs: seq<seq<Update>>, restarts: nat, it: Iterate, us': seq<Update>, x': Vector, r': Vector, again: bool)
    requires o.restart > 0 && Underway(p, x0, o, run, hs, it.x, it.r, restarts) && it.Leads(p, x', r')
    requires NextPass(p, o, run, hs, it, us', r') && again == Again(o, it, |run|)
    requires restarts < 10 || !again
    ensures Underway(p, x0, o, run + [it], hs + [us'], x', r', if again then restarts + 1 else 0)
  {
    MarksPush(run, o.iterations0, o.restart, restarts, it, again);
    RunPush(p, x0, run, it, x', r');
    FollowsPush(p, o, run, hs, it, us', r');
  }

  /** Minimize f from x0.  `done` is false only if a line search would have gone on beyond its trials. */
  method Minimize(p: Problem, x0: Vector, o: Settings)
    returns (x: Vector, done: bool, ghost run: seq<Iterate>, ghost hs: seq<seq<Update>>, ghost g: Vector)
    requires p.Valid() && |x0| == p.n && o.Valid(p.n)
    ensures |x| == p.n && IsRun(p, x0, run, x, g) && Follows(p, o, run, hs, g)
    ensures NeverEleven(Restarts(run, o.iterations0, o.restart))
    ensures done ==> o.converged(g) || o.iterations0 + |run| >= o.maxIter || Stalled(p, o, run, hs, x, g)
    ensures !done ==> SearchRanOut(p, o, hs[|run|], FirstTrial(o, run), x, g)
    ensures run != [] && (forall k: nat :: k < |run| ==> !run[k].blocked) ==> p.f(x) < p.f(x0)
  {
    var hessian := new BfgsInvHessian(o.version);
    x, run, hs := x0, [], [[]];
    var r := p.grad(x);
    var lambda, valx := o.lambdaInit, p.f(x);
    var restarts := 0;
    var iterations := o.iterations0;
    while !(o.converged(r) || iterations >= o.maxIter)
      invariant |x| == |r| == p.n && valx == p.f(x) && lambda == FirstTrial(o, run) > 0.0
      invariant hessian.version == o.version && fresh(hessian) && hessian.Valid(p.n)
      invariant Underway(p, x0, o, run, hs, x, r, restarts)
      invariant hs[|run|] == hessian.History() && Curved(o.version, hs[|run|], p.n)
      invariant iterations == o.iterations0 + |run| && restarts <= 10
      decreases o.maxIter - iterations
    {
      iterations := iterations + 1;
      var out, next, again, it := Pass(hessian, p, o, x, r, valx, lambda, iterations, run, hs);
      if out.OutOfTrials? {
        RunDecreases(p, x0, run, x, r);
        return x, false, run, hs, r;
      }
      ghost var before := restarts;
      restarts := if again then restarts + 1 else 0;
      if restarts > 10 {
        RunDecreases(p, x0, run, x, r);
        StallsIn(p, o, run, hs, it, out.r2, before);
        return x, true, run, hs, r;
      }
      UnderwayPush(p, x0, o, run, hs, before, it, hessian.History(), out.y, out.r2, again);
      run, hs := run + [it], hs + [hessian.History()];
      r, x, valx, lambda := out.r2, out.y, out.valy, next;
    }
    RunDecreases(p, x0, run, x, r);
    return x, true, run, hs, r;
  }
}
