// The operator a quasi-Newton history stands for, and why it stays positive definite.

module InverseHessian {
  import opened Sums
  import opened Vectors

  datatype Version = BFGS | DFP

  /** One stored rank-two update. */
  datatype Update = Update(delta: Vector, gamma: Vector, zeta: Vector, tau: real, rho: real)

  predicate Sized(us: seq<Update>, n: nat) {
    forall k: nat :: k < |us| ==> |us[k].delta| == n && |us[k].gamma| == n && |us[k].zeta| == n
  }

  /** Every division by tau that applying the operator performs is by a nonzero number. */
  predicate Usable(version: Version, us: seq<Update>) {
    version.DFP? ==> forall k: nat :: k < |us| ==> us[k].tau != 0.0
  }

  /** The multiples of zeta and delta that one update contributes for the argument x. */
  function ZetaShare(version: Version, u: Update, x: Vector): real
    requires |u.delta| == |u.zeta| == |x|
    requires version.DFP? ==> u.tau != 0.0
  {
    match version
    case BFGS => Mul(u.rho, Dot(x, u.delta))
    case DFP => -(Dot(x, u.zeta) / u.tau)
  }

  function DeltaShare(version: Version, u: Update, x: Vector): real
    requires |u.delta| == |u.zeta| == |x|
  {
    match version
    case BFGS => Mul(u.rho, Dot(x, u.zeta) - Mul(Mul(u.rho, u.tau), Dot(x, u.delta)))
    case DFP => Mul(u.rho, Dot(x, u.delta))
  }

  /** y plus what one update contributes, in the order the two versions add it. */
  function Contribute(version: Version, u: Update, x: Vector, y: Vector): (r: Vector)
    requires |u.delta| == |u.zeta| == |x| == |y|
    requires version.DFP? ==> u.tau != 0.0
    ensures |r| == |x|
  {
    match version
    case BFGS =>
      AddScaled(AddScaled(y, ZetaShare(version, u, x), u.zeta), DeltaShare(version, u, x), u.delta)
    case DFP =>
      AddScaled(AddScaled(y, DeltaShare(version, u, x), u.delta), ZetaShare(version, u, x), u.zeta)
  }

  /** The inverse Hessian approximation, applied to x. */
  function Apply(version: Version, us: seq<Update>, x: Vector): (r: Vector)
    requires Sized(us, |x|) && Usable(version, us)
    ensures |r| == |x|
  {
    if us == [] then x
    else Contribute(version, us[|us| - 1], x, Apply(version, us[..|us| - 1], x))
  }

  lemma {:induction false} ApplyNext(version: Version, us: seq<Update>, k: nat, x: Vector)
    requires k < |us| && Sized(us, |x|) && Usable(version, us)
    ensures Sized(us[..k], |x|) && Usable(version, us[..k]) && Sized(us[..k + 1], |x|) && Usable(version, us[..k + 1])
    ensures Apply(version, us[..k + 1], x) == Contribute(version, us[k], x, Apply(version, us[..k], x))
  {
    assert us[..k + 1][..k] == us[..k];
  }

  /** The update that recording the step delta with gradient change gamma appends. */
  ghost predicate IsUpdate(version: Version, us: seq<Update>, u: Update, n: nat)
    requires Sized(us, n) && Usable(version, us)
  {
    && |u.delta| == |u.gamma| == |u.zeta| == n
    && Mul(u.rho, Dot(u.delta, u.gamma)) == 1.0
    && u.tau == Dot(u.gamma, u.zeta)
    && u.zeta == match version
                 case BFGS => AddScaled(u.delta, -1.0, Apply(version, us, u.gamma))
                 case DFP => Apply(version, us, u.gamma)
  }

  /** Every update was recorded on top of the ones before it, each with positive curvature. */
  ghost predicate Curved(version: Version, us: seq<Update>, n: nat) {
    && Sized(us, n) && Usable(version, us)
    && (us != [] ==>
          var init, u := us[..|us| - 1], us[|us| - 1];
          Curved(version, init, n) && IsUpdate(version, init, u, n) && Dot(u.delta, u.gamma) > 0.0)
  }

  /** (z, H x) */
  function Form(version: Version, us: seq<Update>, x: Vector, z: Vector): real
    requires |x| == |z| && Sized(us, |x|) && Usable(version, us)
  {
    Dot(z, Apply(version, us, x))
  }

  // ---------------------------------------------------------------------------------------------
  // Symmetry
  // ---------------------------------------------------------------------------------------------

  /** What one update adds to the form. */
  function Added(version: Version, u: Update, x: Vector, z: Vector): real
    requires |u.delta| == |u.zeta| == |x| == |z|
    requires version.DFP? ==> u.tau != 0.0
  {
    Mul(ZetaShare(version, u, x), Dot(z, u.zeta)) + Mul(DeltaShare(version, u, x), Dot(z, u.delta))
  }

  lemma {:induction false} ContributeDot(version: Version, u: Update, x: Vector, y: Vector, z: Vector)
    requires |u.delta| == |u.zeta| == |x| == |y| == |z|
    requires version.DFP? ==> u.tau != 0.0
    ensures Dot(z, Contribute(version, u, x, y)) == Dot(z, y) + Added(version, u, x, z)
  {
    var c, d := ZetaShare(version, u, x), DeltaShare(version, u, x);
    match version
    case BFGS =>
      DotAddScaled(z, y, c, u.zeta);
      DotAddScaled(z, AddScaled(y, c, u.zeta), d, u.delta);
    case DFP =>
      DotAddScaled(z, y, d, u.delta);
      DotAddScaled(z, AddScaled(y, d, u.delta), c, u.zeta);
  }

  lemma {:induction false} FormStep(version: Version, us: seq<Update>, u: Update, x: Vector, z: Vector)
    requires |x| == |z| && Sized(us + [u], |x|) && Usable(version, us + [u])
    ensures Sized(us, |x|) && Usable(version, us)
    ensures |u.delta| == |u.zeta| == |x| && (version.DFP? ==> u.tau != 0.0)
    ensures Apply(version, us + [u], x) == Contribute(version, u, x, Apply(version, us, x))
    ensures Form(version, us + [u], x, z) == Form(version, us, x, z) + Added(version, u, x, z)
  {
    assert (us + [u])[|us|] == u && (us + [u])[..|us|] == us;
    assert forall k: nat :: k < |us| ==> us[k] == (us + [u])[k];
    ContributeDot(version, u, x, Apply(version, us, x), z);
  }

  lemma {:induction false} AddedSymmetric(version: Version, u: Update, x: Vector, z: Vector)
    requires |u.delta| == |u.zeta| == |x| == |z|
    requires version.DFP? ==> u.tau != 0.0
    ensures Added(version, u, x, z) == Added(version, u, z, x)
  {
    var xd, xz, zd, zz := Dot(x, u.delta), Dot(x, u.zeta), Dot(z, u.delta), Dot(z, u.zeta);
    match version
    case BFGS =>
      SymmetricAlgebra(u.rho, u.tau, xd, xz, zd, zz);
    case DFP =>
      QuotientSwap(u.tau, xz, zz);
      ShareSwap(u.rho, xd, zd);
  }

  lemma {:induction false} QuotientSwap(tau: real, x: real, z: real)
    requires tau != 0.0
    ensures Mul(-(x / tau), z) == Mul(-(z / tau), x)
  {
    var c := 1.0 / tau;
    assert x / tau == c * x && z / tau == c * z;
    assert Mul(-(c * x), z) == -(c * x * z) == Mul(-(c * z), x);
  }

  lemma {:induction false} ShareSwap(rho: real, x: real, z: real)
    ensures Mul(Mul(rho, x), z) == Mul(Mul(rho, z), x)
  {
  }

  lemma {:induction false} SymmetricAlgebra(rho: real, tau: real, xd: real, xz: real, zd: real, zz: real)
    ensures Mul(Mul(rho, xd), zz) + Mul(Mul(rho, xz - Mul(Mul(rho, tau), xd)), zd)
         == Mul(Mul(rho, zd), xz) + Mul(Mul(rho, zz - Mul(Mul(rho, tau), zd)), xd)
  {
  }

  /** The operator is symmetric, whatever the history. */
  lemma {:induction false} FormSymmetric(version: Version, us: seq<Update>, x: Vector, z: Vector)
    requires |x| == |z| && Sized(us, |x|) && Usable(version, us)
    ensures Form(version, us, x, z) == Form(version, us, z, x)
    decreases |us|
  {
    if us == [] {
      DotCommutes(x, z);
    } else {
      var init, u := us[..|us| - 1], us[|us| - 1];
      assert us == init + [u];
      FormStep(version, init, u, x, z);
      FormStep(version, init, u, z, x);
      AddedSymmetric(version, u, x, z);
      FormSymmetric(version, init, x, z);
    }
  }

  lemma {:induction false} FormLinear(version: Version, us: seq<Update>, w: Vector, x: Vector, c: real, g: Vector)
    requires |x| == |g| == |w| && Sized(us, |x|) && Usable(version, us)
    ensures Form(version, us, w, AddScaled(x, c, g)) == Form(version, us, w, x) + Mul(c, Form(version, us, w, g))
  {
    AddScaledDot(x, c, g, Apply(version, us, w));
  }

  /** (x + cg, H(x + cg)) = (x, Hx) + 2c(x, Hg) + c^2 (g, Hg) */
  lemma {:induction false} FormExpands(version: Version, us: seq<Update>, x: Vector, c: real, g: Vector)
    requires |x| == |g| && Sized(us, |x|) && Usable(version, us)
    ensures var z := AddScaled(x, c, g);
      Form(version, us, z, z) ==
        Form(version, us, x, x) + 2.0 * Mul(c, Form(version, us, g, x)) + Mul(c, Mul(c, Form(version, us, g, g)))
  {
    var z := AddScaled(x, c, g);
    FormLinear(version, us, z, x, c, g);
    FormSymmetric(version, us, z, x);
    FormSymmetric(version, us, z, g);
    FormLinear(version, us, x, x, c, g);
    FormLinear(version, us, g, x, c, g);
    FormSymmetric(version, us, x, g);
    Expand(Form(version, us, z, z), Form(version, us, z, x), Form(version, us, z, g),
           Form(version, us, x, x), c, Form(version, us, g, x), Form(version, us, g, g));
  }

  lemma {:induction false} Expand(zz: real, zx: real, zg: real, xx: real, c: real, gx: real, gg: real)
    requires zz == zx + Mul(c, zg) && zx == xx + Mul(c, gx) && zg == gx + Mul(c, gg)
    ensures zz == xx + 2.0 * Mul(c, gx) + Mul(c, Mul(c, gg))
  {
  }

  // ---------------------------------------------------------------------------------------------
  // Positive definiteness
  // ---------------------------------------------------------------------------------------------

  ghost predicate Positive(version: Version, us: seq<Update>, n: nat)
    requires Sized(us, n) && Usable(version, us)
  {
    forall x: Vector :: |x| == n && Nonzero(x) ==> Form(version, us, x, x) > 0.0
  }

  /** The argument shifted along gamma so that the cross terms of the update cancel. */
  function Shift(version: Version, u: Update, x: Vector): (c: real)
    requires |u.delta| == |u.zeta| == |x|
    requires version.DFP? ==> u.tau != 0.0
  {
    match version
    case BFGS => -Mul(u.rho, Dot(x, u.delta))
    case DFP => -(Dot(x, u.zeta) / u.tau)
  }

  lemma {:induction false} BfgsAlgebra(total: real, shifted: real, h: real, xg: real, gg: real, xd: real, xz: real,
                                       dg: real, tau: real, rho: real, e: real, share: real, c: real)
    requires Mul(rho, dg) == 1.0 && xz == xd + Mul(-1.0, xg) && tau == dg + Mul(-1.0, gg)
    requires e == Mul(rho, xd) && share == Mul(rho, xz - Mul(Mul(rho, tau), xd)) && c == -e
    requires total == h + (Mul(e, xz) + Mul(share, xd))
    requires shifted == h + 2.0 * Mul(c, xg) + Mul(c, Mul(c, gg))
    ensures total == shifted + Mul(rho, Mul(xd, xd))
  {
    assert rho * tau * xd == (rho * dg) * xd - e * gg;
    assert share == rho * (e * gg - xg);
    assert Mul(share, xd) == e * (e * gg - xg);
    assert Mul(e, xz) == e * xd - e * xg;
  }

  lemma {:induction false} DfpAlgebra(total: real, shifted: real, h: real, xz: real, xd: real, tau: real, rho: real,
                                      share: real, c: real)
    requires Mul(c, tau) == -xz && share == Mul(rho, xd)
    requires total == h + (Mul(c, xz) + Mul(share, xd))
    requires shifted == h + 2.0 * Mul(c, xz) + Mul(c, Mul(c, tau))
    ensures total == shifted + Mul(rho, Mul(xd, xd))
  {
    assert Mul(c, Mul(c, tau)) == Mul(c, -xz) == -Mul(c, xz);
  }

  lemma {:induction false} QuotientBack(x: real, y: real, c: real)
    requires y != 0.0 && c == -(x / y)
    ensures Mul(c, y) == -x
  {
  }

  lemma {:induction false} ZetaDot(us: seq<Update>, u: Update, w: Vector)
    requires Sized(us, |w|) && IsUpdate(BFGS, us, u, |w|)
    ensures Dot(w, u.zeta) == Dot(w, u.delta) + Mul(-1.0, Form(BFGS, us, u.gamma, w))
  {
    DotAddScaled(w, u.delta, -1.0, Apply(BFGS, us, u.gamma));
  }

  lemma {:induction false} UpdatedFormBfgs(us: seq<Update>, u: Update, x: Vector)
    requires Sized(us + [u], |x|) && Sized(us, |x|) && IsUpdate(BFGS, us, u, |x|)
    ensures var z := AddScaled(x, Shift(BFGS, u, x), u.gamma);
      Form(BFGS, us + [u], x, x) == Form(BFGS, us, z, z) + Mul(u.rho, Mul(Dot(x, u.delta), Dot(x, u.delta)))
  {
    var c := Shift(BFGS, u, x);
    var z := AddScaled(x, c, u.gamma);
    FormStep(BFGS, us, u, x, x);
    FormExpands(BFGS, us, x, c, u.gamma);
    ZetaDot(us, u, x);
    ZetaDot(us, u, u.gamma);
    DotCommutes(u.gamma, u.delta);
    BfgsAlgebra(Form(BFGS, us + [u], x, x), Form(BFGS, us, z, z), Form(BFGS, us, x, x),
                Form(BFGS, us, u.gamma, x), Form(BFGS, us, u.gamma, u.gamma), Dot(x, u.delta), Dot(x, u.zeta),
                Dot(u.delta, u.gamma), u.tau, u.rho, ZetaShare(BFGS, u, x), DeltaShare(BFGS, u, x), c);
  }

  lemma {:induction false} UpdatedFormDfp(us: seq<Update>, u: Update, x: Vector)
    requires Sized(us + [u], |x|) && Usable(DFP, us + [u])
    requires Sized(us, |x|) && Usable(DFP, us) && IsUpdate(DFP, us, u, |x|) && u.tau != 0.0
    ensures var z := AddScaled(x, Shift(DFP, u, x), u.gamma);
      Form(DFP, us + [u], x, x) == Form(DFP, us, z, z) + Mul(u.rho, Mul(Dot(x, u.delta), Dot(x, u.delta)))
  {
    var c := Shift(DFP, u, x);
    var z := AddScaled(x, c, u.gamma);
    FormStep(DFP, us, u, x, x);
    FormExpands(DFP, us, x, c, u.gamma);
    QuotientBack(Dot(x, u.zeta), u.tau, c);
    DfpAlgebra(Form(DFP, us + [u], x, x), Form(DFP, us, z, z), Form(DFP, us, x, x),
               Dot(x, u.zeta), Dot(x, u.delta), u.tau, u.rho, DeltaShare(DFP, u, x), c);
  }

  /** (x, H' x) = (z, H z) + rho (x, delta)^2 for the shifted argument z. */
  lemma {:induction false} UpdatedForm(version: Version, us: seq<Update>, u: Update, x: Vector)
    requires Sized(us + [u], |x|) && Usable(version, us + [u])
    requires Sized(us, |x|) && Usable(version, us) && IsUpdate(version, us, u, |x|)
    requires version.DFP? ==> u.tau != 0.0
    ensures var z := AddScaled(x, Shift(version, u, x), u.gamma);
      Form(version, us + [u], x, x) == Form(version, us, z, z) + Mul(u.rho, Mul(Dot(x, u.delta), Dot(x, u.delta)))
  {
    match version
    case BFGS => UpdatedFormBfgs(us, u, x);
    case DFP => UpdatedFormDfp(us, u, x);
  }

  lemma {:induction false} PositiveFactor(rho: real, y: real)
    requires Mul(rho, y) == 1.0 && y > 0.0
    ensures rho > 0.0
  {
  }

  /** A shift that lands on zero means the argument was a nonzero multiple of gamma. */
  lemma {:induction false} ShiftToZero(u: Update, x: Vector, c: real)
    requires |u.delta| == |u.gamma| == |x| && Dot(u.delta, u.gamma) > 0.0
    requires Nonzero(x) && !Nonzero(AddScaled(x, c, u.gamma))
    ensures Dot(x, u.delta) != 0.0
  {
    var z := AddScaled(x, c, u.gamma);
    DotZero(z, u.delta);
    AddScaledDot(x, c, u.gamma, u.delta);
    DotCommutes(u.gamma, u.delta);
    assert c == 0.0 ==> z == x;
    NonzeroProduct(c, Dot(u.delta, u.gamma));
  }

  lemma {:induction false} NonzeroProduct(c: real, y: real)
    requires c != 0.0 && y > 0.0
    ensures Mul(c, y) != 0.0
  {
    if c > 0.0 {
      ProductPositive(c, y);
    } else {
      ProductPositive(-c, y);
    }
  }

  /** Positive curvature keeps the operator positive definite: one update. */
  lemma {:induction false} UpdateKeepsPositive(version: Version, us: seq<Update>, u: Update, n: nat)
    requires Sized(us + [u], n) && Usable(version, us + [u])
    requires Sized(us, n) && Usable(version, us) && IsUpdate(version, us, u, n)
    requires version.DFP? ==> u.tau != 0.0
    requires Dot(u.delta, u.gamma) > 0.0 && Positive(version, us, n)
    ensures Positive(version, us + [u], n)
  {
    forall x: Vector | |x| == n && Nonzero(x)
      ensures Form(version, us + [u], x, x) > 0.0
    {
      UpdatedForm(version, us, u, x);
      PositiveFactor(u.rho, Dot(u.delta, u.gamma));
      var xd, z := Dot(x, u.delta), AddScaled(x, Shift(version, u, x), u.gamma);
      Square(xd);
      if Nonzero(z) {
        ScaleNonnegative(u.rho, Mul(xd, xd));
      } else {
        ShiftToZero(u, x, Shift(version, u, x));
        DotZero(z, Apply(version, us, z));
        ProductPositive(u.rho, Mul(xd, xd));
      }
    }
  }

  lemma {:induction false} ScaleNonnegative(rho: real, y: real)
    requires rho > 0.0 && y >= 0.0
    ensures Mul(rho, y) >= 0.0
  {
    if y > 0.0 {
      ProductPositive(rho, y);
    }
  }

  /** In a positive definite history gamma stretches: the DFP divisor is positive. */
  lemma {:induction false} DfpDivisor(us: seq<Update>, delta: Vector, gamma: Vector, n: nat)
    requires |delta| == |gamma| == n && Dot(delta, gamma) > 0.0
    requires Sized(us, n) && Usable(DFP, us) && Positive(DFP, us, n)
    ensures Dot(gamma, Apply(DFP, us, gamma)) > 0.0
  {
    if !Nonzero(gamma) {
      DotZero(gamma, delta);
      DotCommutes(gamma, delta);
    }
    assert Form(DFP, us, gamma, gamma) > 0.0;
  }

  /** Any history of positive-curvature updates is a positive definite operator. */
  lemma {:induction false} CurvedIsPositive(version: Version, us: seq<Update>, n: nat)
    requires Curved(version, us, n)
    ensures Positive(version, us, n)
    decreases |us|
  {
    if us == [] {
      forall x: Vector | |x| == n && Nonzero(x)
        ensures Form(version, us, x, x) > 0.0
      {
        DotSelf(x);
      }
    } else {
      var init, u := us[..|us| - 1], us[|us| - 1];
      assert us == init + [u];
      CurvedIsPositive(version, init, n);
      UpdateKeepsPositive(version, init, u, n);
    }
  }

  // ---------------------------------------------------------------------------------------------
  // Secant equation
  // ---------------------------------------------------------------------------------------------

  /** The latest update is reproduced: H gamma = delta. */
  lemma {:induction false} Secant(version: Version, us: seq<Update>, u: Update, n: nat)
    requires Sized(us + [u], n) && Usable(version, us + [u])
    requires Sized(us, n) && Usable(version, us) && IsUpdate(version, us, u, n)
    requires version.DFP? ==> u.tau != 0.0
    ensures Apply(version, us + [u], u.gamma) == u.delta
  {
    var hg, g := Apply(version, us, u.gamma), u.gamma;
    FormStep(version, us, u, g, g);
    DotCommutes(g, u.delta);
    match version
    case BFGS =>
      CancelTau(u.rho, u.tau, Dot(g, u.delta), DeltaShare(version, u, g));
      assert AddScaled(AddScaled(hg, 1.0, u.zeta), 0.0, u.delta) == u.delta;
    case DFP =>
      QuotientSelf(Dot(g, u.zeta), u.tau);
      assert AddScaled(AddScaled(hg, 1.0, u.delta), -1.0, hg) == u.delta;
  }

  lemma {:induction false} QuotientSelf(x: real, y: real)
    requires x == y != 0.0
    ensures -(x / y) == -1.0
  {
  }

  lemma {:induction false} CancelTau(rho: real, tau: real, gd: real, d: real)
    requires Mul(rho, gd) == 1.0 && d == Mul(rho, tau - Mul(Mul(rho, tau), gd))
    ensures d == 0.0
  {
    assert rho * tau * gd == (rho * gd) * tau;
  }

  // ---------------------------------------------------------------------------------------------
  // The update formulas
  // ---------------------------------------------------------------------------------------------

  lemma {:induction false} ContributeAt(version: Version, u: Update, x: Vector, y: Vector, i: nat)
    requires |u.delta| == |u.zeta| == |x| == |y| && i < |x|
    requires version.DFP? ==> u.tau != 0.0
    ensures Contribute(version, u, x, y)[i]
      == y[i] + Mul(ZetaShare(version, u, x), u.zeta[i]) + Mul(DeltaShare(version, u, x), u.delta[i])
  {
    AddedTwice(y, ZetaShare(version, u, x), u.zeta, DeltaShare(version, u, x), u.delta, i);
    AddedTwice(y, DeltaShare(version, u, x), u.delta, ZetaShare(version, u, x), u.zeta, i);
  }

  lemma AddedTwice(y: Vector, c: real, v: Vector, d: real, w: Vector, i: nat)
    requires |y| == |v| == |w| && i < |y|
    ensures AddScaled(AddScaled(y, c, v), d, w)[i] == y[i] + Mul(c, v[i]) + Mul(d, w[i])
  {
  }

  lemma {:induction false} BfgsApplied(us: seq<Update>, u: Update, x: Vector, i: nat)
    requires Sized(us + [u], |x|) && Sized(us, |x|) && i < |x|
    ensures |u.delta| == |u.zeta| == |x|
    ensures Apply(BFGS, us + [u], x)[i] == Apply(BFGS, us, x)[i] + Mul(Mul(u.rho, Dot(x, u.delta)), u.zeta[i])
      + Mul(Mul(u.rho, Dot(x, u.zeta) - Mul(Mul(u.rho, u.tau), Dot(x, u.delta))), u.delta[i])
  {
    FormStep(BFGS, us, u, x, x);
    ContributeAt(BFGS, u, x, Apply(BFGS, us, x), i);
  }

  /** H' x = H x + ((s + (gamma, H gamma)) (delta, x) / s^2 - (H gamma, x) / s) delta - (delta, x) / s H gamma, the
      Broyden-Fletcher-Goldfarb-Shanno update with s = (delta, gamma). */
  lemma {:induction false} BfgsFormula(us: seq<Update>, u: Update, x: Vector, i: nat)
    requires Sized(us + [u], |x|) && Sized(us, |x|) && IsUpdate(BFGS, us, u, |x|) && i < |x|
    ensures var hx, hg, s := Apply(BFGS, us, x), Apply(BFGS, us, u.gamma), Dot(u.delta, u.gamma);
      var c := Inverse(s);
      && Mul(c, s) == 1.0
      && Apply(BFGS, us + [u], x)[i] == hx[i]
           + Mul(Mul(Mul(s + Dot(u.gamma, hg), Dot(u.delta, x)), Mul(c, c)) - Mul(Dot(hg, x), c), u.delta[i])
           - Mul(Mul(Dot(u.delta, x), c), hg[i])
  {
    var hg, s := Apply(BFGS, us, u.gamma), Dot(u.delta, u.gamma);
    BfgsApplied(us, u, x, i);
    ZetaParts(u.delta, hg, x, u.zeta, i);
    ZetaParts(u.delta, hg, u.gamma, u.zeta, i);
    DotCommutes(u.gamma, u.delta);
    DotCommutes(x, u.delta);
    InverseIs(u.rho, s);
    BfgsEntry(u.rho, s, Dot(u.delta, x), Dot(hg, x), Dot(u.gamma, hg), Dot(x, u.zeta), u.tau, u.delta[i], hg[i],
              u.zeta[i]);
  }

  lemma {:induction false} ZetaParts(delta: Vector, hg: Vector, w: Vector, zeta: Vector, i: nat)
    requires |delta| == |hg| == |w| && zeta == AddScaled(delta, -1.0, hg) && i < |w|
    ensures Dot(w, zeta) == Dot(delta, w) - Dot(hg, w) == Dot(delta, w) - Dot(w, hg) && zeta[i] == delta[i] - hg[i]
  {
    DotAddScaled(w, delta, -1.0, hg);
    DotCommutes(w, delta);
    DotCommutes(w, hg);
  }

  lemma {:induction false} BfgsEntry(rho: real, s: real, xd: real, xh: real, gh: real, xz: real, tau: real, d: real,
    h: real, z: real)
    requires Mul(rho, s) == 1.0 && xz == xd - xh && tau == s - gh && z == d - h
    ensures Mul(Mul(rho, xd), z) + Mul(Mul(rho, xz - Mul(Mul(rho, tau), xd)), d)
      == Mul(Mul(Mul(s + gh, xd), Mul(rho, rho)) - Mul(xh, rho), d) - Mul(Mul(xd, rho), h)
  {
    assert rho * tau == 1.0 - rho * gh;
    assert rho * tau * xd == xd - rho * gh * xd;
    assert (s + gh) * xd * rho * rho == (rho * s) * (xd * rho) + gh * xd * rho * rho;
  }

  /** H' x = H x + (delta, x) / s delta - (H gamma, x) / (gamma, H gamma) H gamma, the Davidon-Fletcher-Powell
      update. */
  lemma {:induction false} DfpFormula(us: seq<Update>, u: Update, x: Vector, i: nat)
    requires Sized(us + [u], |x|) && Usable(DFP, us + [u])
    requires Sized(us, |x|) && Usable(DFP, us) && IsUpdate(DFP, us, u, |x|) && u.tau != 0.0 && i < |x|
    ensures var hx, hg, s := Apply(DFP, us, x), Apply(DFP, us, u.gamma), Dot(u.delta, u.gamma);
      var c := Inverse(s);
      && Mul(c, s) == 1.0 && Dot(u.gamma, hg) != 0.0
      && Apply(DFP, us + [u], x)[i] == hx[i]
           + Mul(Mul(c, Dot(u.delta, x)), u.delta[i]) - Mul(Dot(hg, x) / Dot(u.gamma, hg), hg[i])
  {
    var hx, hg := Apply(DFP, us, x), Apply(DFP, us, u.gamma);
    FormStep(DFP, us, u, x, x);
    ContributeAt(DFP, u, x, hx, i);
    DotCommutes(x, u.delta);
    DotCommutes(x, hg);
    InverseIs(u.rho, Dot(u.delta, u.gamma));
    NegatedProduct(Dot(hg, x) / Dot(u.gamma, hg), hg[i]);
  }

  lemma NegatedProduct(x: real, y: real)
    ensures Mul(-x, y) == -Mul(x, y)
  {
  }

  function Inverse(x: real): real {
    if x == 0.0 then 0.0 else 1.0 / x
  }

  lemma InverseIs(rho: real, s: real)
    requires Mul(rho, s) == 1.0
    ensures s != 0.0 && Inverse(s) == rho
  {
    assert s != 0.0;
  }
}
