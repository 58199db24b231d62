// Imposing x(r) = v(r) on listed unknowns of A*x = b by rewriting the matrix and the right hand side:
// what the dense elimination computes, and which vectors solve the rewritten system.

module Dirichlet {
  import opened Sums
  import opened Factor
  import opened Systems

  /** The diagonal entry a constrained row is left with. */
  function Kept(a: (nat, nat) -> real, keep: bool, r: nat): real {
    if keep then a(r, r) else 1.0
  }

  /** Rows and columns of s cleared, except for the diagonal. */
  function Constrained(a: (nat, nat) -> real, s: set<nat>, keep: bool): (nat, nat) -> real {
    (r: nat, c: nat) =>
      if r == c && r in s then Kept(a, keep, r) else if r in s || c in s then 0.0 else a(r, c)
  }

  /** What the prescribed values contribute to row r. */
  function MovedTerm(a: (nat, nat) -> real, s: set<nat>, v: nat -> real, r: nat): nat -> real {
    (c: nat) => if c in s then Mul(a(r, c), v(c)) else 0.0
  }

  function Moved(a: (nat, nat) -> real, n: nat, s: set<nat>, keep: bool, v: nat -> real, b: nat -> real): nat -> real {
    (r: nat) => if r in s then Mul(Kept(a, keep, r), v(r)) else b(r) - Sum(n, MovedTerm(a, s, v, r))
  }

  /** x takes the prescribed values on s and satisfies the original equations elsewhere. */
  ghost predicate Imposed(a: (nat, nat) -> real, n: nat, s: set<nat>, v: nat -> real, b: nat -> real, x: nat -> real) {
    forall r: nat :: r < n ==> if r in s then x(r) == v(r) else LTimes(a, n, x)(r) == b(r)
  }

  ghost predicate SolvesRewritten(a: (nat, nat) -> real, n: nat, s: set<nat>, keep: bool, v: nat -> real,
    b: nat -> real, x: nat -> real)
  {
    Agree(n, LTimes(Constrained(a, s, keep), n, x), Moved(a, n, s, keep, v, b))
  }

  lemma {:induction false} ConstrainedRow(a: (nat, nat) -> real, n: nat, s: set<nat>, keep: bool, x: nat -> real,
    r: nat)
    requires r < n && r in s
    ensures LTimes(Constrained(a, s, keep), n, x)(r) == Mul(Kept(a, keep, r), x(r))
  {
    SumPoint(n, r, RowTerm(Constrained(a, s, keep), r, x));
  }

  /** The rewritten equation of a listed unknown: its own diagonal entry, or 1, times its value. */
  lemma {:induction false} ListedEquation(a: (nat, nat) -> real, n: nat, s: set<nat>, keep: bool, v: nat -> real,
    b: nat -> real, x: nat -> real, r: nat)
    requires r < n && r in s
    ensures LTimes(Constrained(a, s, keep), n, x)(r) == Mul(if keep then a(r, r) else 1.0, x(r))
    ensures Moved(a, n, s, keep, v, b)(r) == Mul(if keep then a(r, r) else 1.0, v(r))
  {
    ConstrainedRow(a, n, s, keep, x, r);
  }

  /** Row r off s, where x has the prescribed values: the moved terms are the ones that were cleared. */
  lemma {:induction false} FreeRow(a: (nat, nat) -> real, n: nat, s: set<nat>, keep: bool, v: nat -> real,
    x: nat -> real, r: nat)
    requires r < n && r !in s
    requires forall c: nat :: c < n && c in s ==> x(c) == v(c)
    ensures LTimes(Constrained(a, s, keep), n, x)(r) + Sum(n, MovedTerm(a, s, v, r)) == LTimes(a, n, x)(r)
  {
    SumLinear(n, 1.0, RowTerm(Constrained(a, s, keep), r, x), 1.0, MovedTerm(a, s, v, r), RowTerm(a, r, x));
  }

  lemma {:induction false} Divided(k: real, x: real, v: real)
    requires k != 0.0 && Mul(k, x) == Mul(k, v)
    ensures x == v
  {
    assert k * (x - v) == 0.0;
  }

  /** With nonzero diagonals kept, the rewritten system has exactly the imposed solutions. */
  lemma {:induction false} RewritingKeepsMeaning(a: (nat, nat) -> real, n: nat, s: set<nat>, keep: bool, v: nat -> real,
    b: nat -> real, x: nat -> real)
    requires forall r: nat :: r < n && r in s ==> Kept(a, keep, r) != 0.0
    ensures SolvesRewritten(a, n, s, keep, v, b, x) <==> Imposed(a, n, s, v, b, x)
  {
    forall r: nat | r < n && r in s
      ensures LTimes(Constrained(a, s, keep), n, x)(r) == Moved(a, n, s, keep, v, b)(r) <==> x(r) == v(r)
    {
      ConstrainedRow(a, n, s, keep, x, r);
      if Mul(Kept(a, keep, r), x(r)) == Mul(Kept(a, keep, r), v(r)) {
        Divided(Kept(a, keep, r), x(r), v(r));
      }
    }
    if forall c: nat :: c < n && c in s ==> x(c) == v(c) {
      forall r: nat | r < n && r !in s
        ensures LTimes(Constrained(a, s, keep), n, x)(r) == Moved(a, n, s, keep, v, b)(r)
          <==> LTimes(a, n, x)(r) == b(r)
      {
        FreeRow(a, n, s, keep, v, x, r);
      }
    }
  }

  /** Imposed vectors always solve the rewritten system, whatever the diagonals are. */
  lemma {:induction false} ImposedSolves(a: (nat, nat) -> real, n: nat, s: set<nat>, keep: bool, v: nat -> real,
    b: nat -> real, x: nat -> real)
    requires Imposed(a, n, s, v, b, x)
    ensures SolvesRewritten(a, n, s, keep, v, b, x)
  {
    forall r: nat | r < n
      ensures LTimes(Constrained(a, s, keep), n, x)(r) == Moved(a, n, s, keep, v, b)(r)
    {
      if r in s {
        ConstrainedRow(a, n, s, keep, x, r);
      } else {
        FreeRow(a, n, s, keep, v, x, r);
      }
    }
  }

  /** x with the prescribed values put in. */
  function Prescribed(s: set<nat>, v: nat -> real, x: nat -> real): nat -> real {
    (c: nat) => if c in s then v(c) else x(c)
  }

  /** A solution of the rewritten system solves the problem once the prescribed values are put in. */
  lemma {:induction false} PrescribedIsImposed(a: (nat, nat) -> real, n: nat, s: set<nat>, keep: bool, v: nat -> real,
    b: nat -> real, y: nat -> real)
    requires SolvesRewritten(a, n, s, keep, v, b, y)
    ensures Imposed(a, n, s, v, b, Prescribed(s, v, y))
  {
    var k, x := Constrained(a, s, keep), Prescribed(s, v, y);
    forall r: nat | r < n && r !in s
      ensures LTimes(a, n, x)(r) == b(r)
    {
      FreeRow(a, n, s, keep, v, x, r);
      forall c: nat | c < n
        ensures RowTerm(k, r, x)(c) == RowTerm(k, r, y)(c)
      {
        if c in s {
          assert k(r, c) == 0.0;
        }
      }
      SumEqual(n, RowTerm(k, r, x), RowTerm(k, r, y));
      assert LTimes(k, n, y)(r) == Moved(a, n, s, keep, v, b)(r);
    }
  }

  /** Every solution of the rewritten system is a solution of the problem exactly if no kept diagonal vanishes, or
      neither has any. */
  lemma {:induction false} MeaningKeptIff(a: (nat, nat) -> real, n: nat, s: set<nat>, keep: bool, v: nat -> real,
    b: nat -> real)
    ensures (forall y: nat -> real :: SolvesRewritten(a, n, s, keep, v, b, y) ==> Imposed(a, n, s, v, b, y))
      <==> (forall r: nat :: r < n && r in s ==> Kept(a, keep, r) != 0.0)
           || (forall x: nat -> real :: !Imposed(a, n, s, v, b, x))
  {
    if forall r: nat :: r < n && r in s ==> Kept(a, keep, r) != 0.0 {
      forall y: nat -> real | SolvesRewritten(a, n, s, keep, v, b, y)
        ensures Imposed(a, n, s, v, b, y)
      {
        RewritingKeepsMeaning(a, n, s, keep, v, b, y);
      }
    } else if x: nat -> real :| Imposed(a, n, s, v, b, x) {
      var i: nat :| i < n && i in s && Kept(a, keep, i) == 0.0;
      Unpinned(a, n, s, keep, v, b, x, i);
    } else if y: nat -> real :| SolvesRewritten(a, n, s, keep, v, b, y) {
      PrescribedIsImposed(a, n, s, keep, v, b, y);
      assert false;
    }
  }

  /** x with its i-th entry replaced. */
  function With(x: nat -> real, i: nat, value: real): nat -> real {
    (c: nat) => if c == i then value else x(c)
  }

  /** A vanishing kept diagonal leaves its unknown free. */
  lemma {:induction false} Unpinned(a: (nat, nat) -> real, n: nat, s: set<nat>, keep: bool, v: nat -> real,
    b: nat -> real, x: nat -> real, i: nat)
    requires Imposed(a, n, s, v, b, x) && i < n && i in s && Kept(a, keep, i) == 0.0
    ensures SolvesRewritten(a, n, s, keep, v, b, With(x, i, v(i) + 1.0))
    ensures !Imposed(a, n, s, v, b, With(x, i, v(i) + 1.0))
  {
    var y := With(x, i, v(i) + 1.0);
    var k := Constrained(a, s, keep);
    ImposedSolves(a, n, s, keep, v, b, x);
    forall r: nat | r < n
      ensures LTimes(k, n, y)(r) == Moved(a, n, s, keep, v, b)(r)
    {
      assert k(r, i) == 0.0;
      SumEqual(n, RowTerm(k, r, x), RowTerm(k, r, y));
      assert LTimes(k, n, x)(r) == Moved(a, n, s, keep, v, b)(r);
    }
    assert SolvesRewritten(a, n, s, keep, v, b, y);
    assert !Imposed(a, n, s, v, b, y);
  }

  /** Two unknowns with a zero diagonal each, coupled to each other. */
  function Crossed(): (nat, nat) -> real {
    (r: nat, c: nat) => if r < 2 && c < 2 && r != c then 1.0 else 0.0
  }

  function Zero(): nat -> real {
    (i: nat) => 0.0
  }

  /** Its first unknown prescribed to be zero and its diagonal kept: the zero vector solves the problem, but
      the rewritten system is also solved by the first unit vector, which does not. */
  lemma {:induction false} UnpinnedExample()
    ensures Imposed(Crossed(), 2, {0}, Zero(), Zero(), Zero())
    ensures SolvesRewritten(Crossed(), 2, {0}, true, Zero(), Zero(), With(Zero(), 0, 1.0))
    ensures !Imposed(Crossed(), 2, {0}, Zero(), Zero(), With(Zero(), 0, 1.0))
  {
    SumZero(2, RowTerm(Crossed(), 1, Zero()));
    Unpinned(Crossed(), 2, {0}, true, Zero(), Zero(), Zero(), 0);
  }

  lemma {:induction false} SymmetryKept(a: (nat, nat) -> real, n: nat, s: set<nat>, keep: bool)
    requires forall r: nat, c: nat :: r < n && c < n ==> a(r, c) == a(c, r)
    ensures forall r: nat, c: nat :: r < n && c < n ==> Constrained(a, s, keep)(r, c) == Constrained(a, s, keep)(c, r)
  {
  }

  // ---------------------------------------------------------------------------------------------
  // Definiteness
  // ---------------------------------------------------------------------------------------------

  function Free(s: set<nat>, x: nat -> real): nat -> real {
    (i: nat) => if i in s then 0.0 else x(i)
  }

  function QuadTerm(a: Upper, n: nat, x: nat -> real): nat -> real {
    (i: nat) => x(i) * Times(a, n, x)(i)
  }

  function PinnedTerm(a: Upper, s: set<nat>, keep: bool, x: nat -> real): nat -> real {
    (i: nat) => if i in s then Weighted(Kept(a, keep, i), x(i)) else 0.0
  }

  function SymmetricTerm(a: Upper, i: nat, x: nat -> real): nat -> real {
    (k: nat) => Symmetric(a, i, k) * x(k)
  }

  lemma {:induction false} TimesIsSum(a: Upper, n: nat, x: nat -> real, i: nat)
    ensures Times(a, n, x)(i) == Sum(n, SymmetricTerm(a, i, x))
  {
    SumEqual(n, (k: nat) => Symmetric(a, i, k) * x(k), SymmetricTerm(a, i, x));
  }

  lemma {:induction false} QuadIsSum(a: Upper, n: nat, x: nat -> real)
    ensures Quad(a, n, x) == Sum(n, QuadTerm(a, n, x))
  {
    SumEqual(n, (i: nat) => x(i) * Times(a, n, x)(i), QuadTerm(a, n, x));
  }

  lemma {:induction false} DiagonalPositive(a: Upper, n: nat, i: nat)
    requires PositiveDefinite(a, n) && i < n
    ensures a(i, i) > 0.0
  {
    var e := (k: nat) => if k == i then 1.0 else 0.0;
    assert e(i) != 0.0;
    QuadIsSum(a, n, e);
    SumPoint(n, i, QuadTerm(a, n, e));
    TimesIsSum(a, n, e, i);
    SumPoint(n, i, SymmetricTerm(a, i, e));
  }

  lemma {:induction false} PinnedRow(a: Upper, n: nat, s: set<nat>, keep: bool, x: nat -> real, i: nat)
    requires i < n && i in s
    ensures QuadTerm(Constrained(a, s, keep), n, x)(i) == Weighted(Kept(a, keep, i), x(i))
  {
    var k := Constrained(a, s, keep);
    var f := SymmetricTerm(k, i, x);
    TimesIsSum(k, n, x, i);
    forall j: nat | j < n && j != i
      ensures f(j) == 0.0
    {
      assert Symmetric(k, i, j) == 0.0;
    }
    SumPoint(n, i, f);
    var kept, xi, t := Kept(a, keep, i), x(i), Times(k, n, x)(i);
    assert t == f(i) == kept * xi;
    SameProducts(xi, t, xi, kept * xi);
    Factored(kept, xi);
  }

  lemma {:induction false} FreeRowKept(a: Upper, n: nat, s: set<nat>, keep: bool, x: nat -> real, i: nat)
    requires i < n && i !in s
    ensures QuadTerm(Constrained(a, s, keep), n, x)(i) == QuadTerm(a, n, Free(s, x))(i)
  {
    var k, y := Constrained(a, s, keep), Free(s, x);
    TimesIsSum(k, n, x, i);
    TimesIsSum(a, n, y, i);
    forall j: nat | j < n
      ensures SymmetricTerm(k, i, x)(j) == SymmetricTerm(a, i, y)(j)
    {
      assert Symmetric(k, i, j) == if j in s then 0.0 else Symmetric(a, i, j);
      if j !in s {
        SameProducts(Symmetric(k, i, j), x(j), Symmetric(a, i, j), y(j));
      }
    }
    SumEqual(n, SymmetricTerm(k, i, x), SymmetricTerm(a, i, y));
    SameProducts(x(i), Times(k, n, x)(i), y(i), Times(a, n, y)(i));
  }

  lemma {:induction false} RowSplits(a: Upper, n: nat, s: set<nat>, keep: bool, x: nat -> real, i: nat)
    requires i < n
    ensures QuadTerm(Constrained(a, s, keep), n, x)(i)
      == QuadTerm(a, n, Free(s, x))(i) + PinnedTerm(a, s, keep, x)(i)
  {
    if i in s {
      PinnedRow(a, n, s, keep, x, i);
      assert Free(s, x)(i) == 0.0;
    } else {
      FreeRowKept(a, n, s, keep, x, i);
    }
  }

  /** The form of the rewritten matrix splits into the form on the free unknowns and the kept diagonals. */
  lemma {:induction false} QuadSplits(a: Upper, n: nat, s: set<nat>, keep: bool, x: nat -> real)
    ensures Quad(Constrained(a, s, keep), n, x) == Quad(a, n, Free(s, x)) + Sum(n, PinnedTerm(a, s, keep, x))
  {
    var k, y := Constrained(a, s, keep), Free(s, x);
    forall i: nat | i < n
      ensures QuadTerm(k, n, x)(i) == 1.0 * QuadTerm(a, n, y)(i) + 1.0 * PinnedTerm(a, s, keep, x)(i)
    {
      RowSplits(a, n, s, keep, x, i);
    }
    SumLinear(n, 1.0, QuadTerm(a, n, y), 1.0, PinnedTerm(a, s, keep, x), QuadTerm(k, n, x));
    QuadIsSum(k, n, x);
    QuadIsSum(a, n, y);
  }

  lemma {:induction false} Factored(k: real, x: real)
    ensures x * (k * x) == Weighted(k, x)
  {
  }

  /** Elimination keeps a symmetric positive definite matrix symmetric positive definite. */
  lemma {:induction false} DefinitenessKept(a: Upper, n: nat, s: set<nat>, keep: bool)
    requires PositiveDefinite(a, n)
    ensures PositiveDefinite(Constrained(a, s, keep), n)
  {
    forall x: nat -> real | NonzeroBelow(n, x)
      ensures Quad(Constrained(a, s, keep), n, x) > 0.0
    {
      FormPositive(a, n, s, keep, x);
    }
  }

  lemma {:induction false} FormPositive(a: Upper, n: nat, s: set<nat>, keep: bool, x: nat -> real)
    requires PositiveDefinite(a, n) && NonzeroBelow(n, x)
    ensures Quad(Constrained(a, s, keep), n, x) > 0.0
  {
    var y, f := Free(s, x), PinnedTerm(a, s, keep, x);
    QuadSplits(a, n, s, keep, x);
    forall i: nat | i < n
      ensures f(i) >= 0.0 && (i in s && x(i) != 0.0 ==> f(i) > 0.0)
    {
      DiagonalPositive(a, n, i);
      ScaledSquare(Kept(a, keep, i), x(i));
    }
    SumNonNegative(n, f);
    if NonzeroBelow(n, y) {
      assert Quad(a, n, y) > 0.0;
    } else {
      var i: nat :| i < n && x(i) != 0.0;
      assert y(i) == 0.0;
      SumPositive(n, i, f);
      SumZero(n, (j: nat) => y(j) * Times(a, n, y)(j));
    }
  }
}
