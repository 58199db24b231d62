// Linear systems and quadratic forms of a symmetric matrix, through its L*D*L' factors.

module Systems {
  import opened Sums
  import opened Factor

  function Times(a: Upper, n: nat, x: nat -> real): nat -> real {
    (i: nat) => Sum(n, (k: nat) => Symmetric(a, i, k) * x(k))
  }

  function RowTerm(l: (nat, nat) -> real, i: nat, x: nat -> real): nat -> real {
    (j: nat) => l(i, j) * x(j)
  }

  function ColumnTerm(l: (nat, nat) -> real, j: nat, x: nat -> real): nat -> real {
    (i: nat) => l(i, j) * x(i)
  }

  function LTimes(l: (nat, nat) -> real, n: nat, x: nat -> real): nat -> real {
    (i: nat) => Sum(n, RowTerm(l, i, x))
  }

  function LtTimes(l: (nat, nat) -> real, n: nat, x: nat -> real): nat -> real {
    (j: nat) => Sum(n, ColumnTerm(l, j, x))
  }

  function Scale(d: nat -> real, x: nat -> real): nat -> real {
    (j: nat) => d(j) * x(j)
  }

  ghost predicate Agree(n: nat, x: nat -> real, y: nat -> real) {
    forall i: nat :: i < n ==> x(i) == y(i)
  }

  /** The entries of a vector as a function; zero past its end. */
  function Vec(x: seq<real>): nat -> real {
    (i: nat) => if i < |x| then x[i] else 0.0
  }

  /** x solves a*x = b, and nothing else does. */
  ghost predicate UniqueSolution(a: Upper, n: nat, b: nat -> real, x: nat -> real) {
    forall v: nat -> real :: Agree(n, Times(a, n, v), b) <==> Agree(n, v, x)
  }

  lemma {:induction false} SameSolution(a: Upper, a': Upper, n: nat, b: nat -> real, x: nat -> real)
    requires SameUpper(a, a', n)
    ensures UniqueSolution(a, n, b, x) <==> UniqueSolution(a', n, b, x)
  {
    forall v: nat -> real, i: nat | i < n
      ensures Times(a, n, v)(i) == Times(a', n, v)(i)
    {
      SumEqual(n, (k: nat) => Symmetric(a, i, k) * v(k), (k: nat) => Symmetric(a', i, k) * v(k)) by {
        assert forall k: nat :: k < n ==> Symmetric(a, i, k) == Symmetric(a', i, k);
      }
    }
  }

  lemma {:induction false} SumScaled(n: nat, c: real, f: nat -> real, h: nat -> real)
    requires forall j: nat :: j < n ==> h(j) == c * f(j)
    ensures Sum(n, h) == c * Sum(n, f)
  {
    SumLinear(n, c, f, 0.0, f, h);
  }

  // ---------------------------------------------------------------------------------------------
  // Solving
  // ---------------------------------------------------------------------------------------------

  /** Below a unit diagonal, row i of l applied to x adds only the terms before i. */
  lemma {:induction false} RowProduct(l: (nat, nat) -> real, n: nat, i: nat, x: nat -> real)
    requires UnitLower(n, l) && i < n
    ensures LTimes(l, n, x)(i) == x(i) + Sum(i, RowTerm(l, i, x))
  {
    SumTruncate(i + 1, n, RowTerm(l, i, x));
  }

  /** (x, l v) = (l'x, v). */
  lemma {:induction false} Adjoint(l: (nat, nat) -> real, m: nat, n: nat, x: nat -> real, v: nat -> real)
    ensures Sum(m, (i: nat) => x(i) * LTimes(l, n, v)(i)) == Sum(n, (j: nat) => v(j) * LtTimes(l, m, x)(j))
  {
    var g := (i: nat, j: nat) => x(i) * l(i, j) * v(j);
    var byRow, byColumn := (i: nat) => x(i) * LTimes(l, n, v)(i), (j: nat) => v(j) * LtTimes(l, m, x)(j);
    SumEqual(m, byRow, RowSum(n, g)) by {
      forall i: nat | i < m
        ensures byRow(i) == RowSum(n, g)(i)
      {
        SumScaled(n, x(i), RowTerm(l, i, v), TableRow(g, i));
      }
    }
    SumSwap(m, n, g);
    SumEqual(n, ColumnSum(m, g), byColumn) by {
      forall j: nat | j < n
        ensures ColumnSum(m, g)(j) == byColumn(j)
      {
        SumScaled(m, v(j), ColumnTerm(l, j, x), TableColumn(g, j));
      }
    }
  }

  /** Row i of l*d. */
  function ScaledRowOf(l: (nat, nat) -> real, d: nat -> real, i: nat): nat -> real {
    (j: nat) => l(i, j) * d(j)
  }

  lemma {:induction false} FactoredEntry(a: Upper, n: nat, l: (nat, nat) -> real, d: nat -> real, i: nat, k: nat)
    requires Factors(a, n, l, d) && i < n && k < n
    ensures Symmetric(a, i, k) == LTimes(l, n, ScaledRowOf(l, d, i))(k)
  {
    var v := ScaledRowOf(l, d, i);
    forall j: nat | j < n
      ensures ProductTerm(l, d, i, k)(j) == RowTerm(l, k, v)(j)
    {
      Commute(l(i, j) * d(j), l(k, j), v(j));
    }
    SumEqual(n, ProductTerm(l, d, i, k), RowTerm(l, k, v));
  }

  /** Multiplying by a factorized matrix is multiplying by l', then d, then l. */
  lemma {:induction false} ProductApplied(a: Upper, n: nat, l: (nat, nat) -> real, d: nat -> real, x: nat -> real,
    i: nat)
    requires Factors(a, n, l, d) && i < n
    ensures Times(a, n, x)(i) == LTimes(l, n, Scale(d, LtTimes(l, n, x)))(i)
  {
    var v, w := ScaledRowOf(l, d, i), LtTimes(l, n, x);
    SumEqual(n, (k: nat) => Symmetric(a, i, k) * x(k), (k: nat) => x(k) * LTimes(l, n, v)(k)) by {
      forall k: nat | k < n
        ensures Symmetric(a, i, k) * x(k) == x(k) * LTimes(l, n, v)(k)
      {
        FactoredEntry(a, n, l, d, i, k);
        Commute(Symmetric(a, i, k), x(k), LTimes(l, n, v)(k));
      }
    }
    Adjoint(l, n, n, x, v);
    SumEqual(n, (j: nat) => v(j) * w(j), RowTerm(l, i, Scale(d, w))) by {
      forall j: nat | j < n
        ensures v(j) * w(j) == l(i, j) * Scale(d, w)(j)
      {
        Regroup(l(i, j), d(j), w(j));
      }
    }
  }

  lemma {:induction false} Commute(x: real, y: real, z: real)
    requires x == z
    ensures x * y == y * z
  {
  }

  /** A unit lower triangular product determines its vector. */
  lemma {:induction false} LowerInjective(l: (nat, nat) -> real, n: nat, x: nat -> real, y: nat -> real, m: nat)
    requires UnitLower(n, l) && m <= n
    requires Agree(n, LTimes(l, n, x), LTimes(l, n, y))
    ensures Agree(m, x, y)
  {
    if m == 0 {
    } else {
      LowerInjective(l, n, x, y, m - 1);
      var i := m - 1;
      RowProduct(l, n, i, x);
      RowProduct(l, n, i, y);
      SumEqual(i, RowTerm(l, i, x), RowTerm(l, i, y));
      assert LTimes(l, n, x)(i) == LTimes(l, n, y)(i);
    }
  }

  /** And so does a unit upper triangular one. */
  lemma {:induction false} UpperInjective(l: (nat, nat) -> real, n: nat, x: nat -> real, y: nat -> real, m: nat)
    requires UnitLower(n, l) && m <= n
    requires Agree(n, LtTimes(l, n, x), LtTimes(l, n, y))
    ensures forall i: nat :: m <= i < n ==> x(i) == y(i)
    decreases n - m
  {
    if m >= n {
    } else {
      UpperInjective(l, n, x, y, m + 1);
      var f, g := ColumnTerm(l, m, x), ColumnTerm(l, m, y);
      SumUpdate(n, m, f, g);
      assert LtTimes(l, n, x)(m) == LtTimes(l, n, y)(m);
    }
  }

  /** The three sweeps together solve the system, and their answer is its only solution. */
  lemma {:induction false} SweepsSolve(a: Upper, n: nat, l: (nat, nat) -> real, d: nat -> real,
                    b: nat -> real, z: nat -> real, w: nat -> real, x: nat -> real, v: nat -> real)
    requires UnitLower(n, l) && Factors(a, n, l, d) && forall j: nat :: j < n ==> d(j) != 0.0
    requires Agree(n, LTimes(l, n, z), b) && Agree(n, Scale(d, w), z) && Agree(n, LtTimes(l, n, x), w)
    ensures Agree(n, Times(a, n, v), b) <==> Agree(n, v, x)
  {
    var u := LtTimes(l, n, v);
    forall i: nat | i < n
      ensures Times(a, n, v)(i) == LTimes(l, n, Scale(d, u))(i)
    {
      ProductApplied(a, n, l, d, v, i);
    }
    if Agree(n, Times(a, n, v), b) {
      LowerInjective(l, n, Scale(d, u), z, n);
      ScaleInjective(d, n, u, w);
      UpperInjective(l, n, v, x, 0);
    }
    if Agree(n, v, x) {
      AgreeLtTimes(l, n, v, x);
      ScaleAgrees(d, n, u, w);
      AgreeTimes(l, n, n, Scale(d, u), z);
    }
  }

  /** Equal vectors have equal products. */
  lemma {:induction false} AgreeTimes(l: (nat, nat) -> real, m: nat, n: nat, x: nat -> real, y: nat -> real)
    requires Agree(n, x, y)
    ensures Agree(m, LTimes(l, n, x), LTimes(l, n, y))
  {
    forall i: nat | i < m
      ensures LTimes(l, n, x)(i) == LTimes(l, n, y)(i)
    {
      SumEqual(n, RowTerm(l, i, x), RowTerm(l, i, y));
    }
  }

  lemma {:induction false} AgreeLtTimes(l: (nat, nat) -> real, n: nat, x: nat -> real, y: nat -> real)
    requires Agree(n, x, y)
    ensures Agree(n, LtTimes(l, n, x), LtTimes(l, n, y))
  {
    forall j: nat | j < n
      ensures LtTimes(l, n, x)(j) == LtTimes(l, n, y)(j)
    {
      SumEqual(n, ColumnTerm(l, j, x), ColumnTerm(l, j, y));
    }
  }

  lemma {:induction false} ScaleAgrees(d: nat -> real, n: nat, u: nat -> real, w: nat -> real)
    requires Agree(n, u, w)
    ensures Agree(n, Scale(d, u), Scale(d, w))
  {
    forall j: nat | j < n
      ensures Scale(d, u)(j) == Scale(d, w)(j)
    {
      SameProducts(d(j), u(j), d(j), w(j));
    }
  }

  lemma {:induction false} ScaleInjective(d: nat -> real, n: nat, u: nat -> real, w: nat -> real)
    requires Agree(n, Scale(d, u), Scale(d, w)) && forall j: nat :: j < n ==> d(j) != 0.0
    ensures Agree(n, u, w)
  {
    forall j: nat | j < n
      ensures u(j) == w(j)
    {
      assert Scale(d, u)(j) == d(j) * u(j) && Scale(d, w)(j) == d(j) * w(j);
      Cancel(d(j), u(j), w(j));
    }
  }

  lemma {:induction false} Cancel(c: real, x: real, y: real)
    requires c != 0.0 && c * x == c * y
    ensures x == y
  {
    assert c * (x - y) == 0.0;
  }

  // ---------------------------------------------------------------------------------------------
  // Column sweeps
  // ---------------------------------------------------------------------------------------------

  function Min(i: nat, j: nat): nat {
    if i < j then i else j
  }

  /** Columns 0..j-1 of the unit lower triangular l have been moved to the right-hand side b. */
  ghost predicate Swept(l: (nat, nat) -> real, n: nat, j: nat, b: nat -> real, x: nat -> real) {
    forall i: nat :: i < n ==> b(i) == x(i) + Sum(Min(i, j), RowTerm(l, i, x))
  }

  lemma {:induction false} SweepStep(l: (nat, nat) -> real, n: nat, j: nat, b: nat -> real, x: nat -> real,
    x': nat -> real)
    requires j < n && Swept(l, n, j, b, x)
    requires forall i: nat :: i < n ==> x'(i) == x(i) - (if i > j then Mul(l(i, j), x(j)) else 0.0)
    ensures Swept(l, n, j + 1, b, x')
  {
    forall i: nat | i < n
      ensures b(i) == x'(i) + Sum(Min(i, j + 1), RowTerm(l, i, x'))
    {
      SweepEntry(l, i, j, x, x', x(j));
    }
  }

  lemma {:induction false} SweepVector(l: (nat, nat) -> real, n: nat, j: nat, b: nat -> real, x: seq<real>,
    x': seq<real>)
    requires j < n <= |x| == |x'| && Swept(l, n, j, b, Vec(x))
    requires forall i: nat :: i < n ==> x'[i] == x[i] - (if i > j then Mul(l(i, j), x[j]) else 0.0)
    ensures Swept(l, n, j + 1, b, Vec(x'))
  {
    SweepStep(l, n, j, b, Vec(x), Vec(x'));
  }

  lemma {:induction false} SweepEntry(l: (nat, nat) -> real, i: nat, j: nat, x: nat -> real, x': nat -> real, xj: real)
    requires x'(j) == xj && forall c: nat :: c < j && c < i ==> x'(c) == x(c)
    ensures Sum(Min(i, j + 1), RowTerm(l, i, x')) ==
      Sum(Min(i, j), RowTerm(l, i, x)) + (if i > j then Mul(l(i, j), xj) else 0.0)
  {
    SumEqual(Min(i, j), RowTerm(l, i, x), RowTerm(l, i, x'));
  }

  lemma {:induction false} SweptAll(l: (nat, nat) -> real, n: nat, b: nat -> real, x: nat -> real)
    requires UnitLower(n, l) && Swept(l, n, n, b, x)
    ensures Agree(n, LTimes(l, n, x), b)
  {
    forall i: nat | i < n
      ensures LTimes(l, n, x)(i) == b(i)
    {
      RowProduct(l, n, i, x);
    }
  }

  function From(k: nat, f: nat -> real): nat -> real {
    (c: nat) => if c >= k then f(c) else 0.0
  }

  ghost predicate UpperTriangular(u: (nat, nat) -> real, n: nat) {
    forall i: nat, c: nat :: c < i < n ==> u(i, c) == 0.0
  }

  /** Columns k.. of the upper triangular u have been solved and moved to the right-hand side b. */
  ghost predicate SweptBack(u: (nat, nat) -> real, n: nat, k: nat, b: nat -> real, x: nat -> real) {
    forall i: nat :: i < n ==> b(i) == (if i < k then x(i) else 0.0) + Sum(n, From(k, RowTerm(u, i, x)))
  }

  lemma {:induction false} SweptBackStart(u: (nat, nat) -> real, n: nat, b: nat -> real)
    ensures SweptBack(u, n, n, b, b)
  {
    forall i: nat | i < n
      ensures Sum(n, From(n, RowTerm(u, i, b))) == 0.0
    {
      SumZero(n, From(n, RowTerm(u, i, b)));
    }
  }

  lemma {:induction false} OneMoreSolved(u: (nat, nat) -> real, n: nat, k: nat, x: nat -> real, x': nat -> real,
    i: nat)
    requires k < n && forall c: nat :: k < c < n ==> x'(c) == x(c)
    ensures Sum(n, From(k, RowTerm(u, i, x'))) == Sum(n, From(k + 1, RowTerm(u, i, x))) + Mul(u(i, k), x'(k))
  {
    var f, g := From(k + 1, RowTerm(u, i, x)), From(k, RowTerm(u, i, x'));
    forall c: nat | c < n && c != k
      ensures f(c) == g(c)
    {
      if c > k {
        SameProducts(u(i, c), x(c), u(i, c), x'(c));
      }
    }
    SumUpdate(n, k, f, g);
  }

  lemma {:induction false} MulZero(x: real, y: real)
    requires x == 0.0
    ensures Mul(x, y) == 0.0
  {
  }

  lemma {:induction false} SweepBackStep(u: (nat, nat) -> real, n: nat, k: nat, b: nat -> real, x: nat -> real,
    x': nat -> real)
    requires k < n && UpperTriangular(u, n) && SweptBack(u, n, k + 1, b, x)
    requires Mul(u(k, k), x'(k)) == x(k)
    requires forall i: nat :: i < n && i != k ==> x'(i) == x(i) - (if i < k then Mul(u(i, k), x'(k)) else 0.0)
    ensures SweptBack(u, n, k, b, x')
  {
    forall i: nat | i < n
      ensures b(i) == (if i < k then x'(i) else 0.0) + Sum(n, From(k, RowTerm(u, i, x')))
    {
      OneMoreSolved(u, n, k, x, x', i);
      if i > k {
        MulZero(u(i, k), x'(k));
      }
    }
  }

  lemma {:induction false} SweptBackAll(u: (nat, nat) -> real, n: nat, b: nat -> real, x: nat -> real)
    requires SweptBack(u, n, 0, b, x)
    ensures Agree(n, LTimes(u, n, x), b)
  {
    forall i: nat | i < n
      ensures LTimes(u, n, x)(i) == b(i)
    {
      SumEqual(n, From(0, RowTerm(u, i, x)), RowTerm(u, i, x));
    }
  }

  // ---------------------------------------------------------------------------------------------
  // Positive definiteness
  // ---------------------------------------------------------------------------------------------

  function Quad(a: Upper, n: nat, x: nat -> real): real {
    Sum(n, (i: nat) => x(i) * Times(a, n, x)(i))
  }

  ghost predicate NonzeroBelow(n: nat, x: nat -> real) {
    exists i: nat :: i < n && x(i) != 0.0
  }

  ghost predicate PositiveDefinite(a: Upper, n: nat) {
    forall x: nat -> real :: NonzeroBelow(n, x) ==> Quad(a, n, x) > 0.0
  }

  function Weighted(c: real, x: real): real {
    c * x * x
  }

  function Squares(d: nat -> real, w: nat -> real): nat -> real {
    (j: nat) => Weighted(d(j), w(j))
  }

  /** x'Ax is the sum of the pivots times the squares of l'x. */
  lemma {:induction false} QuadIsSquares(a: Upper, n: nat, l: (nat, nat) -> real, d: nat -> real, x: nat -> real)
    requires Factors(a, n, l, d)
    ensures Quad(a, n, x) == Sum(n, Squares(d, LtTimes(l, n, x)))
  {
    var w := LtTimes(l, n, x);
    var v := Scale(d, w);
    SumEqual(n, (i: nat) => x(i) * Times(a, n, x)(i), (i: nat) => x(i) * LTimes(l, n, v)(i)) by {
      forall i: nat | i < n
        ensures Times(a, n, x)(i) == LTimes(l, n, v)(i)
      {
        ProductApplied(a, n, l, d, x, i);
      }
    }
    Adjoint(l, n, n, x, v);
    SumEqual(n, (j: nat) => v(j) * w(j), Squares(d, w)) by {
      forall j: nat | j < n
        ensures v(j) * w(j) == Squares(d, w)(j)
      {
        assert v(j) == d(j) * w(j);
      }
    }
  }

  /** The vector supported on 0..k that l' maps to the k-th unit vector. */
  function Witness(l: (nat, nat) -> real, k: nat, j: nat): real
    decreases if j <= k then k - j else 0, k + 1
  {
    if j > k then 0.0 else if j == k then 1.0 else -WitnessTail(l, k, j, k)
  }

  function WitnessTail(l: (nat, nat) -> real, k: nat, j: nat, m: nat): real
    requires j <= m <= k
    decreases k - j, m
  {
    if m == j then 0.0 else WitnessTail(l, k, j, m - 1) + l(m, j) * Witness(l, k, m)
  }

  function WitnessOf(l: (nat, nat) -> real, k: nat): nat -> real {
    (j: nat) => Witness(l, k, j)
  }

  lemma {:induction false} WitnessTailIsSum(l: (nat, nat) -> real, n: nat, k: nat, j: nat, m: nat)
    requires UnitLower(n, l) && j <= m <= k < n
    ensures Sum(m + 1, ColumnTerm(l, j, WitnessOf(l, k))) == Witness(l, k, j) + WitnessTail(l, k, j, m)
    decreases m
  {
    var f := ColumnTerm(l, j, WitnessOf(l, k));
    if m == j {
      SumZero(j, f);
    } else {
      WitnessTailIsSum(l, n, k, j, m - 1);
    }
  }

  lemma {:induction false} WitnessMapsToUnit(l: (nat, nat) -> real, n: nat, k: nat, j: nat)
    requires UnitLower(n, l) && k < n && j < n
    ensures LtTimes(l, n, WitnessOf(l, k))(j) == if j == k then 1.0 else 0.0
  {
    var f := ColumnTerm(l, j, WitnessOf(l, k));
    assert forall i: nat :: i > k ==> WitnessOf(l, k)(i) == 0.0;
    SumTruncate(k + 1, n, f);
    if j <= k {
      WitnessTailIsSum(l, n, k, j, k);
    } else {
      SumZero(k + 1, f);
    }
  }

  /** Along the k-th witness the quadratic form is the k-th pivot. */
  lemma {:induction false} WitnessQuad(a: Upper, n: nat, k: nat)
    requires k < n
    requires forall j: nat :: j < k ==> D(a, j) != 0.0
    ensures Quad(a, n, WitnessOf(LOf(a), k)) == D(a, k)
    ensures WitnessOf(LOf(a), k)(k) == 1.0 && forall i: nat :: i > k ==> WitnessOf(LOf(a), k)(i) == 0.0
  {
    var l, d, x := LOf(a), DOf(a), WitnessOf(LOf(a), k);
    var m := k + 1;
    FactorsExist(a, m);
    QuadIsSquares(a, m, l, d, x);
    var w := LtTimes(l, m, x);
    forall j: nat | j < m
      ensures w(j) == if j == k then 1.0 else 0.0
    {
      WitnessMapsToUnit(l, m, k, j);
    }
    SumPoint(m, k, Squares(d, w));
    QuadTruncate(a, m, n, x);
  }

  lemma {:induction false} QuadTruncate(a: Upper, m: nat, n: nat, x: nat -> real)
    requires m <= n && forall i: nat :: i >= m ==> x(i) == 0.0
    ensures Quad(a, n, x) == Quad(a, m, x)
  {
    var f, g := (i: nat) => x(i) * Times(a, n, x)(i), (i: nat) => x(i) * Times(a, m, x)(i);
    SumTruncate(m, n, f);
    SumEqual(m, f, g) by {
      forall i: nat | i < m
        ensures f(i) == g(i)
      {
        SumTruncate(m, n, (k: nat) => Symmetric(a, i, k) * x(k));
      }
    }
  }

  /** The last nonzero coordinate survives in l'x. */
  lemma {:induction false} UpperKeepsNonzero(l: (nat, nat) -> real, n: nat, x: nat -> real, m: nat)
    requires UnitLower(n, l) && m <= n
    requires NonzeroBelow(m, x) && forall i: nat :: m <= i < n ==> x(i) == 0.0
    ensures NonzeroBelow(n, LtTimes(l, n, x))
  {
    if m == 0 {
    } else {
      if x(m - 1) != 0.0 {
        SumPoint(n, m - 1, ColumnTerm(l, m - 1, x));
        assert LtTimes(l, n, x)(m - 1) == x(m - 1);
      } else {
        UpperKeepsNonzero(l, n, x, m - 1);
      }
    }
  }

  /** A symmetric matrix is positive definite exactly when every pivot is positive. */
  lemma {:induction false} PositiveDefiniteIffPivots(a: Upper, n: nat)
    ensures PositiveDefinite(a, n) <==> forall k: nat :: k < n ==> D(a, k) > 0.0
  {
    if forall k: nat :: k < n ==> D(a, k) > 0.0 {
      forall x: nat -> real | NonzeroBelow(n, x)
        ensures Quad(a, n, x) > 0.0
      {
        PositivePivots(a, n, x);
      }
    }
    if PositiveDefinite(a, n) {
      PivotsPositive(a, n, n);
    }
  }

  lemma {:induction false} PositivePivots(a: Upper, n: nat, x: nat -> real)
    requires forall k: nat :: k < n ==> D(a, k) > 0.0
    requires NonzeroBelow(n, x)
    ensures Quad(a, n, x) > 0.0
  {
    var l, d := LOf(a), DOf(a);
    FactorsExist(a, n);
    QuadIsSquares(a, n, l, d, x);
    UpperKeepsNonzero(l, n, x, n);
    SquaresPositive(n, d, LtTimes(l, n, x));
  }

  lemma {:induction false} SquaresPositive(n: nat, d: nat -> real, w: nat -> real)
    requires forall k: nat :: k < n ==> d(k) > 0.0
    requires NonzeroBelow(n, w)
    ensures Sum(n, Squares(d, w)) > 0.0
  {
    var j: nat :| j < n && w(j) != 0.0;
    forall i: nat | i < n
      ensures Squares(d, w)(i) >= 0.0 && (w(i) != 0.0 ==> Squares(d, w)(i) > 0.0)
    {
      ScaledSquare(d(i), w(i));
    }
    SumPositive(n, j, Squares(d, w));
  }

  lemma {:induction false} ScaledSquare(c: real, x: real)
    requires c > 0.0
    ensures Weighted(c, x) >= 0.0 && (x != 0.0 ==> Weighted(c, x) > 0.0)
  {
    var z := if x > 0.0 then x else -x;
    assert Weighted(c, x) == c * z * z;
    if z != 0.0 {
      ProductPositive(c, z);
      ProductPositive(c * z, z);
    }
  }

  lemma {:induction false} PivotsPositive(a: Upper, n: nat, k: nat)
    requires PositiveDefinite(a, n) && k <= n
    ensures forall j: nat :: j < k ==> D(a, j) > 0.0
  {
    if k == 0 {
    } else {
      PivotsPositive(a, n, k - 1);
      WitnessQuad(a, n, k - 1);
      assert NonzeroBelow(n, WitnessOf(LOf(a), k - 1));
    }
  }
}
