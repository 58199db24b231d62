// Solving with the packed factors: what a nonsingular factorization says about A*x = b.

module LuSystems {
  import opened Sums
  import opened Factor
  import opened Systems
  import opened Matrices
  import opened Permutations
  import opened LuSteps

  /** The rows chosen as pivots hold for v. */
  ghost predicate PivotRowsHold(A: seq<seq<real>>, piv: seq<nat>, n: nat, b: nat -> real, v: nat -> real)
    requires n <= |piv|
  {
    forall i: nat :: i < n ==> LTimes(Mat(A), n, v)(piv[i]) == b(piv[i])
  }

  /** The pivot rows of A*x = b have exactly the solution x. */
  ghost predicate PivotRowsSolvedBy(A: seq<seq<real>>, piv: seq<nat>, n: nat, b: nat -> real, x: nat -> real)
    requires n <= |piv|
  {
    forall v: nat -> real :: PivotRowsHold(A, piv, n, b, v) <==> Agree(n, v, x)
  }

  /** The square system A*x = b has exactly the solution x. */
  ghost predicate SolvedBy(A: seq<seq<real>>, n: nat, b: nat -> real, x: nat -> real) {
    forall v: nat -> real :: Agree(n, LTimes(Mat(A), n, v), b) <==> Agree(n, v, x)
  }

  /** The m by n matrix maps only the zero vector to zero. */
  ghost predicate Injective(A: seq<seq<real>>, m: nat, n: nat) {
    forall v: nat -> real :: NonzeroBelow(n, v) ==> NonzeroBelow(m, LTimes(Mat(A), n, v))
  }

  ghost predicate Nonsingular(lu: seq<seq<real>>, n: nat) {
    forall j: nat :: j < n ==> Entry(lu, j, j) != 0.0
  }

  /** Every entry of the permuted matrix is the full product of the two factors. */
  lemma {:induction false} FullProduct(A: seq<seq<real>>, piv: seq<nat>, lu: seq<seq<real>>, m: nat, n: nat, i: nat,
    j: nat)
    requires State(A, piv, lu, m, n, n) && i < m && j < n
    ensures Entry(A, piv[i], j) == Sum(n, Term(lu, i, j))
  {
    assert ColumnFactored(A, piv, lu, j);
    forall k: nat | j + 1 <= k < n
      ensures Term(lu, i, j)(k) == 0.0
    {
      assert UpperOf(lu)(k, j) == 0.0 && Mul(LowerOf(lu)(i, k), 0.0) == 0.0;
    }
    SumTruncate(j + 1, n, Term(lu, i, j));
  }

  /** Row piv[i] of A*v is row i of L*(U*v). */
  lemma {:induction false} PermutedProduct(A: seq<seq<real>>, piv: seq<nat>, lu: seq<seq<real>>, m: nat, n: nat,
    v: nat -> real, i: nat)
    requires State(A, piv, lu, m, n, n) && i < m
    ensures LTimes(Mat(A), n, v)(piv[i]) == LTimes(LowerOf(lu), n, LTimes(UpperOf(lu), n, v))(i)
  {
    var row := (k: nat) => LowerOf(lu)(i, k);
    var uv := LTimes(UpperOf(lu), n, v);
    forall j: nat | j < n
      ensures RowTerm(Mat(A), piv[i], v)(j) == v(j) * LtTimes(UpperOf(lu), n, row)(j)
    {
      FullProduct(A, piv, lu, m, n, i, j);
      SameColumn(lu, n, i, j, row);
      Commute(Entry(A, piv[i], j), v(j), LtTimes(UpperOf(lu), n, row)(j));
    }
    SumEqual(n, RowTerm(Mat(A), piv[i], v), (j: nat) => v(j) * LtTimes(UpperOf(lu), n, row)(j));
    Adjoint(UpperOf(lu), n, n, row, v);
    SumEqual(n, (k: nat) => row(k) * uv(k), RowTerm(LowerOf(lu), i, uv));
  }

  lemma {:induction false} SameColumn(lu: seq<seq<real>>, n: nat, i: nat, j: nat, row: nat -> real)
    requires forall k: nat :: row(k) == LowerOf(lu)(i, k)
    ensures Sum(n, Term(lu, i, j)) == LtTimes(UpperOf(lu), n, row)(j)
  {
    forall k: nat | k < n
      ensures Term(lu, i, j)(k) == ColumnTerm(UpperOf(lu), j, row)(k)
    {
      assert Mul(LowerOf(lu)(i, k), UpperOf(lu)(k, j)) == UpperOf(lu)(k, j) * row(k);
    }
    SumEqual(n, Term(lu, i, j), ColumnTerm(UpperOf(lu), j, row));
  }

  lemma {:induction false} PackedShapes(lu: seq<seq<real>>, n: nat)
    ensures UnitLower(n, LowerOf(lu)) && UpperTriangular(UpperOf(lu), n)
  {
  }

  /** An upper triangular product with nonzero diagonal determines its vector. */
  lemma {:induction false} BackInjective(u: (nat, nat) -> real, n: nat, x: nat -> real, y: nat -> real, k: nat)
    requires UpperTriangular(u, n) && k <= n && forall j: nat :: j < n ==> u(j, j) != 0.0
    requires Agree(n, LTimes(u, n, x), LTimes(u, n, y))
    ensures forall i: nat :: k <= i < n ==> x(i) == y(i)
    decreases n - k
  {
    if k >= n {
    } else {
      BackInjective(u, n, x, y, k + 1);
      var f, g := RowTerm(u, k, x), RowTerm(u, k, y);
      forall j: nat | j < n && j != k
        ensures f(j) == g(j)
      {
        if j < k {
          assert u(k, j) == 0.0;
        }
      }
      assert LTimes(u, n, x)(k) == LTimes(u, n, y)(k);
      PivotTermDecides(u, n, x, y, k);
    }
  }

  lemma {:induction false} PivotTermDecides(u: (nat, nat) -> real, n: nat, x: nat -> real, y: nat -> real, k: nat)
    requires k < n && u(k, k) != 0.0 && LTimes(u, n, x)(k) == LTimes(u, n, y)(k)
    requires forall j: nat :: j < n && j != k ==> RowTerm(u, k, x)(j) == RowTerm(u, k, y)(j)
    ensures x(k) == y(k)
  {
    var c, xk, yk := u(k, k), x(k), y(k);
    SumUpdate(n, k, RowTerm(u, k, x), RowTerm(u, k, y));
    assert RowTerm(u, k, x)(k) == c * xk && RowTerm(u, k, y)(k) == c * yk;
    Cancel(c, xk, yk);
  }

  /** The pivot rows determine their solution. */
  lemma {:induction false} PivotRowsUnique(A: seq<seq<real>>, piv: seq<nat>, lu: seq<seq<real>>, m: nat, n: nat,
    x: nat -> real, y: nat -> real)
    requires State(A, piv, lu, m, n, n) && n <= m && Nonsingular(lu, n)
    requires PivotRowsHold(A, piv, n, LTimes(Mat(A), n, y), x)
    ensures Agree(n, x, y)
  {
    var l, u := LowerOf(lu), UpperOf(lu);
    PackedShapes(lu, n);
    forall i: nat | i < n
      ensures LTimes(l, n, LTimes(u, n, x))(i) == LTimes(l, n, LTimes(u, n, y))(i)
    {
      PermutedProduct(A, piv, lu, m, n, x, i);
      PermutedProduct(A, piv, lu, m, n, y, i);
    }
    LowerInjective(l, n, LTimes(u, n, x), LTimes(u, n, y), n);
    assert forall j: nat :: j < n ==> u(j, j) == Entry(lu, j, j);
    BackInjective(u, n, x, y, 0);
  }

  /** Forward then backward substitution on the permuted right-hand side solve the pivot rows. */
  lemma {:induction false} SubstitutionHolds(A: seq<seq<real>>, piv: seq<nat>, lu: seq<seq<real>>, m: nat, n: nat,
    b: nat -> real, pb: nat -> real, y: nat -> real, x: nat -> real)
    requires State(A, piv, lu, m, n, n) && n <= m
    requires forall i: nat :: i < n ==> pb(i) == b(piv[i])
    requires Swept(LowerOf(lu), n, n, pb, y) && SweptBack(UpperOf(lu), n, 0, y, x)
    ensures PivotRowsHold(A, piv, n, b, x)
  {
    PackedShapes(lu, n);
    SweptAll(LowerOf(lu), n, pb, y);
    SweptBackAll(UpperOf(lu), n, y, x);
    AgreeTimes(LowerOf(lu), n, n, LTimes(UpperOf(lu), n, x), y);
    forall i: nat | i < n
      ensures LTimes(Mat(A), n, x)(piv[i]) == b(piv[i])
    {
      PermutedProduct(A, piv, lu, m, n, x, i);
    }
  }

  /** They give their only solution. */
  lemma {:induction false} SubstitutionSolves(A: seq<seq<real>>, piv: seq<nat>, lu: seq<seq<real>>, m: nat, n: nat,
    b: nat -> real, pb: nat -> real, y: nat -> real, x: nat -> real)
    requires State(A, piv, lu, m, n, n) && n <= m && Nonsingular(lu, n)
    requires forall i: nat :: i < n ==> pb(i) == b(piv[i])
    requires Swept(LowerOf(lu), n, n, pb, y) && SweptBack(UpperOf(lu), n, 0, y, x)
    ensures PivotRowsSolvedBy(A, piv, n, b, x)
    ensures m == n ==> SolvedBy(A, n, b, x)
  {
    SubstitutionHolds(A, piv, lu, m, n, b, pb, y, x);
    HeldIsSolved(A, piv, lu, m, n, b, x);
    if m == n {
      AllRowsArePivots(A, piv, n, b, x);
    }
  }

  lemma {:induction false} HeldIsSolved(A: seq<seq<real>>, piv: seq<nat>, lu: seq<seq<real>>, m: nat, n: nat,
    b: nat -> real, x: nat -> real)
    requires State(A, piv, lu, m, n, n) && n <= m && Nonsingular(lu, n) && PivotRowsHold(A, piv, n, b, x)
    ensures PivotRowsSolvedBy(A, piv, n, b, x)
  {
    forall v: nat -> real
      ensures PivotRowsHold(A, piv, n, b, v) <==> Agree(n, v, x)
    {
      if PivotRowsHold(A, piv, n, b, v) {
        PivotRowsUnique(A, piv, lu, m, n, v, x);
      }
      if Agree(n, v, x) {
        AgreeTimes(Mat(A), m, n, v, x);
      }
    }
  }

  /** In a square system every row is a pivot row. */
  lemma {:induction false} AllRowsArePivots(A: seq<seq<real>>, piv: seq<nat>, n: nat, b: nat -> real, x: nat -> real)
    requires |piv| == n && IsPermutation(piv) && PivotRowsSolvedBy(A, piv, n, b, x)
    ensures SolvedBy(A, n, b, x)
  {
    forall v: nat -> real
      ensures Agree(n, LTimes(Mat(A), n, v), b) <==> PivotRowsHold(A, piv, n, b, v)
    {
      if PivotRowsHold(A, piv, n, b, v) {
        forall r: nat | r < n
          ensures LTimes(Mat(A), n, v)(r) == b(r)
        {
          PermutationHits(piv, r);
        }
      }
    }
  }

  /** What solves the pivot rows solves the whole system exactly if the system has a solution at all. */
  lemma {:induction false} SolvesAllIff(A: seq<seq<real>>, piv: seq<nat>, m: nat, n: nat, b: nat -> real,
    x: nat -> real)
    requires n <= m == |piv| && IsPermutation(piv) && PivotRowsSolvedBy(A, piv, n, b, x)
    ensures Agree(m, LTimes(Mat(A), n, x), b) <==> exists v: nat -> real :: Agree(m, LTimes(Mat(A), n, v), b)
  {
    forall v: nat -> real | Agree(m, LTimes(Mat(A), n, v), b)
      ensures Agree(m, LTimes(Mat(A), n, x), b)
    {
      assert PivotRowsHold(A, piv, n, b, v);
      AgreeTimes(Mat(A), m, n, v, x);
    }
  }

  /** One unknown and two equations that contradict each other: the matrix is injective, so one of them is solved
      and the other is not. */
  lemma {:induction false} ContradictingExample(A: seq<seq<real>>, b: nat -> real, v: nat -> real)
    requires A == [[1.0], [1.0]] && b(0) == 1.0 && b(1) == 2.0
    ensures Injective(A, 2, 1) && !Agree(2, LTimes(Mat(A), 1, v), b)
  {
    forall w: nat -> real, r: nat | r < 2
      ensures LTimes(Mat(A), 1, w)(r) == w(0)
    {
      SumPoint(1, 0, RowTerm(Mat(A), r, w));
    }
    forall w: nat -> real | NonzeroBelow(1, w)
      ensures NonzeroBelow(2, LTimes(Mat(A), 1, w))
    {
      assert LTimes(Mat(A), 1, w)(0) != 0.0;
    }
  }

  // ---------------------------------------------------------------------------------------------
  // A zero pivot means a singular matrix
  // ---------------------------------------------------------------------------------------------

  /** The vector, supported on 0..k, that u maps to zero when u(k, k) is its first zero pivot. */
  function Kernel(u: (nat, nat) -> real, k: nat, j: nat): real
    decreases if j <= k then k - j else 0, k + 1
  {
    if j > k then 0.0 else if j == k then 1.0 else -Over(KernelTail(u, k, j, k), u(j, j))
  }

  function KernelTail(u: (nat, nat) -> real, k: nat, j: nat, c: nat): real
    requires j <= c <= k
    decreases k - j, c
  {
    if c == j then 0.0 else KernelTail(u, k, j, c - 1) + u(j, c) * Kernel(u, k, c)
  }

  function KernelOf(u: (nat, nat) -> real, k: nat): nat -> real {
    (j: nat) => Kernel(u, k, j)
  }

  lemma {:induction false} KernelTailIsSum(u: (nat, nat) -> real, n: nat, k: nat, j: nat, c: nat)
    requires UpperTriangular(u, n) && j <= c <= k < n
    ensures Sum(c + 1, RowTerm(u, j, KernelOf(u, k))) == u(j, j) * Kernel(u, k, j) + KernelTail(u, k, j, c)
    decreases c
  {
    var f := RowTerm(u, j, KernelOf(u, k));
    if c == j {
      SumZero(j, f);
    } else {
      KernelTailIsSum(u, n, k, j, c - 1);
    }
  }

  lemma {:induction false} OverCancels(t: real, d: real)
    requires d != 0.0
    ensures d * -Over(t, d) + t == 0.0
  {
  }

  lemma {:induction false} KernelRow(u: (nat, nat) -> real, k: nat, j: nat)
    requires j < k && u(j, j) != 0.0
    ensures u(j, j) * Kernel(u, k, j) + KernelTail(u, k, j, k) == 0.0
  {
    var tail, d := KernelTail(u, k, j, k), u(j, j);
    OverCancels(tail, d);
    SameProducts(d, Kernel(u, k, j), d, -Over(tail, d));
  }

  lemma {:induction false} KernelMapsToZero(u: (nat, nat) -> real, n: nat, k: nat, j: nat)
    requires UpperTriangular(u, n) && k < n && j < n
    requires u(k, k) == 0.0 && forall i: nat :: i < k ==> u(i, i) != 0.0
    ensures LTimes(u, n, KernelOf(u, k))(j) == 0.0
  {
    var f := RowTerm(u, j, KernelOf(u, k));
    assert forall c: nat :: c > k ==> KernelOf(u, k)(c) == 0.0;
    SumTruncate(k + 1, n, f);
    if j <= k {
      KernelTailIsSum(u, n, k, j, k);
      if j < k {
        KernelRow(u, k, j);
      }
    } else {
      SumZero(k + 1, f);
    }
  }

  lemma {:induction false} FirstZeroPivot(lu: seq<seq<real>>, n: nat)
    requires !Nonsingular(lu, n)
    ensures exists k: nat :: k < n && Entry(lu, k, k) == 0.0 && forall i: nat :: i < k ==> Entry(lu, i, i) != 0.0
  {
    if n > 0 && !Nonsingular(lu, n - 1) {
      FirstZeroPivot(lu, n - 1);
    }
  }

  /** The pivots are all nonzero exactly when A is injective. */
  lemma {:induction false} NonsingularIffInjective(A: seq<seq<real>>, piv: seq<nat>, lu: seq<seq<real>>, m: nat, n: nat)
    requires State(A, piv, lu, m, n, n) && n <= m
    ensures Nonsingular(lu, n) <==> Injective(A, m, n)
  {
    if Nonsingular(lu, n) {
      var zero := (i: nat) => 0.0;
      ZeroTimes(Mat(A), m, n);
      forall v: nat -> real | NonzeroBelow(n, v)
        ensures NonzeroBelow(m, LTimes(Mat(A), n, v))
      {
        if !NonzeroBelow(m, LTimes(Mat(A), n, v)) {
          PivotRowsUnique(A, piv, lu, m, n, v, zero);
        }
      }
    } else {
      FirstZeroPivot(lu, n);
      var k: nat :| k < n && Entry(lu, k, k) == 0.0 && forall i: nat :: i < k ==> Entry(lu, i, i) != 0.0;
      SingularKernel(A, piv, lu, m, n, k);
    }
  }

  lemma {:induction false} ZeroTimes(l: (nat, nat) -> real, m: nat, n: nat)
    ensures Agree(m, LTimes(l, n, (i: nat) => 0.0), (i: nat) => 0.0)
  {
    var zero := (i: nat) => 0.0;
    forall i: nat | i < m
      ensures LTimes(l, n, zero)(i) == 0.0
    {
      SumZero(n, RowTerm(l, i, zero));
    }
  }

  lemma {:induction false} SingularKernel(A: seq<seq<real>>, piv: seq<nat>, lu: seq<seq<real>>, m: nat, n: nat, k: nat)
    requires State(A, piv, lu, m, n, n) && k < n <= m
    requires Entry(lu, k, k) == 0.0 && forall i: nat :: i < k ==> Entry(lu, i, i) != 0.0
    ensures !Injective(A, m, n)
  {
    var u := UpperOf(lu);
    var v, zero := KernelOf(u, k), (i: nat) => 0.0;
    PackedShapes(lu, n);
    assert forall i: nat :: i <= k ==> u(i, i) == Entry(lu, i, i);
    forall j: nat | j < n
      ensures LTimes(u, n, v)(j) == zero(j)
    {
      KernelMapsToZero(u, n, k, j);
    }
    AgreeTimes(LowerOf(lu), m, n, LTimes(u, n, v), zero);
    ZeroTimes(LowerOf(lu), m, n);
    forall r: nat | r < m
      ensures LTimes(Mat(A), n, v)(r) == 0.0
    {
      PermutationHits(piv, r);
      var i: nat :| i < m && piv[i] == r;
      PermutedProduct(A, piv, lu, m, n, v, i);
    }
    assert v(k) == 1.0;
    assert NonzeroBelow(n, v) && !NonzeroBelow(m, LTimes(Mat(A), n, v));
  }

  // ---------------------------------------------------------------------------------------------
  // Inverse
  // ---------------------------------------------------------------------------------------------

  function Column(rows: seq<seq<real>>, c: nat): nat -> real {
    (i: nat) => Entry(rows, i, c)
  }

  function Unit(i: nat, j: nat): real {
    if i == j then 1.0 else 0.0
  }

  /** The n by m matrix X times the m by n matrix A is the identity. */
  ghost predicate IsInverse(X: seq<seq<real>>, A: seq<seq<real>>, m: nat, n: nat) {
    forall i: nat, c: nat :: i < n && c < n ==> LTimes(Mat(X), m, Column(A, c))(i) == Unit(i, c)
  }

  /** Both substitutions, column by column. */
  lemma {:induction false} ColumnsSolved(A: seq<seq<real>>, piv: seq<nat>, lu: seq<seq<real>>, m: nat, n: nat,
    B: seq<seq<real>>, pb: seq<seq<real>>, z: seq<seq<real>>, X: seq<seq<real>>, nx: nat)
    requires State(A, piv, lu, m, n, n) && n <= m && Nonsingular(lu, n)
    requires forall c: nat, i: nat :: c < nx && i < n ==> Entry(pb, i, c) == Entry(B, piv[i], c)
    requires forall c: nat :: c < nx ==> Swept(LowerOf(lu), n, n, Column(pb, c), Column(z, c))
    requires forall c: nat :: c < nx ==> SweptBack(UpperOf(lu), n, 0, Column(z, c), Column(X, c))
    ensures forall c: nat :: c < nx ==> PivotRowsSolvedBy(A, piv, n, Column(B, c), Column(X, c))
    ensures m == n ==> forall c: nat :: c < nx ==> SolvedBy(A, n, Column(B, c), Column(X, c))
  {
    forall c: nat | c < nx
      ensures PivotRowsSolvedBy(A, piv, n, Column(B, c), Column(X, c))
      ensures m == n ==> SolvedBy(A, n, Column(B, c), Column(X, c))
    {
      SubstitutionSolves(A, piv, lu, m, n, Column(B, c), Column(pb, c), Column(z, c), Column(X, c));
    }
  }

  /** X solves the pivot rows for every unit vector. */
  ghost predicate UnitsSolved(A: seq<seq<real>>, piv: seq<nat>, X: seq<seq<real>>, m: nat, n: nat)
    requires n <= |piv|
  {
    forall i: nat, c: nat :: i < n && c < m ==> LTimes(Mat(A), n, Column(X, c))(piv[i]) == Unit(piv[i], c)
  }

  /** Then X*w solves them for w. */
  lemma {:induction false} UnitsSolveAll(A: seq<seq<real>>, piv: seq<nat>, X: seq<seq<real>>, m: nat, n: nat,
    w: nat -> real)
    requires n <= m == |piv| && IsPermutation(piv) && UnitsSolved(A, piv, X, m, n)
    ensures PivotRowsHold(A, piv, n, w, LTimes(Mat(X), m, w))
  {
    var xw := LTimes(Mat(X), m, w);
    forall i: nat | i < n
      ensures LTimes(Mat(A), n, xw)(piv[i]) == w(piv[i])
    {
      var r := piv[i];
      var row := (k: nat) => Mat(A)(r, k);
      Adjoint(Mat(X), n, m, row, w);
      SumEqual(n, RowTerm(Mat(A), r, xw), (k: nat) => row(k) * xw(k));
      var f := (c: nat) => w(c) * LtTimes(Mat(X), n, row)(c);
      forall c: nat | c < m
        ensures f(c) == if c == r then w(r) else 0.0
      {
        SumEqual(n, ColumnTerm(Mat(X), c, row), RowTerm(Mat(A), r, Column(X, c)));
        assert LtTimes(Mat(X), n, row)(c) == LTimes(Mat(A), n, Column(X, c))(r) == Unit(r, c);
      }
      SumPoint(m, r, f);
    }
  }

  /** Solving for all unit vectors gives a left inverse, and a right one if the matrix is square. */
  lemma {:induction false} SolvesAreInverse(A: seq<seq<real>>, piv: seq<nat>, lu: seq<seq<real>>, X: seq<seq<real>>,
    one: seq<seq<real>>, m: nat, n: nat)
    requires State(A, piv, lu, m, n, n) && n <= m && Nonsingular(lu, n)
    requires forall i: nat, c: nat :: i < m && c < m ==> Entry(one, i, c) == Unit(i, c)
    requires forall c: nat :: c < m ==> PivotRowsSolvedBy(A, piv, n, Column(one, c), Column(X, c))
    ensures IsInverse(X, A, m, n) && (m == n ==> IsInverse(A, X, n, n))
  {
    forall i: nat, c: nat | i < n && c < m
      ensures LTimes(Mat(A), n, Column(X, c))(piv[i]) == Unit(piv[i], c)
    {
      assert Agree(n, Column(X, c), Column(X, c));
      assert PivotRowsHold(A, piv, n, Column(one, c), Column(X, c));
      assert Column(one, c)(piv[i]) == Unit(piv[i], c);
    }
    forall c: nat | c < n
      ensures forall i: nat :: i < n ==> LTimes(Mat(X), m, Column(A, c))(i) == Unit(i, c)
    {
      LeftInverse(A, piv, lu, X, m, n, c);
    }
    if m == n {
      forall r: nat, c: nat | r < n && c < n
        ensures LTimes(Mat(A), n, Column(X, c))(r) == Unit(r, c)
      {
        PermutationHits(piv, r);
      }
    }
  }

  lemma {:induction false} LeftInverse(A: seq<seq<real>>, piv: seq<nat>, lu: seq<seq<real>>, X: seq<seq<real>>, m: nat,
    n: nat, c: nat)
    requires State(A, piv, lu, m, n, n) && n <= m && Nonsingular(lu, n) && UnitsSolved(A, piv, X, m, n) && c < n
    ensures forall i: nat :: i < n ==> LTimes(Mat(X), m, Column(A, c))(i) == Unit(i, c)
  {
    var a, e := Column(A, c), (i: nat) => Unit(i, c);
    UnitsSolveAll(A, piv, X, m, n, a);
    forall r: nat | r < m
      ensures LTimes(Mat(A), n, e)(r) == a(r)
    {
      SumPoint(n, c, RowTerm(Mat(A), r, e));
      assert RowTerm(Mat(A), r, e)(c) == Mat(A)(r, c) * 1.0;
    }
    PivotRowsUnique(A, piv, lu, m, n, LTimes(Mat(X), m, a), e);
  }

  /** One forward step on one column of a matrix of right-hand sides. */
  lemma {:induction false} SweepColumn(l: (nat, nat) -> real, m: nat, n: nat, k: nat, b: nat -> real,
    was: seq<seq<real>>, now: seq<seq<real>>, w: nat, c: nat)
    requires k < n <= m && Swept(l, n, k, b, Column(was, c))
    requires Rectangular(was, m, w) && Rectangular(now, m, w) && c < w
    requires forall r: nat :: r < n ==> now[r][c] == if r > k then was[r][c] - Mul(l(r, k), was[k][c]) else was[r][c]
    ensures Swept(l, n, k + 1, b, Column(now, c))
  {
    SweepStep(l, n, k, b, Column(was, c), Column(now, c));
  }

  /** One backward step on one column of a matrix of right-hand sides. */
  lemma {:induction false} SweepBackColumn(u: (nat, nat) -> real, m: nat, n: nat, k: nat, b: nat -> real,
    was: seq<seq<real>>, now: seq<seq<real>>, w: nat, c: nat)
    requires k < n <= m && UpperTriangular(u, n) && SweptBack(u, n, k + 1, b, Column(was, c))
    requires Rectangular(was, m, w) && Rectangular(now, m, w) && c < w
    requires Mul(u(k, k), now[k][c]) == was[k][c]
    requires forall r: nat :: r < n && r != k ==>
      now[r][c] == if r < k then was[r][c] - Mul(u(r, k), now[k][c]) else was[r][c]
    ensures SweptBack(u, n, k, b, Column(now, c))
  {
    SweepBackStep(u, n, k, b, Column(was, c), Column(now, c));
  }
}
