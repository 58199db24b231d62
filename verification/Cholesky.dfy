// The dense Cholesky factorization: in-place columns of L, with an early failure return.

module Cholesky {
  import opened Sums
  import opened Factor
  import opened Systems
  import opened Matrices

  /** The symmetric matrix given by the lower triangle of `rows`, the only part that is read. */
  function FromLower(rows: seq<seq<real>>): Upper {
    (i: nat, k: nat) => Entry(rows, k, i)
  }

  /** A square root: positive on positive numbers, and squaring back. */
  ghost predicate IsSqrt(sqrt: real -> real) {
    forall x: real :: x > 0.0 ==> sqrt(x) > 0.0 && sqrt(x) * sqrt(x) == x
  }

  /** Entry (i, c) of the factor: the eliminated value over the square root of its pivot. */
  function Scaled(a: Upper, sqrt: real -> real, i: nat, c: nat): real {
    if c <= i then Over(U(a, c, i), sqrt(D(a, c))) else 0.0
  }

  function ScaledOf(a: Upper, sqrt: real -> real): (nat, nat) -> real {
    (i: nat, c: nat) => Scaled(a, sqrt, i, c)
  }

  /** Terms of entry (i, k) of l*l'. */
  function GramTerm(l: (nat, nat) -> real, i: nat, k: nat): nat -> real {
    (c: nat) => l(i, c) * l(k, c)
  }

  lemma {:induction false} QuotientProduct(x: real, y: real, s: real, d: real)
    requires s > 0.0 && d > 0.0 && s * s == d
    ensures (x / s) * (y / s) == (x / d) * y
  {
    assert (x / s) * (y / s) * d == x * y;
    assert (x / d) * y * d == x * y;
  }

  lemma {:induction false} GramTermIsElimination(a: Upper, sqrt: real -> real, i: nat, k: nat, c: nat)
    requires IsSqrt(sqrt) && c < k <= i && D(a, c) > 0.0
    ensures GramTerm(ScaledOf(a, sqrt), i, k)(c) == EliminationTerm(a, k, i)(c)
  {
    QuotientProduct(U(a, c, k), U(a, c, i), sqrt(D(a, c)), D(a, c));
    assert Scaled(a, sqrt, i, c) == U(a, c, i) / sqrt(D(a, c));
    assert Scaled(a, sqrt, k, c) == U(a, c, k) / sqrt(D(a, c));
  }

  /** Subtracting the products of the columns already computed leaves the eliminated value. */
  lemma {:induction false} Reduced(a: Upper, sqrt: real -> real, i: nat, k: nat)
    requires IsSqrt(sqrt) && k <= i && forall c: nat :: c < k ==> D(a, c) > 0.0
    ensures a(k, i) - Sum(k, GramTerm(ScaledOf(a, sqrt), i, k)) == U(a, k, i)
  {
    EliminatedIsSum(a, k, k, i);
    forall c: nat | c < k
      ensures GramTerm(ScaledOf(a, sqrt), i, k)(c) == EliminationTerm(a, k, i)(c)
    {
      GramTermIsElimination(a, sqrt, i, k, c);
    }
    SumEqual(k, GramTerm(ScaledOf(a, sqrt), i, k), EliminationTerm(a, k, i));
  }

  /** With positive pivots the factor times its transpose is the matrix. */
  lemma {:induction false} GramIsMatrix(a: Upper, sqrt: real -> real, i: nat, k: nat)
    requires IsSqrt(sqrt) && k <= i && forall c: nat :: c <= k ==> D(a, c) > 0.0
    ensures Sum(k + 1, GramTerm(ScaledOf(a, sqrt), i, k)) == a(k, i)
  {
    var f := GramTerm(ScaledOf(a, sqrt), i, k);
    Reduced(a, sqrt, i, k);
    QuotientProduct(U(a, k, i), D(a, k), sqrt(D(a, k)), D(a, k));
    assert f(k) == Scaled(a, sqrt, i, k) * Scaled(a, sqrt, k, k) == (U(a, k, i) / D(a, k)) * D(a, k);
  }

  /** A nonzero vector on the first m coordinates along which the form is not positive. */
  ghost predicate FailsWithin(a: Upper, n: nat, m: nat) {
    exists x: nat -> real ::
      NonzeroBelow(m, x) && (forall i: nat :: i >= m ==> x(i) == 0.0) && Quad(a, n, x) <= 0.0
  }

  lemma {:induction false} FailureWitness(a: Upper, n: nat, k: nat)
    requires k < n && D(a, k) <= 0.0 && forall c: nat :: c < k ==> D(a, c) > 0.0
    ensures FailsWithin(a, n, k + 1) && !PositiveDefinite(a, n) && PositiveDefinite(a, k)
  {
    var x := WitnessOf(LOf(a), k);
    WitnessQuad(a, n, k);
    assert NonzeroBelow(k + 1, x) && Quad(a, n, x) <= 0.0;
    PositiveDefiniteIffPivots(a, n);
    PositiveDefiniteIffPivots(a, k);
  }

  /** The product of rows i and k of L over the columns before m. */
  method InnerProduct(L: array2<real>, i: nat, k: nat, m: nat) returns (s: real)
    requires i < L.Length0 && k < L.Length0 && m <= L.Length1
    ensures s == Sum(m, GramTerm(Mat(Contents(L)), i, k))
  {
    ghost var l := Mat(Contents(L));
    s := 0.0;
    for c := 0 to m
      invariant s == Sum(c, GramTerm(l, i, k))
    {
      s := s + L[i, c] * L[k, c];
    }
  }

  /** Columns before k of L hold the factor, on and below the diagonal. */
  ghost predicate ColumnsDone(a: Upper, sqrt: real -> real, n: nat, k: nat, l: seq<seq<real>>) {
    && Rectangular(l, n, n)
    && (forall c: nat :: c < k ==> D(a, c) > 0.0)
    && (forall i: nat, c: nat :: c < k && c <= i < n ==> l[i][c] == Scaled(a, sqrt, i, c))
  }

  lemma {:induction false} ReducedFromArray(a: Upper, sqrt: real -> real, n: nat, i: nat, k: nat, l: seq<seq<real>>)
    requires IsSqrt(sqrt) && k <= i < n && ColumnsDone(a, sqrt, n, k, l)
    ensures a(k, i) - Sum(k, GramTerm(Mat(l), i, k)) == U(a, k, i)
  {
    Reduced(a, sqrt, i, k);
    SumEqual(k, GramTerm(Mat(l), i, k), GramTerm(ScaledOf(a, sqrt), i, k));
  }

  lemma {:induction false} GramFromArray(a: Upper, sqrt: real -> real, n: nat, m: nat, i: nat, k: nat,
    l: seq<seq<real>>)
    requires IsSqrt(sqrt) && k <= i < n && k < m <= n && ColumnsDone(a, sqrt, n, m, l)
    ensures Sum(k + 1, GramTerm(Mat(l), i, k)) == a(k, i)
    ensures l[k][k] > 0.0
  {
    GramIsMatrix(a, sqrt, i, k);
    SumEqual(k + 1, GramTerm(Mat(l), i, k), GramTerm(ScaledOf(a, sqrt), i, k));
    QuotientProduct(D(a, k), 1.0, sqrt(D(a, k)), D(a, k));
    assert l[k][k] == D(a, k) / sqrt(D(a, k));
  }

  /** With zeros above the diagonal the products over all columns are those over the first k + 1. */
  lemma {:induction false} LowerProducts(A: seq<seq<real>>, n: nat, l: seq<seq<real>>)
    requires Rectangular(A, n, n) && Rectangular(l, n, n) && forall r: nat, c: nat :: r < c < n ==> l[r][c] == 0.0
    requires forall i: nat, k: nat :: k <= i < n ==> Sum(k + 1, GramTerm(Mat(l), i, k)) == A[i][k]
    ensures forall i: nat, k: nat :: k <= i < n ==>
      Sum(n, GramTerm(Mat(l), i, k)) == Sum(n, GramTerm(Mat(l), k, i)) == A[i][k]
  {
    forall i: nat, k: nat | k <= i < n
      ensures Sum(n, GramTerm(Mat(l), i, k)) == Sum(n, GramTerm(Mat(l), k, i)) == A[i][k]
    {
      LowerProduct(n, l, i, k);
    }
  }

  lemma {:induction false} LowerProduct(n: nat, l: seq<seq<real>>, i: nat, k: nat)
    requires Rectangular(l, n, n) && k <= i < n && forall r: nat, c: nat :: r < c < n ==> l[r][c] == 0.0
    ensures Sum(n, GramTerm(Mat(l), i, k)) == Sum(n, GramTerm(Mat(l), k, i)) == Sum(k + 1, GramTerm(Mat(l), i, k))
  {
    forall c: nat | k < c < n
      ensures GramTerm(Mat(l), i, k)(c) == 0.0
    {
      assert Mat(l)(k, c) == 0.0;
    }
    SumTruncate(k + 1, n, GramTerm(Mat(l), i, k));
    SumEqual(n, GramTerm(Mat(l), i, k), GramTerm(Mat(l), k, i));
  }

  /** Fill column k below the diagonal. */
  method FillColumn(A: seq<seq<real>>, L: array2<real>, sqrt: real -> real, k: nat, n: nat)
    requires Rectangular(A, n, n) && L.Length0 == n == L.Length1 && k < n
    requires IsSqrt(sqrt) && ColumnsDone(FromLower(A), sqrt, n, k, Contents(L))
    requires D(FromLower(A), k) > 0.0 && L[k, k] == sqrt(D(FromLower(A), k))
    modifies L
    ensures ColumnsDone(FromLower(A), sqrt, n, k + 1, Contents(L))
    ensures forall r: nat, c: nat :: r < n && c < n && (c != k || r <= k) ==> L[r, c] == old(L[r, c])
  {
    ghost var a := FromLower(A);
    QuotientProduct(D(a, k), 1.0, sqrt(D(a, k)), D(a, k));
    assert Scaled(a, sqrt, k, k) == L[k, k];
    for i := k + 1 to n
      invariant ColumnsDone(a, sqrt, n, k, Contents(L))
      invariant forall r: nat :: k <= r < i ==> L[r, k] == Scaled(a, sqrt, r, k)
      invariant forall r: nat, c: nat :: r < n && c < n && (c != k || r <= k) ==> L[r, c] == old(L[r, c])
    {
      FillEntry(A, L, sqrt, i, k, n);
    }
  }

  /** Entry (i, k) below the diagonal, nothing else. */
  method FillEntry(A: seq<seq<real>>, L: array2<real>, sqrt: real -> real, i: nat, k: nat, n: nat)
    requires Rectangular(A, n, n) && L.Length0 == n == L.Length1 && k < i < n
    requires IsSqrt(sqrt) && ColumnsDone(FromLower(A), sqrt, n, k, Contents(L))
    requires D(FromLower(A), k) > 0.0 && L[k, k] == sqrt(D(FromLower(A), k))
    modifies L
    ensures ColumnsDone(FromLower(A), sqrt, n, k, Contents(L)) && L[i, k] == Scaled(FromLower(A), sqrt, i, k)
    ensures forall r: nat, c: nat :: r < n && c < n && (r, c) != (i, k) ==> L[r, c] == old(L[r, c])
  {
    var s := InnerProduct(L, i, k, k);
    ReducedFromArray(FromLower(A), sqrt, n, i, k, Contents(L));
    L[i, k] := (A[i][k] - s) / L[k, k];
  }

  /**
   * Factorize A = L*L' from the lower triangle of A.  The result is 0 exactly when A is positive
   * definite; otherwise it is one more than the first row whose leading block is not.
   */
  method CholeskyDecompose(A: seq<seq<real>>, L: array2<real>, sqrt: real -> real, n: nat) returns (code: nat)
    requires Rectangular(A, n, n) && L.Length0 == n == L.Length1
    requires IsSqrt(sqrt)
    modifies L
    ensures code <= n
    ensures code == 0 <==> PositiveDefinite(FromLower(A), n)
    // the columns before the failing one, all of them if there is none, hold the factor
    ensures forall i: nat, k: nat :: k <= i < n && (code == 0 || k + 1 < code) ==>
      L[k, k] > 0.0 && Sum(k + 1, GramTerm(Mat(Contents(L)), i, k)) == A[i][k]
    ensures code > 0 ==> PositiveDefinite(FromLower(A), code - 1) && FailsWithin(FromLower(A), n, code)
    // nothing above the diagonal is written, nor a column from the failing one on
    ensures forall r: nat, c: nat :: r < n && c < n && (r < c || (code > 0 && c >= code - 1)) ==>
      L[r, c] == old(L[r, c])
    // so on a zero upper triangle L is lower triangular, and L*L' is the matrix
    ensures code == 0 && (forall r: nat, c: nat :: r < c < n ==> old(L[r, c]) == 0.0) ==>
      forall i: nat, k: nat :: k <= i < n ==>
        Sum(n, GramTerm(Mat(Contents(L)), i, k)) == Sum(n, GramTerm(Mat(Contents(L)), k, i)) == A[i][k]
  {
    ghost var a := FromLower(A);
    for k := 0 to n
      invariant ColumnsDone(a, sqrt, n, k, Contents(L))
      invariant forall r: nat, c: nat :: r < n && c < n && (r < c || k <= c) ==> L[r, c] == old(L[r, c])
    {
      var q := Pivot(A, L, sqrt, k, n);
      if q <= 0.0 {
        FailureWitness(a, n, k);
        AllFromArray(A, sqrt, n, k, Contents(L));
        return 1 + k;
      }
      NextColumn(A, L, sqrt, q, k, n);
    }
    PositiveDefiniteIffPivots(a, n);
    AllFromArray(A, sqrt, n, n, Contents(L));
    if forall r: nat, c: nat :: r < c < n ==> old(L[r, c]) == 0.0 {
      LowerProducts(A, n, Contents(L));
    }
    return 0;
  }

  /** What the earlier columns leave of diagonal entry k. */
  method Pivot(A: seq<seq<real>>, L: array2<real>, sqrt: real -> real, k: nat, n: nat) returns (q: real)
    requires Rectangular(A, n, n) && L.Length0 == n == L.Length1 && k < n
    requires IsSqrt(sqrt) && ColumnsDone(FromLower(A), sqrt, n, k, Contents(L))
    ensures q == D(FromLower(A), k)
  {
    var s := InnerProduct(L, k, k, k);
    ReducedFromArray(FromLower(A), sqrt, n, k, k, Contents(L));
    q := A[k][k] - s;
  }

  /** The diagonal entry of column k, then the entries below it. */
  method NextColumn(A: seq<seq<real>>, L: array2<real>, sqrt: real -> real, q: real, k: nat, n: nat)
    requires Rectangular(A, n, n) && L.Length0 == n == L.Length1 && k < n
    requires IsSqrt(sqrt) && ColumnsDone(FromLower(A), sqrt, n, k, Contents(L)) && q == D(FromLower(A), k) > 0.0
    modifies L
    ensures ColumnsDone(FromLower(A), sqrt, n, k + 1, Contents(L))
    ensures forall r: nat, c: nat :: r < n && c < n && (c != k || r < k) ==> L[r, c] == old(L[r, c])
  {
    L[k, k] := sqrt(q);
    FillColumn(A, L, sqrt, k, n);
  }

  lemma {:induction false} AllFromArray(A: seq<seq<real>>, sqrt: real -> real, n: nat, m: nat, l: seq<seq<real>>)
    requires Rectangular(A, n, n) && IsSqrt(sqrt) && m <= n && ColumnsDone(FromLower(A), sqrt, n, m, l)
    ensures forall i: nat, k: nat :: k <= i < n && k < m ==>
      l[k][k] > 0.0 && Sum(k + 1, GramTerm(Mat(l), i, k)) == A[i][k]
  {
    forall i: nat, k: nat | k <= i < n && k < m
      ensures l[k][k] > 0.0 && Sum(k + 1, GramTerm(Mat(l), i, k)) == A[i][k]
    {
      GramFromArray(FromLower(A), sqrt, n, m, i, k, l);
    }
  }
}
