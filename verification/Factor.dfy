// The mathematics of symmetric elimination, written for any matrix given by its upper triangle.
//
// `Pivot row i, column k` is the value left in entry (i, k) after rows 0..i-1 have been eliminated.
// Both the sparse LDL' factorization and the Cholesky factorization store these values, scaled
// differently, so their theorems are proved once here.

module Factor {
  import opened Sums

  /** The upper triangle (row <= column) of a symmetric matrix. */
  type Upper = (nat, nat) -> real

  function Symmetric(a: Upper, i: nat, k: nat): real {
    if i <= k then a(i, k) else a(k, i)
  }

  /** Division that is only ever used, in the theorems, with a nonzero divisor. */
  function Over(x: real, y: real): real {
    if y == 0.0 then 0.0 else x / y
  }

  /** Entry (i, k), i <= k, after eliminating the rows above i. */
  function U(a: Upper, i: nat, k: nat): real
    decreases i, 1
  {
    a(i, k) - Eliminated(a, i, i, k)
  }

  /** What the first m rows subtract from entry (i, k). */
  function Eliminated(a: Upper, m: nat, i: nat, k: nat): real
    requires m <= i
    decreases m, 0
  {
    if m == 0 then 0.0
    else Eliminated(a, m - 1, i, k) + Over(U(a, m - 1, i), U(a, m - 1, m - 1)) * U(a, m - 1, k)
  }

  /** Entry (k, i), i <= k, of the unit lower triangular factor; zero above the diagonal. */
  function L(a: Upper, k: nat, i: nat): real {
    if i < k then Over(U(a, i, k), U(a, i, i))
    else if i == k then 1.0
    else 0.0
  }

  function D(a: Upper, i: nat): real {
    U(a, i, i)
  }

  function EliminationTerm(a: Upper, i: nat, k: nat): nat -> real {
    (j: nat) => L(a, i, j) * U(a, j, k)
  }

  lemma {:induction false} EliminationTermAt(a: Upper, i: nat, k: nat, j: nat)
    requires j < i
    ensures EliminationTerm(a, i, k)(j) == Over(U(a, j, i), U(a, j, j)) * U(a, j, k)
  {
    var x, y := L(a, i, j), U(a, j, k);
    assert EliminationTerm(a, i, k)(j) == x * y;
    SameProducts(x, y, Over(U(a, j, i), U(a, j, j)), U(a, j, k));
  }

  lemma {:induction false} EliminatedIsSum(a: Upper, m: nat, i: nat, k: nat)
    requires m <= i
    ensures Eliminated(a, m, i, k) == Sum(m, EliminationTerm(a, i, k))
  {
    if m == 0 {
    } else {
      EliminatedIsSum(a, m - 1, i, k);
      EliminationTermAt(a, i, k, m - 1);
    }
  }

  // ---------------------------------------------------------------------------------------------
  // L*D*L' = A
  // ---------------------------------------------------------------------------------------------

  function ProductTerm(l: (nat, nat) -> real, d: nat -> real, i: nat, k: nat): nat -> real {
    (j: nat) => l(i, j) * d(j) * l(k, j)
  }

  /** l is unit lower triangular on the leading n x n block. */
  ghost predicate UnitLower(n: nat, l: (nat, nat) -> real) {
    forall i: nat, j: nat :: i < n && j < n && i <= j ==> l(i, j) == if i == j then 1.0 else 0.0
  }

  /** l*d*l' agrees with the symmetric matrix a on the leading n x n block. */
  ghost predicate Factors(a: Upper, n: nat, l: (nat, nat) -> real, d: nat -> real) {
    forall i: nat, k: nat :: i < n && k < n ==> Sum(n, ProductTerm(l, d, i, k)) == Symmetric(a, i, k)
  }

  function LOf(a: Upper): (nat, nat) -> real {
    (k: nat, i: nat) => L(a, k, i)
  }

  function DOf(a: Upper): nat -> real {
    (i: nat) => D(a, i)
  }

  lemma {:induction false} ComputedUnitLower(a: Upper, n: nat)
    ensures UnitLower(n, LOf(a))
  {
  }

  /**
   * The factors reproduce the matrix on every leading block whose pivots, the last one excepted,
   * are nonzero.
   */
  lemma {:induction false} FactorsExist(a: Upper, n: nat)
    requires forall j: nat :: j + 1 < n ==> D(a, j) != 0.0
    ensures UnitLower(n, LOf(a)) && Factors(a, n, LOf(a), DOf(a))
  {
    forall i: nat, k: nat | i < n && k < n
      ensures Sum(n, ProductTerm(LOf(a), DOf(a), i, k)) == Symmetric(a, i, k)
    {
      if i <= k {
        EntryOfProduct(a, n, i, k);
      } else {
        EntryOfProduct(a, n, k, i);
        SumEqual(n, ProductTerm(LOf(a), DOf(a), i, k), ProductTerm(LOf(a), DOf(a), k, i));
      }
    }
  }

  /** Below a unit diagonal, entry (i, k) of l*d*l' needs only the first i + 1 terms. */
  lemma {:induction false} ProductEntry(n: nat, l: (nat, nat) -> real, d: nat -> real, i: nat, k: nat)
    requires UnitLower(n, l) && i <= k < n
    ensures Sum(n, ProductTerm(l, d, i, k)) == Sum(i, ProductTerm(l, d, i, k)) + d(i) * l(k, i)
  {
    SumTruncate(i + 1, n, ProductTerm(l, d, i, k));
  }

  lemma {:induction false} TermIsElimination(a: Upper, i: nat, k: nat, j: nat)
    requires j < i <= k && D(a, j) != 0.0
    ensures ProductTerm(LOf(a), DOf(a), i, k)(j) == EliminationTerm(a, i, k)(j)
  {
    var x, y, z, u := L(a, i, j), D(a, j), L(a, k, j), U(a, j, k);
    ScaledRow(a, j, k);
    Regroup(x, y, z);
    assert ProductTerm(LOf(a), DOf(a), i, k)(j) == x * y * z;
    assert y * z == u;
    SameProducts(y * z, x, u, x);
    assert EliminationTerm(a, i, k)(j) == x * u;
  }

  lemma {:induction false} EntryOfProduct(a: Upper, n: nat, i: nat, k: nat)
    requires i <= k < n
    requires forall j: nat :: j + 1 < n ==> D(a, j) != 0.0
    ensures Sum(n, ProductTerm(LOf(a), DOf(a), i, k)) == a(i, k)
  {
    ComputedUnitLower(a, n);
    ProductEntry(n, LOf(a), DOf(a), i, k);
    ScaledRow(a, i, k);
    EliminatedIsSum(a, i, i, k);
    forall j: nat | j < i
      ensures ProductTerm(LOf(a), DOf(a), i, k)(j) == EliminationTerm(a, i, k)(j)
    {
      TermIsElimination(a, i, k, j);
    }
    SumEqual(i, ProductTerm(LOf(a), DOf(a), i, k), EliminationTerm(a, i, k));
  }

  lemma {:induction false} Regroup(x: real, y: real, z: real)
    ensures x * y * z == x * (y * z)
  {
  }

  lemma {:induction false} ScaledRow(a: Upper, j: nat, k: nat)
    requires j < k ==> D(a, j) != 0.0
    requires j <= k
    ensures D(a, j) * L(a, k, j) == U(a, j, k)
  {
  }

  /** Two matrices with the same upper triangle have the same factorizations. */
  ghost predicate SameUpper(a: Upper, b: Upper, n: nat) {
    forall i: nat, k: nat :: i <= k < n ==> a(i, k) == b(i, k)
  }

  lemma {:induction false} SameFactors(a: Upper, b: Upper, n: nat, l: (nat, nat) -> real, d: nat -> real)
    requires SameUpper(a, b, n)
    ensures Factors(a, n, l, d) <==> Factors(b, n, l, d)
  {
    assert forall i: nat, k: nat :: i < n && k < n ==> Symmetric(a, i, k) == Symmetric(b, i, k);
  }

  lemma {:induction false} SameFactorable(a: Upper, b: Upper, n: nat)
    requires SameUpper(a, b, n)
    ensures Factorable(a, n) <==> Factorable(b, n)
  {
    forall l: (nat, nat) -> real, d: nat -> real
      ensures Factors(a, n, l, d) <==> Factors(b, n, l, d)
    {
      SameFactors(a, b, n, l, d);
    }
  }

  /** A factorization with nonzero pivots is the one elimination computes. */
  lemma {:induction false} FactorsUnique(a: Upper, n: nat, l: (nat, nat) -> real, d: nat -> real)
    requires UnitLower(n, l) && Factors(a, n, l, d)
    requires forall j: nat :: j < n ==> d(j) != 0.0
    ensures forall j: nat :: j < n ==> D(a, j) == d(j)
    ensures forall k: nat, j: nat :: j < n && k < n ==> L(a, k, j) == l(k, j)
  {
    forall j: nat, k: nat | j <= k < n
      ensures U(a, j, k) == d(j) * l(k, j)
    {
      RowUnique(a, n, l, d, j, k);
    }
  }

  lemma {:induction false} RowUnique(a: Upper, n: nat, l: (nat, nat) -> real, d: nat -> real, i: nat, k: nat)
    requires UnitLower(n, l) && Factors(a, n, l, d)
    requires forall j: nat :: j < n ==> d(j) != 0.0
    requires i <= k < n
    ensures U(a, i, k) == d(i) * l(k, i)
    decreases i
  {
    ProductEntry(n, l, d, i, k);
    EliminatedIsSum(a, i, i, k);
    forall j: nat | j < i
      ensures ProductTerm(l, d, i, k)(j) == EliminationTerm(a, i, k)(j)
    {
      RowUnique(a, n, l, d, j, j);
      RowUnique(a, n, l, d, j, i);
      RowUnique(a, n, l, d, j, k);
      Regroup(l(i, j), d(j), l(k, j));
    }
    SumEqual(i, ProductTerm(l, d, i, k), EliminationTerm(a, i, k));
  }

  /** The leading n x n block has an L*D*L' factorization with a nonzero diagonal. */
  ghost predicate Factorable(a: Upper, n: nat) {
    exists l: (nat, nat) -> real, d: nat -> real ::
      UnitLower(n, l) && Factors(a, n, l, d) && forall j: nat :: j < n ==> d(j) != 0.0
  }

  /** Elimination meets no zero pivot exactly when there is such a factorization at all. */
  lemma {:induction false} PivotsNonzeroIffFactorable(a: Upper, n: nat)
    ensures Factorable(a, n) <==> forall j: nat :: j < n ==> D(a, j) != 0.0
  {
    if forall j: nat :: j < n ==> D(a, j) != 0.0 {
      FactorsExist(a, n);
      assert UnitLower(n, LOf(a)) && Factors(a, n, LOf(a), DOf(a)) && forall j: nat :: j < n ==> DOf(a)(j) != 0.0;
    }
    if Factorable(a, n) {
      var l: (nat, nat) -> real, d: nat -> real :|
        UnitLower(n, l) && Factors(a, n, l, d) && forall j: nat :: j < n ==> d(j) != 0.0;
      FactorsUnique(a, n, l, d);
    }
  }
}
