// The signed pivot product of the factorization is the determinant, and so are the closed forms.

module LuDeterminant {
  import opened Sums
  import opened Vectors
  import opened Matrices
  import opened Permutations
  import opened LuSteps
  import opened LuSystems
  import opened Determinant

  /** The rows of A in the order piv lists them. */
  function Permuted(A: seq<Vector>, piv: seq<nat>): (rows: seq<Vector>)
    requires forall i: nat :: i < |piv| ==> piv[i] < |A|
    ensures |rows| == |piv| && forall i: nat :: i < |rows| ==> rows[i] == A[piv[i]]
  {
    seq(|piv|, (i: int) requires 0 <= i < |piv| && piv[i] < |A| => A[piv[i]])
  }

  /** The determinants of A and of its permuted rows differ by the recorded sign. */
  ghost predicate SignCounts(A: seq<Vector>, piv: seq<nat>, sign: int)
    requires forall i: nat :: i < |piv| ==> piv[i] < |A|
  {
    Det(Permuted(A, piv)) == sign as real * Det(A)
  }

  lemma {:induction false} SignStart(A: seq<Vector>)
    ensures SignCounts(A, Identity(|A|), 1)
  {
    assert Permuted(A, Identity(|A|)) == A;
  }

  lemma {:induction false} SignExchange(A: seq<Vector>, piv: seq<nat>, sign: int, i: nat, j: nat)
    requires forall k: nat :: k < |piv| ==> piv[k] < |A|
    requires SignCounts(A, piv, sign) && i < j < |piv|
    ensures SignCounts(A, Swapped(piv, i, j), -sign)
  {
    RowExchange(Permuted(A, piv), i, j);
    assert Permuted(A, Swapped(piv, i, j)) == Swapped(Permuted(A, piv), i, j);
  }

  lemma {:induction false} SignSquared(s: real, d: real)
    requires s == 1.0 || s == -1.0
    ensures s * (s * d) == d
  {
  }

  // ---------------------------------------------------------------------------------------------
  // From the permuted rows to the upper factor, one row addition at a time
  // ---------------------------------------------------------------------------------------------

  function URow(lu: seq<seq<real>>, n: nat, k: nat): (row: Vector)
    ensures |row| == n && forall j: nat :: j < n ==> row[j] == UpperOf(lu)(k, j)
  {
    seq(n, (j: nat) => UpperOf(lu)(k, j))
  }

  /** Row i after the first k multiples of upper rows have been subtracted. */
  function RowPart(lu: seq<seq<real>>, n: nat, row: Vector, i: nat, k: nat): (r: Vector)
    requires |row| == n
    ensures |r| == n
  {
    if k == 0 then row else AddScaled(RowPart(lu, n, row, i, k - 1), -LowerOf(lu)(i, k - 1), URow(lu, n, k - 1))
  }

  lemma {:induction false} RowPartEntry(lu: seq<seq<real>>, n: nat, row: Vector, i: nat, k: nat, j: nat)
    requires |row| == n && j < n
    ensures RowPart(lu, n, row, i, k)[j] == row[j] - Sum(k, Term(lu, i, j))
  {
    if k == 0 {
    } else {
      RowPartEntry(lu, n, row, i, k - 1, j);
      assert Term(lu, i, j)(k - 1) == Mul(LowerOf(lu)(i, k - 1), UpperOf(lu)(k - 1, j))
          == LowerOf(lu)(i, k - 1) * URow(lu, n, k - 1)[j];
    }
  }

  /** Subtracting all i of them leaves row i of the upper factor. */
  lemma {:induction false} RowPartIsUpper(A: seq<seq<real>>, piv: seq<nat>, lu: seq<seq<real>>, n: nat, i: nat)
    requires State(A, piv, lu, n, n, n) && i < n
    ensures RowPart(lu, n, A[piv[i]], i, i) == URow(lu, n, i)
  {
    forall j: nat | j < n
      ensures RowPart(lu, n, A[piv[i]], i, i)[j] == URow(lu, n, i)[j]
    {
      RowPartEntry(lu, n, A[piv[i]], i, i, j);
      FullProduct(A, piv, lu, n, n, i, j);
      var f := Term(lu, i, j);
      forall k: nat | i < k < n
        ensures f(k) == 0.0
      {
        assert LowerOf(lu)(i, k) == 0.0 && Mul(0.0, UpperOf(lu)(k, j)) == 0.0;
      }
      SumTruncate(i + 1, n, f);
      assert LowerOf(lu)(i, i) == 1.0 && Mul(1.0, UpperOf(lu)(i, j)) == UpperOf(lu)(i, j);
    }
  }

  /** Upper rows before i, permuted rows of A from i on. */
  function Mixed(A: seq<Vector>, piv: seq<nat>, lu: seq<seq<real>>, n: nat, i: nat): (rows: seq<Vector>)
    requires |piv| == n && forall k: nat :: k < n ==> piv[k] < |A|
    ensures |rows| == n && forall k: nat :: k < n ==> rows[k] == if k < i then URow(lu, n, k) else A[piv[k]]
  {
    seq(n, (k: int) requires 0 <= k < n && |piv| == n && piv[k] < |A| =>
      if k < i then URow(lu, n, k) else A[piv[k]])
  }

  /** Subtracting multiples of the upper rows above it from a row leaves the determinant. */
  lemma {:induction false} RowPartKeepsDet(lu: seq<seq<real>>, n: nat, rows: seq<Vector>, i: nat, k: nat)
    requires k <= i < n == |rows| && |rows[i]| == n && forall r: nat :: r < i ==> rows[r] == URow(lu, n, r)
    ensures Det(rows[i := RowPart(lu, n, rows[i], i, k)]) == Det(rows)
  {
    if k == 0 {
      assert rows[i := rows[i]] == rows;
    } else {
      RowPartKeepsDet(lu, n, rows, i, k - 1);
      PartAdded(rows, i, k - 1, RowPart(lu, n, rows[i], i, k - 1), -LowerOf(lu)(i, k - 1),
                RowPart(lu, n, rows[i], i, k));
    }
  }

  lemma {:induction false} PartAdded(rows: seq<Vector>, i: nat, k: nat, part: Vector, c: real, next: Vector)
    requires k < i < |rows| && |part| == |rows[k]| && next == AddScaled(part, c, rows[k])
    ensures Det(rows[i := next]) == Det(rows[i := part])
  {
    var now := rows[i := part];
    RowAddition(now, i, c, k);
    assert now[i := next] == rows[i := next];
  }

  lemma {:induction false} MixedNext(A: seq<seq<real>>, piv: seq<nat>, lu: seq<seq<real>>, n: nat, k: nat)
    requires |piv| == n && (forall i: nat :: i < n ==> piv[i] < |A|) && k < n
    ensures Mixed(A, piv, lu, n, k + 1) == Mixed(A, piv, lu, n, k)[k := URow(lu, n, k)]
  {
  }

  lemma {:induction false} MixedSame(A: seq<seq<real>>, piv: seq<nat>, lu: seq<seq<real>>, n: nat, i: nat)
    requires State(A, piv, lu, n, n, n) && i <= n
    ensures Det(Mixed(A, piv, lu, n, i)) == Det(Permuted(A, piv))
  {
    if i == 0 {
      assert Mixed(A, piv, lu, n, 0) == Permuted(A, piv);
    } else {
      var k := i - 1;
      MixedSame(A, piv, lu, n, k);
      RowPartKeepsDet(lu, n, Mixed(A, piv, lu, n, k), k, k);
      RowPartIsUpper(A, piv, lu, n, k);
      MixedNext(A, piv, lu, n, k);
    }
  }

  lemma {:induction false} SameDiagonal(rows: seq<Vector>, lu: seq<seq<real>>, m: nat)
    requires forall j: nat :: j < m ==> Entry(rows, j, j) == Entry(lu, j, j)
    ensures DiagonalProduct(rows, m) == DiagonalProduct(lu, m)
  {
    if m == 0 {
    } else {
      SameDiagonal(rows, lu, m - 1);
    }
  }

  /** The permuted matrix has the product of the pivots as its determinant. */
  lemma {:induction false} PivotProduct(A: seq<seq<real>>, piv: seq<nat>, lu: seq<seq<real>>, n: nat)
    requires State(A, piv, lu, n, n, n)
    ensures Det(Permuted(A, piv)) == DiagonalProduct(lu, n)
  {
    MixedSame(A, piv, lu, n, n);
    var rows := Mixed(A, piv, lu, n, n);
    UpperDet(rows);
    SameDiagonal(rows, lu, n);
  }

  // ---------------------------------------------------------------------------------------------
  // Closed forms
  // ---------------------------------------------------------------------------------------------

  function Det2(M: seq<Vector>): real {
    Entry(M, 0, 0) * Entry(M, 1, 1) - Entry(M, 0, 1) * Entry(M, 1, 0)
  }

  function Det3(M: seq<Vector>): real {
    Entry(M, 0, 0) * Entry(M, 1, 1) * Entry(M, 2, 2)
    - Entry(M, 0, 0) * Entry(M, 1, 2) * Entry(M, 2, 1)
    - Entry(M, 1, 0) * Entry(M, 0, 1) * Entry(M, 2, 2)
    + Entry(M, 1, 0) * Entry(M, 0, 2) * Entry(M, 2, 1)
    + Entry(M, 2, 0) * Entry(M, 0, 1) * Entry(M, 1, 2)
    - Entry(M, 2, 0) * Entry(M, 0, 2) * Entry(M, 1, 1)
  }

  function Det4(M: seq<Vector>): real {
    Entry(M, 0, 0) * Entry(M, 1, 1) * Entry(M, 2, 2) * Entry(M, 3, 3)
    - Entry(M, 0, 0) * Entry(M, 1, 1) * Entry(M, 2, 3) * Entry(M, 3, 2)
    - Entry(M, 0, 0) * Entry(M, 2, 1) * Entry(M, 1, 2) * Entry(M, 3, 3)
    + Entry(M, 0, 0) * Entry(M, 2, 1) * Entry(M, 1, 3) * Entry(M, 3, 2)
    + Entry(M, 0, 0) * Entry(M, 3, 1) * Entry(M, 1, 2) * Entry(M, 2, 3)
    - Entry(M, 0, 0) * Entry(M, 3, 1) * Entry(M, 1, 3) * Entry(M, 2, 2)
    - Entry(M, 1, 0) * Entry(M, 0, 1) * Entry(M, 2, 2) * Entry(M, 3, 3)
    + Entry(M, 1, 0) * Entry(M, 0, 1) * Entry(M, 2, 3) * Entry(M, 3, 2)
    + Entry(M, 1, 0) * Entry(M, 2, 1) * Entry(M, 0, 2) * Entry(M, 3, 3)
    - Entry(M, 1, 0) * Entry(M, 2, 1) * Entry(M, 0, 3) * Entry(M, 3, 2)
    - Entry(M, 1, 0) * Entry(M, 3, 1) * Entry(M, 0, 2) * Entry(M, 2, 3)
    + Entry(M, 1, 0) * Entry(M, 3, 1) * Entry(M, 0, 3) * Entry(M, 2, 2)
    + Entry(M, 2, 0) * Entry(M, 0, 1) * Entry(M, 1, 2) * Entry(M, 3, 3)
    - Entry(M, 2, 0) * Entry(M, 0, 1) * Entry(M, 1, 3) * Entry(M, 3, 2)
    - Entry(M, 2, 0) * Entry(M, 1, 1) * Entry(M, 0, 2) * Entry(M, 3, 3)
    + Entry(M, 2, 0) * Entry(M, 1, 1) * Entry(M, 0, 3) * Entry(M, 3, 2)
    + Entry(M, 2, 0) * Entry(M, 3, 1) * Entry(M, 0, 2) * Entry(M, 1, 3)
    - Entry(M, 2, 0) * Entry(M, 3, 1) * Entry(M, 0, 3) * Entry(M, 1, 2)
    - Entry(M, 3, 0) * Entry(M, 0, 1) * Entry(M, 1, 2) * Entry(M, 2, 3)
    + Entry(M, 3, 0) * Entry(M, 0, 1) * Entry(M, 1, 3) * Entry(M, 2, 2)
    + Entry(M, 3, 0) * Entry(M, 1, 1) * Entry(M, 0, 2) * Entry(M, 2, 3)
    - Entry(M, 3, 0) * Entry(M, 1, 1) * Entry(M, 0, 3) * Entry(M, 2, 2)
    - Entry(M, 3, 0) * Entry(M, 2, 1) * Entry(M, 0, 2) * Entry(M, 1, 3)
    + Entry(M, 3, 0) * Entry(M, 2, 1) * Entry(M, 0, 3) * Entry(M, 1, 2)
  }

  /** The determinant by cofactors of the first column, spelled out for its size. */
  lemma {:induction false} FirstColumn(M: seq<Vector>)
    ensures |M| == 1 ==> Det(M) == Entry(M, 0, 0) * Det(Minor(M, 0))
    ensures |M| == 2 ==> Det(M) == Entry(M, 0, 0) * Det(Minor(M, 0)) - Entry(M, 1, 0) * Det(Minor(M, 1))
    ensures |M| == 3 ==> Det(M) == Entry(M, 0, 0) * Det(Minor(M, 0)) - Entry(M, 1, 0) * Det(Minor(M, 1))
                                 + Entry(M, 2, 0) * Det(Minor(M, 2))
    ensures |M| == 4 ==> Det(M) == Entry(M, 0, 0) * Det(Minor(M, 0)) - Entry(M, 1, 0) * Det(Minor(M, 1))
                                 + Entry(M, 2, 0) * Det(Minor(M, 2)) - Entry(M, 3, 0) * Det(Minor(M, 3))
  {
    forall i: nat | i < |M|
      ensures Cofactor(M, i)
        == if i % 2 == 0 then Entry(M, i, 0) * Det(Minor(M, i)) else -(Entry(M, i, 0) * Det(Minor(M, i)))
    {
      assert First(M[i]) == Entry(M, i, 0);
      SignedFactor(Entry(M, i, 0), Det(Minor(M, i)));
    }
    assert |M| >= 1 ==> DetSum(M, 1) == DetSum(M, 0) + Cofactor(M, 0);
    assert |M| >= 2 ==> DetSum(M, 2) == DetSum(M, 1) + Cofactor(M, 1);
    assert |M| >= 3 ==> DetSum(M, 3) == DetSum(M, 2) + Cofactor(M, 2);
    assert |M| >= 4 ==> DetSum(M, 4) == DetSum(M, 3) + Cofactor(M, 3);
  }

  lemma {:induction false} SignedFactor(x: real, d: real)
    ensures Mul(1.0, Mul(x, d)) == x * d && Mul(-1.0, Mul(x, d)) == -(x * d)
  {
  }

  lemma {:induction false} MinorEntries(M: seq<Vector>, i: nat)
    requires i < |M|
    ensures forall r: nat, c: nat :: r < |M| - 1 ==>
      Entry(Minor(M, i), r, c) == Entry(M, if r < i then r else r + 1, c + 1)
  {
  }

  /** The 1x1 and 2x2 closed forms. */
  lemma {:induction false} ClosedForm2(M: seq<Vector>)
    ensures |M| == 1 ==> Det(M) == Entry(M, 0, 0)
    ensures |M| == 2 ==> Det(M) == Det2(M)
  {
    FirstColumn(M);
    forall i: nat | i < |M|
      ensures |M| == 2 ==> Det(Minor(M, i)) == Entry(M, 1 - i, 1)
    {
      FirstColumn(Minor(M, i));
      MinorEntries(M, i);
      assert |M| == 2 ==> Det(Minor(Minor(M, i), 0)) == 1.0;
    }
    if |M| == 1 {
      assert Det(Minor(M, 0)) == 1.0;
    }
  }

  lemma {:induction false} ClosedForm3(M: seq<Vector>)
    requires |M| == 3
    ensures Det(M) == Det3(M)
  {
    FirstColumn(M);
    var m0, m1, m2 := Minor(M, 0), Minor(M, 1), Minor(M, 2);
    ClosedForm2(m0);
    ClosedForm2(m1);
    ClosedForm2(m2);
    MinorEntries(M, 0);
    MinorEntries(M, 1);
    MinorEntries(M, 2);
    Algebra3(Entry(M, 0, 0), Entry(M, 1, 0), Entry(M, 2, 0), Entry(M, 0, 1), Entry(M, 1, 1), Entry(M, 2, 1),
             Entry(M, 0, 2), Entry(M, 1, 2), Entry(M, 2, 2), Det(m0), Det(m1), Det(m2));
  }

  lemma {:induction false} Algebra3(a0: real, a1: real, a2: real, b0: real, b1: real, b2: real, c0: real, c1: real,
    c2: real, d0: real, d1: real, d2: real)
    requires d0 == b1 * c2 - c1 * b2 && d1 == b0 * c2 - c0 * b2 && d2 == b0 * c1 - c0 * b1
    ensures a0 * d0 - a1 * d1 + a2 * d2
         == a0 * b1 * c2 - a0 * c1 * b2 - a1 * b0 * c2 + a1 * c0 * b2 + a2 * b0 * c1 - a2 * c0 * b1
  {
  }

  lemma {:induction false} ClosedForm4(M: seq<Vector>)
    requires |M| == 4
    ensures Det(M) == Det4(M)
  {
    FirstColumn(M);
    forall i: nat | i < 4
      ensures Entry(M, i, 0) * Det(Minor(M, i))
        == Spread(M, i, if i < 1 then 1 else 0, if i < 2 then 2 else 1, if i < 3 then 3 else 2)
    {
      RowSpread(M, i, if i < 1 then 1 else 0, if i < 2 then 2 else 1, if i < 3 then 3 else 2);
    }
  }

  /** One row's share of the 4x4 closed form: the other rows are p, q and r. */
  function Spread(M: seq<Vector>, i: nat, p: nat, q: nat, r: nat): real {
    Entry(M, i, 0) * Entry(M, p, 1) * Entry(M, q, 2) * Entry(M, r, 3)
    - Entry(M, i, 0) * Entry(M, p, 1) * Entry(M, q, 3) * Entry(M, r, 2)
    - Entry(M, i, 0) * Entry(M, q, 1) * Entry(M, p, 2) * Entry(M, r, 3)
    + Entry(M, i, 0) * Entry(M, q, 1) * Entry(M, p, 3) * Entry(M, r, 2)
    + Entry(M, i, 0) * Entry(M, r, 1) * Entry(M, p, 2) * Entry(M, q, 3)
    - Entry(M, i, 0) * Entry(M, r, 1) * Entry(M, p, 3) * Entry(M, q, 2)
  }

  lemma {:induction false} RowSpread(M: seq<Vector>, i: nat, p: nat, q: nat, r: nat)
    requires |M| == 4 && i < 4
    requires p == (if i < 1 then 1 else 0) && q == (if i < 2 then 2 else 1) && r == (if i < 3 then 3 else 2)
    ensures Entry(M, i, 0) * Det(Minor(M, i)) == Spread(M, i, p, q, r)
  {
    ClosedForm3(Minor(M, i));
    MinorEntries(M, i);
    Algebra4(Entry(M, i, 0), Entry(M, p, 1), Entry(M, q, 1), Entry(M, r, 1),
             Entry(M, p, 2), Entry(M, q, 2), Entry(M, r, 2),
             Entry(M, p, 3), Entry(M, q, 3), Entry(M, r, 3), Det(Minor(M, i)));
  }

  lemma {:induction false} Algebra4(a: real, bp: real, bq: real, br: real, cp: real, cq: real, cr: real,
                                    dp: real, dq: real, dr: real, det: real)
    requires det == bp * cq * dr - bp * dq * cr - bq * cp * dr + bq * dp * cr + br * cp * dq - br * dp * cq
    ensures a * det == a * bp * cq * dr - a * bp * dq * cr - a * bq * cp * dr + a * bq * dp * cr + a * br * cp * dq
                       - a * br * dp * cq
  {
  }
}
