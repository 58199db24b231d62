// The determinant by expansion along the first column, and how row operations change it.

module Determinant {
  import opened Sums
  import opened Vectors
  import opened Matrices
  import opened Permutations

  function Tail(row: Vector): Vector {
    if row == [] then [] else row[1..]
  }

  function First(row: Vector): real {
    if row == [] then 0.0 else row[0]
  }

  /** The rows without row i and without the first column. */
  function Minor(rows: seq<Vector>, i: nat): (r: seq<Vector>)
    requires i < |rows|
    ensures |r| == |rows| - 1
    ensures forall k: nat :: k < |r| ==> r[k] == Tail(rows[if k < i then k else k + 1])
  {
    seq(|rows| - 1, (k: int) requires 0 <= k < |rows| - 1 => Tail(rows[if k < i then k else k + 1]))
  }

  function Alternating(i: nat): real {
    if i % 2 == 0 then 1.0 else -1.0
  }

  function Det(rows: seq<Vector>): real
    decreases |rows|, |rows| + 1
  {
    if |rows| == 0 then 1.0 else DetSum(rows, |rows|)
  }

  /** The first m terms of the expansion along the first column. */
  function DetSum(rows: seq<Vector>, m: nat): real
    requires m <= |rows|
    decreases |rows|, m
  {
    if m == 0 then 0.0 else DetSum(rows, m - 1) + Cofactor(rows, m - 1)
  }

  function Cofactor(rows: seq<Vector>, i: nat): real
    requires i < |rows|
    decreases |rows|, 0
  {
    Mul(Alternating(i), Mul(First(rows[i]), Det(Minor(rows, i))))
  }

  function CofactorTerm(rows: seq<Vector>): nat -> real {
    (i: nat) => if i < |rows| then Cofactor(rows, i) else 0.0
  }

  lemma {:induction false} DetIsSum(rows: seq<Vector>, m: nat)
    requires m <= |rows|
    ensures DetSum(rows, m) == Sum(m, CofactorTerm(rows))
  {
    if m == 0 {
    } else {
      DetIsSum(rows, m - 1);
    }
  }

  // ---------------------------------------------------------------------------------------------
  // Exchanging rows
  // ---------------------------------------------------------------------------------------------

  /** f takes its values at r and r + 1 from g exchanged. */
  lemma {:induction false} SumExchange(n: nat, r: nat, f: nat -> real, g: nat -> real)
    requires r + 1 < n && f(r) == g(r + 1) && f(r + 1) == g(r)
    requires forall i: nat :: i < n && i != r && i != r + 1 ==> f(i) == g(i)
    ensures Sum(n, f) == Sum(n, g)
  {
    var h := (i: nat) => if i == r then f(i) else g(i);
    SumUpdate(n, r, g, h);
    SumUpdate(n, r + 1, h, f);
  }

  lemma {:induction false} NeighbourExchange(rows: seq<Vector>, r: nat)
    requires r + 1 < |rows|
    ensures Det(Swapped(rows, r, r + 1)) == -Det(rows)
    decreases |rows|, 1
  {
    var n, swapped := |rows|, Swapped(rows, r, r + 1);
    var f, h := CofactorTerm(swapped), CofactorTerm(rows);
    var g := (i: nat) => -h(i);
    DetIsSum(rows, n);
    DetIsSum(swapped, n);
    forall i: nat | i < n
      ensures f(i) == g(if i == r then r + 1 else if i == r + 1 then r else i)
    {
      ExchangedCofactor(rows, r, i);
    }
    SumExchange(n, r, f, g);
    SumNegated(n, h, g);
  }

  lemma {:induction false} SumNegated(n: nat, f: nat -> real, g: nat -> real)
    requires forall i: nat :: i < n ==> g(i) == -f(i)
    ensures Sum(n, g) == -Sum(n, f)
  {
    if n == 0 {
    } else {
      SumNegated(n - 1, f, g);
    }
  }

  lemma {:induction false} ExchangedCofactor(rows: seq<Vector>, r: nat, i: nat)
    requires r + 1 < |rows| && i < |rows|
    ensures Cofactor(Swapped(rows, r, r + 1), i)
         == -Cofactor(rows, if i == r then r + 1 else if i == r + 1 then r else i)
    decreases |rows|, 0, 1
  {
    var swapped := Swapped(rows, r, r + 1);
    AlternatingFlips(r);
    if i == r {
      assert Minor(swapped, r) == Minor(rows, r + 1);
      NegateFirst(Alternating(r + 1), Alternating(r), Mul(First(rows[r + 1]), Det(Minor(rows, r + 1))));
    } else if i == r + 1 {
      assert Minor(swapped, r + 1) == Minor(rows, r);
      NegateFirst(Alternating(r), Alternating(r + 1), Mul(First(rows[r]), Det(Minor(rows, r))));
    } else {
      ExchangedOther(rows, r, i);
    }
  }

  lemma {:induction false} ExchangedOther(rows: seq<Vector>, r: nat, i: nat)
    requires r + 1 < |rows| && i < |rows| && i != r && i != r + 1
    ensures Cofactor(Swapped(rows, r, r + 1), i) == -Cofactor(rows, i)
    decreases |rows|, 0, 0
  {
    var q, swapped := if i < r then r - 1 else r, Swapped(rows, r, r + 1);
    assert Minor(swapped, i) == Swapped(Minor(rows, i), q, q + 1);
    NeighbourExchange(Minor(rows, i), q);
    NegateSecond(Alternating(i), First(rows[i]), Det(Minor(rows, i)), Det(Minor(swapped, i)));
  }

  lemma {:induction false} AlternatingFlips(r: nat)
    ensures Alternating(r + 1) == -Alternating(r)
  {
  }

  lemma {:induction false} NegateFirst(x: real, y: real, d: real)
    requires y == -x
    ensures Mul(y, d) == -Mul(x, d)
  {
  }

  lemma {:induction false} NegateSecond(s: real, x: real, y: real, z: real)
    requires z == -y
    ensures Mul(s, Mul(x, z)) == -Mul(s, Mul(x, y))
  {
    assert Mul(x, z) == -Mul(x, y);
  }

  /** Exchanging two rows changes the sign. */
  lemma {:induction false} RowExchange(rows: seq<Vector>, i: nat, j: nat)
    requires i < j < |rows|
    ensures Det(Swapped(rows, i, j)) == -Det(rows)
    decreases j - i
  {
    NeighbourExchange(rows, i);
    if j > i + 1 {
      var s1 := Swapped(rows, i, i + 1);
      var s2 := Swapped(s1, i + 1, j);
      RowExchange(s1, i + 1, j);
      NeighbourExchange(s2, i);
      assert Swapped(s2, i, i + 1) == Swapped(rows, i, j);
    }
  }

  lemma {:induction false} EqualRows(rows: seq<Vector>, i: nat, j: nat)
    requires i < |rows| && j < |rows| && i != j && rows[i] == rows[j]
    ensures Det(rows) == 0.0
  {
    var a, b := if i < j then i else j, if i < j then j else i;
    RowExchange(rows, a, b);
    assert Swapped(rows, a, b) == rows;
  }

  // ---------------------------------------------------------------------------------------------
  // Adding a multiple of a row
  // ---------------------------------------------------------------------------------------------

  /** The determinant is linear in each row. */
  lemma {:induction false} RowLinear(rows: seq<Vector>, k: nat, a: Vector, c: real, b: Vector)
    requires k < |rows| && |a| == |b|
    ensures Det(rows[k := AddScaled(a, c, b)]) == Det(rows[k := a]) + Mul(c, Det(rows[k := b]))
    decreases |rows|, 1
  {
    var n, whole, left, right := |rows|, rows[k := AddScaled(a, c, b)], rows[k := a], rows[k := b];
    DetIsSum(whole, n);
    DetIsSum(left, n);
    DetIsSum(right, n);
    var f, g, h := CofactorTerm(left), CofactorTerm(right), CofactorTerm(whole);
    forall i: nat | i < n
      ensures h(i) == f(i) + Mul(c, g(i))
    {
      LinearCofactor(rows, k, a, c, b, i);
    }
    SumPlusScaled(n, f, c, g, h);
  }

  lemma {:induction false} LinearCofactor(rows: seq<Vector>, k: nat, a: Vector, c: real, b: Vector, i: nat)
    requires k < |rows| && |a| == |b| && i < |rows|
    ensures Cofactor(rows[k := AddScaled(a, c, b)], i) == Cofactor(rows[k := a], i) + Mul(c, Cofactor(rows[k := b], i))
    decreases |rows|, 0
  {
    var whole, left, right := rows[k := AddScaled(a, c, b)], rows[k := a], rows[k := b];
    if i == k {
      assert Minor(whole, k) == Minor(rows, k) && Minor(left, k) == Minor(rows, k) && Minor(right, k) == Minor(rows, k);
      FirstLinear(a, c, b);
      LinearInFirst(Alternating(k), First(a), c, First(b), First(whole[k]), Det(Minor(rows, k)));
    } else {
      var q := if k < i then k else k - 1;
      var minor := Minor(rows, i);
      TailLinear(a, c, b);
      assert Minor(whole, i) == minor[q := AddScaled(Tail(a), c, Tail(b))];
      assert Minor(left, i) == minor[q := Tail(a)] && Minor(right, i) == minor[q := Tail(b)];
      RowLinear(minor, q, Tail(a), c, Tail(b));
      LinearInSecond(Alternating(i), First(rows[i]), Det(Minor(left, i)), c, Det(Minor(right, i)),
                     Det(Minor(whole, i)));
    }
  }

  lemma {:induction false} FirstLinear(a: Vector, c: real, b: Vector)
    requires |a| == |b|
    ensures First(AddScaled(a, c, b)) == First(a) + Mul(c, First(b))
  {
  }

  lemma {:induction false} TailLinear(a: Vector, c: real, b: Vector)
    requires |a| == |b|
    ensures |Tail(a)| == |Tail(b)| && Tail(AddScaled(a, c, b)) == AddScaled(Tail(a), c, Tail(b))
  {
    var t, u := Tail(AddScaled(a, c, b)), AddScaled(Tail(a), c, Tail(b));
    assert forall i: nat :: i < |u| ==> t[i] == u[i];
  }

  lemma {:induction false} LinearInFirst(s: real, x: real, c: real, y: real, z: real, d: real)
    requires z == x + Mul(c, y)
    ensures Mul(s, Mul(z, d)) == Mul(s, Mul(x, d)) + Mul(c, Mul(s, Mul(y, d)))
  {
    assert Mul(z, d) == x * d + (c * y) * d;
  }

  lemma {:induction false} LinearInSecond(s: real, x: real, d: real, c: real, e: real, z: real)
    requires z == d + Mul(c, e)
    ensures Mul(s, Mul(x, z)) == Mul(s, Mul(x, d)) + Mul(c, Mul(s, Mul(x, e)))
  {
    assert Mul(x, z) == x * d + x * (c * e);
  }

  /** Adding a multiple of another row changes nothing. */
  lemma {:induction false} RowAddition(rows: seq<Vector>, k: nat, c: real, j: nat)
    requires k < |rows| && j < |rows| && j != k && |rows[j]| == |rows[k]|
    ensures Det(rows[k := AddScaled(rows[k], c, rows[j])]) == Det(rows)
  {
    RowLinear(rows, k, rows[k], c, rows[j]);
    EqualRows(rows[k := rows[j]], k, j);
    assert rows[k := rows[k]] == rows;
  }

  // ---------------------------------------------------------------------------------------------
  // Triangular matrices
  // ---------------------------------------------------------------------------------------------

  function DiagonalProduct(rows: seq<Vector>, m: nat): real {
    if m == 0 then 1.0 else DiagonalProduct(rows, m - 1) * Entry(rows, m - 1, m - 1)
  }

  ghost predicate Upper(rows: seq<Vector>) {
    forall i: nat, j: nat :: j < i < |rows| ==> Entry(rows, i, j) == 0.0
  }

  lemma {:induction false} DiagonalTail(rows: seq<Vector>, m: nat)
    requires m < |rows|
    ensures DiagonalProduct(rows, m + 1) == Mul(Entry(rows, 0, 0), DiagonalProduct(Minor(rows, 0), m))
  {
    if m == 0 {
    } else {
      DiagonalTail(rows, m - 1);
      assert Entry(Minor(rows, 0), m - 1, m - 1) == Entry(rows, m, m);
    }
  }

  /** An upper triangular determinant is the product of the diagonal. */
  lemma {:induction false} UpperDet(rows: seq<Vector>)
    requires Upper(rows)
    ensures Det(rows) == DiagonalProduct(rows, |rows|)
    decreases |rows|
  {
    var n := |rows|;
    if n > 0 {
      DetIsSum(rows, n);
      var minor := Minor(rows, 0);
      forall i: nat | 0 < i < n
        ensures CofactorTerm(rows)(i) == 0.0
      {
        ZeroCofactor(rows, i);
      }
      SumPoint(n, 0, CofactorTerm(rows));
      UpperMinor(rows);
      UpperDet(minor);
      DiagonalTail(rows, n - 1);
      assert First(rows[0]) == Entry(rows, 0, 0);
      UnitFactor(First(rows[0]), Det(minor));
    }
  }

  lemma {:induction false} UnitFactor(x: real, d: real)
    ensures Mul(1.0, Mul(x, d)) == Mul(x, d)
  {
  }

  lemma {:induction false} ZeroCofactor(rows: seq<Vector>, i: nat)
    requires i < |rows| && Entry(rows, i, 0) == 0.0
    ensures Cofactor(rows, i) == 0.0
  {
    assert First(rows[i]) == 0.0;
  }

  lemma {:induction false} UpperMinor(rows: seq<Vector>)
    requires |rows| > 0 && Upper(rows)
    ensures Upper(Minor(rows, 0))
  {
    var minor := Minor(rows, 0);
    assert forall i: nat, j: nat :: j < i < |minor| ==> Entry(minor, i, j) == Entry(rows, i + 1, j + 1);
  }
}
