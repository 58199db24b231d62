// Finite sums of reals, the arithmetic every numerical kernel in this project is stated with.

module Sums {

  function Sum(n: nat, f: nat -> real): real {
    if n == 0 then 0.0 else Sum(n - 1, f) + f(n - 1)
  }

  /** A product by name, so that the sign of a square stays visible as the sign of a term. */
  function Mul(x: real, y: real): real {
    x * y
  }

  lemma {:induction false} SameProducts(x: real, y: real, z: real, w: real)
    requires x == z && y == w
    ensures x * y == z * w
  {
  }

  lemma {:induction false} ProductPositive(x: real, y: real)
    requires x > 0.0 && y > 0.0
    ensures Mul(x, y) > 0.0 && x * y > 0.0
  {
  }

  lemma {:induction false} NegativeProduct(x: real, y: real)
    requires x < 0.0 && y < 0.0
    ensures Mul(x, y) > 0.0
  {
  }

  lemma {:induction false} Square(x: real)
    ensures Mul(x, x) >= 0.0 && (x != 0.0 ==> Mul(x, x) > 0.0)
  {
    if x > 0.0 {
      ProductPositive(x, x);
    } else if x < 0.0 {
      NegativeProduct(x, x);
    }
  }

  /** h is pointwise a linear combination of f and g, so its sum is the combination of the sums. */
  lemma {:induction false} SumLinear(n: nat, a: real, f: nat -> real, b: real, g: nat -> real, h: nat -> real)
    requires forall j: nat :: j < n ==> h(j) == a * f(j) + b * g(j)
    ensures Sum(n, h) == a * Sum(n, f) + b * Sum(n, g)
  {
    if n == 0 {
    } else {
      SumLinear(n - 1, a, f, b, g, h);
      var s, t, x, y := Sum(n - 1, f), Sum(n - 1, g), f(n - 1), g(n - 1);
      assert a * (s + x) + b * (t + y) == (a * s + b * t) + (a * x + b * y);
    }
  }

  lemma {:induction false} SumPlusScaled(n: nat, f: nat -> real, c: real, g: nat -> real, h: nat -> real)
    requires forall j: nat :: j < n ==> h(j) == f(j) + Mul(c, g(j))
    ensures Sum(n, h) == Sum(n, f) + Mul(c, Sum(n, g))
  {
    if n == 0 {
    } else {
      SumPlusScaled(n - 1, f, c, g, h);
    }
  }

  lemma {:induction false} SumEqual(n: nat, f: nat -> real, g: nat -> real)
    requires forall j: nat :: j < n ==> f(j) == g(j)
    ensures Sum(n, f) == Sum(n, g)
  {
    if n == 0 {
    } else {
      SumEqual(n - 1, f, g);
    }
  }

  lemma {:induction false} SumZero(n: nat, f: nat -> real)
    requires forall j: nat :: j < n ==> f(j) == 0.0
    ensures Sum(n, f) == 0.0
  {
    if n == 0 {
    } else {
      SumZero(n - 1, f);
    }
  }

  /** Terms past m vanish. */
  lemma {:induction false} SumTruncate(m: nat, n: nat, f: nat -> real)
    requires m <= n
    requires forall j: nat :: m <= j < n ==> f(j) == 0.0
    ensures Sum(n, f) == Sum(m, f)
  {
    if m >= n {
    } else {
      SumTruncate(m, n - 1, f);
    }
  }

  /** f and g differ in the single term i. */
  lemma {:induction false} SumUpdate(n: nat, i: nat, f: nat -> real, g: nat -> real)
    requires i < n
    requires forall j: nat :: j < n && j != i ==> f(j) == g(j)
    ensures Sum(n, g) == Sum(n, f) - f(i) + g(i)
  {
    if i == n - 1 {
      SumEqual(n - 1, f, g);
    } else {
      SumUpdate(n - 1, i, f, g);
    }
  }

  lemma {:induction false} SumPoint(n: nat, i: nat, f: nat -> real)
    requires i < n
    requires forall j: nat :: j < n && j != i ==> f(j) == 0.0
    ensures Sum(n, f) == f(i)
  {
    var z := (j: nat) => 0.0;
    SumZero(n, z);
    SumUpdate(n, i, z, f);
  }

  lemma {:induction false} SumNonNegative(n: nat, f: nat -> real)
    requires forall j: nat :: j < n ==> f(j) >= 0.0
    ensures Sum(n, f) >= 0.0
  {
    if n == 0 {
    } else {
      SumNonNegative(n - 1, f);
    }
  }

  lemma {:induction false} SumPositive(n: nat, i: nat, f: nat -> real)
    requires i < n && f(i) > 0.0
    requires forall j: nat :: j < n ==> f(j) >= 0.0
    ensures Sum(n, f) > 0.0
  {
    if i == n - 1 {
      SumNonNegative(n - 1, f);
    } else {
      SumPositive(n - 1, i, f);
    }
  }

  function TableRow(g: (nat, nat) -> real, i: nat): nat -> real {
    (j: nat) => g(i, j)
  }

  function TableColumn(g: (nat, nat) -> real, j: nat): nat -> real {
    (i: nat) => g(i, j)
  }

  function RowSum(n: nat, g: (nat, nat) -> real): nat -> real {
    (i: nat) => Sum(n, TableRow(g, i))
  }

  function ColumnSum(m: nat, g: (nat, nat) -> real): nat -> real {
    (j: nat) => Sum(m, TableColumn(g, j))
  }

  lemma {:induction false} OneMoreRow(m: nat, n: nat, g: (nat, nat) -> real)
    requires m > 0
    ensures Sum(n, ColumnSum(m, g)) == Sum(n, ColumnSum(m - 1, g)) + Sum(n, TableRow(g, m - 1))
  {
    forall j: nat | j < n
      ensures ColumnSum(m, g)(j) == 1.0 * ColumnSum(m - 1, g)(j) + 1.0 * TableRow(g, m - 1)(j)
    {
      assert Sum(m, TableColumn(g, j)) == Sum(m - 1, TableColumn(g, j)) + TableColumn(g, j)(m - 1);
    }
    SumLinear(n, 1.0, ColumnSum(m - 1, g), 1.0, TableRow(g, m - 1), ColumnSum(m, g));
  }

  /** Summing a table by rows or by columns gives the same total. */
  lemma {:induction false} SumSwap(m: nat, n: nat, g: (nat, nat) -> real)
    ensures Sum(m, RowSum(n, g)) == Sum(n, ColumnSum(m, g))
  {
    if m == 0 {
      SumZero(n, ColumnSum(0, g));
    } else {
      SumSwap(m - 1, n, g);
      OneMoreRow(m, n, g);
      assert RowSum(n, g)(m - 1) == Sum(n, TableRow(g, m - 1));
    }
  }
}
