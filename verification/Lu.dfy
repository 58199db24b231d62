// Dense LU factorization with partial pivoting, packed in place, and the solves built on it.

module DenseLu {
  import opened Sums
  import opened Systems
  import opened Matrices
  import opened Permutations
  import opened LuSteps
  import opened LuPicks
  import opened LuSystems
  import opened LuDeterminant
  import opened Determinant
  import opened Factor

  class LU {
    const m: nat
    const n: nat
    const lu: array2<real>
    const piv: array<nat>
    var pivsign: int
    ghost const A: seq<seq<real>>
    ghost var picks: seq<nat>

    ghost predicate Shaped()
      reads this
    {
      lu.Length0 == m && lu.Length1 == n && piv.Length == m && Rectangular(A, m, n)
    }

    /** P*A = L*U with multipliers of size at most 1, for singular matrices too. */
    ghost predicate Valid()
      reads this, lu, piv
    {
      && Shaped()
      && State(A, piv[..], Contents(lu), m, n, n)
      && pivsign == Sign(piv[..]) && SignCounts(A, piv[..], pivsign)
    }

    /** In each column the first of the largest entries was picked. */
    ghost predicate PickedWell()
      reads this, lu, piv
    {
      |picks| == n && Picks(m, piv[..], Contents(lu), picks)
    }

    /** Factorize a copy of the matrix, whatever its shape or rank. */
    constructor (rows: seq<seq<real>>, m: nat, n: nat)
      requires Rectangular(rows, m, n)
      ensures Valid() && A == rows && this.m == m && this.n == n
      ensures fresh(lu) && fresh(piv) && PickedWell()
    {
      this.m, this.n := m, n;
      lu := new real[m, n];
      piv := new nat[m];
      pivsign := 1;
      A := rows;
      picks := [];
      new;
      Load(rows);
      InitialState(A, m, n);
      SignStart(A);
      Factorize();
    }

    /** Copy the matrix in, with the identity permutation. */
    method Load(rows: seq<seq<real>>)
      requires Shaped() && rows == A
      modifies lu, piv
      ensures Contents(lu) == A && piv[..] == Identity(m)
    {
      forall i: nat, j: nat | i < m && j < n {
        lu[i, j] := rows[i][j];
      }
      forall i: nat | i < m {
        piv[i] := i;
      }
      assert forall i: nat :: i < m ==> Contents(lu)[i] == A[i];
    }

    /** One column at a time: apply the earlier ones, exchange rows, divide. */
    method Factorize()
      requires Shaped() && State(A, piv[..], Contents(lu), m, n, 0)
      requires pivsign == Sign(piv[..]) && SignCounts(A, piv[..], pivsign)
      requires piv[..] == Identity(m)
      modifies this`pivsign, this`picks, lu, piv
      ensures Valid() && PickedWell()
    {
      var col := new real[m];
      picks := [];
      for j := 0 to n
        invariant |picks| == j && Picks(m, piv[..], Contents(lu), picks)
        invariant State(A, piv[..], Contents(lu), m, n, j)
        invariant pivsign == Sign(piv[..]) && SignCounts(A, piv[..], pivsign)
      {
        ghost var start, pv := Contents(lu), piv[..];
        ApplyPrevious(j, col);
        ghost var reduced := Contents(lu);
        PicksKept(m, pv, start, reduced, picks);
        var p := FindPivot(j, col);
        if p != j {
          Exchange(j, p);
        } else if p < m {
          SwapSame(pv, reduced, p);
        }
        Divide(j);
        PickNext(m, n, pv, reduced, Contents(lu), picks, p);
        picks := picks + [p];
      }
    }

    /** Subtract from column j the products of the columns before it, row by row. */
    method ApplyPrevious(j: nat, col: array<real>)
      requires Shaped() && j < n && col.Length == m
      requires State(A, piv[..], Contents(lu), m, n, j)
      modifies lu, col
      ensures Reduced(A, piv[..], Contents(lu), m, n, j)
      ensures forall i: nat :: i < m ==> col[i] == lu[i, j]
      ensures forall r: nat, c: nat :: c != j ==> Entry(Contents(lu), r, c) == Entry(old(Contents(lu)), r, c)
    {
      ghost var was, pv := Contents(lu), piv[..];
      for i := 0 to m
        modifies col
        invariant forall r: nat :: r < i ==> col[r] == lu[r, j]
      {
        col[i] := lu[i, j];
      }
      assert ColumnUntouched(A, pv, was, j);
      for i := 0 to m
        modifies lu, col
        invariant forall r: nat :: r < m ==> col[r] == lu[r, j]
        invariant forall r: nat, c: nat :: r < m && c < n && c != j ==> Entry(Contents(lu), r, c) == Entry(was, r, c)
        invariant PartReduced(A, pv, Contents(lu), j, i)
      {
        ghost var now := Contents(lu);
        var s := RowProduct(i, j, col);
        col[i] := col[i] - s;
        lu[i, j] := col[i];
        ReduceStep(A, pv, now, Contents(lu), j, i);
      }
      AllReduced(A, pv, was, Contents(lu), m, n, j);
    }

    /** The dot product of row i of L, left of column min(i, j), with the column being reduced. */
    method RowProduct(i: nat, j: nat, col: array<real>) returns (s: real)
      requires Shaped() && i < m && j < n && col.Length == m
      requires forall r: nat :: r < m ==> col[r] == lu[r, j]
      ensures s == Sum(Min(i, j), Term(Contents(lu), i, j))
    {
      ghost var f := Term(Contents(lu), i, j);
      s := 0.0;
      for k := 0 to Min(i, j)
        invariant s == Sum(k, f)
      {
        assert LowerOf(Contents(lu))(i, k) == lu[i, k] && UpperOf(Contents(lu))(k, j) == col[k];
        s := s + Mul(lu[i, k], col[k]);
      }
    }

    /** The first row, from j down, with a largest entry in the reduced column. */
    method FindPivot(j: nat, col: array<real>) returns (p: nat)
      requires Shaped() && j < n && col.Length == m
      requires forall i: nat :: i < m ==> col[i] == lu[i, j]
      ensures if j < m then j <= p < m else p == j
      ensures LargestPivot(Contents(lu), j, p) && LargerThanBefore(Contents(lu), j, p)
    {
      p := j;
      var i := j + 1;
      while i < m
        invariant j < m ==> j < i && j <= p < m && p < i
        invariant j >= m ==> p == j
        invariant forall r: nat :: j <= r < i && r < m ==> Abs(col[r]) <= Abs(col[p])
        invariant forall r: nat :: j <= r < p && r < m ==> Abs(col[r]) < Abs(col[p])
      {
        if Abs(col[i]) > Abs(col[p]) {
          p := i;
        }
        i := i + 1;
      }
    }

    /** Exchange rows j and p, recording it in piv and pivsign. */
    method Exchange(j: nat, p: nat)
      requires Shaped() && j < p < m
      requires Reduced(A, piv[..], Contents(lu), m, n, j)
      requires pivsign == Sign(piv[..]) && SignCounts(A, piv[..], pivsign)
      requires LargestPivot(Contents(lu), j, p)
      modifies this`pivsign, lu, piv
      ensures Shaped() && Reduced(A, piv[..], Contents(lu), m, n, j)
      ensures pivsign == Sign(piv[..]) && SignCounts(A, piv[..], pivsign)
      ensures LargestPivot(Contents(lu), j, j)
      ensures piv[..] == Swapped(old(piv[..]), j, p) && Contents(lu) == Swapped(old(Contents(lu)), j, p)
    {
      ghost var was, pv := Contents(lu), piv[..];
      SwapRows(j, p);
      SwapPivots(j, p);
      pivsign := -pivsign;
      ExchangeKeeps(A, pv, was, m, n, j, p);
      ExchangedLargest(was, m, n, j, p);
      SwapFlips(pv, j, p);
      SignExchange(A, pv, -pivsign, j, p);
    }

    method SwapPivots(j: nat, p: nat)
      requires Shaped() && j < p < m
      modifies piv
      ensures piv[..] == Swapped(old(piv[..]), j, p)
    {
      var k := piv[p];
      piv[p] := piv[j];
      piv[j] := k;
    }

    method SwapRows(j: nat, p: nat)
      requires Shaped() && j < p < m
      modifies lu
      ensures Contents(lu) == Swapped(old(Contents(lu)), j, p)
    {
      ghost var was := Contents(lu);
      for k := 0 to n
        invariant forall c: nat :: c < n ==> lu[j, c] == if c < k then was[p][c] else was[j][c]
        invariant forall c: nat :: c < n ==> lu[p, c] == if c < k then was[j][c] else was[p][c]
        invariant forall r: nat, c: nat :: r < m && c < n && r != j && r != p ==> lu[r, c] == was[r][c]
      {
        var t := lu[p, k];
        lu[p, k] := lu[j, k];
        lu[j, k] := t;
      }
      assert forall r: nat :: r < m ==> Contents(lu)[r] == Swapped(was, j, p)[r];
    }

    /** Divide column j by its pivot, below the diagonal, unless the pivot is zero. */
    method Divide(j: nat)
      requires Shaped() && j < n
      requires Reduced(A, piv[..], Contents(lu), m, n, j)
      requires j < m ==> LargestPivot(Contents(lu), j, j)
      modifies lu
      ensures State(A, piv[..], Contents(lu), m, n, j + 1)
      ensures Divided(old(Contents(lu)), Contents(lu), j)
    {
      ghost var was := Contents(lu);
      if j < m && lu[j, j] != 0.0 {
        for i := j + 1 to m
          invariant forall r: nat, c: nat :: r < m && c < n ==>
            lu[r, c] == if c == j && j < r < i then was[r][c] / was[j][j] else was[r][c]
        {
          lu[i, j] := lu[i, j] / lu[j, j];
        }
      }
      DivideFactors(A, piv[..], was, Contents(lu), m, n, j);
    }

    /** True exactly when the matrix that was factorized is injective; it must be at least as tall as wide. */
    method IsNonsingular() returns (yes: bool)
      requires Valid() && n <= m
      ensures yes <==> Nonsingular(Contents(lu), n)
      ensures yes <==> Injective(A, m, n)
    {
      NonsingularIffInjective(A, piv[..], Contents(lu), m, n);
      for j := 0 to n
        invariant forall i: nat :: i < j ==> Entry(Contents(lu), i, i) != 0.0
      {
        if lu[j, j] == 0.0 {
          assert Entry(Contents(lu), j, j) == 0.0;
          return false;
        }
      }
      return true;
    }

    /** The lower factor, m by n. */
    method GetL() returns (L: array2<real>)
      requires Valid()
      ensures L.Length0 == m && L.Length1 == n && fresh(L)
      ensures forall i: nat, j: nat :: i < m && j < n ==> L[i, j] == LowerOf(Contents(lu))(i, j)
    {
      L := new real[m, n];
      for i := 0 to m
        invariant forall r: nat, c: nat :: r < i && c < n ==> L[r, c] == LowerOf(Contents(lu))(r, c)
      {
        for j := 0 to n
          invariant forall r: nat, c: nat :: r < m && c < n && (r < i || (r == i && c < j)) ==>
            L[r, c] == LowerOf(Contents(lu))(r, c)
        {
          L[i, j] := if i > j then lu[i, j] else if i == j then 1.0 else 0.0;
        }
      }
    }

    /** The upper factor, n by n; the matrix must be at least as tall as wide. */
    method GetU() returns (U: array2<real>)
      requires Valid() && n <= m
      ensures U.Length0 == n == U.Length1 && fresh(U)
      ensures forall i: nat, j: nat :: i < n && j < n ==> U[i, j] == UpperOf(Contents(lu))(i, j)
      ensures forall i: nat, j: nat :: i < m && j < n ==> A[piv[i]][j] == Sum(n, Term(Contents(lu), i, j))
    {
      U := new real[n, n];
      for i := 0 to n
        invariant forall r: nat, c: nat :: r < i && c < n ==> U[r, c] == UpperOf(Contents(lu))(r, c)
      {
        for j := 0 to n
          invariant forall r: nat, c: nat :: r < n && c < n && (r < i || (r == i && c < j)) ==>
            U[r, c] == UpperOf(Contents(lu))(r, c)
        {
          U[i, j] := if i <= j then lu[i, j] else 0.0;
        }
      }
      forall i: nat, j: nat | i < m && j < n
        ensures A[piv[i]][j] == Sum(n, Term(Contents(lu), i, j))
      {
        FullProduct(A, piv[..], Contents(lu), m, n, i, j);
      }
    }

    /** The determinant of a square matrix, and 0 for any other. */
    method Det() returns (d: real)
      requires Valid()
      ensures d == if m == n then Determinant.Det(A) else 0.0
    {
      if m != n {
        return 0.0;
      }
      PivotProduct(A, piv[..], Contents(lu), n);
      SignSquared(pivsign as real, Determinant.Det(A));
      d := pivsign as real;
      for j := 0 to n
        invariant d == pivsign as real * DiagonalProduct(Contents(lu), j)
      {
        Regroup(pivsign as real, DiagonalProduct(Contents(lu), j), lu[j, j]);
        d := d * lu[j, j];
      }
    }

    // -------------------------------------------------------------------------------------------
    // Vector solve
    // -------------------------------------------------------------------------------------------

    /** Subtract multiples of coordinate k from the coordinates below it, up to n. */
    method SweepBelow(x: array<real>, k: nat)
      requires Shaped() && n <= m == x.Length && x as object != lu && k < n
      modifies x
      ensures forall r: nat :: r < m ==>
        x[r] == old(x[r]) - (if k < r < n then Mul(LowerOf(Contents(lu))(r, k), old(x[k])) else 0.0)
    {
      ghost var l := LowerOf(Contents(lu));
      for i := k + 1 to n
        invariant forall r: nat :: r < m ==>
          x[r] == old(x[r]) - (if k < r < i then Mul(l(r, k), old(x[k])) else 0.0)
      {
        assert l(i, k) == lu[i, k];
        x[i] := x[i] - Mul(lu[i, k], x[k]);
      }
    }

    /** L*y = x in place, one column at a time. */
    method ForwardSubstitute(x: array<real>)
      requires Valid() && n <= m == x.Length && x as object != lu
      modifies x
      ensures Swept(LowerOf(Contents(lu)), n, n, Vec(old(x[..])), Vec(x[..]))
      ensures x[n..] == old(x[n..])
    {
      ghost var l, b := LowerOf(Contents(lu)), x[..];
      for k := 0 to n
        invariant Swept(l, n, k, Vec(b), Vec(x[..])) && x[n..] == b[n..]
      {
        ghost var was := x[..];
        SweepBelow(x, k);
        SweepVector(l, n, k, Vec(b), was, x[..]);
      }
    }

    /** Divide coordinate k by its pivot and subtract multiples of it from the coordinates above it. */
    method SweepAbove(x: array<real>, k: nat)
      requires Shaped() && n <= m == x.Length && x as object != lu && k < n && lu[k, k] != 0.0
      modifies x
      ensures Mul(UpperOf(Contents(lu))(k, k), x[k]) == old(x[k])
      ensures forall r: nat :: r < m && r != k ==>
        x[r] == if r < k then old(x[r]) - Mul(UpperOf(Contents(lu))(r, k), x[k]) else old(x[r])
    {
      ghost var u := UpperOf(Contents(lu));
      assert u(k, k) == lu[k, k];
      var q := x[k] / lu[k, k];
      assert Mul(u(k, k), q) == x[k];
      x[k] := q;
      for i := 0 to k
        invariant x[k] == q
        invariant forall r: nat :: r < m && r != k ==>
          x[r] == if r < i then old(x[r]) - Mul(u(r, k), q) else old(x[r])
      {
        assert u(i, k) == lu[i, k];
        x[i] := x[i] - Mul(lu[i, k], x[k]);
      }
    }

    /** U*x = y in place, last column first. */
    method BackSubstitute(x: array<real>)
      requires Valid() && n <= m == x.Length && x as object != lu
      requires Nonsingular(Contents(lu), n)
      modifies x
      ensures SweptBack(UpperOf(Contents(lu)), n, 0, Vec(old(x[..])), Vec(x[..]))
      ensures x[n..] == old(x[n..])
    {
      ghost var u, b := UpperOf(Contents(lu)), x[..];
      PackedShapes(Contents(lu), n);
      SweptBackStart(u, n, Vec(b));
      for k := n downto 0
        invariant SweptBack(u, n, k, Vec(b), Vec(x[..])) && x[n..] == b[n..]
      {
        ghost var was := x[..];
        assert Entry(Contents(lu), k, k) == lu[k, k];
        SweepAbove(x, k);
        SweepBackStep(u, n, k, Vec(b), Vec(was), Vec(x[..]));
      }
    }

    /** The right-hand side in the order of the pivots. */
    method PermuteCopy(b: seq<real>) returns (y: array<real>)
      requires Valid() && |b| == m
      ensures fresh(y) && y.Length == m && forall r: nat :: r < m ==> y[r] == b[piv[r]]
    {
      y := new real[m];
      for i := 0 to m
        invariant forall r: nat :: r < i ==> y[r] == b[piv[r]]
      {
        y[i] := b[piv[i]];
      }
    }

    /** Empty if b has the wrong length or A is not injective.  Otherwise the first n entries are the only
        solution of the pivot rows of A*x = b, of the whole system if A is square, and the entries after
        them are the right-hand side of the other rows. */
    method Solve(b: seq<real>) returns (x: seq<real>)
      requires Valid() && n <= m
      ensures |b| != m || !Injective(A, m, n) ==> x == []
      ensures |b| == m && Injective(A, m, n) ==>
        && |x| == m && PivotRowsSolvedBy(A, piv[..], n, Vec(b), Vec(x))
        && (m == n ==> SolvedBy(A, n, Vec(b), Vec(x)))
        && forall r: nat :: n <= r < m ==> x[r] == b[piv[r]]
    {
      if |b| != m {
        return [];
      }
      var ok := IsNonsingular();
      if !ok {
        return [];
      }
      var y := PermuteCopy(b);
      ghost var pb := y[..];
      ForwardSubstitute(y);
      ghost var z := y[..];
      BackSubstitute(y);
      SubstitutionSolves(A, piv[..], Contents(lu), m, n, Vec(b), Vec(pb), Vec(z), Vec(y[..]));
      assert y[n..] == pb[n..];
      return y[..];
    }

    // -------------------------------------------------------------------------------------------
    // Matrix solve and inverse
    // -------------------------------------------------------------------------------------------

    /** Subtract multiples of row k of X from the rows below it, up to n. */
    method EliminateBelow(X: array2<real>, k: nat)
      requires Shaped() && n <= m == X.Length0 && X != lu && k < n
      modifies X
      ensures forall r: nat, c: nat :: r < m && c < X.Length1 ==>
        X[r, c] == if k < r < n then old(X[r, c]) - Mul(LowerOf(Contents(lu))(r, k), old(X[k, c])) else old(X[r, c])
    {
      ghost var l := LowerOf(Contents(lu));
      for i := k + 1 to n
        invariant forall r: nat, c: nat :: r < m && c < X.Length1 ==>
          X[r, c] == if k < r < i then old(X[r, c]) - Mul(l(r, k), old(X[k, c])) else old(X[r, c])
      {
        assert l(i, k) == lu[i, k];
        for j := 0 to X.Length1
          invariant forall r: nat, c: nat :: r < m && c < X.Length1 ==>
            X[r, c] == if k < r < i || (r == i && c < j) then old(X[r, c]) - Mul(l(r, k), old(X[k, c]))
                       else old(X[r, c])
        {
          X[i, j] := X[i, j] - Mul(lu[i, k], X[k, j]);
        }
      }
    }

    /** Column k of L moved to the right-hand side in every column of X. */
    method ForwardStepAll(X: array2<real>, k: nat, ghost b: seq<seq<real>>)
      requires Shaped() && n <= m == X.Length0 && X != lu && k < n
      requires forall c: nat :: c < X.Length1 ==>
        Swept(LowerOf(Contents(lu)), n, k, Column(b, c), Column(Contents(X), c))
      modifies X
      ensures forall c: nat :: c < X.Length1 ==>
        Swept(LowerOf(Contents(lu)), n, k + 1, Column(b, c), Column(Contents(X), c))
      ensures forall r: nat, c: nat :: n <= r < m && c < X.Length1 ==> X[r, c] == old(X[r, c])
    {
      ghost var l, was := LowerOf(Contents(lu)), Contents(X);
      EliminateBelow(X, k);
      forall c: nat | c < X.Length1
        ensures Swept(l, n, k + 1, Column(b, c), Column(Contents(X), c))
      {
        SweepColumn(l, m, n, k, Column(b, c), was, Contents(X), X.Length1, c);
      }
    }

    /** L*Y = X in place, all columns together. */
    method ForwardSubstituteAll(X: array2<real>)
      requires Valid() && n <= m == X.Length0 && X != lu
      modifies X
      ensures forall c: nat :: c < X.Length1 ==>
        Swept(LowerOf(Contents(lu)), n, n, Column(old(Contents(X)), c), Column(Contents(X), c))
      ensures forall r: nat, c: nat :: n <= r < m && c < X.Length1 ==> X[r, c] == old(X[r, c])
    {
      ghost var l, b := LowerOf(Contents(lu)), Contents(X);
      for k := 0 to n
        invariant forall c: nat :: c < X.Length1 ==> Swept(l, n, k, Column(b, c), Column(Contents(X), c))
        invariant forall r: nat, c: nat :: n <= r < m && c < X.Length1 ==> X[r, c] == old(X[r, c])
      {
        ForwardStepAll(X, k, b);
      }
    }

    /** Divide row k of X by the pivot. */
    method DivideRow(X: array2<real>, k: nat)
      requires Shaped() && n <= m == X.Length0 && X != lu && k < n && lu[k, k] != 0.0
      modifies X
      ensures forall r: nat, c: nat :: r < m && c < X.Length1 && r != k ==> X[r, c] == old(X[r, c])
      ensures forall c: nat :: c < X.Length1 ==> Mul(UpperOf(Contents(lu))(k, k), X[k, c]) == old(X[k, c])
    {
      assert UpperOf(Contents(lu))(k, k) == lu[k, k];
      for j := 0 to X.Length1
        invariant forall r: nat, c: nat :: r < m && c < X.Length1 && (r != k || c >= j) ==> X[r, c] == old(X[r, c])
        invariant forall c: nat :: c < j ==> Mul(lu[k, k], X[k, c]) == old(X[k, c])
      {
        var q := X[k, j] / lu[k, k];
        assert Mul(lu[k, k], q) == old(X[k, j]);
        X[k, j] := q;
      }
    }

    /** Subtract multiples of row k of X from the rows above it. */
    method EliminateAbove(X: array2<real>, k: nat)
      requires Shaped() && n <= m == X.Length0 && X != lu && k < n
      modifies X
      ensures forall r: nat, c: nat :: r < m && c < X.Length1 ==>
        X[r, c] == if r < k then old(X[r, c]) - Mul(UpperOf(Contents(lu))(r, k), old(X[k, c])) else old(X[r, c])
    {
      ghost var u := UpperOf(Contents(lu));
      for i := 0 to k
        invariant forall r: nat, c: nat :: r < m && c < X.Length1 ==>
          X[r, c] == if r < i then old(X[r, c]) - Mul(u(r, k), old(X[k, c])) else old(X[r, c])
      {
        assert u(i, k) == lu[i, k];
        for j := 0 to X.Length1
          invariant forall r: nat, c: nat :: r < m && c < X.Length1 ==>
            X[r, c] == if r < i || (r == i && c < j) then old(X[r, c]) - Mul(u(r, k), old(X[k, c])) else old(X[r, c])
        {
          X[i, j] := X[i, j] - Mul(lu[i, k], X[k, j]);
        }
      }
    }

    /** Solve for row k of X, then eliminate it from the rows above. */
    method BackStep(X: array2<real>, k: nat)
      requires Shaped() && n <= m == X.Length0 && X != lu && k < n && Nonsingular(Contents(lu), n)
      modifies X
      ensures forall c: nat :: c < X.Length1 ==> Mul(UpperOf(Contents(lu))(k, k), X[k, c]) == old(X[k, c])
      ensures forall r: nat, c: nat :: r < m && c < X.Length1 && r != k ==>
        X[r, c] == if r < k then old(X[r, c]) - Mul(UpperOf(Contents(lu))(r, k), X[k, c]) else old(X[r, c])
    {
      assert Entry(Contents(lu), k, k) == lu[k, k];
      DivideRow(X, k);
      EliminateAbove(X, k);
    }

    /** Row k of every column solved. */
    method BackStepAll(X: array2<real>, k: nat, ghost b: seq<seq<real>>)
      requires Shaped() && n <= m == X.Length0 && X != lu && k < n && Nonsingular(Contents(lu), n)
      requires forall c: nat :: c < X.Length1 ==>
        SweptBack(UpperOf(Contents(lu)), n, k + 1, Column(b, c), Column(Contents(X), c))
      modifies X
      ensures forall c: nat :: c < X.Length1 ==>
        SweptBack(UpperOf(Contents(lu)), n, k, Column(b, c), Column(Contents(X), c))
      ensures forall r: nat, c: nat :: n <= r < m && c < X.Length1 ==> X[r, c] == old(X[r, c])
    {
      ghost var u, was := UpperOf(Contents(lu)), Contents(X);
      PackedShapes(Contents(lu), n);
      BackStep(X, k);
      forall c: nat | c < X.Length1
        ensures SweptBack(u, n, k, Column(b, c), Column(Contents(X), c))
      {
        SweepBackColumn(u, m, n, k, Column(b, c), was, Contents(X), X.Length1, c);
      }
    }

    /** U*X = Y in place, last row first. */
    method BackSubstituteAll(X: array2<real>)
      requires Valid() && n <= m == X.Length0 && X != lu
      requires Nonsingular(Contents(lu), n)
      modifies X
      ensures forall c: nat :: c < X.Length1 ==>
        SweptBack(UpperOf(Contents(lu)), n, 0, Column(old(Contents(X)), c), Column(Contents(X), c))
      ensures forall r: nat, c: nat :: n <= r < m && c < X.Length1 ==> X[r, c] == old(X[r, c])
    {
      ghost var u, b := UpperOf(Contents(lu)), Contents(X);
      PackedShapes(Contents(lu), n);
      forall c: nat | c < X.Length1
        ensures SweptBack(u, n, n, Column(b, c), Column(Contents(X), c))
      {
        SweptBackStart(u, n, Column(b, c));
      }
      for k := n downto 0
        invariant forall c: nat :: c < X.Length1 ==> SweptBack(u, n, k, Column(b, c), Column(Contents(X), c))
        invariant forall r: nat, c: nat :: n <= r < m && c < X.Length1 ==> X[r, c] == old(X[r, c])
      {
        BackStepAll(X, k, b);
      }
    }

    /** The permuted copy of B, then both substitutions on all its columns. */
    method SubstituteMatrix(B: seq<seq<real>>, nx: nat) returns (X: array2<real>)
      requires Valid() && n <= m && Rectangular(B, m, nx) && nx > 0 && Nonsingular(Contents(lu), n)
      ensures fresh(X) && X.Length0 == m && X.Length1 == nx
      ensures forall c: nat :: c < nx ==> PivotRowsSolvedBy(A, piv[..], n, Column(B, c), Column(Contents(X), c))
      ensures m == n ==> forall c: nat :: c < nx ==> SolvedBy(A, n, Column(B, c), Column(Contents(X), c))
      ensures forall r: nat, c: nat :: n <= r < m && c < nx ==> X[r, c] == B[piv[r]][c]
    {
      X := new real[m, nx];
      forall i: nat, j: nat | i < m && j < nx {
        X[i, j] := B[piv[i]][j];
      }
      ghost var pb := Contents(X);
      ForwardSubstituteAll(X);
      ghost var z := Contents(X);
      BackSubstituteAll(X);
      ColumnsSolved(A, piv[..], Contents(lu), m, n, B, pb, z, Contents(X), nx);
    }

    /** The same for every column of B, which must have at least one: 0 by 0 if B has the wrong number of rows
        or A is not injective. */
    method SolveMatrix(B: seq<seq<real>>, rows: nat, nx: nat) returns (X: array2<real>)
      requires Valid() && n <= m && Rectangular(B, rows, nx) && nx > 0
      ensures fresh(X)
      ensures rows != m || !Injective(A, m, n) ==> X.Length0 == 0 == X.Length1
      ensures rows == m && Injective(A, m, n) ==>
        && X.Length0 == m && X.Length1 == nx
        && (forall c: nat :: c < nx ==> PivotRowsSolvedBy(A, piv[..], n, Column(B, c), Column(Contents(X), c)))
        && (m == n ==> forall c: nat :: c < nx ==> SolvedBy(A, n, Column(B, c), Column(Contents(X), c)))
        && forall r: nat, c: nat :: n <= r < m && c < nx ==> X[r, c] == B[piv[r]][c]
    {
      if rows != m {
        return new real[0, 0];
      }
      var ok := IsNonsingular();
      if !ok {
        return new real[0, 0];
      }
      X := SubstituteMatrix(B, nx);
    }

    /** The empty matrix if A is not injective; otherwise the first n rows are a left inverse, which for a
        square matrix is the inverse on both sides. */
    method Inverse() returns (X: array2<real>)
      requires Valid() && n <= m && m > 0
      ensures !Injective(A, m, n) ==> X.Length0 == 0 == X.Length1
      ensures Injective(A, m, n) ==>
        && X.Length0 == m == X.Length1 && IsInverse(Contents(X), A, m, n)
        && (m == n ==> IsInverse(A, Contents(X), n, n))
    {
      var one := seq(m, i => seq(m, j => if i == j then 1.0 else 0.0));
      X := SolveMatrix(one, m, m);
      if Injective(A, m, n) {
        NonsingularIffInjective(A, piv[..], Contents(lu), m, n);
        SolvesAreInverse(A, piv[..], Contents(lu), Contents(X), one, m, n);
      }
    }
  }
}
