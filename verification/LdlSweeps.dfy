// The triangular sweeps of the solver, on values: what the vector holds after each column.

module LdlSweeps {
  import opened Sums
  import opened Factor
  import opened Systems
  import opened Pattern
  import opened LdlSteps
  import opened LdlValues

  // ---------------------------------------------------------------------------------------------
  // Forward: L x = b, column by column
  // ---------------------------------------------------------------------------------------------

  /** Columns 0..j-1 have been moved to the right-hand side. */
  ghost predicate Forward(m: Columns, j: nat, b: seq<real>, x: seq<real>) {
    |x| == |b| == m.n && j <= m.n && Swept(LOf(m.Entries()), m.n, j, Vec(b), Vec(x))
  }

  lemma {:induction false} ForwardStart(m: Columns, b: seq<real>)
    requires |b| == m.n
    ensures Forward(m, 0, b, b)
  {
  }

  lemma {:induction false} ForwardStep(m: Columns, j: nat, b: seq<real>, x: seq<real>, x': seq<real>)
    requires m.Valid() && j < m.n && Forward(m, j, b, x)
    requires ColumnSubtracted(m, j, x[j], ColumnRows(m, j, m.n), x, x')
    ensures Forward(m, j + 1, b, x')
  {
    WholeColumnSubtracted(m, j, x[j], m.n, x, x');
    forall i: nat | i < m.n
      ensures Vec(x')(i) == Vec(x)(i) - (if i > j then Mul(LOf(m.Entries())(i, j), Vec(x)(j)) else 0.0)
    {
      assert Vec(x)(j) == x[j] && Vec(x')(i) == x[i] - Taken(m, j, x[j], i);
    }
    SweepStep(LOf(m.Entries()), m.n, j, Vec(b), Vec(x), Vec(x'));
  }

  lemma {:induction false} ForwardEnd(m: Columns, b: seq<real>, x: seq<real>)
    requires Forward(m, m.n, b, x)
    ensures Agree(m.n, LTimes(LOf(m.Entries()), m.n, Vec(x)), Vec(b))
  {
    ComputedUnitLower(m.Entries(), m.n);
    SweptAll(LOf(m.Entries()), m.n, Vec(b), Vec(x));
  }

  // ---------------------------------------------------------------------------------------------
  // Backward: L' x = b, last column first
  // ---------------------------------------------------------------------------------------------

  /** Coordinates j..n-1 are solved, the others untouched. */
  ghost predicate Backward(m: Columns, j: nat, b: seq<real>, x: seq<real>) {
    && |x| == |b| == m.n && j <= m.n
    && (forall i: nat :: i < j ==> x[i] == b[i])
    && (forall i: nat :: j <= i < m.n ==> b[i] == Sum(m.n, ColumnTerm(LOf(m.Entries()), i, Vec(x))))
  }

  lemma {:induction false} BackwardStart(m: Columns, b: seq<real>)
    requires |b| == m.n
    ensures Backward(m, m.n, b, b)
  {
  }

  /** Coordinate j has had the first rows of its column subtracted. */
  ghost predicate Gathering(m: Columns, j: nat, rows: seq<nat>, x: seq<real>, xj: real) {
    j < |x| && xj == x[j] - Sum(m.n, Masked(ColumnTerm(LOf(m.Entries()), j, Vec(x)), rows))
  }

  lemma {:induction false} GatherStart(m: Columns, j: nat, x: seq<real>)
    requires j < |x|
    ensures Gathering(m, j, [], x, x[j])
  {
    SumZero(m.n, Masked(ColumnTerm(LOf(m.Entries()), j, Vec(x)), []));
  }

  function Gathered(m: Columns, j: nat, x: seq<real>, r: nat): real {
    ColumnTerm(LOf(m.Entries()), j, Vec(x))(r)
  }

  /** One entry of column j, read from its store, is gathered. */
  lemma {:induction false} GatherStep(m: Columns, li: seq<nat>, lx: seq<real>, j: nat, t: nat, x: seq<real>, xj: real)
    requires m.Valid() && j < m.n == |x| && ColumnHolds(m, li, lx, j, m.n) && t < |ColumnRows(m, j, m.n)|
    requires Gathering(m, j, ColumnRows(m, j, m.n)[..t], x, xj)
    ensures var p := ColumnStart(m, j) + t;
      && j < li[p] < m.n
      && Gathering(m, j, ColumnRows(m, j, m.n)[..t + 1], x, xj - Mul(lx[p], x[li[p]]))
  {
    var rows, p := ColumnRows(m, j, m.n), ColumnStart(m, j) + t;
    ColumnRowsAscend(m, j, m.n);
    ColumnEntry(m, li, lx, j, m.n, t, x[rows[t]]);
    assert rows[..t + 1] == rows[..t] + [rows[t]];
    GatheredProduct(m, j, x, rows[t], lx[p]);
    GatherPush(m, j, rows[..t], rows[t], x, xj);
  }

  lemma {:induction false} GatherPush(m: Columns, j: nat, rows: seq<nat>, r: nat, x: seq<real>, xj: real)
    requires Gathering(m, j, rows, x, xj) && r !in rows && r < m.n
    ensures Gathering(m, j, rows + [r], x, xj - Gathered(m, j, x, r))
  {
    MaskedPush(m.n, ColumnTerm(LOf(m.Entries()), j, Vec(x)), rows, r);
  }

  lemma {:induction false} GatheredProduct(m: Columns, j: nat, x: seq<real>, r: nat, entry: real)
    requires j < r < |x| && Mul(entry, x[r]) == Taken(m, j, x[r], r)
    ensures Mul(entry, x[r]) == Gathered(m, j, x, r)
  {
    SameProducts(LOf(m.Entries())(r, j), x[r], LOf(m.Entries())(r, j), Vec(x)(r));
  }

  lemma {:induction false} BackwardStep(m: Columns, j: nat, b: seq<real>, x: seq<real>, x': seq<real>)
    requires m.Valid() && j < m.n && Backward(m, j + 1, b, x)
    requires |x'| == |x| && forall i: nat :: i < m.n && i != j ==> x'[i] == x[i]
    requires Gathering(m, j, ColumnRows(m, j, m.n), x, x'[j])
    ensures Backward(m, j, b, x')
  {
    var rows := ColumnRows(m, j, m.n);
    ColumnRowsAscend(m, j, m.n);
    forall i: nat | j < i < m.n
      ensures b[i] == Sum(m.n, ColumnTerm(LOf(m.Entries()), i, Vec(x')))
    {
      SumEqual(m.n, ColumnTerm(LOf(m.Entries()), i, Vec(x)), ColumnTerm(LOf(m.Entries()), i, Vec(x')));
    }
    var f, g := Masked(ColumnTerm(LOf(m.Entries()), j, Vec(x)), rows), ColumnTerm(LOf(m.Entries()), j, Vec(x'));
    forall i: nat | i < m.n && i != j
      ensures f(i) == g(i)
    {
      if i > j && !Fill(m, i, j) {
        PatternCoversValues(m, i, j);
      }
    }
    SumUpdate(m.n, j, f, g);
    assert f(j) == 0.0 && g(j) == x'[j];
  }

  lemma {:induction false} BackwardEnd(m: Columns, b: seq<real>, x: seq<real>)
    requires Backward(m, 0, b, x)
    ensures Agree(m.n, LtTimes(LOf(m.Entries()), m.n, Vec(x)), Vec(b))
  {
    forall j: nat | j < m.n
      ensures LtTimes(LOf(m.Entries()), m.n, Vec(x))(j) == b[j]
    {
    }
  }

  lemma {:induction false} Undivide(x: real, y: real, q: real)
    requires y != 0.0 && q == x / y
    ensures y * q == x
  {
  }

  /** The three sweeps in a row leave the unique solution. */
  lemma {:induction false} SweepsGiveSolution(m: Columns, b: seq<real>, z: seq<real>, w: seq<real>, x: seq<real>)
    requires forall j: nat :: j < m.n ==> D(m.Entries(), j) != 0.0
    requires Forward(m, m.n, b, z) && Backward(m, 0, w, x)
    requires |w| == m.n && forall j: nat :: j < m.n ==> w[j] == z[j] / D(m.Entries(), j)
    ensures UniqueSolution(m.Entries(), m.n, Vec(b), Vec(x))
  {
    var a := m.Entries();
    FactorsExist(a, m.n);
    ForwardEnd(m, b, z);
    BackwardEnd(m, w, x);
    Undivided(m, z, w);
    forall v: nat -> real
      ensures Agree(m.n, Times(a, m.n, v), Vec(b)) <==> Agree(m.n, v, Vec(x))
    {
      SweepsSolve(a, m.n, LOf(a), DOf(a), Vec(b), Vec(z), Vec(w), Vec(x), v);
    }
  }

  lemma {:induction false} Undivided(m: Columns, z: seq<real>, w: seq<real>)
    requires forall j: nat :: j < m.n ==> D(m.Entries(), j) != 0.0
    requires |z| == |w| == m.n && forall j: nat :: j < m.n ==> w[j] == z[j] / D(m.Entries(), j)
    ensures Agree(m.n, Scale(DOf(m.Entries()), Vec(w)), Vec(z))
  {
    forall j: nat | j < m.n
      ensures Scale(DOf(m.Entries()), Vec(w))(j) == Vec(z)(j)
    {
      Undivide(z[j], D(m.Entries(), j), w[j]);
    }
  }

  // ---------------------------------------------------------------------------------------------
  // Reading the factor back from its arrays
  // ---------------------------------------------------------------------------------------------

  /** The value stored for row k at positions lo..hi-1 of a column, or zero. */
  function Lookup(li: seq<nat>, lx: seq<real>, lo: nat, hi: nat, k: nat): real
    requires hi <= |li| && hi <= |lx|
  {
    if lo >= hi then 0.0
    else if li[hi - 1] == k then lx[hi - 1]
    else Lookup(li, lx, lo, hi - 1, k)
  }

  /** The unit lower triangular matrix that the column arrays stand for. */
  function StoredL(m: Columns, lp: seq<nat>, lnz: seq<nat>, li: seq<nat>, lx: seq<real>): (nat, nat) -> real {
    (k: nat, i: nat) =>
      if i == k then 1.0
      else if i < k && i < |lp| && i < |lnz| && lp[i] + lnz[i] <= |li| && lp[i] + lnz[i] <= |lx| then
        Lookup(li, lx, lp[i], lp[i] + lnz[i], k)
      else 0.0
  }

  lemma {:induction false} LookupMisses(li: seq<nat>, lx: seq<real>, lo: nat, hi: nat, k: nat)
    requires lo <= hi <= |li| && hi <= |lx|
    requires forall p: nat :: lo <= p < hi ==> li[p] != k
    ensures Lookup(li, lx, lo, hi, k) == 0.0
  {
    if lo >= hi {
    } else {
      LookupMisses(li, lx, lo, hi - 1, k);
    }
  }

  lemma {:induction false} LookupFinds(li: seq<nat>, lx: seq<real>, lo: nat, hi: nat, k: nat, p: nat)
    requires lo <= p < hi <= |li| && hi <= |lx| && li[p] == k
    requires forall q: nat :: p < q < hi ==> li[q] != k
    ensures Lookup(li, lx, lo, hi, k) == lx[p]
  {
    if p < hi - 1 {
      LookupFinds(li, lx, lo, hi - 1, k, p);
    }
  }

  lemma {:induction false} LookupColumn(m: Columns, li: seq<nat>, lx: seq<real>, i: nat, hi: nat, k: nat)
    requires m.Valid() && i < k < hi && ColumnHolds(m, li, lx, i, hi)
    ensures var lo := ColumnStart(m, i); Lookup(li, lx, lo, lo + |ColumnRows(m, i, hi)|, k) == L(m.Entries(), k, i)
  {
    var rows, lo := ColumnRows(m, i, hi), ColumnStart(m, i);
    ColumnRowsAscend(m, i, hi);
    if k in rows {
      var t: nat :| t < |rows| && rows[t] == k;
      LookupAt(li, lx, lo, rows, k, t);
    } else {
      LookupNowhere(li, lx, lo, rows, k);
      PatternCoversValues(m, k, i);
    }
  }

  /** In slots that hold these rows, a row that is there is found, */
  lemma {:induction false} LookupAt(li: seq<nat>, lx: seq<real>, lo: nat, rows: seq<nat>, k: nat, t: nat)
    requires lo + |rows| <= |li| && lo + |rows| <= |lx| && t < |rows| && rows[t] == k
    requires forall s: nat :: s < |rows| ==> li[lo + s] == rows[s]
    requires forall s: nat :: t < s < |rows| ==> rows[s] != k
    ensures Lookup(li, lx, lo, lo + |rows|, k) == lx[lo + t]
  {
    forall q: nat | lo + t < q < lo + |rows|
      ensures li[q] != k
    {
      assert li[lo + (q - lo)] == rows[q - lo];
    }
    LookupFinds(li, lx, lo, lo + |rows|, k, lo + t);
  }

  /** and one that is not is not. */
  lemma {:induction false} LookupNowhere(li: seq<nat>, lx: seq<real>, lo: nat, rows: seq<nat>, k: nat)
    requires lo + |rows| <= |li| && lo + |rows| <= |lx| && k !in rows
    requires forall s: nat :: s < |rows| ==> li[lo + s] == rows[s]
    ensures Lookup(li, lx, lo, lo + |rows|, k) == 0.0
  {
    forall q: nat | lo <= q < lo + |rows|
      ensures li[q] != k
    {
      assert li[lo + (q - lo)] == rows[q - lo];
    }
    LookupMisses(li, lx, lo, lo + |rows|, k);
  }

  lemma {:induction false} StoredLIsL(m: Columns, rows: nat, lp: seq<nat>, lnz: seq<nat>, li: seq<nat>, lx: seq<real>,
                                      k: nat, i: nat)
    requires m.Valid() && k < rows <= m.n && i < rows
    requires |lp| == m.n + 1 && forall j: nat :: j <= m.n ==> lp[j] == ColumnStart(m, j)
    requires ColumnsHeld(m, rows, [], lnz, li, lx)
    ensures StoredL(m, lp, lnz, li, lx)(k, i) == L(m.Entries(), k, i)
  {
    if i < k {
      assert lnz[i] == |ColumnRows(m, i, rows)| && ColumnHolds(m, li, lx, i, rows);
      LookupColumn(m, li, lx, i, rows, k);
    }
  }

  /** The arrays of the first `rows` rows hold a factorization of that leading block. */
  lemma {:induction false} FactorsRead(m: Columns, rows: nat, lp: seq<nat>, lnz: seq<nat>, li: seq<nat>, lx: seq<real>,
                                       d: seq<real>)
    requires m.Valid() && rows <= m.n
    requires |lp| == m.n + 1 && forall j: nat :: j <= m.n ==> lp[j] == ColumnStart(m, j)
    requires ColumnsHeld(m, rows, [], lnz, li, lx)
    requires rows <= |d| && forall j: nat :: j < rows ==> d[j] == D(m.Entries(), j)
    requires forall j: nat :: j + 1 < rows ==> d[j] != 0.0
    ensures UnitLower(rows, StoredL(m, lp, lnz, li, lx))
    ensures Factors(m.Entries(), rows, StoredL(m, lp, lnz, li, lx), Vec(d))
    ensures forall i: nat :: i < rows ==> ColumnHolds(m, li, lx, i, rows)
  {
    forall i: nat | i < rows
      ensures ColumnHolds(m, li, lx, i, rows)
    {
      assert lnz[i] == |ColumnRows(m, i, rows)|;
    }
    var a, l := m.Entries(), StoredL(m, lp, lnz, li, lx);
    FactorsExist(a, rows);
    forall k: nat, i: nat | k < rows && i < rows
      ensures l(k, i) == LOf(a)(k, i)
    {
      StoredLIsL(m, rows, lp, lnz, li, lx, k, i);
    }
    FactorsSame(a, rows, LOf(a), DOf(a), l, Vec(d));
  }

  /** The factorization is one of the matrix the caller stored. */
  lemma {:induction false} EntriesAreStored(m: Columns)
    requires m.Valid()
    ensures SameUpper(m.Entries(), m.Matrix(), m.n)
  {
    forall i: nat, k: nat | i <= k < m.n
      ensures m.Entries()(i, k) == m.Matrix()(i, k)
    {
      EntryIsStored(m, i, k);
    }
  }

  lemma {:induction false} FactorsSame(a: Upper, n: nat, l: (nat, nat) -> real, d: nat -> real,
                                       l': (nat, nat) -> real, d': nat -> real)
    requires UnitLower(n, l) && Factors(a, n, l, d)
    requires Agree(n, d, d') && forall k: nat, i: nat :: k < n && i < n ==> l'(k, i) == l(k, i)
    ensures UnitLower(n, l') && Factors(a, n, l', d')
  {
    forall i: nat, k: nat | i < n && k < n
      ensures Sum(n, ProductTerm(l', d', i, k)) == Symmetric(a, i, k)
    {
      SumEqual(n, ProductTerm(l, d, i, k), ProductTerm(l', d', i, k));
    }
  }
}
