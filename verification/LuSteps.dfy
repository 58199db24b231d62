// What the packed L/U array holds between the steps of the left-looking factorization.

module LuSteps {
  import opened Sums
  import opened Systems
  import opened Matrices
  import opened Permutations

  /** The unit lower triangular factor packed below the diagonal. */
  function LowerOf(lu: seq<seq<real>>): (nat, nat) -> real {
    (i: nat, k: nat) => if k < i then Entry(lu, i, k) else if k == i then 1.0 else 0.0
  }

  /** The upper triangular factor packed on and above the diagonal. */
  function UpperOf(lu: seq<seq<real>>): (nat, nat) -> real {
    (k: nat, j: nat) => if k <= j then Entry(lu, k, j) else 0.0
  }

  /** Terms of entry (i, j) of the product of the two factors. */
  function Term(lu: seq<seq<real>>, i: nat, j: nat): nat -> real {
    (k: nat) => Mul(LowerOf(lu)(i, k), UpperOf(lu)(k, j))
  }

  /** Row i of the product is row piv[i] of A in column c. */
  ghost predicate ColumnFactored(A: seq<seq<real>>, piv: seq<nat>, lu: seq<seq<real>>, c: nat) {
    forall i: nat :: i < |piv| ==> Entry(A, piv[i], c) == Sum(c + 1, Term(lu, i, c))
  }

  /** Column j has had the columns before it applied, but is not scaled yet. */
  ghost predicate ColumnReduced(A: seq<seq<real>>, piv: seq<nat>, lu: seq<seq<real>>, j: nat) {
    forall i: nat :: i < |piv| ==> Entry(A, piv[i], j) == Entry(lu, i, j) + Sum(Min(i, j), Term(lu, i, j))
  }

  ghost predicate ColumnUntouched(A: seq<seq<real>>, piv: seq<nat>, lu: seq<seq<real>>, c: nat) {
    forall i: nat :: i < |piv| ==> Entry(lu, i, c) == Entry(A, piv[i], c)
  }

  /** Multipliers of column c are at most 1 in size. */
  ghost predicate ColumnBounded(lu: seq<seq<real>>, c: nat) {
    forall i: nat :: c < i < |lu| ==> -1.0 <= Entry(lu, i, c) <= 1.0
  }

  /** Columns 0..j-1 are factored, columns j.. hold the permuted matrix. */
  ghost predicate State(A: seq<seq<real>>, piv: seq<nat>, lu: seq<seq<real>>, m: nat, n: nat, j: nat) {
    && Rectangular(A, m, n) && Rectangular(lu, m, n) && |piv| == m && IsPermutation(piv)
    && (forall c: nat :: c < j ==> ColumnFactored(A, piv, lu, c) && ColumnBounded(lu, c))
    && (forall c: nat :: j <= c < n ==> ColumnUntouched(A, piv, lu, c))
  }

  /** Column j is reduced as well. */
  ghost predicate Reduced(A: seq<seq<real>>, piv: seq<nat>, lu: seq<seq<real>>, m: nat, n: nat, j: nat) {
    && Rectangular(A, m, n) && Rectangular(lu, m, n) && |piv| == m && IsPermutation(piv)
    && (forall c: nat :: c < j ==> ColumnFactored(A, piv, lu, c) && ColumnBounded(lu, c))
    && ColumnReduced(A, piv, lu, j)
    && (forall c: nat :: j < c < n ==> ColumnUntouched(A, piv, lu, c))
  }

  /** Terms depend only on the entries left of and above the one computed. */
  lemma {:induction false} TermsSame(lu: seq<seq<real>>, lu': seq<seq<real>>, i: nat, i': nat, c: nat, hi: nat)
    requires forall k: nat :: k < hi ==> LowerOf(lu')(i', k) == LowerOf(lu)(i, k)
    requires forall k: nat :: k < hi ==> UpperOf(lu')(k, c) == UpperOf(lu)(k, c)
    ensures Sum(hi, Term(lu', i', c)) == Sum(hi, Term(lu, i, c))
  {
    SumEqual(hi, Term(lu', i', c), Term(lu, i, c));
  }

  /** Changing only column j leaves the earlier columns factored. */
  lemma {:induction false} EarlierColumnsKept(A: seq<seq<real>>, piv: seq<nat>, lu: seq<seq<real>>, lu': seq<seq<real>>,
                                              j: nat, c: nat)
    requires c < j && |lu'| == |lu| && |piv| == |lu|
    requires forall i: nat, k: nat :: k != j ==> Entry(lu', i, k) == Entry(lu, i, k)
    requires ColumnFactored(A, piv, lu, c) && ColumnBounded(lu, c)
    ensures ColumnFactored(A, piv, lu', c) && ColumnBounded(lu', c)
  {
    forall i: nat | i < |piv|
      ensures Entry(A, piv[i], c) == Sum(c + 1, Term(lu', i, c))
    {
      TermsSame(lu, lu', i, i, c, c + 1);
    }
  }

  // ---------------------------------------------------------------------------------------------
  // Exchange
  // ---------------------------------------------------------------------------------------------

  lemma {:induction false} ExchangedEntries(lu: seq<seq<real>>, m: nat, n: nat, j: nat, p: nat)
    requires Rectangular(lu, m, n) && j < p < m
    ensures Rectangular(Swapped(lu, j, p), m, n)
    ensures forall i: nat, k: nat :: Entry(Swapped(lu, j, p), i, k) == Entry(lu, Other(i, j, p), k)
  {
  }

  lemma {:induction false} ExchangedColumn(A: seq<seq<real>>, piv: seq<nat>, lu: seq<seq<real>>, m: nat, n: nat,
    j: nat, p: nat, c: nat)
    requires Rectangular(lu, m, n) && |piv| == m && c < j < p < m
    requires ColumnFactored(A, piv, lu, c) && ColumnBounded(lu, c)
    ensures ColumnFactored(A, Swapped(piv, j, p), Swapped(lu, j, p), c) && ColumnBounded(Swapped(lu, j, p), c)
  {
    ExchangedEntries(lu, m, n, j, p);
    forall i: nat | i < m
      ensures Entry(A, Swapped(piv, j, p)[i], c) == Sum(c + 1, Term(Swapped(lu, j, p), i, c))
    {
      TermsSame(lu, Swapped(lu, j, p), Other(i, j, p), i, c, c + 1);
    }
  }

  lemma {:induction false} ExchangedPivotColumn(A: seq<seq<real>>, piv: seq<nat>, lu: seq<seq<real>>, m: nat, n: nat,
    j: nat, p: nat)
    requires Rectangular(lu, m, n) && |piv| == m && j < p < m
    requires ColumnReduced(A, piv, lu, j)
    ensures ColumnReduced(A, Swapped(piv, j, p), Swapped(lu, j, p), j)
  {
    ExchangedEntries(lu, m, n, j, p);
    forall i: nat | i < m
      ensures Entry(A, Swapped(piv, j, p)[i], j) ==
        Entry(Swapped(lu, j, p), i, j) + Sum(Min(i, j), Term(Swapped(lu, j, p), i, j))
    {
      TermsSame(lu, Swapped(lu, j, p), Other(i, j, p), i, j, Min(i, j));
    }
  }

  /** Swapping rows j and p > j, with their pivots, keeps everything that is known. */
  lemma {:induction false} ExchangeKeeps(A: seq<seq<real>>, piv: seq<nat>, lu: seq<seq<real>>, m: nat, n: nat, j: nat,
    p: nat)
    requires Reduced(A, piv, lu, m, n, j) && j < p < m
    ensures Reduced(A, Swapped(piv, j, p), Swapped(lu, j, p), m, n, j)
  {
    SwapKeepsPermutation(piv, j, p);
    ExchangedEntries(lu, m, n, j, p);
    ExchangedPivotColumn(A, piv, lu, m, n, j, p);
    forall c: nat | c < j
      ensures ColumnFactored(A, Swapped(piv, j, p), Swapped(lu, j, p), c) && ColumnBounded(Swapped(lu, j, p), c)
    {
      ExchangedColumn(A, piv, lu, m, n, j, p, c);
    }
    forall c: nat | j < c < n
      ensures ColumnUntouched(A, Swapped(piv, j, p), Swapped(lu, j, p), c)
    {
      assert ColumnUntouched(A, piv, lu, c);
    }
  }

  /** The row that index i comes from when j and p are swapped. */
  function Other(i: nat, j: nat, p: nat): nat {
    if i == j then p else if i == p then j else i
  }

  // ---------------------------------------------------------------------------------------------
  // Multipliers
  // ---------------------------------------------------------------------------------------------

  ghost predicate LargestPivot(lu: seq<seq<real>>, j: nat, p: nat) {
    forall i: nat :: j <= i < |lu| ==> Abs(Entry(lu, i, j)) <= Abs(Entry(lu, p, j))
  }

  function Abs(x: real): real {
    if x < 0.0 then -x else x
  }

  /** lu' is lu with column j divided by its pivot below the diagonal, if the pivot is nonzero. */
  ghost predicate Divided(lu: seq<seq<real>>, lu': seq<seq<real>>, j: nat) {
    && |lu'| == |lu| && (forall i: nat :: i < |lu| ==> |lu'[i]| == |lu[i]|)
    && (forall i: nat, k: nat :: k != j || i <= j ==> Entry(lu', i, k) == Entry(lu, i, k))
    && (forall i: nat :: j < i < |lu| ==>
         Entry(lu', i, j) == if Entry(lu, j, j) != 0.0 then Entry(lu, i, j) / Entry(lu, j, j) else Entry(lu, i, j))
  }

  lemma {:induction false} Quotient(x: real, y: real, q: real)
    requires Abs(x) <= Abs(y)
    requires q == if y != 0.0 then x / y else x
    ensures Mul(q, y) == x && -1.0 <= q <= 1.0
  {
    if y != 0.0 {
      assert q * y == x;
      if q > 1.0 {
        ProductPositive(q - 1.0, Abs(y));
      } else if q < -1.0 {
        ProductPositive(-q - 1.0, Abs(y));
      }
    }
  }

  lemma {:induction false} MultiplierTerm(lu: seq<seq<real>>, i: nat, j: nat)
    requires j < i
    ensures Sum(j + 1, Term(lu, i, j)) == Sum(j, Term(lu, i, j)) + Mul(Entry(lu, i, j), Entry(lu, j, j))
  {
    assert LowerOf(lu)(i, j) == Entry(lu, i, j) && UpperOf(lu)(j, j) == Entry(lu, j, j);
  }

  lemma {:induction false} UpperTerm(lu: seq<seq<real>>, i: nat, j: nat)
    requires i <= j
    ensures Sum(j + 1, Term(lu, i, j)) == Sum(i, Term(lu, i, j)) + Entry(lu, i, j)
  {
    assert LowerOf(lu)(i, i) == 1.0 && UpperOf(lu)(i, j) == Entry(lu, i, j);
    assert Mul(1.0, Entry(lu, i, j)) == Entry(lu, i, j);
    assert forall k: nat :: k > i ==> LowerOf(lu)(i, k) == 0.0 && Mul(0.0, UpperOf(lu)(k, j)) == 0.0;
    SumTruncate(i + 1, j + 1, Term(lu, i, j));
  }

  lemma {:induction false} DividedEntry(lu: seq<seq<real>>, lu': seq<seq<real>>, i: nat, j: nat)
    requires Divided(lu, lu', j) && i < |lu|
    requires j < |lu| ==> LargestPivot(lu, j, j)
    ensures Sum(j + 1, Term(lu', i, j)) == Entry(lu, i, j) + Sum(Min(i, j), Term(lu, i, j))
    ensures j < i ==> -1.0 <= Entry(lu', i, j) <= 1.0
  {
    TermsSame(lu, lu', i, i, j, Min(i, j));
    if i > j {
      Quotient(Entry(lu, i, j), Entry(lu, j, j), Entry(lu', i, j));
      MultiplierTerm(lu', i, j);
      assert Entry(lu', j, j) == Entry(lu, j, j);
    } else {
      UpperTerm(lu', i, j);
    }
  }

  /** Dividing by the largest pivot factors column j, even when that pivot is zero. */
  lemma {:induction false} DivideFactors(A: seq<seq<real>>, piv: seq<nat>, lu: seq<seq<real>>, lu': seq<seq<real>>,
                                         m: nat, n: nat, j: nat)
    requires Reduced(A, piv, lu, m, n, j) && j < n
    requires j < m ==> LargestPivot(lu, j, j)
    requires Divided(lu, lu', j)
    ensures State(A, piv, lu', m, n, j + 1)
  {
    forall c: nat | c < j
      ensures ColumnFactored(A, piv, lu', c) && ColumnBounded(lu', c)
    {
      EarlierColumnsKept(A, piv, lu, lu', j, c);
    }
    forall i: nat | i < m
      ensures Entry(A, piv[i], j) == Sum(j + 1, Term(lu', i, j))
      ensures j < i ==> -1.0 <= Entry(lu', i, j) <= 1.0
    {
      DividedEntry(lu, lu', i, j);
    }
    forall c: nat | j < c < n
      ensures ColumnUntouched(A, piv, lu', c)
    {
      assert ColumnUntouched(A, piv, lu, c);
    }
  }

  // ---------------------------------------------------------------------------------------------
  // Applying the earlier columns to column j
  // ---------------------------------------------------------------------------------------------

  /** Rows before i of column j are reduced, the others still hold the permuted matrix. */
  ghost predicate PartReduced(A: seq<seq<real>>, piv: seq<nat>, lu: seq<seq<real>>, j: nat, i: nat) {
    && |lu| == |piv|
    && (forall r: nat :: r < i && r < |piv| ==>
         Entry(A, piv[r], j) == Entry(lu, r, j) + Sum(Min(r, j), Term(lu, r, j)))
    && (forall r: nat :: i <= r < |piv| ==> Entry(lu, r, j) == Entry(A, piv[r], j))
  }

  lemma {:induction false} ReduceStep(A: seq<seq<real>>, piv: seq<nat>, lu: seq<seq<real>>, lu': seq<seq<real>>,
    j: nat, i: nat)
    requires PartReduced(A, piv, lu, j, i) && i < |piv| == |lu'|
    requires forall r: nat, c: nat :: r != i || c != j ==> Entry(lu', r, c) == Entry(lu, r, c)
    requires Entry(lu', i, j) == Entry(lu, i, j) - Sum(Min(i, j), Term(lu, i, j))
    ensures PartReduced(A, piv, lu', j, i + 1)
  {
    forall r: nat | r <= i
      ensures Sum(Min(r, j), Term(lu', r, j)) == Sum(Min(r, j), Term(lu, r, j))
    {
      TermsSame(lu, lu', r, r, j, Min(r, j));
    }
  }

  lemma {:induction false} AllReduced(A: seq<seq<real>>, piv: seq<nat>, lu: seq<seq<real>>, lu': seq<seq<real>>,
                                      m: nat, n: nat, j: nat)
    requires State(A, piv, lu, m, n, j) && Rectangular(lu', m, n) && j < n
    requires forall i: nat, c: nat :: c != j ==> Entry(lu', i, c) == Entry(lu, i, c)
    requires PartReduced(A, piv, lu', j, m)
    ensures Reduced(A, piv, lu', m, n, j)
  {
    forall c: nat | c < j
      ensures ColumnFactored(A, piv, lu', c) && ColumnBounded(lu', c)
    {
      EarlierColumnsKept(A, piv, lu, lu', j, c);
    }
    forall c: nat | j < c < n
      ensures ColumnUntouched(A, piv, lu', c)
    {
      assert ColumnUntouched(A, piv, lu, c);
    }
  }

  lemma {:induction false} ExchangedLargest(lu: seq<seq<real>>, m: nat, n: nat, j: nat, p: nat)
    requires Rectangular(lu, m, n) && j < p < m && LargestPivot(lu, j, p)
    ensures LargestPivot(Swapped(lu, j, p), j, j)
  {
    ExchangedEntries(lu, m, n, j, p);
  }

  lemma {:induction false} InitialState(A: seq<seq<real>>, m: nat, n: nat)
    requires Rectangular(A, m, n)
    ensures State(A, Identity(m), A, m, n, 0) && Sign(Identity(m)) == 1
  {
    SortedIsEven(Identity(m));
  }
}
