// When the elimination on column storage gives the system that the dense elimination gives.

module ZeroRowsAgree {
  import opened Sums
  import opened Dirichlet
  import opened ZeroRowsDense
  import opened ZeroRowsSparse

  /** The two eliminations give the same matrix, and the same right hand side for all data. */
  ghost predicate SameResults(st: Structure, a: (nat, nat) -> real, rows: seq<nat>, keep: bool)
    requires st.Valid()
  {
    && (forall r: nat, c: nat :: r < st.n && c < st.n ==>
          SparseConstrained(st, a, Listed(rows), keep)(r, c) == Constrained(a, Listed(rows), keep)(r, c))
    && (forall v: nat -> real, b: nat -> real, r: nat :: r < st.n ==>
          SparseMoved(st, a, rows, keep, v, b)(r) == Moved(a, st.n, Listed(rows), keep, v, b)(r))
  }

  ghost predicate DiagonalsStored(st: Structure, s: set<nat>)
    requires st.Valid()
  {
    forall i: nat :: i < st.n && i in s ==> st.Stored(i, i)
  }

  /** A nonzero of a listed row is met from its mirror image, unless its column is listed too. */
  ghost predicate RowsMirrored(st: Structure, a: (nat, nat) -> real, s: set<nat>)
    requires st.Valid()
  {
    forall r: nat, c: nat :: r < st.n && c < st.n && r in s && c !in s && a(r, c) != 0.0 ==> st.Stored(c, r)
  }

  /** No listed unknown is coupled to one that is listed for the first time after it. */
  ghost predicate NoLateCoupling(st: Structure, a: (nat, nat) -> real, rows: seq<nat>) {
    forall r: nat, c: nat :: r < st.n && c < st.n && r in rows && FirstAfter(rows, r, c) ==> a(r, c) == 0.0
  }

  ghost predicate OnPattern(st: Structure, a: (nat, nat) -> real)
    requires st.Valid()
  {
    forall r: nat, c: nat :: !st.Stored(r, c) ==> a(r, c) == 0.0
  }

  /** Sparse and dense elimination agree exactly under these three conditions on the pattern and the list. */
  lemma {:induction false} SparseMatchesDenseIff(st: Structure, a: (nat, nat) -> real, rows: seq<nat>, keep: bool)
    requires st.Valid() && OnPattern(st, a)
    ensures SameResults(st, a, rows, keep)
      <==> DiagonalsStored(st, Listed(rows)) && RowsMirrored(st, a, Listed(rows)) && NoLateCoupling(st, a, rows)
  {
    var s := Listed(rows);
    if DiagonalsStored(st, s) && RowsMirrored(st, a, s) && NoLateCoupling(st, a, rows) {
      ConditionsSuffice(st, a, rows, keep);
    }
    if SameResults(st, a, rows, keep) {
      forall i: nat | i < st.n && i in s
        ensures st.Stored(i, i)
      {
        if !st.Stored(i, i) {
          UnstoredDiagonal(st, a, rows, keep, i);
        }
      }
      forall r: nat, c: nat | r < st.n && c < st.n && r in s && c !in s && a(r, c) != 0.0
        ensures st.Stored(c, r)
      {
        assert SparseConstrained(st, a, s, keep)(r, c) == Constrained(a, s, keep)(r, c);
      }
      forall r: nat, c: nat | r < st.n && c < st.n && r in rows && FirstAfter(rows, r, c)
        ensures a(r, c) == 0.0
      {
        LateCoupling(st, a, rows, keep, r, c);
      }
    }
  }

  /** In particular for every matrix that is read from column storage. */
  lemma {:induction false} StoredMatchesDenseIff(st: Structure, values: seq<real>, rows: seq<nat>, keep: bool)
    requires st.Valid() && |values| == |st.inner|
    ensures SameResults(st, st.Values(values), rows, keep)
      <==> DiagonalsStored(st, Listed(rows)) && RowsMirrored(st, st.Values(values), Listed(rows))
           && NoLateCoupling(st, st.Values(values), rows)
  {
    SparseMatchesDenseIff(st, st.Values(values), rows, keep);
  }

  lemma {:induction false} ConditionsSuffice(st: Structure, a: (nat, nat) -> real, rows: seq<nat>, keep: bool)
    requires st.Valid() && OnPattern(st, a)
    requires DiagonalsStored(st, Listed(rows)) && RowsMirrored(st, a, Listed(rows)) && NoLateCoupling(st, a, rows)
    ensures SameResults(st, a, rows, keep)
  {
    forall v: nat -> real, b: nat -> real, r: nat | r < st.n
      ensures SparseMoved(st, a, rows, keep, v, b)(r) == Moved(a, st.n, Listed(rows), keep, v, b)(r)
    {
      if r in rows {
        assert r in Listed(rows) && st.Stored(r, r);
        SumZero(st.n, LateTerm(a, rows, v, r));
      }
    }
  }

  lemma {:induction false} UnstoredDiagonal(st: Structure, a: (nat, nat) -> real, rows: seq<nat>, keep: bool, i: nat)
    requires st.Valid() && i < st.n && i in rows && !st.Stored(i, i)
    ensures exists v: nat -> real, b: nat -> real ::
      SparseMoved(st, a, rows, keep, v, b)(i) != Moved(a, st.n, Listed(rows), keep, v, b)(i)
  {
    var zero, one := (c: nat) => 0.0, (r: nat) => 1.0;
    forall c: nat | c < st.n
      ensures MovedTerm(a, Listed(rows), zero, i)(c) == 0.0
    {
      assert Mul(a(i, c), zero(c)) == 0.0;
    }
    SumZero(st.n, MovedTerm(a, Listed(rows), zero, i));
    assert Mul(Kept(a, keep, i), zero(i)) == 0.0;
    assert SparseMoved(st, a, rows, keep, zero, one)(i) == 1.0;
    assert Moved(a, st.n, Listed(rows), keep, zero, one)(i) == 0.0;
  }

  lemma {:induction false} LateCoupling(st: Structure, a: (nat, nat) -> real, rows: seq<nat>, keep: bool, r: nat,
    c: nat)
    requires st.Valid() && r < st.n && c < st.n && r in rows && FirstAfter(rows, r, c)
    requires st.Stored(r, r)
    requires forall v: nat -> real, b: nat -> real ::
      SparseMoved(st, a, rows, keep, v, b)(r) == Moved(a, st.n, Listed(rows), keep, v, b)(r)
    ensures a(r, c) == 0.0
  {
    var unit := (j: nat) => if j == c then 1.0 else 0.0;
    assert c != r;
    forall j: nat | j < st.n && j != c
      ensures LateTerm(a, rows, unit, r)(j) == 0.0
    {
      assert Mul(a(r, j), unit(j)) == 0.0;
    }
    assert Mul(a(r, c), unit(c)) == a(r, c) && Mul(Kept(a, keep, r), unit(r)) == 0.0;
    SumPoint(st.n, c, LateTerm(a, rows, unit, r));
    assert SparseMoved(st, a, rows, keep, unit, unit)(r) == 0.0 - a(r, c);
    assert Moved(a, st.n, Listed(rows), keep, unit, unit)(r) == 0.0;
  }

  /** Two coupled unknowns listed one after the other: the first is not imposed by the sparse elimination. */
  lemma {:induction false} CoupledUnknownsDisagree(st: Structure, a: (nat, nat) -> real, keep: bool, i: nat, j: nat)
    requires st.Valid() && OnPattern(st, a) && i < st.n && j < st.n && i != j && a(i, j) != 0.0
    ensures !SameResults(st, a, [i, j], keep)
  {
    var rows := [i, j];
    assert rows[1] == j && rows[..1] == [i] && rows[1..] == [j];
    assert FirstAfter(rows, i, j);
    assert i in rows;
    SparseMatchesDenseIff(st, a, rows, keep);
  }

  /** Two unknowns, every entry stored. */
  function TwoByTwo(): (st: Structure)
    ensures st.n == 2 && st.outer == [0, 2, 4] && st.inner == [0, 1, 0, 1]
  {
    Structure(2, [0, 2, 4], [0, 1, 0, 1])
  }

  lemma {:induction false} TwoByTwoIsValid(st: Structure)
    requires st.n == 2 && st.outer == [0, 2, 4] && st.inner == [0, 1, 0, 1]
    ensures st.Valid() && st.outer[0] == 0 && st.outer[1] == 2 && st.outer[2] == 4
    ensures st.inner[0] == 0 && st.inner[1] == 1 && st.inner[2] == 0 && st.inner[3] == 1
  {
    assert st.outer[0] == 0 && st.outer[1] == 2 && st.outer[2] == 4;
    assert st.inner[0] == 0 && st.inner[1] == 1 && st.inner[2] == 0 && st.inner[3] == 1;
    assert st.OnceEach(0) && st.OnceEach(1);
  }

  lemma {:induction false} TwoByTwoIsFull(st: Structure)
    requires st.n == 2 && st.outer == [0, 2, 4] && st.inner == [0, 1, 0, 1] && st.Valid()
    ensures forall r: nat, c: nat :: r < 2 && c < 2 ==> st.Stored(r, c)
  {
    TwoByTwoIsValid(st);
    assert st.At(0, 0, 0) && st.At(1, 1, 0) && st.At(2, 0, 1) && st.At(3, 1, 1);
  }

  /** What is left for the first of two listed unknowns: its final value, which the second one's column has changed
      once more. */
  lemma {:induction false} CoupledValue(st: Structure, a: (nat, nat) -> real, keep: bool, v: nat -> real,
    b: nat -> real, i: nat, j: nat)
    requires st.Valid() && i < st.n && j < st.n && i != j && st.Stored(i, i)
    ensures SparseMoved(st, a, [i, j], keep, v, b)(i) == Mul(Kept(a, keep, i), v(i)) - Mul(a(i, j), v(j))
  {
    var rows := [i, j];
    assert rows[1] == j && rows[..1] == [i] && rows[1..] == [j] && rows[0..] == rows;
    assert FirstAfter(rows, i, j);
    forall c: nat | c < st.n && c != j
      ensures LateTerm(a, rows, v, i)(c) == 0.0
    {
      assert !FirstAfter(rows, i, c);
    }
    SumPoint(st.n, j, LateTerm(a, rows, v, i));
  }

  /** Such a matrix: every entry equal to one. */
  lemma {:induction false} CoupledExample()
    ensures TwoByTwo().Valid() &&
      !SameResults(TwoByTwo(), (r: nat, c: nat) => if r < 2 && c < 2 then 1.0 else 0.0, [0, 1], true)
  {
    TwoByTwoIsValid(TwoByTwo());
    TwoByTwoIsFull(TwoByTwo());
    CoupledUnknownsDisagree(TwoByTwo(), (r: nat, c: nat) => if r < 2 && c < 2 then 1.0 else 0.0, true, 0, 1);
  }
}
