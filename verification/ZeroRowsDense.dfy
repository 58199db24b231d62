// The elimination of listed unknowns on a dense matrix, in place.

module ZeroRowsDense {
  import opened Sums
  import opened Systems
  import opened Matrices
  import opened Dirichlet

  function Listed(rows: seq<nat>): set<nat> {
    set r | r in rows
  }

  /** One more unknown: what column i still holds is moved to the right hand side. */
  lemma {:induction false} MovedStep(a: (nat, nat) -> real, n: nat, s: set<nat>, keep: bool, v: nat -> real,
    b: nat -> real, i: nat, r: nat)
    requires i < n && r < n && r != i
    ensures Moved(a, n, s + {i}, keep, v, b)(r)
      == Moved(a, n, s, keep, v, b)(r) - Mul(Constrained(a, s, keep)(r, i), v(i))
  {
    var f, g := MovedTerm(a, s, v, r), MovedTerm(a, s + {i}, v, r);
    if r in s {
    } else if i in s {
      SumEqual(n, f, g);
    } else {
      SumUpdate(n, i, f, g);
    }
  }

  method ZeroRow(mat: array2<real>, i: nat, v: real, rhs: array<real>, keep: bool)
    requires mat.Length0 == mat.Length1 == rhs.Length && i < rhs.Length
    modifies mat, rhs
    ensures forall r: nat, c: nat :: r < rhs.Length && c < rhs.Length ==>
      mat[r, c] == if r == i && c == i then (if keep then old(mat[i, i]) else 1.0)
                   else if r == i || c == i then 0.0 else old(mat[r, c])
    ensures forall r: nat :: r < rhs.Length ==>
      rhs[r] == if r == i then Mul(mat[i, i], v) else old(rhs[r]) - Mul(old(mat[r, i]), v)
  {
    var n := rhs.Length;
    var value := 1.0;
    if keep {
      value := mat[i, i];
    }
    forall c | 0 <= c < n {
      mat[i, c] := 0.0;
    }
    forall r | 0 <= r < n {
      rhs[r] := rhs[r] - Mul(mat[r, i], v);
    }
    forall r | 0 <= r < n {
      mat[r, i] := 0.0;
    }
    mat[i, i] := value;
    rhs[i] := Mul(value, v);
  }

  /** One listed unknown, on a system in which those of s have been eliminated. */
  method ZeroListed(mat: array2<real>, i: nat, vals: seq<real>, rhs: array<real>, keep: bool,
    ghost a: (nat, nat) -> real, ghost b: nat -> real, ghost s: set<nat>)
    requires mat.Length0 == mat.Length1 == rhs.Length == |vals| && i < rhs.Length
    requires forall r: nat, c: nat :: r < rhs.Length && c < rhs.Length ==> mat[r, c] == Constrained(a, s, keep)(r, c)
    requires forall r: nat :: r < rhs.Length ==> rhs[r] == Moved(a, rhs.Length, s, keep, Vec(vals), b)(r)
    modifies mat, rhs
    ensures forall r: nat, c: nat :: r < rhs.Length && c < rhs.Length ==>
      mat[r, c] == Constrained(a, s + {i}, keep)(r, c)
    ensures forall r: nat :: r < rhs.Length ==> rhs[r] == Moved(a, rhs.Length, s + {i}, keep, Vec(vals), b)(r)
  {
    ghost var n := rhs.Length;
    assert Vec(vals)(i) == vals[i];
    ZeroRow(mat, i, vals[i], rhs, keep);
    assert mat[i, i] == Kept(a, keep, i);
    forall r: nat | r < n && r != i
      ensures rhs[r] == Moved(a, n, s + {i}, keep, Vec(vals), b)(r)
    {
      MovedStep(a, n, s, keep, Vec(vals), b, i, r);
    }
  }

  method ZeroRows(mat: array2<real>, rows: seq<nat>, vals: seq<real>, rhs: array<real>, keep: bool)
    requires mat.Length0 == mat.Length1 == rhs.Length == |vals|
    requires forall k: nat :: k < |rows| ==> rows[k] < rhs.Length
    modifies mat, rhs
    ensures forall r: nat, c: nat :: r < rhs.Length && c < rhs.Length ==>
      mat[r, c] == Constrained(old(Mat(Contents(mat))), Listed(rows), keep)(r, c)
    ensures forall r: nat :: r < rhs.Length ==>
      rhs[r] == Moved(old(Mat(Contents(mat))), rhs.Length, Listed(rows), keep, Vec(vals), Vec(old(rhs[..])))(r)
    ensures (forall i: nat :: i in Listed(rows) ==> !keep || old(mat[i, i]) != 0.0) ==>
      forall x: nat -> real ::
        Agree(rhs.Length, LTimes(Mat(Contents(mat)), rhs.Length, x), Vec(rhs[..]))
        <==> Imposed(old(Mat(Contents(mat))), rhs.Length, Listed(rows), Vec(vals), Vec(old(rhs[..])), x)
  {
    ghost var a, b, n := Mat(Contents(mat)), Vec(rhs[..]), rhs.Length;
    NothingListed(a, n, keep, Vec(vals), b);
    for k := 0 to |rows|
      invariant forall r: nat, c: nat :: r < n && c < n ==>
        mat[r, c] == Constrained(a, Listed(rows[..k]), keep)(r, c)
      invariant forall r: nat :: r < n ==> rhs[r] == Moved(a, n, Listed(rows[..k]), keep, Vec(vals), b)(r)
    {
      var i := rows[k];
      ghost var s := Listed(rows[..k]);
      assert Listed(rows[..k + 1]) == s + {i} by {
        assert rows[..k + 1] == rows[..k] + [i];
      }
      ZeroListed(mat, i, vals, rhs, keep, a, b, s);
    }
    assert rows[..|rows|] == rows;
    if forall i: nat :: i in Listed(rows) ==> !keep || old(mat[i, i]) != 0.0 {
      SameSystem(a, b, Mat(Contents(mat)), Vec(rhs[..]), n, Listed(rows), keep, Vec(vals));
    }
  }

  lemma {:induction false} SameSystem(a: (nat, nat) -> real, b: nat -> real, k: (nat, nat) -> real, c: nat -> real,
    n: nat, s: set<nat>, keep: bool, v: nat -> real)
    requires forall i: nat :: i in s ==> Kept(a, keep, i) != 0.0
    requires forall r: nat, q: nat :: r < n && q < n ==> k(r, q) == Constrained(a, s, keep)(r, q)
    requires forall r: nat :: r < n ==> c(r) == Moved(a, n, s, keep, v, b)(r)
    ensures forall x: nat -> real :: Agree(n, LTimes(k, n, x), c) <==> Imposed(a, n, s, v, b, x)
  {
    forall x: nat -> real
      ensures Agree(n, LTimes(k, n, x), c) <==> Imposed(a, n, s, v, b, x)
    {
      forall r: nat | r < n
        ensures LTimes(k, n, x)(r) == LTimes(Constrained(a, s, keep), n, x)(r)
      {
        SumEqual(n, RowTerm(k, r, x), RowTerm(Constrained(a, s, keep), r, x));
      }
      RewritingKeepsMeaning(a, n, s, keep, v, b, x);
    }
  }

  lemma {:induction false} NothingListed(a: (nat, nat) -> real, n: nat, keep: bool, v: nat -> real, b: nat -> real)
    ensures forall r: nat, c: nat :: r < n && c < n ==> Constrained(a, Listed([]), keep)(r, c) == a(r, c)
    ensures forall r: nat :: r < n ==> Moved(a, n, Listed([]), keep, v, b)(r) == b(r)
  {
    forall r: nat | r < n
      ensures Moved(a, n, Listed([]), keep, v, b)(r) == b(r)
    {
      SumZero(n, MovedTerm(a, Listed([]), v, r));
    }
  }
}
