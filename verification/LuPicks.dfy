// Which rows partial pivoting exchanges: in every column the first of the largest entries.

module LuPicks {
  import opened Matrices
  import opened Permutations
  import opened LuSteps

  /** The order of the rows after the exchanges of the first columns, picks[c] being the row column c exchanges. */
  function Picked(m: nat, picks: seq<nat>): (s: seq<nat>)
    ensures |s| == m
  {
    if picks == [] then Identity(m)
    else
      var s, c := Picked(m, picks[..|picks| - 1]), |picks| - 1;
      if c < m && picks[c] < m then Swapped(s, c, picks[c]) else s
  }

  /** Row p of column j is larger than the rows from j to it. */
  ghost predicate LargerThanBefore(lu: seq<seq<real>>, j: nat, p: nat) {
    forall i: nat :: j <= i < p && i < |lu| ==> Abs(Entry(lu, i, j)) < Abs(Entry(lu, p, j))
  }

  /** Every row that stood before the picked one was smaller: its multiplier, wherever the row is now, is below 1. */
  ghost predicate PickedFirst(m: nat, piv: seq<nat>, lu: seq<seq<real>>, picks: seq<nat>, c: nat) {
    && c < |picks| && picks[c] >= c
    && forall i: nat, q: nat :: c <= i < picks[c] && i < m && q < |piv| && piv[q] == Picked(m, picks[..c])[i] ==>
         c < q && Entry(lu, c, c) != 0.0 && Abs(Entry(lu, q, c)) < 1.0
  }

  /** piv is the outcome of picking the first of the largest rows in each of the first columns. */
  ghost predicate Picks(m: nat, piv: seq<nat>, lu: seq<seq<real>>, picks: seq<nat>) {
    piv == Picked(m, picks) && forall c: nat :: c < |picks| ==> PickedFirst(m, piv, lu, picks, c)
  }

  /** Later columns do not matter. */
  lemma {:induction false} PicksKept(m: nat, piv: seq<nat>, lu: seq<seq<real>>, lu': seq<seq<real>>,
    picks: seq<nat>)
    requires Picks(m, piv, lu, picks)
    requires forall q: nat, c: nat :: c < |picks| ==> Entry(lu', q, c) == Entry(lu, q, c)
    ensures Picks(m, piv, lu', picks)
  {
    forall c: nat | c < |picks|
      ensures PickedFirst(m, piv, lu', picks, c)
    {
      assert PickedFirst(m, piv, lu, picks, c);
    }
  }

  /** Nor does exchanging later rows, when piv follows. */
  lemma {:induction false} ExchangeKeepsFirst(m: nat, n: nat, piv: seq<nat>, lu: seq<seq<real>>, picks: seq<nat>,
    p: nat, c: nat)
    requires Rectangular(lu, m, n) && |piv| == m && c < |picks| < p < m
    requires PickedFirst(m, piv, lu, picks, c)
    ensures PickedFirst(m, Swapped(piv, |picks|, p), Swapped(lu, |picks|, p), picks, c)
  {
    var j := |picks|;
    forall i: nat, q: nat
      | c <= i < picks[c] && i < m && q < m && Swapped(piv, j, p)[q] == Picked(m, picks[..c])[i]
      ensures c < q && Entry(lu, c, c) != 0.0 && Abs(Entry(Swapped(lu, j, p), q, c)) < 1.0
    {
      var o := Other(q, j, p);
      assert piv[o] == Swapped(piv, j, p)[q] && Swapped(lu, j, p)[q] == lu[o];
    }
    assert Entry(Swapped(lu, j, p), c, c) == Entry(lu, c, c);
  }

  lemma {:induction false} Below(x: real, y: real)
    requires Abs(x) < Abs(y)
    ensures y != 0.0 && Abs(x / y) < 1.0
  {
    var q := x / y;
    assert q * y == x;
    if q >= 1.0 {
      Grows(q, y);
    } else if q <= -1.0 {
      Grows(-q, y);
    }
  }

  lemma {:induction false} Grows(q: real, y: real)
    requires q >= 1.0
    ensures Abs(q * y) >= Abs(y)
  {
    if y >= 0.0 {
      assert (q - 1.0) * y >= 0.0;
    } else {
      assert (q - 1.0) * -y >= 0.0;
    }
  }

  /** A new column: the first of the largest rows is exchanged with row j, and the rows below are divided by it. */
  lemma {:induction false} NewColumn(m: nat, n: nat, piv: seq<nat>, lu: seq<seq<real>>, lu': seq<seq<real>>,
    picks: seq<nat>, p: nat)
    requires Rectangular(lu, m, n) && piv == Picked(m, picks) && Distinct(piv)
    requires |picks| <= p && (p < m || p == |picks|) && LargerThanBefore(lu, |picks|, p)
    requires Divided(if p < m then Swapped(lu, |picks|, p) else lu, lu', |picks|)
    ensures Picked(m, picks + [p]) == if p < m then Swapped(piv, |picks|, p) else piv
    ensures PickedFirst(m, Picked(m, picks + [p]), lu', picks + [p], |picks|)
  {
    var j, picks' := |picks|, picks + [p];
    assert picks'[..j] == picks && picks'[j] == p;
    var piv' := Picked(m, picks');
    forall i: nat, q: nat | j <= i < p && i < m && q < m && piv'[q] == piv[i]
      ensures j < q && Entry(lu', j, j) != 0.0 && Abs(Entry(lu', q, j)) < 1.0
    {
      assert piv'[q] == piv[Other(q, j, p)];
      assert OnlyAt(piv, i);
      assert Other(q, j, p) == i;
      Below(Entry(lu, i, j), Entry(lu, p, j));
      assert Swapped(lu, j, p)[q] == lu[i] && Swapped(lu, j, p)[j] == lu[p];
    }
  }

  lemma SwapSame(piv: seq<nat>, lu: seq<seq<real>>, p: nat)
    requires p < |piv| == |lu|
    ensures Swapped(piv, p, p) == piv && Swapped(lu, p, p) == lu
  {
  }

  lemma {:induction false} EarlierKept(m: nat, n: nat, piv: seq<nat>, lu: seq<seq<real>>, picks: seq<nat>, p: nat,
    c: nat)
    requires Rectangular(lu, m, n) && |piv| == m && c < |picks| <= p && PickedFirst(m, piv, lu, picks, c)
    ensures PickedFirst(m, if p < m then Swapped(piv, |picks|, p) else piv,
                        if p < m then Swapped(lu, |picks|, p) else lu, picks, c)
  {
    if |picks| < p < m {
      ExchangeKeepsFirst(m, n, piv, lu, picks, p, c);
    } else if p < m {
      assert Swapped(piv, p, p) == piv && Swapped(lu, p, p) == lu;
    }
  }

  lemma {:induction false} DividingKeeps(m: nat, piv: seq<nat>, lu: seq<seq<real>>, lu': seq<seq<real>>,
    picks: seq<nat>, p: nat, c: nat)
    requires c < |picks| && PickedFirst(m, piv, lu, picks, c) && Divided(lu, lu', |picks|)
    ensures PickedFirst(m, piv, lu', picks + [p], c)
  {
    assert (picks + [p])[..c] == picks[..c] && (picks + [p])[c] == picks[c];
  }

  /** One column more. */
  lemma {:induction false} PickNext(m: nat, n: nat, piv: seq<nat>, lu: seq<seq<real>>, lu': seq<seq<real>>,
    picks: seq<nat>, p: nat)
    requires Rectangular(lu, m, n) && Picks(m, piv, lu, picks) && Distinct(piv)
    requires |picks| <= p && (p < m || p == |picks|) && LargerThanBefore(lu, |picks|, p)
    requires Divided(if p < m then Swapped(lu, |picks|, p) else lu, lu', |picks|)
    ensures Picks(m, if p < m then Swapped(piv, |picks|, p) else piv, lu', picks + [p])
  {
    var j, picks' := |picks|, picks + [p];
    var piv', mid := if p < m then Swapped(piv, j, p) else piv, if p < m then Swapped(lu, j, p) else lu;
    NewColumn(m, n, piv, lu, lu', picks, p);
    forall c: nat | c < j
      ensures PickedFirst(m, piv', lu', picks', c)
    {
      assert PickedFirst(m, piv, lu, picks, c);
      EarlierKept(m, n, piv, lu, picks, p, c);
      DividingKeeps(m, piv', mid, lu', picks, p, c);
    }
  }
}
