// Consecutive intervals given by their lengths: the numbering every distribution of indices starts from.

module Intervals {

  /** Where interval k starts. */
  function Start(f: nat -> nat, k: nat): nat {
    if k == 0 then 0 else Start(f, k - 1) + f(k - 1)
  }

  lemma {:induction false} StartGrows(f: nat -> nat, j: nat, k: nat)
    requires j <= k
    ensures Start(f, j) <= Start(f, k)
    ensures j < k ==> Start(f, j) + f(j) <= Start(f, k)
  {
    if j >= k {
    } else {
      StartGrows(f, j, k - 1);
    }
  }

  ghost predicate In(f: nat -> nat, k: nat, x: int) {
    Start(f, k) <= x < Start(f, k) + f(k)
  }

  /** Every number below the end lies in an interval. */
  lemma {:induction false} Covered(f: nat -> nat, n: nat, x: nat) returns (k: nat)
    requires x < Start(f, n)
    ensures k < n && In(f, k, x)
  {
    if x >= Start(f, n - 1) {
      k := n - 1;
    } else {
      k := Covered(f, n - 1, x);
    }
  }

  /** In no two of them. */
  lemma {:induction false} Disjoint(f: nat -> nat, j: nat, k: nat, x: int)
    requires In(f, j, x) && In(f, k, x)
    ensures j == k
  {
    if j < k {
      StartGrows(f, j, k);
    } else if k < j {
      StartGrows(f, k, j);
    }
  }

  lemma {:induction false} InsideEnd(f: nat -> nat, n: nat, k: nat, x: int)
    requires k < n && In(f, k, x)
    ensures 0 <= x < Start(f, n)
  {
    StartGrows(f, k, n);
  }

  lemma {:induction false} SameStarts(f: nat -> nat, g: nat -> nat, k: nat)
    requires forall i: nat :: i < k ==> f(i) == g(i)
    ensures Start(f, k) == Start(g, k)
  {
    if k == 0 {
    } else {
      SameStarts(f, g, k - 1);
    }
  }
}
