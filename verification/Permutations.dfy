// Permutations as sequences, and the parity of the swaps that build them.

module Permutations {

  /** s lists 0..|s|-1, each once. */
  ghost predicate IsPermutation(s: seq<nat>) {
    (forall i: nat :: i < |s| ==> s[i] < |s|) && Distinct(s)
  }

  /** No two entries are equal. */
  ghost predicate Distinct(s: seq<nat>) {
    forall i: nat :: i < |s| ==> OnlyAt(s, i)
  }

  ghost predicate OnlyAt(s: seq<nat>, i: nat) {
    i < |s| && forall j: nat :: j < |s| && j != i ==> s[j] != s[i]
  }

  function Swapped<T>(s: seq<T>, i: nat, j: nat): (r: seq<T>)
    requires i < |s| && j < |s|
    ensures |r| == |s|
  {
    s[i := s[j]][j := s[i]]
  }

  lemma {:induction false} SwapKeepsPermutation(s: seq<nat>, i: nat, j: nat)
    requires IsPermutation(s) && i < |s| && j < |s|
    ensures IsPermutation(Swapped(s, i, j))
  {
    SwapKeepsDistinct(s, i, j);
  }

  lemma {:induction false} SwapKeepsDistinct(s: seq<nat>, i: nat, j: nat)
    requires Distinct(s) && i < |s| && j < |s|
    ensures Distinct(Swapped(s, i, j))
  {
    forall k: nat | k < |s|
      ensures OnlyAt(Swapped(s, i, j), k)
    {
      assert OnlyAt(s, if k == i then j else if k == j then i else k);
    }
  }

  // ---------------------------------------------------------------------------------------------
  // Every value is hit
  // ---------------------------------------------------------------------------------------------

  lemma {:induction false} RemovedIsDistinct(s: seq<nat>, i: nat)
    requires Distinct(s) && i < |s|
    ensures var t := s[..i] + s[i + 1..];
      Distinct(t) && forall k: nat :: k < |t| ==> t[k] == if k < i then s[k] else s[k + 1]
  {
    var t := s[..i] + s[i + 1..];
    forall k: nat | k < |t|
      ensures OnlyAt(t, k)
    {
      assert OnlyAt(s, if k < i then k else k + 1);
    }
  }

  lemma {:induction false} ReplacedIsDistinct(s: seq<nat>, i: nat, v: nat)
    requires Distinct(s) && i < |s| && v !in s
    ensures Distinct(s[i := v])
  {
    var t := s[i := v];
    forall k: nat | k < |t|
      ensures OnlyAt(t, k)
    {
      assert OnlyAt(s, k);
    }
  }

  /** A permutation reaches every index: otherwise its values fitted below |s| - 1. */
  lemma {:induction false} PermutationHits(s: seq<nat>, v: nat)
    requires IsPermutation(s) && v < |s|
    ensures v in s
  {
    if v !in s {
      var n := |s| - 1;
      if n in s {
        assert OnlyAt(s, IndexOf(s, n));
        ReplacedIsDistinct(s, IndexOf(s, n), v);
        Fits(s[IndexOf(s, n) := v], n);
      } else {
        Fits(s, n);
      }
    }
  }

  function IndexOf(s: seq<nat>, v: nat): (i: nat)
    requires v in s
    ensures i < |s| && s[i] == v
  {
    if s[0] == v then 0 else 1 + IndexOf(s[1..], v)
  }

  lemma {:induction false} FirstIsIn(s: seq<nat>)
    ensures s == [] || s[0] in s
  {
  }

  /** At most n distinct values are below n. */
  lemma {:induction false} Fits(s: seq<nat>, n: nat)
    requires Distinct(s) && forall i: nat :: i < |s| ==> s[i] < n
    ensures |s| <= n
    decreases n
  {
    if n == 0 {
      FirstIsIn(s);
    } else if n - 1 in s {
      var i := IndexOf(s, n - 1);
      assert OnlyAt(s, i);
      RemovedIsDistinct(s, i);
      Fits(s[..i] + s[i + 1..], n - 1);
    } else {
      assert forall i: nat :: i < |s| ==> s[i] in s;
      Fits(s, n - 1);
    }
  }

  // ---------------------------------------------------------------------------------------------
  // Parity
  // ---------------------------------------------------------------------------------------------

  /** How many elements of s are below x. */
  function CountBelow(s: seq<nat>, x: nat): nat {
    if s == [] then 0 else CountBelow(s[1..], x) + (if s[0] < x then 1 else 0)
  }

  /** The number of pairs listed in the wrong order. */
  function Inversions(s: seq<nat>): nat {
    if s == [] then 0 else CountBelow(s[1..], s[0]) + Inversions(s[1..])
  }

  /** +1 for an even permutation, -1 for an odd one. */
  function Sign(s: seq<nat>): int {
    if Inversions(s) % 2 == 0 then 1 else -1
  }

  lemma {:induction false} CountBelowSwap(s: seq<nat>, i: nat, x: nat)
    requires i + 1 < |s|
    ensures CountBelow(Swapped(s, i, i + 1), x) == CountBelow(s, x)
  {
    var t := Swapped(s, i, i + 1);
    if i == 0 {
      assert s[1..][0] == s[1] && t[1..][0] == t[1] && s[1..][1..] == t[1..][1..];
    } else {
      CountBelowSwap(s[1..], i - 1, x);
      assert t[1..] == Swapped(s[1..], i - 1, i);
    }
  }

  /** Swapping two distinct neighbours changes the number of inversions by one. */
  lemma {:induction false} NeighbourSwap(s: seq<nat>, i: nat)
    requires i + 1 < |s| && s[i] != s[i + 1]
    ensures Inversions(Swapped(s, i, i + 1)) == Inversions(s) + (if s[i] < s[i + 1] then 1 else -1)
  {
    var t := Swapped(s, i, i + 1);
    if i == 0 {
      var rest := s[2..];
      assert s[1..][1..] == rest && t[1..][1..] == rest && t[0] == s[1] && t[1] == s[0];
      assert Inversions(s)
          == CountBelow(rest, s[0]) + (if s[1] < s[0] then 1 else 0) + CountBelow(rest, s[1]) + Inversions(rest);
      assert Inversions(t)
          == CountBelow(rest, s[1]) + (if s[0] < s[1] then 1 else 0) + CountBelow(rest, s[0]) + Inversions(rest);
    } else {
      CountBelowSwap(s[1..], i - 1, s[0]);
      assert t[1..] == Swapped(s[1..], i - 1, i);
      NeighbourSwap(s[1..], i - 1);
    }
  }

  lemma {:induction false} NeighbourFlips(s: seq<nat>, i: nat)
    requires Distinct(s) && i + 1 < |s|
    ensures Sign(Swapped(s, i, i + 1)) == -Sign(s)
  {
    assert OnlyAt(s, i);
    NeighbourSwap(s, i);
  }

  /** Swapping any two distinct entries flips the parity. */
  lemma {:induction false} SwapFlips(s: seq<nat>, i: nat, j: nat)
    requires i < j < |s|
    requires Distinct(s)
    ensures Sign(Swapped(s, i, j)) == -Sign(s)
    decreases j - i
  {
    NeighbourFlips(s, i);
    if j > i + 1 {
      var s1 := Swapped(s, i, i + 1);
      var s2 := Swapped(s1, i + 1, j);
      SwapKeepsDistinct(s, i, i + 1);
      SwapKeepsDistinct(s1, i + 1, j);
      SwapFlips(s1, i + 1, j);
      NeighbourFlips(s2, i);
      assert Swapped(s2, i, i + 1) == Swapped(s, i, j);
    }
  }

  function Identity(n: nat): (s: seq<nat>)
    ensures |s| == n && forall i: nat :: i < n ==> s[i] == i
  {
    seq(n, (i: nat) => i)
  }

  lemma {:induction false} SortedIsEven(s: seq<nat>)
    requires forall i: nat, j: nat :: i < j < |s| ==> s[i] < s[j]
    ensures Inversions(s) == 0
  {
    if s == [] {
    } else {
      NoneBelow(s[1..], s[0]);
      SortedIsEven(s[1..]);
    }
  }

  lemma {:induction false} NoneBelow(s: seq<nat>, x: nat)
    requires forall i: nat :: i < |s| ==> x <= s[i]
    ensures CountBelow(s, x) == 0
  {
    if s == [] {
    } else {
      NoneBelow(s[1..], x);
    }
  }
}
