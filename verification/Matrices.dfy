// Two-dimensional arrays and the matrices they hold.

module Matrices {

  /** The entries of an array, row by row. */
  ghost function Contents(a: array2<real>): (rows: seq<seq<real>>)
    reads a
    ensures |rows| == a.Length0
    ensures forall i: nat :: i < |rows| ==> |rows[i]| == a.Length1
    ensures forall i: nat, j: nat :: i < a.Length0 && j < a.Length1 ==> rows[i][j] == a[i, j]
  {
    seq(a.Length0, (i: int) requires 0 <= i < a.Length0 reads a =>
      seq(a.Length1, (j: int) requires 0 <= j < a.Length1 reads a => a[i, j]))
  }

  predicate Rectangular(rows: seq<seq<real>>, m: nat, n: nat) {
    |rows| == m && forall i: nat :: i < m ==> |rows[i]| == n
  }

  /** Entry (i, j) of a matrix; zero outside it. */
  function Entry(rows: seq<seq<real>>, i: nat, j: nat): real {
    if i < |rows| && j < |rows[i]| then rows[i][j] else 0.0
  }

  function Mat(rows: seq<seq<real>>): (nat, nat) -> real {
    (i: nat, j: nat) => Entry(rows, i, j)
  }
}
