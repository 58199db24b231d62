// Where the factor L of a sparse matrix has entries, and the elimination tree that predicts it.

module Pattern {
  import opened Sums

  /** A matrix in compressed column form: column k is ai/ax[ap[k]..ap[k+1]]. */
  datatype Columns = Columns(n: nat, ap: seq<nat>, ai: seq<nat>, ax: seq<real>) {

    /** What valid_matrix checks, with the array lengths the pointers stand for. */
    ghost predicate Valid() {
      && Shaped()
      && (forall j: nat :: j < n ==> ap[j] <= ap[j + 1])
      && (forall p: nat :: p < ap[n] ==> ai[p] < n)
    }

    ghost predicate Shaped() {
      |ap| == n + 1 && ap[n] <= |ai| && ap[n] <= |ax|
    }

    /** Entry (i, k): the duplicates stored at positions lo..hi-1 for row i, summed. */
    function Summed(lo: nat, hi: nat, i: nat): real {
      if lo >= hi then 0.0
      else Summed(lo, hi - 1, i) + (if hi <= |ai| && hi <= |ax| && ai[hi - 1] == i then ax[hi - 1] else 0.0)
    }

    function Entry(i: nat, k: nat): real {
      if k + 1 < |ap| then Summed(ap[k], ap[k + 1], i) else 0.0
    }

    /** What position p contributes to entry (i, k). */
    function StoredTerm(i: nat, k: nat): nat -> real {
      (p: nat) =>
        if k + 1 < |ap| && ap[k] <= p < ap[k + 1] && p < |ai| && p < |ax| && ai[p] == i then ax[p] else 0.0
    }

    /** The matrix the caller stored: entry (i, k) sums the values of all positions of column k with row i. */
    function Matrix(): (nat, nat) -> real {
      (i: nat, k: nat) => Sum(|ai|, StoredTerm(i, k))
    }

    /** The upper triangle of the symmetric matrix these columns stand for. */
    function Entries(): (nat, nat) -> real {
      (i: nat, k: nat) => Entry(i, k)
    }

    /** Entry i of column k is stored (perhaps several times, perhaps as a zero). */
    ghost predicate Stored(i: nat, k: nat)
      requires Valid()
    {
      k < n && StoredBefore(i, k, ap[k + 1])
    }

    ghost predicate StoredBefore(i: nat, k: nat, hi: nat)
      requires Valid() && k < n
    {
      exists p: nat :: ap[k] <= p < hi && p < |ai| && ai[p] == i
    }
  }

  lemma {:induction false} SummedIsSum(m: Columns, i: nat, k: nat, hi: nat)
    requires m.Valid() && k < m.n && m.ap[k] <= hi <= m.ap[k + 1] <= |m.ai| && m.ap[k + 1] <= |m.ax|
    ensures m.Summed(m.ap[k], hi, i) == Sum(hi, m.StoredTerm(i, k))
  {
    if hi == m.ap[k] {
      SumZero(hi, m.StoredTerm(i, k));
    } else {
      SummedIsSum(m, i, k, hi - 1);
      assert m.StoredTerm(i, k)(hi - 1) == if m.ai[hi - 1] == i then m.ax[hi - 1] else 0.0;
    }
  }

  /** The entries that the elimination starts from are those of the stored matrix. */
  lemma {:induction false} EntryIsStored(m: Columns, i: nat, k: nat)
    requires m.Valid() && k < m.n
    ensures m.Entry(i, k) == m.Matrix()(i, k)
  {
    ColumnsInRange(m, k, k + 1);
    SummedIsSum(m, i, k, m.ap[k + 1]);
    SumTruncate(m.ap[k + 1], |m.ai|, m.StoredTerm(i, k));
  }

  /** A row that column k stores at one position only has the value stored there. */
  lemma {:induction false} StoredOnce(m: Columns, k: nat, p: nat)
    requires m.Valid() && k < m.n && m.ap[k] <= p < m.ap[k + 1] && p < |m.ai|
    requires forall q: nat :: m.ap[k] <= q < m.ap[k + 1] && q < |m.ai| && q != p ==> m.ai[q] != m.ai[p]
    ensures p < |m.ax| && m.Matrix()(m.ai[p], k) == m.ax[p]
  {
    ColumnsInRange(m, k, k + 1);
    SumPoint(|m.ai|, p, m.StoredTerm(m.ai[p], k));
  }

  /** One that is stored at no position is zero. */
  lemma {:induction false} NotStored(m: Columns, i: nat, k: nat)
    requires m.Valid() && k < m.n && !m.Stored(i, k)
    ensures m.Matrix()(i, k) == 0.0
  {
    assert forall p: nat :: m.ap[k] <= p < m.ap[k + 1] && p < |m.ai| ==> m.ai[p] != i;
    SumZero(|m.ai|, m.StoredTerm(i, k));
  }

  lemma {:induction false} ColumnsInRange(m: Columns, j: nat, k: nat)
    requires m.Valid() && j <= k <= m.n
    ensures m.ap[j] <= m.ap[k] <= m.ap[m.n]
    decreases m.n - j
  {
    if j >= m.n {
    } else {
      ColumnsInRange(m, j + 1, if k == j then j + 1 else k);
      if k > j + 1 {
        ColumnsInRange(m, j + 1, k);
      }
    }
  }

  /**
   * L(k, i) is structurally nonzero: the matrix stores (i, k), or eliminating some earlier row j
   * that couples i with k fills it in.
   */
  ghost predicate Fill(m: Columns, k: nat, i: nat)
    requires m.Valid()
    decreases i
  {
    i < k && (m.Stored(i, k) || exists j: nat :: j < i && Fill(m, i, j) && Fill(m, k, j))
  }

  /** The rows below `hi` where column i of L is structurally nonzero. */
  ghost function ColumnRows(m: Columns, i: nat, hi: nat): seq<nat>
    requires m.Valid()
  {
    if hi == 0 then []
    else if Fill(m, hi - 1, i) then ColumnRows(m, i, hi - 1) + [hi - 1]
    else ColumnRows(m, i, hi - 1)
  }

  /** They are listed in ascending order, each once. */
  lemma {:induction false} ColumnRowsAscend(m: Columns, i: nat, hi: nat)
    requires m.Valid()
    ensures forall k: nat :: k in ColumnRows(m, i, hi) <==> k < hi && Fill(m, k, i)
    ensures forall s: nat, t: nat :: s < t < |ColumnRows(m, i, hi)| ==>
      ColumnRows(m, i, hi)[s] < ColumnRows(m, i, hi)[t]
    ensures forall s: nat :: s < |ColumnRows(m, i, hi)| ==> i < ColumnRows(m, i, hi)[s] < hi
  {
    if hi == 0 {
    } else {
      ColumnRowsAscend(m, i, hi - 1);
    }
  }

  /** The parent of i among the first `hi` nodes: its first filled row, or -1 for a root. */
  ghost function ParentAt(m: Columns, i: nat, hi: nat): (p: int)
    requires m.Valid()
    ensures p >= -1
  {
    var rows := ColumnRows(m, i, hi);
    if rows == [] then -1 else rows[0]
  }

  lemma {:induction false} ColumnGrows(m: Columns, i: nat, lo: nat, hi: nat)
    requires m.Valid() && lo <= hi
    ensures ColumnRows(m, i, lo) <= ColumnRows(m, i, hi)
    decreases hi
  {
    if lo >= hi {
    } else {
      ColumnGrows(m, i, lo, hi - 1);
      assert ColumnRows(m, i, hi - 1) <= ColumnRows(m, i, hi);
    }
  }

  /** A row still to come keeps a free slot in the column. */
  lemma {:induction false} ColumnHasRoom(m: Columns, i: nat, k: nat, hi: nat)
    requires m.Valid() && k < hi && Fill(m, k, i)
    ensures ColumnRows(m, i, k + 1) == ColumnRows(m, i, k) + [k]
    ensures ColumnRows(m, i, k) + [k] <= ColumnRows(m, i, hi)
  {
    ColumnGrows(m, i, k + 1, hi);
  }

  /** The parent is the least filled row; there is none exactly when the column has no filled row. */
  lemma {:induction false} ParentIsLeast(m: Columns, i: nat, hi: nat)
    requires m.Valid()
    ensures ParentAt(m, i, hi) >= 0 ==> ParentAt(m, i, hi) < hi && Fill(m, ParentAt(m, i, hi), i)
    ensures forall k: nat :: k < hi && Fill(m, k, i) ==> 0 <= ParentAt(m, i, hi) <= k
  {
    ColumnRowsAscend(m, i, hi);
    var rows := ColumnRows(m, i, hi);
    if rows != [] {
      assert rows[0] in rows;
    }
    forall k: nat | k < hi && Fill(m, k, i)
      ensures 0 <= ParentAt(m, i, hi) <= k
    {
      assert k in rows;
    }
  }

  /**
   * Liu's path lemma: if i is filled in row k and its parent comes before k, the parent is filled
   * in row k as well.  So the pattern of row k is closed under walking up the tree.
   */
  lemma {:induction false} FillClimbs(m: Columns, k: nat, i: nat, hi: nat)
    requires m.Valid() && Fill(m, k, i) && k < hi
    ensures ParentAt(m, i, hi) >= 0 && i < ParentAt(m, i, hi) <= k
    ensures ParentAt(m, i, hi) < k ==> Fill(m, k, ParentAt(m, i, hi) as nat)
  {
    ParentIsLeast(m, i, hi);
  }

  /** A fill entry that the matrix does not store is reached from a child in the tree. */
  lemma {:induction false} FillFromChild(m: Columns, k: nat, i: nat, hi: nat)
    requires m.Valid() && Fill(m, k, i) && !m.Stored(i, k) && i < hi
    ensures exists j: nat :: j < i && Fill(m, k, j) && ParentAt(m, j, hi) == i
  {
    var j: nat :| j < i && Fill(m, i, j) && Fill(m, k, j);
    ClimbToChild(m, k, i, j, hi);
  }

  lemma {:induction false} ClimbToChild(m: Columns, k: nat, i: nat, j: nat, hi: nat)
    requires m.Valid() && j < i && Fill(m, i, j) && Fill(m, k, j) && i < hi && i < k
    ensures exists c: nat :: c < i && Fill(m, k, c) && ParentAt(m, c, hi) == i
    decreases i - j
  {
    FillClimbs(m, i, j, hi);
    var p := ParentAt(m, j, hi) as nat;
    if p < i {
      ParentIsLeast(m, j, hi);
      ClimbToChild(m, k, i, p, hi);
    }
  }

  /**
   * The walk argument behind both passes: a set of nodes below k that holds the stored entries of
   * column k and is closed under the tree edges that stay below k is the whole pattern of row k.
   */
  lemma {:induction false} ClosedSetIsRow(m: Columns, k: nat, visited: set<nat>, i: nat)
    requires m.Valid()
    requires forall j: nat :: j < k && m.Stored(j, k) ==> j in visited
    requires forall j: nat :: j in visited && 0 <= ParentAt(m, j, k) < k ==> ParentAt(m, j, k) as nat in visited
    requires Fill(m, k, i)
    ensures i in visited
    decreases i
  {
    if !m.Stored(i, k) {
      FillFromChild(m, k, i, k);
      var j: nat :| j < i && Fill(m, k, j) && ParentAt(m, j, k) == i;
      ClosedSetIsRow(m, k, visited, j);
    }
  }

  /** Extending the horizon from k to k + 1 changes a parent only from "none" to k. */
  lemma {:induction false} ParentStep(m: Columns, i: nat, k: nat)
    requires m.Valid()
    ensures ParentAt(m, i, k + 1) ==
      if ParentAt(m, i, k) == -1 && Fill(m, k, i) then k else ParentAt(m, i, k)
  {
  }

  lemma {:induction false} ParentStable(m: Columns, i: nat, k: nat, hi: nat)
    requires m.Valid() && k <= hi && ParentAt(m, i, k) >= 0
    ensures ParentAt(m, i, hi) == ParentAt(m, i, k)
  {
    ColumnGrows(m, i, k, hi);
  }
}
