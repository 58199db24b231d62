// What the arrays of the sparse factorization hold between two steps, and why each step keeps it.
// Everything here is about values; the class in Ldl.dfy owns the arrays.

module LdlSteps {
  import opened Pattern

  /** A walk for row k changes a mark only to k. */
  ghost predicate MarkedMore(k: nat, before: seq<nat>, after: seq<nat>) {
    |after| == |before| && forall j: nat :: j < |after| ==> after[j] == before[j] || after[j] == k
  }

  // ---------------------------------------------------------------------------------------------
  // Symbolic pass
  // ---------------------------------------------------------------------------------------------

  /** How far column i has been analysed while row k is being visited. */
  ghost function Horizon(flag: seq<nat>, k: nat, i: nat): nat
    requires i < |flag|
  {
    if flag[i] == k then k + 1 else k
  }

  /** Parents and column counts are those of rows 0..k-1. */
  ghost predicate Analysed(m: Columns, k: nat, parent: seq<int>, lnz: seq<nat>)
    requires m.Valid()
  {
    && k <= |parent| && k <= |lnz|
    && forall i: nat :: i < k ==> parent[i] == ParentAt(m, i, k) && lnz[i] == |ColumnRows(m, i, k)|
  }

  /** Each column is counted, and its parent known, up to row k if its node is marked for k. */
  ghost predicate Counted(m: Columns, k: nat, parent: seq<int>, lnz: seq<nat>, flag: seq<nat>)
    requires m.Valid()
    requires k < |parent| && k < |lnz| && k < |flag|
  {
    forall i: nat :: i < k ==>
      && parent[i] == ParentAt(m, i, Horizon(flag, k, i))
      && lnz[i] == |ColumnRows(m, i, Horizon(flag, k, i))|
  }

  /** A tree edge from a marked node leads to a marked node, to `head`, or out of 0..k-1. */
  ghost predicate ClosedBut(m: Columns, k: nat, head: nat, flag: seq<nat>)
    requires m.Valid() && k < |flag|
  {
    forall i: nat :: i < k && flag[i] == k && ParentAt(m, i, k) >= 0 ==>
      ParentAt(m, i, k) < k && (ParentAt(m, i, k) == head || flag[ParentAt(m, i, k)] == k)
  }

  /**
   * Row k is being visited and the walk stands at `head`: the marked nodes are filled in row k,
   * are already counted, and are closed under tree edges except for the one into `head`.
   */
  ghost predicate Visiting(m: Columns, k: nat, head: nat, parent: seq<int>, lnz: seq<nat>, flag: seq<nat>)
    requires m.Valid()
  {
    && k < |parent| && k < |lnz| && k < |flag|
    && parent[k] == -1 && lnz[k] == 0 && flag[k] == k
    && head <= k && (head < k ==> Fill(m, k, head))
    && (forall i: nat :: i < k && flag[i] == k ==> Fill(m, k, i))
    && Counted(m, k, parent, lnz, flag)
    && ClosedBut(m, k, head, flag)
  }

  lemma {:induction false} BeginVisit(m: Columns, k: nat, parent: seq<int>, lnz: seq<nat>, flag: seq<nat>)
    requires m.Valid() && Analysed(m, k, parent, lnz)
    requires k < |parent| && k < |lnz| && k < |flag|
    requires forall i: nat :: i < k ==> flag[i] < k
    ensures Visiting(m, k, k, parent[k := -1], lnz[k := 0], flag[k := k])
  {
  }

  /** The node after `head` on the walk: its known parent, or k if it has none yet. */
  ghost function NextHead(m: Columns, k: nat, head: nat): nat
    requires m.Valid()
  {
    if ParentAt(m, head, k) < 0 then k else ParentAt(m, head, k)
  }

  lemma {:induction false} NextHeadClimbs(m: Columns, k: nat, head: nat)
    requires m.Valid() && Fill(m, k, head)
    ensures head < NextHead(m, k, head) <= k
    ensures NextHead(m, k, head) < k ==> Fill(m, k, NextHead(m, k, head))
    ensures ParentAt(m, head, k + 1) == NextHead(m, k, head)
  {
    ParentIsLeast(m, head, k);
    ParentStep(m, head, k);
    FillClimbs(m, k, head, k + 1);
  }

  lemma {:induction false} CountStep(m: Columns, k: nat, head: nat, parent: seq<int>, lnz: seq<nat>, flag: seq<nat>)
    requires m.Valid() && k < |parent| && k < |lnz| && k < |flag|
    requires Counted(m, k, parent, lnz, flag)
    requires head < k && flag[head] != k && Fill(m, k, head)
    ensures Counted(m, k, parent[head := NextHead(m, k, head)], lnz[head := lnz[head] + 1], flag[head := k])
  {
    NextHeadClimbs(m, k, head);
    var flag' := flag[head := k];
    forall i: nat | i < k && i != head
      ensures Horizon(flag', k, i) == Horizon(flag, k, i)
    {
    }
    assert Horizon(flag, k, head) == k && Horizon(flag', k, head) == k + 1;
    assert ColumnRows(m, head, k + 1) == ColumnRows(m, head, k) + [k];
  }

  lemma {:induction false} ClosedStep(m: Columns, k: nat, head: nat, flag: seq<nat>)
    requires m.Valid() && k < |flag|
    requires ClosedBut(m, k, head, flag)
    requires head < k && Fill(m, k, head)
    ensures ClosedBut(m, k, NextHead(m, k, head), flag[head := k])
  {
    NextHeadClimbs(m, k, head);
    ParentIsLeast(m, head, k);
  }

  /** One iteration of the walk: mark the unmarked node `head` and go to its parent. */
  lemma {:induction false} VisitStep(m: Columns, k: nat, head: nat, parent: seq<int>, lnz: seq<nat>, flag: seq<nat>)
    requires m.Valid() && Visiting(m, k, head, parent, lnz, flag)
    requires flag[head] != k
    ensures head < k && parent[head] == ParentAt(m, head, k) && head < NextHead(m, k, head) <= k
    ensures Visiting(m, k, NextHead(m, k, head),
                     parent[head := NextHead(m, k, head)], lnz[head := lnz[head] + 1], flag[head := k])
  {
    NextHeadClimbs(m, k, head);
    CountStep(m, k, head, parent, lnz, flag);
    ClosedStep(m, k, head, flag);
    assert Horizon(flag, k, head) == k;
  }

  /** When every stored entry of column k has been walked, exactly the pattern of row k is marked. */
  lemma {:induction false} VisitComplete(m: Columns, k: nat, parent: seq<int>, lnz: seq<nat>, flag: seq<nat>)
    requires m.Valid() && Visiting(m, k, k, parent, lnz, flag)
    requires forall i: nat :: i < k && m.Stored(i, k) ==> flag[i] == k
    ensures forall i: nat :: i < k ==> (flag[i] == k <==> Fill(m, k, i))
    ensures Analysed(m, k + 1, parent, lnz)
  {
    var visited := set i: nat | i < k && flag[i] == k;
    forall i: nat | i < k && Fill(m, k, i)
      ensures flag[i] == k
    {
      forall j: nat | j in visited && 0 <= ParentAt(m, j, k) < k
        ensures ParentAt(m, j, k) as nat in visited
      {
      }
      ClosedSetIsRow(m, k, visited, i);
    }
    EmptyColumn(m, k, k + 1);
  }

  lemma {:induction false} EmptyColumn(m: Columns, k: nat, hi: nat)
    requires m.Valid() && hi <= k + 1
    ensures ColumnRows(m, k, hi) == []
  {
    if hi == 0 {
    } else {
      EmptyColumn(m, k, hi - 1);
    }
  }

  /** Where column i of L starts: the exact sizes of the columns before it, summed. */
  ghost function ColumnStart(m: Columns, i: nat): nat
    requires m.Valid()
  {
    if i == 0 then 0 else ColumnStart(m, i - 1) + |ColumnRows(m, i - 1, m.n)|
  }

  lemma {:induction false} ColumnsDisjoint(m: Columns, i: nat, j: nat)
    requires m.Valid() && i < j
    ensures ColumnStart(m, i) + |ColumnRows(m, i, m.n)| <= ColumnStart(m, j)
  {
    if i + 1 < j {
      ColumnsDisjoint(m, i, j - 1);
    }
  }
}
