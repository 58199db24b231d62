// The numeric pass: which values the arrays hold while row k is computed, and why popping the path
// stack from the top gives each value its final form.

module LdlValues {
  import opened Sums
  import opened Factor
  import opened Pattern
  import opened LdlSteps

  // ---------------------------------------------------------------------------------------------
  // Values vanish outside the pattern
  // ---------------------------------------------------------------------------------------------

  lemma {:induction false} SummedZero(m: Columns, lo: nat, hi: nat, i: nat)
    requires forall p: nat :: lo <= p < hi && p < |m.ai| ==> m.ai[p] != i
    ensures m.Summed(lo, hi, i) == 0.0
    decreases hi
  {
    if lo >= hi {
    } else {
      SummedZero(m, lo, hi - 1, i);
    }
  }

  lemma {:induction false} NotStoredZero(m: Columns, i: nat, k: nat)
    requires m.Valid() && !m.Stored(i, k)
    ensures m.Entry(i, k) == 0.0
  {
    if k < m.n {
      SummedZero(m, m.ap[k], m.ap[k + 1], i);
    }
  }

  /** Elimination leaves a zero wherever the symbolic pattern has no entry. */
  lemma {:induction false} PatternCoversValues(m: Columns, k: nat, i: nat)
    requires m.Valid() && i < k && !Fill(m, k, i)
    ensures U(m.Entries(), i, k) == 0.0
    ensures L(m.Entries(), k, i) == 0.0
    decreases i
  {
    var a := m.Entries();
    NotStoredZero(m, i, k);
    EliminatedIsSum(a, i, i, k);
    forall j: nat | j < i
      ensures EliminationTerm(a, i, k)(j) == 0.0
    {
      if Fill(m, k, j) {
        PatternCoversValues(m, i, j);
      } else {
        PatternCoversValues(m, k, j);
      }
    }
    SumZero(i, EliminationTerm(a, i, k));
  }

  // ---------------------------------------------------------------------------------------------
  // Partially eliminated values
  // ---------------------------------------------------------------------------------------------

  function Masked(f: nat -> real, s: seq<nat>): nat -> real {
    (j: nat) => if j in s then f(j) else 0.0
  }

  lemma {:induction false} MaskedPush(n: nat, f: nat -> real, s: seq<nat>, i: nat)
    requires i !in s
    ensures Sum(n, Masked(f, s + [i])) == Sum(n, Masked(f, s)) + (if i < n then f(i) else 0.0)
  {
    if i < n {
      SumUpdate(n, i, Masked(f, s), Masked(f, s + [i]));
    } else {
      SumEqual(n, Masked(f, s), Masked(f, s + [i]));
    }
  }

  /** Entry (i, k) after subtracting the contributions of the rows in `done` only. */
  function Residual(a: Upper, k: nat, done: seq<nat>, i: nat): real {
    a(i, k) - Sum(i, Masked(EliminationTerm(a, i, k), done))
  }

  lemma {:induction false} ResidualNone(a: Upper, k: nat, i: nat)
    ensures Residual(a, k, [], i) == a(i, k)
  {
    SumZero(i, Masked(EliminationTerm(a, i, k), []));
  }

  lemma {:induction false} ResidualPush(a: Upper, k: nat, done: seq<nat>, j: nat, i: nat)
    requires j !in done
    ensures Residual(a, k, done + [j], i) ==
      Residual(a, k, done, i) - (if j < i then L(a, i, j) * U(a, j, k) else 0.0)
  {
    MaskedPush(i, EliminationTerm(a, i, k), done, j);
  }

  /** Row j changes entry (i, k) only if L has entries in both (i, j) and (k, j). */
  lemma {:induction false} UncoupledTerm(m: Columns, k: nat, i: nat, j: nat)
    requires m.Valid() && j < i <= k
    requires !Fill(m, i, j) || !Fill(m, k, j)
    ensures EliminationTerm(m.Entries(), i, k)(j) == 0.0
  {
    if Fill(m, k, j) {
      PatternCoversValues(m, i, j);
    } else {
      PatternCoversValues(m, k, j);
    }
  }

  /** Once every row that couples with both i and k is done, the residual is the pivot-row value. */
  lemma {:induction false} ResidualFinal(m: Columns, k: nat, done: seq<nat>, i: nat)
    requires m.Valid() && i <= k
    requires forall j: nat :: j < i && Fill(m, k, j) && Fill(m, i, j) ==> j in done
    ensures Residual(m.Entries(), k, done, i) == U(m.Entries(), i, k)
  {
    var a := m.Entries();
    var f := EliminationTerm(a, i, k);
    EliminatedIsSum(a, i, i, k);
    forall j: nat | j < i
      ensures Masked(f, done)(j) == f(j)
    {
      if j !in done {
        UncoupledTerm(m, k, i, j);
      }
    }
    SumEqual(i, Masked(f, done), f);
  }

  /** A node outside the pattern of row k never receives anything. */
  lemma {:induction false} ResidualOutside(m: Columns, k: nat, done: seq<nat>, i: nat)
    requires m.Valid() && i < k && !Fill(m, k, i)
    ensures Residual(m.Entries(), k, done, i) == 0.0
  {
    var f := EliminationTerm(m.Entries(), i, k);
    NotStoredZero(m, i, k);
    forall j: nat | j < i
      ensures Masked(f, done)(j) == 0.0
    {
      UncoupledTerm(m, k, i, j);
    }
    SumZero(i, Masked(f, done));
  }

  // ---------------------------------------------------------------------------------------------
  // The path stack
  // ---------------------------------------------------------------------------------------------

  ghost predicate Distinct(s: seq<nat>) {
    forall x: nat :: x < |s| ==> OnceAt(s, x)
  }

  ghost predicate OnceAt(s: seq<nat>, x: nat) {
    x < |s| && s[x] !in s[..x]
  }

  /** Distinct nodes below k need at most k places, so the scratch prefix never meets the stack. */
  lemma {:induction false} DistinctFits(s: seq<nat>, k: nat)
    requires Distinct(s) && forall x: nat :: x < |s| ==> s[x] < k
    ensures |s| <= k
  {
    ElementsSize(s);
    BelowSize(k);
    ElementsAre(s);
    SubsetSize(Elements(s), Below(k));
  }

  ghost function Below(k: nat): set<nat> {
    if k == 0 then {} else Below(k - 1) + {k - 1}
  }

  ghost function Elements(s: seq<nat>): set<nat> {
    if s == [] then {} else Elements(s[..|s| - 1]) + {s[|s| - 1]}
  }

  lemma {:induction false} BelowSize(k: nat)
    ensures |Below(k)| == k
    ensures forall i: nat :: i in Below(k) <==> i < k
  {
    if k == 0 {
    } else {
      BelowSize(k - 1);
    }
  }

  lemma {:induction false} LastIsNew(s: seq<nat>)
    requires Distinct(s) && s != []
    ensures s[|s| - 1] !in s[..|s| - 1] && Distinct(s[..|s| - 1])
  {
    var front := s[..|s| - 1];
    assert OnceAt(s, |s| - 1);
    forall x: nat | x < |front|
      ensures OnceAt(front, x)
    {
      assert OnceAt(s, x) && front[..x] == s[..x];
    }
  }

  lemma {:induction false} SamePlace(s: seq<nat>, x: nat, y: nat)
    requires Distinct(s) && x < |s| && y < |s| && s[x] == s[y]
    ensures x == y
  {
    assert OnceAt(s, x) && OnceAt(s, y);
  }

  lemma {:induction false} ElementsAre(s: seq<nat>)
    ensures forall i: nat :: i in Elements(s) <==> i in s
  {
    if s == [] {
    } else {
      ElementsAre(s[..|s| - 1]);
      assert s == s[..|s| - 1] + [s[|s| - 1]];
    }
  }

  lemma {:induction false} ElementsSize(s: seq<nat>)
    requires Distinct(s)
    ensures |Elements(s)| == |s|
  {
    if s == [] {
    } else {
      LastIsNew(s);
      ElementsSize(s[..|s| - 1]);
      ElementsAre(s[..|s| - 1]);
    }
  }

  lemma {:induction false} SubsetSize(s: set<nat>, t: set<nat>)
    requires s <= t
    ensures |s| <= |t|
  {
    if s == {} {
    } else {
      var x :| x in s;
      SubsetSize(s - {x}, t - {x});
    }
  }

  /** The marked nodes are exactly those in `nodes`; all are filled in row k. */
  ghost predicate Marks(m: Columns, k: nat, flag: seq<nat>, nodes: seq<nat>)
    requires m.Valid()
  {
    && k < |flag| && flag[k] == k
    && Distinct(nodes)
    && (forall i: nat :: i < k ==> (flag[i] == k <==> i in nodes))
    && (forall i: nat :: i in nodes ==> i < k && Fill(m, k, i))
  }

  /** Every node's parent is row k itself or lies strictly deeper in the stack. */
  ghost predicate Topological(m: Columns, k: nat, stack: seq<nat>)
    requires m.Valid()
  {
    forall s: nat :: s < |stack| ==>
      ParentAt(m, stack[s], m.n) == k
      || exists t: nat :: s < t < |stack| && stack[t] == ParentAt(m, stack[s], m.n)
  }

  function NodeAfter(path: seq<nat>, s: nat, head: nat): nat {
    if s + 1 < |path| then path[s + 1] else head
  }

  /** The scratch path climbs the tree from its first node towards `head`. */
  ghost predicate Climbs(m: Columns, path: seq<nat>, head: nat)
    requires m.Valid()
  {
    forall s: nat :: s < |path| ==>
      path[s] < head && ParentAt(m, path[s], m.n) == NodeAfter(path, s, head)
  }

  lemma {:induction false} ClimbStep(m: Columns, k: nat, flag: seq<nat>, path: seq<nat>, stack: seq<nat>, head: nat)
    requires m.Valid() && k < m.n && |flag| == m.n
    requires Marks(m, k, flag, path + stack) && Climbs(m, path, head)
    requires head < k && Fill(m, k, head) && flag[head] != k
    ensures |path| + |stack| + 1 <= k
    ensures var next := ParentAt(m, head, m.n);
      && head < next <= k && (next < k ==> Fill(m, k, next))
      && Marks(m, k, flag[head := k], (path + [head]) + stack)
      && Climbs(m, path + [head], next)
  {
    FillClimbs(m, k, head, m.n);
    var nodes, nodes', path' := path + stack, path + [head] + stack, path + [head];
    assert head !in nodes;
    PathInsert(path, head, stack);
    assert forall x: nat :: x < |nodes'| ==> nodes'[x] in nodes';
    DistinctFits(nodes', k);
    forall s: nat | s < |path'|
      ensures path'[s] < ParentAt(m, head, m.n)
      ensures ParentAt(m, path'[s], m.n) == NodeAfter(path', s, ParentAt(m, head, m.n))
    {
      if s < |path| {
        assert path'[s] == path[s];
      }
    }
  }

  lemma {:induction false} PathInsert(path: seq<nat>, x: nat, stack: seq<nat>)
    requires Distinct(path + stack) && x !in path + stack
    ensures Distinct(path + [x] + stack)
    ensures forall y: nat :: y in path + [x] + stack <==> y in path + stack || y == x
  {
    var s, t := path + stack, path + [x] + stack;
    forall i: nat | i < |t|
      ensures OnceAt(t, i)
    {
      if i < |path| {
        assert OnceAt(s, i) && t[..i] == s[..i];
      } else if i == |path| {
        assert t[..i] == path;
      } else {
        assert OnceAt(s, i - 1) && t[i] == s[i - 1];
        assert t[..i] == path + [x] + stack[..i - 1 - |path|] && s[..i - 1] == path + stack[..i - 1 - |path|];
      }
    }
  }

  /** The walk stops at row k itself or at a node that was on the stack before. */
  lemma {:induction false} WalkEnds(m: Columns, k: nat, flag: seq<nat>, path: seq<nat>, stack: seq<nat>, head: nat)
    requires m.Valid() && Marks(m, k, flag, path + stack) && Climbs(m, path, head)
    requires head <= k && flag[head] == k
    ensures head == k || head in stack
  {
  }

  /** The finished path, put on top of the stack, keeps the order. */
  lemma {:induction false} PathOnStack(m: Columns, k: nat, path: seq<nat>, stack: seq<nat>, head: nat)
    requires m.Valid()
    requires Topological(m, k, stack) && Climbs(m, path, head)
    requires head == k || head in stack
    ensures Topological(m, k, path + stack)
  {
    var all := path + stack;
    forall s: nat | s < |all| && ParentAt(m, all[s], m.n) != k
      ensures exists t: nat :: s < t < |all| && all[t] == ParentAt(m, all[s], m.n)
    {
      var p := ParentAt(m, all[s], m.n);
      if s + 1 < |path| {
        assert all[s] == path[s] && all[s + 1] == path[s + 1] == p;
      } else if s < |path| {
        assert all[s] == path[s] && p == head;
        var t: nat :| t < |stack| && stack[t] == head;
        assert all[|path| + t] == p;
      } else {
        assert all[s] == stack[s - |path|];
        var t: nat :| s - |path| < t < |stack| && stack[t] == p;
        assert all[|path| + t] == p;
      }
    }
  }

  /**
   * Descendants come before ancestors: a row that column `stack[s]` updates is still deeper in the
   * stack when that column is popped.
   */
  lemma {:induction false} AncestorsDeeper(m: Columns, k: nat, stack: seq<nat>, s: nat, i: nat)
    requires m.Valid() && k < m.n
    requires Distinct(stack) && Topological(m, k, stack)
    requires forall j: nat :: j in stack ==> j < k && Fill(m, k, j)
    requires s < |stack| && i < k && Fill(m, i, stack[s])
    ensures i in stack[s + 1..]
    decreases |stack| - s
  {
    FillClimbs(m, k, stack[s], m.n);
    FillClimbs(m, i, stack[s], m.n);
    var p := ParentAt(m, stack[s], m.n);
    ParentIsLeast(m, stack[s], m.n);
    var t: nat :| s < t < |stack| && stack[t] == p;
    assert stack[s + 1..][t - s - 1] == p;
    if p < i {
      AncestorsDeeper(m, k, stack, t, i);
      assert stack[t + 1..] == stack[s + 1..][t - s..];
    }
  }

  lemma {:induction false} StackFits(m: Columns, k: nat, flag: seq<nat>, stack: seq<nat>)
    requires m.Valid() && Marks(m, k, flag, stack)
    ensures |stack| <= k
  {
    assert forall x: nat :: x < |stack| ==> stack[x] in stack;
    DistinctFits(stack, k);
  }

  // ---------------------------------------------------------------------------------------------
  // Columns of L, and the pop step
  // ---------------------------------------------------------------------------------------------

  /** Column i of L is stored, rows below `hi`, at its place in li and lx. */
  ghost predicate ColumnHolds(m: Columns, li: seq<nat>, lx: seq<real>, i: nat, hi: nat)
    requires m.Valid()
  {
    var rows, start := ColumnRows(m, i, hi), ColumnStart(m, i);
    && start + |rows| <= |li| && start + |rows| <= |lx|
    && forall t: nat :: t < |rows| ==> li[start + t] == rows[t] && lx[start + t] == L(m.Entries(), rows[t], i)
  }

  /** What subtracting yi times column i of L takes from entry j of a vector. */
  function Taken(m: Columns, i: nat, yi: real, j: nat): real {
    if i < j then Mul(LOf(m.Entries())(j, i), yi) else 0.0
  }

  /** What reading one stored entry of column i finds. */
  lemma {:induction false} ColumnEntry(m: Columns, li: seq<nat>, lx: seq<real>, i: nat, hi: nat, t: nat, yi: real)
    requires m.Valid() && ColumnHolds(m, li, lx, i, hi) && t < |ColumnRows(m, i, hi)|
    ensures var rows, p := ColumnRows(m, i, hi), ColumnStart(m, i) + t;
      && li[p] == rows[t] && i < rows[t] < hi && rows[t] !in rows[..t]
      && Mul(lx[p], yi) == Taken(m, i, yi, rows[t])
  {
    ColumnRowsAscend(m, i, hi);
  }

  /** Columns 0..k-1 hold the rows below k, and row k too where its node is already popped. */
  ghost predicate ColumnsHeld(m: Columns, k: nat, done: seq<nat>, lnz: seq<nat>, li: seq<nat>, lx: seq<real>)
    requires m.Valid()
  {
    && k <= |lnz|
    && |li| == |lx| == ColumnStart(m, m.n)
    && forall i: nat :: i < k ==>
         var hi := if i in done then k + 1 else k;
         lnz[i] == |ColumnRows(m, i, hi)| && ColumnHolds(m, li, lx, i, hi)
  }

  /** Writing L(k, i) into the next free place of column i touches no other column. */
  lemma {:induction false} ColumnPush(m: Columns, k: nat, done: seq<nat>, lnz: seq<nat>, li: seq<nat>, lx: seq<real>,
    i: nat)
    requires m.Valid() && k < m.n && i < k && i !in done && Fill(m, k, i)
    requires ColumnsHeld(m, k, done, lnz, li, lx)
    ensures ColumnStart(m, i) + lnz[i] < |li|
    ensures var p := ColumnStart(m, i) + lnz[i];
      ColumnsHeld(m, k, done + [i], lnz[i := lnz[i] + 1], li[p := k], lx[p := L(m.Entries(), k, i)])
  {
    ColumnHasRoom(m, i, k, m.n);
    ColumnsDisjoint(m, i, m.n);
    var p := ColumnStart(m, i) + lnz[i];
    var li', lx' := li[p := k], lx[p := L(m.Entries(), k, i)];
    forall j: nat | j < k
      ensures ColumnHolds(m, li', lx', j, if j in done + [i] then k + 1 else k)
    {
      if j == i {
        assert ColumnHolds(m, li, lx, i, k);
      } else {
        var hi := if j in done then k + 1 else k;
        assert ColumnHolds(m, li, lx, j, hi);
        OtherColumnKept(m, li, lx, li', lx', i, j, hi, p);
      }
    }
  }

  lemma {:induction false} OtherColumnKept(m: Columns, li: seq<nat>, lx: seq<real>, li': seq<nat>, lx': seq<real>,
                        i: nat, j: nat, hi: nat, p: nat)
    requires m.Valid() && i != j && hi <= m.n
    requires ColumnStart(m, i) <= p < ColumnStart(m, i) + |ColumnRows(m, i, m.n)|
    requires ColumnHolds(m, li, lx, j, hi)
    requires |li'| == |li| && |lx'| == |lx|
    requires forall q: nat :: q < |li| && q != p ==> li'[q] == li[q]
    requires forall q: nat :: q < |lx| && q != p ==> lx'[q] == lx[q]
    ensures ColumnHolds(m, li', lx', j, hi)
  {
    ColumnGrows(m, j, hi, m.n);
    if i < j {
      ColumnsDisjoint(m, i, j);
    } else {
      ColumnsDisjoint(m, j, i);
    }
  }

  /** What the value at node j owes after the first s nodes of the stack are popped. */
  function Owed(m: Columns, k: nat, done: seq<nat>, j: nat): real {
    if j in done then 0.0 else Residual(m.Entries(), k, done, j)
  }

  /** Popped nodes are cleared; the others, and the diagonal, lack only the nodes still to pop. */
  ghost predicate Pending(m: Columns, k: nat, done: seq<nat>, y: seq<real>, dk: real) {
    && k < |y| && y[k] == 0.0
    && (forall i: nat :: i < k ==> y[i] == Owed(m, k, done, i))
    && dk == Residual(m.Entries(), k, done, k)
  }

  /** The stack while row k is computed: its whole pattern, descendants first. */
  ghost predicate RowStack(m: Columns, k: nat, stack: seq<nat>)
    requires m.Valid()
  {
    && Distinct(stack) && Topological(m, k, stack)
    && forall i: nat :: i in stack <==> i < k && Fill(m, k, i)
  }

  /** A stack holding the stored entries of column k and closed under parents is the whole row. */
  lemma {:induction false} StackComplete(m: Columns, k: nat, flag: seq<nat>, stack: seq<nat>)
    requires m.Valid() && k < m.n
    requires Marks(m, k, flag, stack) && Topological(m, k, stack)
    requires forall i: nat :: i < k && m.Stored(i, k) ==> flag[i] == k
    ensures RowStack(m, k, stack)
  {
    var visited := Elements(stack);
    ElementsAre(stack);
    forall j: nat | j in visited && 0 <= ParentAt(m, j, k) < k
      ensures ParentAt(m, j, k) as nat in visited
    {
      ParentStable(m, j, k, m.n);
    }
    forall i: nat | Fill(m, k, i)
      ensures i in stack
    {
      ClosedSetIsRow(m, k, visited, i);
    }
  }

  /** The value on top of the stack is final: everything below it in the tree has been popped. */
  lemma {:induction false} PopIsFinal(m: Columns, k: nat, stack: seq<nat>, s: nat)
    requires m.Valid() && k < m.n && RowStack(m, k, stack) && s < |stack|
    ensures Residual(m.Entries(), k, stack[..s], stack[s]) == U(m.Entries(), stack[s], k)
  {
    var i := stack[s];
    assert i in stack;
    forall j: nat | j < i && Fill(m, k, j) && Fill(m, i, j)
      ensures j in stack[..s]
    {
      var x: nat :| x < |stack| && stack[x] == j;
      AncestorsDeeper(m, k, stack, x, i);
      var t: nat :| x < t < |stack| && stack[t] == i;
      SamePlace(stack, t, s);
      assert stack[..s][x] == j;
    }
    ResidualFinal(m, k, stack[..s], i);
  }

  /** What popping node i takes from entry j of row k's workspace. */
  function PopTakes(m: Columns, k: nat, i: nat, j: nat): real {
    Taken(m, i, U(m.Entries(), i, k), j)
  }

  lemma {:induction false} TakenOffPattern(m: Columns, i: nat, yi: real, j: nat)
    requires m.Valid() && !Fill(m, j, i)
    ensures Taken(m, i, yi, j) == 0.0
  {
    if i < j {
      PatternCoversValues(m, j, i);
    }
  }

  /** y' is y with yi times column i subtracted at the given rows. */
  ghost predicate ColumnSubtracted(m: Columns, i: nat, yi: real, rows: seq<nat>, y: seq<real>, y': seq<real>) {
    |y'| == |y| && forall j: nat :: j < |y| ==> y'[j] == if j in rows then y[j] - Taken(m, i, yi, j) else y[j]
  }

  lemma {:induction false} SubtractStep(m: Columns, i: nat, yi: real, rows: seq<nat>, t: nat, y0: seq<real>,
    y: seq<real>)
    requires t < |rows| && rows[t] < |y| && rows[t] !in rows[..t]
    requires ColumnSubtracted(m, i, yi, rows[..t], y0, y)
    ensures ColumnSubtracted(m, i, yi, rows[..t + 1], y0, y[rows[t] := y[rows[t]] - Taken(m, i, yi, rows[t])])
  {
    assert rows[..t + 1] == rows[..t] + [rows[t]];
  }

  /** Rows the column does not list have no entry, so the whole vector has the column subtracted. */
  lemma {:induction false} WholeColumnSubtracted(m: Columns, i: nat, yi: real, hi: nat, y: seq<real>, y': seq<real>)
    requires m.Valid() && ColumnSubtracted(m, i, yi, ColumnRows(m, i, hi), y, y')
    ensures forall j: nat :: j < hi && j < |y| ==> y'[j] == y[j] - Taken(m, i, yi, j)
    ensures forall j: nat :: hi <= j < |y| ==> y'[j] == y[j]
  {
    ColumnRowsAscend(m, i, hi);
    forall j: nat | j < hi && j < |y|
      ensures y'[j] == y[j] - Taken(m, i, yi, j)
    {
      if j !in ColumnRows(m, i, hi) {
        TakenOffPattern(m, i, yi, j);
      }
    }
  }

  lemma {:induction false} PopEntry(m: Columns, k: nat, stack: seq<nat>, s: nat, j: nat)
    requires m.Valid() && k < m.n && RowStack(m, k, stack) && s < |stack|
    requires j < k && j != stack[s]
    ensures Owed(m, k, stack[..s + 1], j) == Owed(m, k, stack[..s], j) - PopTakes(m, k, stack[s], j)
  {
    var i, done := stack[s], stack[..s];
    assert stack[..s + 1] == done + [i];
    if j in done {
      PoppedUntouched(m, k, stack, s, j);
      TakenOffPattern(m, i, U(m.Entries(), i, k), j);
    } else {
      assert OnceAt(stack, s);
      ResidualTaken(m, k, done, i, j);
    }
  }

  /** Popping node i takes its share from what a node owes. */
  lemma {:induction false} ResidualTaken(m: Columns, k: nat, done: seq<nat>, i: nat, j: nat)
    requires i !in done
    ensures Residual(m.Entries(), k, done + [i], j) == Residual(m.Entries(), k, done, j) - PopTakes(m, k, i, j)
  {
    var a := m.Entries();
    ResidualPush(a, k, done, i, j);
    if i < j {
      SameProducts(L(a, j, i), U(a, i, k), LOf(a)(j, i), U(a, i, k));
    }
  }

  lemma {:induction false} PopDiagonal(m: Columns, k: nat, stack: seq<nat>, s: nat)
    requires m.Valid() && Distinct(stack) && s < |stack| && stack[s] < k
    ensures Residual(m.Entries(), k, stack[..s + 1], k)
         == Residual(m.Entries(), k, stack[..s], k) - PopTakes(m, k, stack[s], k)
  {
    assert OnceAt(stack, s);
    assert stack[..s + 1] == stack[..s] + [stack[s]];
    ResidualTaken(m, k, stack[..s], stack[s], k);
  }

  /** What is known of the node on top of the stack. */
  lemma {:induction false} StackTop(m: Columns, k: nat, stack: seq<nat>, s: nat, y: seq<real>, dk: real,
                 lnz: seq<nat>, li: seq<nat>, lx: seq<real>)
    requires m.Valid() && k < m.n && RowStack(m, k, stack) && s < |stack|
    requires Pending(m, k, stack[..s], y, dk) && ColumnsHeld(m, k, stack[..s], lnz, li, lx)
    ensures stack[s] < k && Fill(m, k, stack[s]) && stack[s] !in stack[..s]
    ensures stack[..s + 1] == stack[..s] + [stack[s]]
    ensures y[stack[s]] == U(m.Entries(), stack[s], k)
    ensures lnz[stack[s]] == |ColumnRows(m, stack[s], k)| && ColumnHolds(m, li, lx, stack[s], k)
  {
    assert stack[s] in stack && OnceAt(stack, s);
    PopIsFinal(m, k, stack, s);
  }

  /** Popping `stack[s]`: clear it, subtract its column from y, and update the diagonal. */
  lemma {:induction false} PopStep(m: Columns, k: nat, stack: seq<nat>, s: nat, y: seq<real>, dk: real, y': seq<real>,
    dk': real)
    requires m.Valid() && k < m.n && RowStack(m, k, stack) && s < |stack| && stack[s] < k
    requires Pending(m, k, stack[..s], y, dk) && k < |y|
    requires ColumnSubtracted(m, stack[s], U(m.Entries(), stack[s], k), ColumnRows(m, stack[s], k),
                              y[stack[s] := 0.0], y')
    requires dk' == dk - PopTakes(m, k, stack[s], k)
    ensures Pending(m, k, stack[..s + 1], y', dk')
  {
    var i := stack[s];
    PopDiagonal(m, k, stack, s);
    WholeColumnSubtracted(m, i, U(m.Entries(), i, k), k, y[i := 0.0], y');
    forall j: nat | j < k
      ensures y'[j] == Owed(m, k, stack[..s + 1], j)
    {
      if j != i {
        PopEntry(m, k, stack, s, j);
      } else {
        assert stack[..s + 1][s] == j;
      }
    }
  }

  lemma {:induction false} PoppedUntouched(m: Columns, k: nat, stack: seq<nat>, s: nat, j: nat)
    requires m.Valid() && k < m.n && RowStack(m, k, stack) && s < |stack|
    requires j in stack[..s]
    ensures j < k && !Fill(m, j, stack[s]) && j != stack[s]
  {
    var x: nat :| x < s && stack[x] == j;
    assert stack[x] in stack && OnceAt(stack, s);
    if Fill(m, j, stack[s]) {
      AncestorsDeeper(m, k, stack, s, j);
      var t: nat :| s < t < |stack| && stack[t] == j;
      SamePlace(stack, t, x);
    }
  }

  lemma {:induction false} PendingStart(m: Columns, k: nat, y: seq<real>, dk: real)
    requires k < |y| && y[k] == 0.0 && dk == m.Entry(k, k)
    requires forall i: nat :: i < k ==> y[i] == m.Entry(i, k)
    ensures Pending(m, k, [], y, dk)
  {
    forall i: nat | i <= k
      ensures Residual(m.Entries(), k, [], i) == m.Entry(i, k)
    {
      ResidualNone(m.Entries(), k, i);
    }
  }

  /** With the stack empty the workspace is zero again and the diagonal is the pivot. */
  lemma {:induction false} PendingEnd(m: Columns, k: nat, stack: seq<nat>, y: seq<real>, dk: real)
    requires m.Valid() && RowStack(m, k, stack) && Pending(m, k, stack, y, dk)
    ensures forall i: nat :: i <= k ==> y[i] == 0.0
    ensures dk == U(m.Entries(), k, k)
  {
    forall i: nat | i < k
      ensures y[i] == 0.0
    {
      if i !in stack {
        ResidualOutside(m, k, stack, i);
      }
    }
    ResidualFinal(m, k, stack, k) by {
      forall j: nat | j < k && Fill(m, k, j)
        ensures j in stack
      {
      }
    }
  }

  /** With the stack empty, the columns hold every row up to and including k. */
  lemma {:induction false} RowComplete(m: Columns, k: nat, stack: seq<nat>, lnz: seq<nat>, li: seq<nat>, lx: seq<real>)
    requires m.Valid() && k < m.n && RowStack(m, k, stack)
    requires ColumnsHeld(m, k, stack, lnz, li, lx)
    requires k < |lnz| && lnz[k] == 0
    ensures ColumnsHeld(m, k + 1, [], lnz, li, lx)
  {
    EmptyColumn(m, k, k + 1);
    ColumnsDisjoint(m, k, m.n);
    forall i: nat | i < k + 1
      ensures lnz[i] == |ColumnRows(m, i, k + 1)| && ColumnHolds(m, li, lx, i, k + 1)
    {
      if i < k && i !in stack {
        assert ColumnRows(m, i, k + 1) == ColumnRows(m, i, k);
        assert ColumnHolds(m, li, lx, i, k);
      }
    }
  }
}
