// The sparse LDL' factorization class: symbolic analysis, numeric factorization and solves, all in place on
// the arrays of the class.  P and Pinv are null, as the constructor leaves them.

module SparseLdl {
  import opened Sums
  import opened Factor
  import opened Pattern
  import opened LdlSteps
  import opened LdlValues
  import opened LdlSweeps
  import opened Systems

  /** Moving the last node of the prefix to the front of the suffix. */
  lemma {:induction false} MoveOne(path: seq<nat>, stack: seq<nat>, before: seq<nat>, len: nat, top: nat,
    after: seq<nat>)
    requires len < |path| && len <= top < |before| && after == before[top := before[len]]
    requires before[..len + 1] == path[..len + 1] && before[top + 1..] == path[len + 1..] + stack
    ensures after[..len] == path[..len] && after[top..] == path[len..] + stack
  {
    assert before[len] == before[..len + 1][len] == path[len];
    assert after[..len] == before[..len + 1][..len];
    assert after[top..] == [path[len]] + before[top + 1..];
    assert path[len..] == [path[len]] + path[len + 1..];
  }

  class Ldl {
    const m: Columns
    const Lp: array<nat>
    const Parent: array<int>
    const Lnz: array<nat>
    var Li: array<nat>
    var Lx: array<real>
    const D: array<real>
    const Y: array<real>
    const Flag: array<nat>
    const Pattern: array<nat>

    ghost predicate Valid()
      reads this
    {
      && m.Shaped()
      && Lp.Length == m.n + 1
      && Parent.Length == m.n && Lnz.Length == m.n && D.Length == m.n && Y.Length == m.n
      && Flag.Length == m.n && Pattern.Length == m.n
      && Lp != Lnz && Lp != Flag && Lp != Pattern && Lp != Li
      && Lnz != Flag && Lnz != Pattern && Lnz != Li
      && Flag != Pattern && Flag != Li && Pattern != Li
      && D != Y && D != Lx && Y != Lx
      && Parent as object != Lp && Parent as object != Lnz && Parent as object != Flag
      && Parent as object != Pattern && Parent as object != Li
    }

    constructor (m: Columns)
      requires m.Shaped()
      ensures Valid() && this.m == m
      ensures fresh(Lp) && fresh(Parent) && fresh(Lnz) && fresh(Li) && fresh(Lx)
      ensures fresh(D) && fresh(Y) && fresh(Flag) && fresh(Pattern)
    {
      this.m := m;
      Lp := new nat[m.n + 1];
      Parent := new int[m.n];
      Lnz := new nat[m.n];
      Li := new nat[0];
      Lx := new real[0];
      D := new real[m.n];
      Y := new real[m.n];
      Flag := new nat[m.n];
      Pattern := new nat[m.n];
    }

    /** Checks the two properties the factorization needs of its column form. */
    method ValidMatrix() returns (valid: bool)
      requires Valid()
      ensures valid <==> m.Valid()
    {
      for j := 0 to m.n
        invariant forall i: nat :: i < j ==> m.ap[i] <= m.ap[i + 1]
      {
        if m.ap[j] > m.ap[j + 1] {
          return false;
        }
      }
      for p := 0 to m.ap[m.n]
        invariant forall q: nat :: q < p ==> m.ai[q] < m.n
      {
        if m.ai[p] >= m.n {
          return false;
        }
      }
      return true;
    }

    // -------------------------------------------------------------------------------------------
    // Symbolic analysis
    // -------------------------------------------------------------------------------------------

    /** The analysis is complete: parents, and column starts with the exact column sizes. */
    ghost predicate IsAnalysed()
      reads this, Parent, Lp
    {
      && Valid() && m.Valid()
      && (forall i: nat :: i < m.n ==> Parent[i] == ParentAt(m, i, m.n))
      && (forall i: nat :: i <= m.n ==> Lp[i] == ColumnStart(m, i))
      && Li.Length == Lx.Length == ColumnStart(m, m.n)
    }

    /** One node of a path: its parent if it is not known yet, its count, its mark; the walk goes on at its parent. */
    method MarkNode(k: nat, head: nat) returns (next: nat)
      requires Valid() && m.Valid() && head < k < m.n && Flag[head] != k
      requires Visiting(m, k, head, Parent[..], Lnz[..], Flag[..])
      modifies Parent, Lnz, Flag
      ensures head < next <= k && Visiting(m, k, next, Parent[..], Lnz[..], Flag[..])
      ensures Flag[..] == old(Flag[..])[head := k]
    {
      ghost var parent, lnz, flag := Parent[..], Lnz[..], Flag[..];
      VisitStep(m, k, head, parent, lnz, flag);
      if Parent[head] == -1 {
        Parent[head] := k;
      }
      Lnz[head] := Lnz[head] + 1;
      Flag[head] := k;
      assert Parent[..] == parent[head := NextHead(m, k, head)];
      assert Lnz[..] == lnz[head := lnz[head] + 1];
      assert Flag[..] == flag[head := k];
      next := Parent[head];
    }

    /** Follow the path from i towards the root, stopping at a node already marked for row k. */
    method MarkPath(k: nat, i: nat)
      requires Valid() && m.Valid() && k < m.n
      requires Visiting(m, k, k, Parent[..], Lnz[..], Flag[..])
      requires i < k && Fill(m, k, i)
      modifies Parent, Lnz, Flag
      ensures Visiting(m, k, k, Parent[..], Lnz[..], Flag[..])
      ensures Flag[i] == k
      ensures MarkedMore(k, old(Flag[..]), Flag[..])
    {
      var head := i;
      while Flag[head] != k
        invariant head <= k
        invariant Visiting(m, k, head, Parent[..], Lnz[..], Flag[..])
        invariant head == i || Flag[i] == k
        invariant MarkedMore(k, old(Flag[..]), Flag[..])
        decreases k - head
      {
        head := MarkNode(k, head);
      }
    }

    /** One stored entry of column k: mark its path. */
    method VisitEntry(k: nat, p: nat)
      requires Valid() && m.Valid() && k < m.n && m.ap[k] <= p < m.ap[k + 1] <= m.ap[m.n]
      requires Visiting(m, k, k, Parent[..], Lnz[..], Flag[..])
      requires forall i: nat :: i <= k ==> Flag[i] <= k
      requires forall i: nat :: i < k && m.StoredBefore(i, k, p) ==> Flag[i] == k
      modifies Parent, Lnz, Flag
      ensures Visiting(m, k, k, Parent[..], Lnz[..], Flag[..])
      ensures forall i: nat :: i <= k ==> Flag[i] <= k
      ensures forall i: nat :: i < k && m.StoredBefore(i, k, p + 1) ==> Flag[i] == k
    {
      var i := m.ai[p];
      if i < k {
        assert m.Stored(i, k);
        MarkPath(k, i);
      }
    }

    /** Mark every node of row k: the inner loop over the stored entries of column k. */
    method VisitRow(k: nat)
      requires Valid() && m.Valid() && k < m.n
      requires Analysed(m, k, Parent[..], Lnz[..])
      requires forall i: nat :: i < k ==> Flag[i] < k
      modifies Parent, Lnz, Flag
      ensures Analysed(m, k + 1, Parent[..], Lnz[..])
      ensures forall i: nat :: i <= k ==> Flag[i] < k + 1
    {
      BeginVisit(m, k, Parent[..], Lnz[..], Flag[..]);
      ghost var parent, lnz, flag := Parent[..], Lnz[..], Flag[..];
      Parent[k] := -1;
      Flag[k] := k;
      Lnz[k] := 0;
      assert Parent[..] == parent[k := -1] && Lnz[..] == lnz[k := 0] && Flag[..] == flag[k := k];
      ColumnsInRange(m, k, k + 1);
      for p := m.ap[k] to m.ap[k + 1]
        invariant Visiting(m, k, k, Parent[..], Lnz[..], Flag[..])
        invariant forall i: nat :: i <= k ==> Flag[i] <= k
        invariant forall i: nat :: i < k && m.StoredBefore(i, k, p) ==> Flag[i] == k
      {
        VisitEntry(k, p);
      }
      VisitComplete(m, k, Parent[..], Lnz[..], Flag[..]);
    }

    /** The start of every column of L, from the counts. */
    method ColumnStarts()
      requires Valid() && m.Valid() && Analysed(m, m.n, Parent[..], Lnz[..])
      modifies Lp
      ensures forall i: nat :: i <= m.n ==> Lp[i] == ColumnStart(m, i)
    {
      Lp[0] := 0;
      for k := 0 to m.n
        invariant forall i: nat :: i <= k ==> Lp[i] == ColumnStart(m, i)
      {
        Lp[k + 1] := Lp[k] + Lnz[k];
      }
    }

    /** Elimination tree and column counts, without looking at any value. */
    method Symbolic()
      requires Valid() && m.Valid()
      modifies this`Li, this`Lx, Parent, Lnz, Flag, Lp
      ensures IsAnalysed()
      ensures fresh(Li) && fresh(Lx)
    {
      for k := 0 to m.n
        invariant Valid() && Analysed(m, k, Parent[..], Lnz[..])
        invariant forall i: nat :: i < k ==> Flag[i] < k
      {
        VisitRow(k);
      }
      ColumnStarts();
      Li := new nat[Lp[m.n]];
      Lx := new real[Lp[m.n]];
    }

    // -------------------------------------------------------------------------------------------
    // Numeric factorization
    // -------------------------------------------------------------------------------------------

    /** Rows 0..k-1 are factorized: pivots, columns of L, a clear workspace, no mark for k. */
    ghost predicate RowsDone(k: nat)
      reads this, Parent, Lp, D, Y, Flag, Lnz, Li, Lx
    {
      && IsAnalysed() && k <= m.n
      && (forall i: nat :: i < k ==> D[i] == Factor.D(m.Entries(), i) && D[i] != 0.0)
      && (forall i: nat :: i < k ==> Y[i] == 0.0 && Flag[i] < k)
      && ColumnsHeld(m, k, [], Lnz[..], Li[..], Lx[..])
    }

    /** Move the scratch prefix of Pattern on top of the stack held in its suffix, keeping its order. */
    method MovePath(len0: nat, top: nat) returns (top': nat)
      requires Valid() && len0 <= top <= m.n
      modifies Pattern
      ensures top' == top - len0
      ensures Pattern[top'..] == old(Pattern[..len0]) + old(Pattern[top..])
    {
      ghost var path, stack := Pattern[..len0], Pattern[top..];
      var len := len0;
      top' := top;
      while len > 0
        invariant len <= len0 && top' + (len0 - len) == top
        invariant Pattern[..len] == path[..len]
        invariant Pattern[top'..] == path[len..] + stack
      {
        ghost var before := Pattern[..];
        top', len := top' - 1, len - 1;
        Pattern[top'] := Pattern[len];
        assert Pattern[..] == before[top' := before[len]];
        MoveOne(path, stack, before, len, top', Pattern[..]);
      }
      assert path[0..] == path;
    }

    /** Write the path from i to a node already marked for row k into the scratch prefix of Pattern. */
    method WalkPath(k: nat, i: nat, ghost stack: seq<nat>) returns (len: nat, ghost head: nat)
      requires IsAnalysed() && k < m.n
      requires i <= k && (i < k ==> Fill(m, k, i))
      requires Marks(m, k, Flag[..], stack)
      modifies Flag, Pattern
      ensures len + |stack| <= k
      ensures Marks(m, k, Flag[..], Pattern[..len] + stack) && Climbs(m, Pattern[..len], head)
      ensures head == k || head in stack
      ensures Pattern[m.n - |stack|..] == old(Pattern[m.n - |stack|..])
      ensures Flag[i] == k
      ensures MarkedMore(k, old(Flag[..]), Flag[..])
    {
      ghost var path: seq<nat> := [];
      assert path + stack == stack;
      var node := i;
      len := 0;
      StackFits(m, k, Flag[..], stack);
      while Flag[node] != k
        invariant node <= k && (node < k ==> Fill(m, k, node))
        invariant len == |path| && len + |stack| <= k
        invariant Pattern[..len] == path
        invariant Pattern[m.n - |stack|..] == old(Pattern[m.n - |stack|..])
        invariant Marks(m, k, Flag[..], path + stack) && Climbs(m, path, node)
        invariant node == i || Flag[i] == k
        invariant MarkedMore(k, old(Flag[..]), Flag[..])
        decreases k - node
      {
        ghost var flag := Flag[..];
        ClimbStep(m, k, flag, path, stack, node);
        Pattern[len] := node;
        len := len + 1;
        Flag[node] := k;
        path := path + [node];
        assert Flag[..] == flag[node := k];
        node := Parent[node];
      }
      WalkEnds(m, k, Flag[..], path, stack, node);
      head := node;
    }

    /** Walk from i to a node already marked for row k, and put the walked path on the stack. */
    method PushPath(k: nat, i: nat, top: nat) returns (top': nat)
      requires IsAnalysed() && k < m.n && top <= m.n
      requires i <= k && (i < k ==> Fill(m, k, i))
      requires Marks(m, k, Flag[..], Pattern[top..]) && Topological(m, k, Pattern[top..])
      modifies Flag, Pattern
      ensures top' <= m.n
      ensures Marks(m, k, Flag[..], Pattern[top'..]) && Topological(m, k, Pattern[top'..])
      ensures Flag[i] == k
      ensures MarkedMore(k, old(Flag[..]), Flag[..])
    {
      var len, head := WalkPath(k, i, Pattern[top..]);
      PathOnStack(m, k, Pattern[..len], Pattern[top..], head);
      top' := MovePath(len, top);
    }

    method AddEntry(k: nat, p: nat)
      requires Valid() && m.Valid() && k < m.n && m.ap[k] <= p < |m.ai| && p < |m.ax| && m.ai[p] <= k
      requires forall i: nat :: i <= k ==> Y[i] == m.Summed(m.ap[k], p, i)
      modifies Y
      ensures forall i: nat :: i <= k ==> Y[i] == m.Summed(m.ap[k], p + 1, i)
    {
      var i := m.ai[p];
      Y[i] := Y[i] + m.ax[p];
    }

    /** One stored entry of column k: add it to Y and stack its path. */
    method ScatterEntry(k: nat, p: nat, top: nat) returns (top': nat)
      requires IsAnalysed() && k < m.n && top <= m.n && m.ap[k] <= p < m.ap[k + 1] <= m.ap[m.n]
      requires Marks(m, k, Flag[..], Pattern[top..]) && Topological(m, k, Pattern[top..])
      requires forall i: nat :: i <= k ==> Y[i] == m.Summed(m.ap[k], p, i)
      requires forall i: nat :: i <= k ==> Flag[i] <= k
      requires forall i: nat :: i < k && m.StoredBefore(i, k, p) ==> Flag[i] == k
      modifies Y, Flag, Pattern
      ensures top' <= m.n
      ensures Marks(m, k, Flag[..], Pattern[top'..]) && Topological(m, k, Pattern[top'..])
      ensures forall i: nat :: i <= k ==> Y[i] == m.Summed(m.ap[k], p + 1, i)
      ensures forall i: nat :: i <= k ==> Flag[i] <= k
      ensures forall i: nat :: i < k && m.StoredBefore(i, k, p + 1) ==> Flag[i] == k
    {
      var i := m.ai[p];
      top' := top;
      if i <= k {
        AddEntry(k, p);
        assert m.Stored(i, k);
        top' := PushPath(k, i, top);
      }
    }

    /** Scatter column k of A into Y and stack the pattern of row k, descendants on top. */
    method ScatterColumn(k: nat) returns (top: nat)
      requires RowsDone(k) && k < m.n
      modifies Y, Flag, Pattern, Lnz
      ensures IsAnalysed() && top <= m.n
      ensures RowStack(m, k, Pattern[top..])
      ensures Y[k] == m.Entry(k, k) && forall i: nat :: i < k ==> Y[i] == m.Entry(i, k)
      ensures forall i: nat :: i <= k ==> Y[i] == m.Matrix()(i, k)
      ensures forall i: nat :: i <= k ==> Flag[i] <= k
      ensures Lnz[..] == old(Lnz[..])[k := 0]
    {
      Y[k] := 0.0;
      top := m.n;
      Flag[k] := k;
      Lnz[k] := 0;
      assert Lnz[..] == old(Lnz[..])[k := 0];
      assert Pattern[top..] == [];
      ColumnsInRange(m, k, k + 1);
      for p := m.ap[k] to m.ap[k + 1]
        modifies Y, Flag, Pattern
        invariant top <= m.n
        invariant Marks(m, k, Flag[..], Pattern[top..]) && Topological(m, k, Pattern[top..])
        invariant forall i: nat :: i <= k ==> Y[i] == m.Summed(m.ap[k], p, i)
        invariant forall i: nat :: i <= k ==> Flag[i] <= k
        invariant forall i: nat :: i < k && m.StoredBefore(i, k, p) ==> Flag[i] == k
      {
        top := ScatterEntry(k, p, top);
      }
      StackComplete(m, k, Flag[..], Pattern[top..]);
      EntriesAreStored(m);
    }

    /** One stored entry of column i. */
    method SubtractEntry(z: array<real>, i: nat, yi: real, p: nat, ghost hi: nat, ghost was: seq<real>)
      requires IsAnalysed() && i < m.n && hi <= m.n && z.Length == m.n && z != Lx
      requires Lp[i] <= p < Lp[i] + |ColumnRows(m, i, hi)| && ColumnHolds(m, Li[..], Lx[..], i, hi)
      requires ColumnSubtracted(m, i, yi, ColumnRows(m, i, hi)[..p - Lp[i]], was, z[..])
      modifies z
      ensures ColumnSubtracted(m, i, yi, ColumnRows(m, i, hi)[..p - Lp[i] + 1], was, z[..])
    {
      ghost var rows, li, lx, y, t := ColumnRows(m, i, hi), Li[..], Lx[..], z[..], p - Lp[i];
      ghost var r := rows[t];
      ColumnEntry(m, li, lx, i, hi, t, yi);
      SubtractStep(m, i, yi, rows, t, was, y);
      assert Li[p] == li[p] == r && Lx[p] == lx[p];
      var take := Mul(Lx[p], yi);
      assert take == Taken(m, i, yi, r);
      z[Li[p]] := z[Li[p]] - take;
      assert z[..] == y[r := y[r] - Taken(m, i, yi, r)];
    }

    /** Subtract yi times column i of L, up to position p2, from a vector. */
    method SubtractColumn(z: array<real>, i: nat, yi: real, p2: nat, ghost hi: nat)
      requires IsAnalysed() && i < m.n && hi <= m.n
      requires z.Length == m.n && z != Lx
      requires p2 == Lp[i] + |ColumnRows(m, i, hi)| && ColumnHolds(m, Li[..], Lx[..], i, hi)
      modifies z
      ensures ColumnSubtracted(m, i, yi, ColumnRows(m, i, hi), old(z[..]), z[..])
    {
      ghost var rows, was := ColumnRows(m, i, hi), z[..];
      var start := Lp[i];
      for p := start to p2
        invariant ColumnSubtracted(m, i, yi, rows[..p - start], was, z[..])
      {
        SubtractEntry(z, i, yi, p, hi, was);
      }
      assert rows[..p2 - start] == rows;
    }

    /** Append L(k, i) to column i. */
    method StoreEntry(k: nat, i: nat, lki: real, ghost done: seq<nat>)
      requires IsAnalysed() && i < k < m.n && i !in done && Fill(m, k, i)
      requires ColumnsHeld(m, k, done, Lnz[..], Li[..], Lx[..])
      requires lki == L(m.Entries(), k, i)
      modifies Li, Lx, Lnz
      ensures ColumnsHeld(m, k, done + [i], Lnz[..], Li[..], Lx[..])
      ensures Lnz[k] == old(Lnz[k])
    {
      ghost var lnz, li, lx := Lnz[..], Li[..], Lx[..];
      var p := Lp[i] + Lnz[i];
      ColumnPush(m, k, done, lnz, li, lx, i);
      assert ColumnsHeld(m, k, done + [i], lnz[i := lnz[i] + 1], li[p := k], lx[p := lki]);
      Li[p] := k;
      Lx[p] := lki;
      Lnz[i] := Lnz[i] + 1;
      assert Li[..] == li[p := k] && Lx[..] == lx[p := lki] && Lnz[..] == lnz[i := lnz[i] + 1];
    }

    /** Clear Y[i], subtract its column from Y, and finish L(k, i) and its share of the pivot. */
    method EliminateNode(k: nat, i: nat) returns (lki: real)
      requires IsAnalysed() && i < k < m.n
      requires Lnz[i] == |ColumnRows(m, i, k)| && ColumnHolds(m, Li[..], Lx[..], i, k)
      requires Y[i] == U(m.Entries(), i, k)
      requires D[i] == Factor.D(m.Entries(), i) && D[i] != 0.0
      modifies Y, D
      ensures lki == L(m.Entries(), k, i)
      ensures ColumnSubtracted(m, i, U(m.Entries(), i, k), ColumnRows(m, i, k), old(Y[..])[i := 0.0], Y[..])
      ensures D[..] == old(D[..])[k := old(D[k]) - PopTakes(m, k, i, k)]
    {
      ghost var y := Y[..];
      var yi := Y[i];
      Y[i] := 0.0;
      assert Y[..] == y[i := 0.0];
      SubtractColumn(Y, i, yi, Lp[i] + Lnz[i], k);
      lki := yi / D[i];
      D[k] := D[k] - lki * yi;
    }

    /** Pop the node on top of the stack: finish L(k, i), store it, and update the pivot of row k. */
    method PopNode(k: nat, top: nat, ghost stack: seq<nat>, ghost s: nat)
      requires IsAnalysed() && k < m.n
      requires top < m.n && s < |stack| && Pattern[top] == stack[s] && RowStack(m, k, stack)
      requires Pending(m, k, stack[..s], Y[..], D[k])
      requires ColumnsHeld(m, k, stack[..s], Lnz[..], Li[..], Lx[..])
      requires forall i: nat :: i < k ==> D[i] == Factor.D(m.Entries(), i) && D[i] != 0.0
      modifies Y, D, Li, Lx, Lnz
      ensures Pending(m, k, stack[..s + 1], Y[..], D[k])
      ensures ColumnsHeld(m, k, stack[..s + 1], Lnz[..], Li[..], Lx[..])
      ensures forall i: nat :: i < m.n && i != k ==> D[i] == old(D[i])
      ensures Lnz[k] == old(Lnz[k])
    {
      var i := Pattern[top];
      ghost var y, dk := Y[..], D[k];
      StackTop(m, k, stack, s, y, dk, Lnz[..], Li[..], Lx[..]);
      var lki := EliminateNode(k, i);
      StoreEntry(k, i, lki, stack[..s]);
      PopStep(m, k, stack, s, y, dk, Y[..], D[k]);
    }

    /** All nodes on the stack finished and stored. */
    method PopAll(k: nat, start: nat, ghost stack: seq<nat>)
      requires IsAnalysed() && k < m.n && start <= m.n && stack == Pattern[start..] && RowStack(m, k, stack)
      requires Pending(m, k, [], Y[..], D[k]) && ColumnsHeld(m, k, [], Lnz[..], Li[..], Lx[..])
      requires forall i: nat :: i < k ==> D[i] == Factor.D(m.Entries(), i) && D[i] != 0.0
      modifies Y, D, Li, Lx, Lnz
      ensures Pending(m, k, stack, Y[..], D[k]) && ColumnsHeld(m, k, stack, Lnz[..], Li[..], Lx[..])
      ensures forall i: nat :: i < m.n && i != k ==> D[i] == old(D[i])
      ensures Lnz[k] == old(Lnz[k])
    {
      var top := start;
      ghost var s: nat := 0;
      assert stack[..0] == [];
      while top < m.n
        invariant top <= m.n && s == top + |stack| - m.n
        invariant Pending(m, k, stack[..s], Y[..], D[k])
        invariant ColumnsHeld(m, k, stack[..s], Lnz[..], Li[..], Lx[..])
        invariant forall i: nat :: i < m.n && i != k ==> D[i] == old(D[i])
        invariant Lnz[k] == old(Lnz[k])
        decreases m.n - top
      {
        PopNode(k, top, stack, s);
        top, s := top + 1, s + 1;
      }
      assert stack[..s] == stack;
    }

    /** Row k of L and the pivot D[k]: scatter column k, then pop the whole stack. */
    method NumericRow(k: nat)
      requires RowsDone(k) && k < m.n
      modifies Y, Flag, Pattern, Lnz, D, Li, Lx
      ensures IsAnalysed()
      ensures D[k] == Factor.D(m.Entries(), k)
      ensures D[k] != 0.0 ==> RowsDone(k + 1)
      ensures forall i: nat :: i < k ==> D[i] == old(D[i])
      ensures ColumnsHeld(m, k + 1, [], Lnz[..], Li[..], Lx[..])
    {
      var top := ScatterColumn(k);
      ghost var stack := Pattern[top..];
      D[k] := Y[k];
      Y[k] := 0.0;
      PendingStart(m, k, Y[..], D[k]);
      PopAll(k, top, stack);
      PendingEnd(m, k, stack, Y[..], D[k]);
      RowComplete(m, k, stack, Lnz[..], Li[..], Lx[..]);
    }

    /** Row by row, until a pivot vanishes. */
    method FactorRows() returns (rank: nat)
      requires IsAnalysed()
      modifies Y, Flag, Pattern, Lnz, D, Li, Lx
      ensures IsAnalysed() && rank <= m.n
      ensures rank < m.n ==> D[rank] == 0.0 == Factor.D(m.Entries(), rank)
      ensures forall i: nat :: i < rank ==> D[i] == Factor.D(m.Entries(), i) && D[i] != 0.0
      ensures ColumnsHeld(m, if rank < m.n then rank + 1 else rank, [], Lnz[..], Li[..], Lx[..])
    {
      for k := 0 to m.n
        invariant RowsDone(k)
      {
        NumericRow(k);
        if D[k] == 0.0 {
          return k;
        }
      }
      return m.n;
    }

    /**
     * The numeric factorization: m.n if every pivot is nonzero, otherwise the first k whose pivot
     * is zero, with rows 0..k-1 factorized and D[k] computed.
     */
    method Numeric() returns (rank: nat)
      requires IsAnalysed()
      modifies Y, Flag, Pattern, Lnz, D, Li, Lx
      ensures IsAnalysed() && rank <= m.n
      ensures rank < m.n ==> D[rank] == 0.0
      ensures forall i: nat :: i < rank ==> D[i] != 0.0
      // L*D*L', read from the arrays, is A on the rows processed
      ensures var done := if rank < m.n then rank + 1 else rank;
        && UnitLower(done, StoredL(m, Lp[..], Lnz[..], Li[..], Lx[..]))
        && Factors(m.Matrix(), done, StoredL(m, Lp[..], Lnz[..], Li[..], Lx[..]), Vec(D[..]))
      // and full success means exactly that A can be factorized without pivoting
      ensures rank == m.n <==> Factorable(m.Matrix(), m.n)
      ensures rank == m.n ==> Factorized()
    {
      rank := FactorRows();
      ghost var done := if rank < m.n then rank + 1 else rank;
      FactorsRead(m, done, Lp[..], Lnz[..], Li[..], Lx[..], D[..]);
      PivotsNonzeroIffFactorable(m.Entries(), m.n);
      EntriesAreStored(m);
      SameFactors(m.Entries(), m.Matrix(), done, StoredL(m, Lp[..], Lnz[..], Li[..], Lx[..]), Vec(D[..]));
      SameFactorable(m.Entries(), m.Matrix(), m.n);
    }

    // -------------------------------------------------------------------------------------------
    // Solving
    // -------------------------------------------------------------------------------------------

    /** The factorization succeeded: every pivot is nonzero and every column of L is complete. */
    ghost predicate Factorized()
      reads this, Parent, Lp, D, Li, Lx
    {
      && IsAnalysed()
      && (forall i: nat :: i < m.n ==> D[i] == Factor.D(m.Entries(), i) && D[i] != 0.0)
      && (forall i: nat :: i < m.n ==> ColumnHolds(m, Li[..], Lx[..], i, m.n))
    }

    /** A right-hand side the solver may overwrite: none of its own vectors. */
    ghost predicate Separate(x: array<real>)
      reads this
    {
      x.Length == m.n && x != D && x != Y && x != Lx
    }

    /** Solve L x = b in place. */
    method LSolve(x: array<real>)
      requires Factorized() && Separate(x)
      modifies x
      ensures Forward(m, m.n, old(x[..]), x[..])
    {
      ghost var b := x[..];
      ForwardStart(m, b);
      for j := 0 to m.n
        invariant Forward(m, j, b, x[..])
      {
        SweepColumn(x, j, b);
      }
    }

    /** Column j of L moves to the right-hand side. */
    method SweepColumn(x: array<real>, j: nat, ghost b: seq<real>)
      requires Factorized() && Separate(x) && j < m.n && Forward(m, j, b, x[..])
      modifies x
      ensures Forward(m, j + 1, b, x[..])
    {
      ghost var was := x[..];
      SubtractColumn(x, j, x[j], Lp[j + 1], m.n);
      ForwardStep(m, j, b, was, x[..]);
    }

    /** Solve D x = b in place. */
    method DSolve(x: array<real>)
      requires Factorized() && Separate(x)
      modifies x
      ensures forall j: nat :: j < m.n ==> x[j] == old(x[j]) / Factor.D(m.Entries(), j)
    {
      for j := 0 to m.n
        invariant forall i: nat :: i < j ==> x[i] == old(x[i]) / Factor.D(m.Entries(), i)
        invariant forall i: nat :: j <= i < m.n ==> x[i] == old(x[i])
      {
        x[j] := x[j] / D[j];
      }
    }

    /** One stored entry of column j. */
    method GatherEntry(x: array<real>, j: nat, p: nat, ghost t: nat, ghost rows: seq<nat>, ghost was: seq<real>)
      requires IsAnalysed() && Separate(x) && j < m.n && ColumnHolds(m, Li[..], Lx[..], j, m.n)
      requires rows == ColumnRows(m, j, m.n) && t < |rows| && p == Lp[j] + t
      requires |was| == m.n && x[..] == was[j := x[j]] && Gathering(m, j, rows[..t], was, x[j])
      modifies x
      ensures x[..] == was[j := x[j]] && Gathering(m, j, rows[..t + 1], was, x[j])
    {
      ghost var li, lx := Li[..], Lx[..];
      GatherStep(m, li, lx, j, t, was, x[j]);
      assert Li[p] == li[p] && Lx[p] == lx[p] && x[Li[p]] == was[li[p]];
      x[j] := x[j] - Mul(Lx[p], x[Li[p]]);
    }

    /** Gather column j of L, times the solved coordinates, into coordinate j. */
    method GatherColumn(x: array<real>, j: nat)
      requires IsAnalysed() && Separate(x) && j < m.n
      requires ColumnHolds(m, Li[..], Lx[..], j, m.n)
      modifies x
      ensures x[..] == old(x[..])[j := x[j]]
      ensures Gathering(m, j, ColumnRows(m, j, m.n), old(x[..]), x[j])
    {
      ghost var rows, was := ColumnRows(m, j, m.n), x[..];
      GatherStart(m, j, was);
      var start, p2 := Lp[j], Lp[j + 1];
      for p := start to p2
        invariant x[..] == was[j := x[j]]
        invariant Gathering(m, j, rows[..p - start], was, x[j])
      {
        GatherEntry(x, j, p, p - start, rows, was);
      }
      assert rows[..p2 - start] == rows;
    }

    /** Solve L' x = b in place. */
    method LtSolve(x: array<real>)
      requires Factorized() && Separate(x)
      modifies x
      ensures Backward(m, 0, old(x[..]), x[..])
    {
      ghost var b := x[..];
      BackwardStart(m, b);
      for j := m.n downto 0
        invariant Backward(m, j, b, x[..])
      {
        ghost var was := x[..];
        GatherColumn(x, j);
        BackwardStep(m, j, b, was, x[..]);
      }
    }

    /** Overwrite b with the one solution of A x = b. */
    method Solve(x: array<real>)
      requires Factorized() && Separate(x)
      modifies x
      ensures UniqueSolution(m.Matrix(), m.n, Vec(old(x[..])), Vec(x[..]))
    {
      ghost var b := x[..];
      LSolve(x);
      ghost var z := x[..];
      DSolve(x);
      ghost var w := x[..];
      LtSolve(x);
      SweepsGiveSolution(m, b, z, w, x[..]);
      EntriesAreStored(m);
      SameSolution(m.Entries(), m.Matrix(), m.n, Vec(b), Vec(x[..]));
    }
  }
}
