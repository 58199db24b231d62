// Assembling the graph of a block matrix on one process, and adding the diagonal.

module BlockGraph {
  import opened Intervals
  import opened OrderedSets
  import opened GraphRows

  ghost predicate Sorted(st: Storage) {
    forall g: nat :: g in st ==> Ascending(st[g].cols)
  }

  ghost predicate Entry(st: Storage, r: nat, c: nat) {
    c in Cols(st, r)
  }

  /** Rows as one process stores them: owned by process 0, local index equal to the index. */
  ghost predicate OnOneProcess(st: Storage) {
    forall g: nat :: g in st ==> st[g].proc == 0 && st[g].local == g
  }

  ghost predicate RowsBelow(st: Storage, n: nat) {
    forall g: nat :: g in st ==> g < n
  }

  /** Entry (r, c) of st comes from block g placed at (startI, startJ). */
  ghost predicate Placed(g: Storage, startI: nat, startJ: nat, r: nat, c: nat) {
    r >= startI && c >= startJ && Entry(g, r - startI, c - startJ)
  }

  method Shift(cols: seq<nat>, start: nat) returns (shifted: seq<nat>)
    ensures |shifted| == |cols| && forall k: nat :: k < |cols| ==> shifted[k] == cols[k] + start
  {
    shifted := [];
    for k := 0 to |cols|
      invariant |shifted| == k && forall n: nat :: n < k ==> shifted[n] == cols[n] + start
    {
      shifted := shifted + [cols[k] + start];
    }
  }

  lemma {:induction false} ShiftedIn(cols: seq<nat>, start: nat, shifted: seq<nat>, c: nat)
    requires |shifted| == |cols| && forall k: nat :: k < |cols| ==> shifted[k] == cols[k] + start
    ensures c in shifted <==> c >= start && c - start in cols
  {
    if c in shifted {
      var k: nat :| k < |shifted| && shifted[k] == c;
      assert cols[k] == c - start;
    }
    if c >= start && c - start in cols {
      var k: nat :| k < |cols| && cols[k] == c - start;
      assert shifted[k] == c;
    }
  }

  /** One row of a block, added to the row it falls on. */
  method MergeRowAt(st: Storage, row: Row, target: nat, startI: nat, startJ: nat) returns (next: Storage)
    requires Sorted(st)
    ensures Sorted(next)
    ensures forall h: nat :: h != target ==> Cols(next, h) == Cols(st, h)
    ensures forall c: nat :: Entry(next, target, c) <==>
      Entry(st, target, c) || (c >= startJ && c - startJ in row.cols)
    ensures target in next && next == st[target := Row(row.proc, startI + row.local, next[target].cols)]
  {
    var shifted := Shift(row.cols, startJ);
    forall c: nat
      ensures c in shifted <==> c >= startJ && c - startJ in row.cols
    {
      ShiftedIn(row.cols, startJ, shifted, c);
    }
    var had := Cols(st, target);
    EmptyAscends();
    InsertAllAscends(had, shifted);
    next := st[target := Row(row.proc, startI + row.local, InsertAll(had, shifted))];
  }

  /** mergeBlockGraph: the block's entries, shifted, join the ones already there. */
  method MergeBlockGraph(st: Storage, g: Storage, startI: nat, startJ: nat) returns (next: Storage)
    requires Sorted(st)
    ensures Sorted(next)
    ensures forall r: nat, c: nat :: Entry(next, r, c) <==> Entry(st, r, c) || Placed(g, startI, startJ, r, c)
    ensures OnOneProcess(st) && OnOneProcess(g) ==> OnOneProcess(next)
    ensures forall r: nat :: r in next <==> r in st || (r >= startI && r - startI in g)
  {
    next := st;
    var left := g.Keys;
    while left != {}
      invariant left <= g.Keys && Sorted(next) && (OnOneProcess(st) && OnOneProcess(g) ==> OnOneProcess(next))
      invariant forall r: nat, c: nat :: Entry(next, r, c) <==>
        Entry(st, r, c) || (Placed(g, startI, startJ, r, c) && r - startI !in left)
      invariant forall r: nat :: r in next <==> r in st || (r >= startI && r - startI in g && r - startI !in left)
      decreases |left|
    {
      var r :| r in left;
      ghost var before := next;
      next := MergeRowAt(next, g[r], startI + r, startI, startJ);
      left := left - {r};
      forall q: nat, c: nat
        ensures Entry(next, q, c) <==> Entry(st, q, c) || (Placed(g, startI, startJ, q, c) && q - startI !in left)
      {
        assert Entry(before, q, c) <==>
          Entry(st, q, c) || (Placed(g, startI, startJ, q, c) && q - startI !in left + {r});
      }
    }
  }

  function Sizes(sizes: seq<nat>): nat -> nat {
    (i: nat) => if i < |sizes| then sizes[i] else 0
  }

  /** A grid of blocks with the row and column counts of its block rows and columns. */
  ghost predicate Grid(blocks: seq<seq<Storage>>, heights: seq<nat>, widths: seq<nat>) {
    && |blocks| == |heights|
    && (forall i: nat :: i < |blocks| ==> |blocks[i]| == |widths|)
    && (forall i: nat, j: nat, r: nat, c: nat :: i < |blocks| && j < |widths| && Entry(blocks[i][j], r, c) ==>
          r < heights[i] && c < widths[j])
  }

  /** Entry (r, c) falls on an entry of one of the blocks before block (m, n), row by row. */
  ghost predicate FromBlocks(blocks: seq<seq<Storage>>, heights: seq<nat>, widths: seq<nat>, m: nat, n: nat, r: nat,
    c: nat)
  {
    exists i: nat, j: nat :: i < |blocks| && j < |blocks[i]| && (i < m || (i == m && j < n)) &&
      Placed(blocks[i][j], Start(Sizes(heights), i), Start(Sizes(widths), j), r, c)
  }

  lemma {:induction false} OneMoreBlock(blocks: seq<seq<Storage>>, heights: seq<nat>, widths: seq<nat>, m: nat, n: nat,
    r: nat, c: nat)
    requires Grid(blocks, heights, widths) && m < |blocks| && n < |widths|
    ensures FromBlocks(blocks, heights, widths, m, n + 1, r, c) <==>
      FromBlocks(blocks, heights, widths, m, n, r, c)
      || Placed(blocks[m][n], Start(Sizes(heights), m), Start(Sizes(widths), n), r, c)
  {
    if FromBlocks(blocks, heights, widths, m, n + 1, r, c) {
      var i: nat, j: nat :| i < |blocks| && j < |blocks[i]| && (i < m || (i == m && j < n + 1)) &&
        Placed(blocks[i][j], Start(Sizes(heights), i), Start(Sizes(widths), j), r, c);
      assert (i == m && j == n) || (i < m || (i == m && j < n));
    }
  }

  lemma {:induction false} RowOfBlocksDone(blocks: seq<seq<Storage>>, heights: seq<nat>, widths: seq<nat>, m: nat,
    r: nat, c: nat)
    requires Grid(blocks, heights, widths) && m < |blocks|
    ensures FromBlocks(blocks, heights, widths, m + 1, 0, r, c) <==>
      FromBlocks(blocks, heights, widths, m, |widths|, r, c)
  {
  }

  method MergeInto(st: Storage, g: Storage, startI: nat, startJ: nat, ghost blocks: seq<seq<Storage>>,
    ghost heights: seq<nat>, ghost widths: seq<nat>, ghost i: nat, ghost j: nat)
    returns (next: Storage)
    requires Grid(blocks, heights, widths) && i < |blocks| && j < |widths| && g == blocks[i][j] && Sorted(st)
    requires startI == Start(Sizes(heights), i) && startJ == Start(Sizes(widths), j)
    requires forall r: nat, c: nat :: Entry(st, r, c) <==> FromBlocks(blocks, heights, widths, i, j, r, c)
    ensures Sorted(next)
    ensures forall r: nat, c: nat :: Entry(next, r, c) <==> FromBlocks(blocks, heights, widths, i, j + 1, r, c)
    ensures OnOneProcess(st) && OnOneProcess(g) ==> OnOneProcess(next)
    ensures RowsBelow(st, Start(Sizes(heights), |heights|)) && RowsBelow(g, heights[i]) ==>
      RowsBelow(next, Start(Sizes(heights), |heights|))
  {
    StartGrows(Sizes(heights), i, |heights|);
    next := st;
    if g != map[] {
      next := MergeBlockGraph(st, g, startI, startJ);
    }
    forall r: nat, c: nat
      ensures Entry(next, r, c) <==> FromBlocks(blocks, heights, widths, i, j + 1, r, c)
    {
      OneMoreBlock(blocks, heights, widths, i, j, r, c);
    }
  }

  /** The block constructor on one process, without the diagonal: empty blocks are skipped. */
  method Assemble(blocks: seq<seq<Storage>>, heights: seq<nat>, widths: seq<nat>) returns (st: Storage)
    requires Grid(blocks, heights, widths)
    ensures Sorted(st)
    ensures forall r: nat, c: nat :: Entry(st, r, c) <==> FromBlocks(blocks, heights, widths, |blocks|, 0, r, c)
    ensures (forall i: nat, j: nat :: i < |blocks| && j < |widths| ==> OnOneProcess(blocks[i][j])) ==> OnOneProcess(st)
    ensures (forall i: nat, j: nat :: i < |blocks| && j < |widths| ==> RowsBelow(blocks[i][j], heights[i])) ==>
      RowsBelow(st, Start(Sizes(heights), |heights|))
  {
    ghost var alone := forall i: nat, j: nat :: i < |blocks| && j < |widths| ==> OnOneProcess(blocks[i][j]);
    ghost var low := forall i: nat, j: nat :: i < |blocks| && j < |widths| ==> RowsBelow(blocks[i][j], heights[i]);
    ghost var n := Start(Sizes(heights), |heights|);
    st := map[];
    var startI := 0;
    for i := 0 to |blocks|
      invariant startI == Start(Sizes(heights), i) && Sorted(st)
      invariant (alone ==> OnOneProcess(st)) && (low ==> RowsBelow(st, n))
      invariant forall r: nat, c: nat :: Entry(st, r, c) <==> FromBlocks(blocks, heights, widths, i, 0, r, c)
    {
      var startJ := 0;
      for j := 0 to |widths|
        invariant startJ == Start(Sizes(widths), j) && Sorted(st)
        invariant (alone ==> OnOneProcess(st)) && (low ==> RowsBelow(st, n))
        invariant forall r: nat, c: nat :: Entry(st, r, c) <==> FromBlocks(blocks, heights, widths, i, j, r, c)
      {
        st := MergeInto(st, blocks[i][j], startI, startJ, blocks, heights, widths, i, j);
        startJ := startJ + widths[j];
      }
      forall r: nat, c: nat
        ensures FromBlocks(blocks, heights, widths, i + 1, 0, r, c)
          <==> FromBlocks(blocks, heights, widths, i, |widths|, r, c)
      {
        RowOfBlocksDone(blocks, heights, widths, i, r, c);
      }
      startI := startI + heights[i];
    }
  }

  /** A placed entry lies in the window of its block. */
  lemma {:induction false} PlacedIsIn(blocks: seq<seq<Storage>>, heights: seq<nat>, widths: seq<nat>, k: nat, l: nat,
    startI: nat, startJ: nat, r: nat, c: nat)
    requires Grid(blocks, heights, widths) && k < |blocks| && l < |widths|
    requires startI == Start(Sizes(heights), k) && startJ == Start(Sizes(widths), l)
    requires Placed(blocks[k][l], startI, startJ, r, c)
    ensures In(Sizes(heights), k, r) && In(Sizes(widths), l, c)
  {
    assert Entry(blocks[k][l], r - startI, c - startJ);
  }

  lemma {:induction false} SameWindow(blocks: seq<seq<Storage>>, heights: seq<nat>, widths: seq<nat>, i: nat, j: nat,
    k: nat, l: nat, r: nat, c: nat)
    requires Grid(blocks, heights, widths) && k < |blocks| && l < |widths|
    requires In(Sizes(heights), i, r) && In(Sizes(widths), j, c)
    requires Placed(blocks[k][l], Start(Sizes(heights), k), Start(Sizes(widths), l), r, c)
    ensures k == i && l == j
  {
    PlacedIsIn(blocks, heights, widths, k, l, Start(Sizes(heights), k), Start(Sizes(widths), l), r, c);
    Disjoint(Sizes(heights), i, k, r);
    Disjoint(Sizes(widths), j, l, c);
  }

  lemma {:induction false} FromItsBlock(blocks: seq<seq<Storage>>, heights: seq<nat>, widths: seq<nat>, i: nat, j: nat,
    r: nat, c: nat)
    requires Grid(blocks, heights, widths) && i < |blocks| && j < |widths|
    requires In(Sizes(heights), i, r) && In(Sizes(widths), j, c)
    ensures FromBlocks(blocks, heights, widths, |blocks|, 0, r, c) <==>
      Placed(blocks[i][j], Start(Sizes(heights), i), Start(Sizes(widths), j), r, c)
  {
    if FromBlocks(blocks, heights, widths, |blocks|, 0, r, c) {
      var k: nat, l: nat :| k < |blocks| && l < |blocks[k]| &&
        Placed(blocks[k][l], Start(Sizes(heights), k), Start(Sizes(widths), l), r, c);
      SameWindow(blocks, heights, widths, i, j, k, l, r, c);
    }
  }

  /** Every window of the assembled graph is its block. */
  lemma {:induction false} WindowIsBlock(blocks: seq<seq<Storage>>, heights: seq<nat>, widths: seq<nat>, st: Storage,
    i: nat, j: nat, r: nat, c: nat)
    requires Grid(blocks, heights, widths) && i < |blocks| && j < |widths|
    requires In(Sizes(heights), i, r) && In(Sizes(widths), j, c)
    requires Entry(st, r, c) <==> FromBlocks(blocks, heights, widths, |blocks|, 0, r, c)
    ensures Entry(st, r, c) <==> Entry(blocks[i][j], r - Start(Sizes(heights), i), c - Start(Sizes(widths), j))
  {
    FromItsBlock(blocks, heights, widths, i, j, r, c);
  }
}
