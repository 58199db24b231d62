// The graph of a block matrix on one process, assembled and closed.

module BlockClose {
  import opened Intervals
  import opened GraphRows
  import opened SparsityGraph
  import opened BlockGraph
  import opened DataMaps

  /** All rows and columns on one process, numbered from 0. */
  function Alone(n: nat, m: nat): Layout {
    Layout(0, 1, 0, if n == 0 then 0 else n - 1, n, n, seq(n, i => i), 0, if m == 0 then 0 else m - 1, m)
  }

  /** What the assembly leaves can be closed. */
  lemma {:induction false} AloneIsWellFormed(st: Storage, n: nat, m: nat)
    requires Sorted(st) && OnOneProcess(st) && RowsBelow(st, n)
    ensures WellFormed(Alone(n, m), st)
  {
  }

  /** Blocks as one process stores them. */
  ghost predicate LocalBlocks(blocks: seq<seq<Storage>>, heights: seq<nat>, widths: seq<nat>) {
    && Grid(blocks, heights, widths)
    && forall i: nat, j: nat :: i < |blocks| && j < |widths| ==>
         OnOneProcess(blocks[i][j]) && RowsBelow(blocks[i][j], heights[i])
  }

  /** Row r of the window of block (i, j) is that row of the block, read from the compressed arrays. */
  ghost predicate WindowHolds(blocks: seq<seq<Storage>>, heights: seq<nat>, widths: seq<nat>, ia: seq<nat>,
    ja: seq<nat>, i: nat, j: nat, r: nat, c: nat)
    requires i < |blocks| && j < |blocks[i]| && r + 1 < |ia| && ia[r] <= ia[r + 1] <= |ja|
    requires r >= Start(Sizes(heights), i) && c >= Start(Sizes(widths), j)
  {
    c in ja[ia[r]..ia[r + 1]] <==>
      Entry(blocks[i][j], r - Start(Sizes(heights), i), c - Start(Sizes(widths), j))
  }

  lemma {:induction false} ArraysHoldWindow(blocks: seq<seq<Storage>>, heights: seq<nat>, widths: seq<nat>,
    st: Storage, ia: seq<nat>, ja: seq<nat>, n: nat, i: nat, j: nat, r: nat, c: nat)
    requires Grid(blocks, heights, widths) && n == Start(Sizes(heights), |heights|) && Compressed(st, 0, n, ia, ja)
    requires i < |blocks| && j < |widths| && In(Sizes(heights), i, r) && In(Sizes(widths), j, c)
    requires Entry(st, r, c) <==> FromBlocks(blocks, heights, widths, |blocks|, 0, r, c)
    ensures r < n && ia[r] <= ia[r + 1] <= |ja| && WindowHolds(blocks, heights, widths, ia, ja, i, j, r, c)
  {
    InsideEnd(Sizes(heights), |heights|, i, r);
    WindowIsBlock(blocks, heights, widths, st, i, j, r, c);
    assert ja[ia[r]..ia[r + 1]] == Cols(st, 0 + r);
  }

  /** Every window of the compressed arrays is the block that belongs there. */
  ghost predicate AllWindowsHold(blocks: seq<seq<Storage>>, heights: seq<nat>, widths: seq<nat>, ia: seq<nat>,
    ja: seq<nat>)
    requires Grid(blocks, heights, widths)
  {
    forall i: nat, j: nat, r: nat, c: nat ::
      i < |blocks| && j < |widths| && In(Sizes(heights), i, r) && In(Sizes(widths), j, c) ==>
        && r + 1 < |ia| && ia[r] <= ia[r + 1] <= |ja|
        && WindowHolds(blocks, heights, widths, ia, ja, i, j, r, c)
  }

  lemma {:induction false} ArraysHoldBlocks(blocks: seq<seq<Storage>>, heights: seq<nat>, widths: seq<nat>,
    st: Storage, ia: seq<nat>, ja: seq<nat>, n: nat)
    requires Grid(blocks, heights, widths) && n == Start(Sizes(heights), |heights|) && Compressed(st, 0, n, ia, ja)
    requires forall r: nat, c: nat :: Entry(st, r, c) <==> FromBlocks(blocks, heights, widths, |blocks|, 0, r, c)
    ensures AllWindowsHold(blocks, heights, widths, ia, ja)
  {
    forall i: nat, j: nat, r: nat, c: nat
      | i < |blocks| && j < |widths| && In(Sizes(heights), i, r) && In(Sizes(widths), j, c)
      ensures r + 1 < |ia| && ia[r] <= ia[r + 1] <= |ja|
      ensures WindowHolds(blocks, heights, widths, ia, ja, i, j, r, c)
    {
      ArraysHoldWindow(blocks, heights, widths, st, ia, ja, n, i, j, r, c);
    }
  }

  /** No entry lies beyond the blocks. */
  lemma {:induction false} EntryInside(blocks: seq<seq<Storage>>, heights: seq<nat>, widths: seq<nat>, r: nat, c: nat)
    requires Grid(blocks, heights, widths) && FromBlocks(blocks, heights, widths, |blocks|, 0, r, c)
    ensures r < Start(Sizes(heights), |heights|) && c < Start(Sizes(widths), |widths|)
  {
    var i: nat, j: nat :| i < |blocks| && j < |blocks[i]| &&
      Placed(blocks[i][j], Start(Sizes(heights), i), Start(Sizes(widths), j), r, c);
    PlacedIsIn(blocks, heights, widths, i, j, Start(Sizes(heights), i), Start(Sizes(widths), j), r, c);
    InsideEnd(Sizes(heights), |heights|, i, r);
    InsideEnd(Sizes(widths), |widths|, j, c);
  }

  /** The map of the rows agrees with the assembly: local dof k of block i has the number of the row it is placed on. */
  lemma {:induction false} MapMatchesRows(maps: seq<Block>, heights: seq<nat>, toCluster: seq<nat>,
    toProcess: seq<nat>, i: nat, k: nat)
    requires Blocks(maps, 1) && i < |maps| && k < |maps[i].locals[0]|
    requires |heights| == |maps| && forall j: nat :: j < |maps| ==> heights[j] == maps[j].own[0]
    requires NumberedTo(maps, 1, 0, toCluster, toProcess, |maps|, 0)
    ensures var l := Start(LocalsOf(maps, 0), i) + k;
      l < |toCluster| && toCluster[l] == Start(Sizes(heights), i) + maps[i].locals[0][k]
  {
    var g := maps[i].locals[0][k];
    AloneSize(maps[i]);
    AloneNumber(maps, i, g);
    NumberOfLocal(maps, 1, 0, toCluster, toProcess, i, k, g, Start(LocalsOf(maps, 0), i) + k);
    forall j: nat | j < i
      ensures Sizes(heights)(j) == SizesOf(maps)(j)
    {
      AloneSize(maps[j]);
    }
    SameStarts(Sizes(heights), SizesOf(maps), i);
  }

  lemma {:induction false} AloneSize(b: Block)
    requires b.Valid(1)
    ensures Start(b.Own(), 1) == b.Size() == b.own[0]
  {
    assert Start(b.Own(), 1) == Start(b.Own(), 0) + b.Own()(0);
  }

  /** The block constructor on one process, closed: every window of the arrays is its block. */
  method AssembleAndClose(blocks: seq<seq<Storage>>, heights: seq<nat>, widths: seq<nat>)
    returns (graph: GraphCSR, entries: nat)
    requires LocalBlocks(blocks, heights, widths)
    ensures fresh(graph) && graph.closed
    ensures graph.layout == Alone(Start(Sizes(heights), |heights|), Start(Sizes(widths), |widths|))
    ensures Counted(graph.layout, graph.storage, graph.storage, graph.nOn, graph.nOff, entries)
    ensures graph.layout.rows > 1 || entries > 0 ==> AllWindowsHold(blocks, heights, widths, graph.ia, graph.ja)
    ensures graph.layout.rows <= 1 && entries == 0 ==> graph.ia == [0] && graph.ja == []
    // the arrays hold the rows in order, each ascending, and nothing beyond the blocks
    ensures graph.layout.rows > 1 || entries > 0 ==>
      Compressed(graph.storage, 0, Start(Sizes(heights), |heights|), graph.ia, graph.ja)
    ensures Sorted(graph.storage)
    ensures forall r: nat, c: nat :: Entry(graph.storage, r, c) ==>
      r < Start(Sizes(heights), |heights|) && c < Start(Sizes(widths), |widths|)
  {
    var st := Assemble(blocks, heights, widths);
    var n, m := 0, 0;
    for i := 0 to |heights|
      invariant n == Start(Sizes(heights), i)
    {
      n := n + heights[i];
    }
    for j := 0 to |widths|
      invariant m == Start(Sizes(widths), j)
    {
      m := m + widths[j];
    }
    AloneIsWellFormed(st, n, m);
    forall r: nat, c: nat | Entry(st, r, c)
      ensures r < n && c < m
    {
      EntryInside(blocks, heights, widths, r, c);
    }
    graph := new GraphCSR(Alone(n, m), st);
    var box, sum, frames := graph.CountAndPack();
    AloneNothingArrives(graph.layout, graph.storage, [[]]);
    entries := graph.Finish([[]], [[]], [[]], sum);
    if n > 1 || entries > 0 {
      ArraysHoldBlocks(blocks, heights, widths, st, graph.ia, graph.ja, n);
    }
  }
}
