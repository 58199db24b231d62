// The closed graph as a whole: what every owner ends up with, once all processes have packed, exchanged
// and merged.

module GraphClose {
  import opened OrderedSets
  import opened GraphRows
  import opened Exchange
  import opened SparsityGraph

  /** Every process has a well formed part, and a row is owned by the one process its entries name. */
  ghost predicate Consistent(lays: seq<Layout>, stores: seq<Storage>) {
    && |lays| == |stores|
    && (forall p: nat :: p < |lays| ==>
          lays[p].rank == p && lays[p].procs == |lays| && WellFormed(lays[p], stores[p]))
    && (forall p: nat, g: nat :: p < |stores| && g in stores[p] ==>
          stores[p][g].proc < |lays| && lays[stores[p][g].proc].Owns(g))
    && (forall p: nat, q: nat, g: nat :: p < |lays| && q < |lays| && lays[p].Owns(g) && lays[q].Owns(g) ==> p == q)
  }

  /** Every process packed its rows and boxed them. */
  ghost predicate Prepared(lays: seq<Layout>, stores: seq<Storage>, frames: seq<seq<seq<Frame>>>, out: seq<Outbox>) {
    && |lays| == |stores| == |frames| == |out|
    && forall p: nat :: p < |lays| ==>
         lays[p].procs == |lays| && lays[p].rank == p
         && Packed(lays[p], stores[p], frames[p]) && Boxed(frames[p], out[p])
  }

  /** What process p should receive: from each source the frames packed for p. */
  function BoxesFor(frames: seq<seq<seq<Frame>>>, p: nat): seq<seq<Frame>>
    requires forall q: nat :: q < |frames| ==> p < |frames[q]|
  {
    seq(|frames|, (q: int) requires 0 <= q < |frames| => frames[q][p])
  }

  /** What process p stores once everything sent to it is merged. */
  function Closed(lays: seq<Layout>, stores: seq<Storage>, frames: seq<seq<seq<Frame>>>, p: nat): Storage
    requires p < |lays| && p < |stores| && forall q: nat :: q < |frames| ==> p < |frames[q]|
  {
    MergeBoxes(lays[p], stores[p], BoxesFor(frames, p), |frames|)
  }

  /** The columns of row g that any process recorded. */
  function Recorded(stores: seq<Storage>, g: nat): set<nat> {
    set q: nat, c: nat | q < |stores| && c in Cols(stores[q], g) :: c
  }

  /** Every row a process receives is one it owns. */
  lemma {:induction false} BoxesAreOwned(lays: seq<Layout>, stores: seq<Storage>, frames: seq<seq<seq<Frame>>>,
    out: seq<Outbox>, p: nat)
    requires Consistent(lays, stores) && Prepared(lays, stores, frames, out) && p < |lays|
    ensures forall q: nat :: q < |frames| ==> AllOwned(lays[p], BoxesFor(frames, p)[q])
  {
    forall q: nat, k: nat | q < |frames| && k < |frames[q][p]|
      ensures lays[p].Owns(frames[q][p][k].index)
    {
      assert Packed(lays[q], stores[q], frames[q]);
      if q != p {
        assert PackedFor(stores[q], p, frames[q][p]);
        var f := frames[q][p][k];
        assert stores[q][f.index].proc == p;
      }
    }
  }

  /** After any complete run of the exchange, process p holds exactly the messages packed for it. */
  lemma {:induction false} ExchangeDeliversFrames(lays: seq<Layout>, stores: seq<Storage>,
    frames: seq<seq<seq<Frame>>>, out: seq<Outbox>, run: seq<World>, p: nat, q: nat)
    requires Consistent(lays, stores) && Prepared(lays, stores, frames, out) && p < |lays| && q < |lays|
    requires IsRun(out, run) && Stuck(out, run[|run| - 1])
    ensures var w := run[|run| - 1];
      && |w.procs| == |lays| && |w.procs[p].contents| == |w.procs[p].lengths| == |lays|
      && Framed(w.procs[p].contents[q], w.procs[p].lengths[q], BoxesFor(frames, p)[q])
  {
    ExchangeDelivers(out, run);
    var w := run[|run| - 1];
    assert Boxed(frames[q], out[q]) && Packed(lays[q], stores[q], frames[q]);
    assert Got(w, p, q, 0) == if Sends(out, q, p) then Data(out, q, p, 0) else [];
    assert Got(w, p, q, 1) == if Sends(out, q, p) then Data(out, q, p, 1) else [];
    WordsEmpty(frames[q][p]);
  }

  /** Row g as recorded by process q reaches its owner. */
  lemma {:induction false} RecordedIsCarried(lays: seq<Layout>, stores: seq<Storage>, frames: seq<seq<seq<Frame>>>,
    out: seq<Outbox>, p: nat, q: nat, g: nat, c: nat)
    requires Consistent(lays, stores) && Prepared(lays, stores, frames, out) && p < |lays| && q < |lays| && q != p
    requires lays[p].Owns(g)
    ensures Carried(frames[q][p], |frames[q][p]|, g, c) <==> c in Cols(stores[q], g)
  {
    var fs := frames[q][p];
    assert Packed(lays[q], stores[q], frames[q]);
    assert PackedFor(stores[q], p, fs);
    if c in Cols(stores[q], g) {
      assert lays[stores[q][g].proc].Owns(g);
      var k: nat :| k < |fs| && fs[k].index == g;
      assert stores[q][fs[k].index] == Row(p, fs[k].local, fs[k].cols);
    }
  }

  lemma {:induction false} CarriedIsRecorded(stores: seq<Storage>, boxes: seq<seq<Frame>>, p: nat, g: nat, c: nat)
    requires p < |boxes| == |stores| && boxes[p] == []
    requires forall q: nat :: q < |boxes| && q != p ==>
      (Carried(boxes[q], |boxes[q]|, g, c) <==> c in Cols(stores[q], g))
    ensures c in Cols(stores[p], g) || CarriedBySome(boxes, |boxes|, g, c) <==> c in Recorded(stores, g)
  {
    if CarriedBySome(boxes, |boxes|, g, c) {
      var s: nat :| s < |boxes| && Carried(boxes[s], |boxes[s]|, g, c);
      assert c in Cols(stores[s], g);
    }
    if q: nat :| q < |stores| && c in Cols(stores[q], g) {
      assert q != p ==> Carried(boxes[q], |boxes[q]|, g, c);
    }
  }

  /** The closed graph: the owner of a row holds exactly the columns that any process recorded for it. */
  lemma {:induction false} ClosedRowIsUnion(lays: seq<Layout>, stores: seq<Storage>, frames: seq<seq<seq<Frame>>>,
    out: seq<Outbox>, p: nat, g: nat, c: nat)
    requires Consistent(lays, stores) && Prepared(lays, stores, frames, out) && p < |lays| && lays[p].Owns(g)
    ensures c in Cols(Closed(lays, stores, frames, p), g) <==> c in Recorded(stores, g)
  {
    var boxes := BoxesFor(frames, p);
    MergedBoxes(lays[p], stores[p], boxes, |frames|, g, c);
    forall q: nat | q < |frames| && q != p
      ensures Carried(boxes[q], |boxes[q]|, g, c) <==> c in Cols(stores[q], g)
    {
      RecordedIsCarried(lays, stores, frames, out, p, q, g, c);
    }
    assert boxes[p] == [] by {
      assert Packed(lays[p], stores[p], frames[p]);
    }
    CarriedIsRecorded(stores, boxes, p, g, c);
  }

  /** Rows a process does not own keep what it had recorded. */
  lemma {:induction false} OtherRowsUnchanged(lay: Layout, st: Storage, boxes: seq<seq<Frame>>, k: nat, g: nat, c: nat)
    requires WellFormed(lay, st) && k <= |boxes| && forall s: nat :: s < |boxes| ==> AllOwned(lay, boxes[s])
    requires !lay.Owns(g)
    ensures c in Cols(MergeBoxes(lay, st, boxes, k), g) <==> c in Cols(st, g)
  {
    MergedBoxes(lay, st, boxes, k, g, c);
  }

  // ---------------------------------------------------------------------------------------------
  // The whole of close()
  // ---------------------------------------------------------------------------------------------

  /** After any complete run, what every process received is what its merge needs, and merging it leaves the
      union of everything recorded in every owned row. */
  lemma {:induction false} RunCloses(lays: seq<Layout>, stores: seq<Storage>, frames: seq<seq<seq<Frame>>>,
    out: seq<Outbox>, run: seq<World>, p: nat)
    requires Consistent(lays, stores) && Prepared(lays, stores, frames, out) && p < |lays|
    requires IsRun(out, run) && Stuck(out, run[|run| - 1])
    ensures var w, boxes := run[|run| - 1], BoxesFor(frames, p);
      && |w.procs| == |lays| && |boxes| == lays[p].procs && boxes[p] == []
      && |w.procs[p].contents| == |w.procs[p].lengths| == |boxes|
      && forall s: nat :: s < |boxes| ==>
           AllOwned(lays[p], boxes[s]) && Framed(w.procs[p].contents[s], w.procs[p].lengths[s], boxes[s])
    ensures WellFormed(lays[p], Closed(lays, stores, frames, p))
    ensures forall g: nat, c: nat :: lays[p].Owns(g) ==>
      (c in Cols(Closed(lays, stores, frames, p), g) <==> c in Recorded(stores, g))
    ensures forall g: nat, c: nat :: !lays[p].Owns(g) ==>
      (c in Cols(Closed(lays, stores, frames, p), g) <==> c in Cols(stores[p], g))
  {
    var w, boxes := run[|run| - 1], BoxesFor(frames, p);
    BoxesAreOwned(lays, stores, frames, out, p);
    ExchangeDeliversFrames(lays, stores, frames, out, run, p, p);
    assert boxes[p] == [] by {
      assert Packed(lays[p], stores[p], frames[p]);
    }
    forall s: nat | s < |boxes|
      ensures Framed(w.procs[p].contents[s], w.procs[p].lengths[s], boxes[s])
    {
      ExchangeDeliversFrames(lays, stores, frames, out, run, p, s);
    }
    MergeBoxesKeeps(lays[p], stores[p], boxes, |frames|);
    forall g: nat, c: nat | lays[p].Owns(g)
      ensures c in Cols(Closed(lays, stores, frames, p), g) <==> c in Recorded(stores, g)
    {
      ClosedRowIsUnion(lays, stores, frames, out, p, g, c);
    }
    forall g: nat, c: nat | !lays[p].Owns(g)
      ensures c in Cols(Closed(lays, stores, frames, p), g) <==> c in Cols(stores[p], g)
    {
      OtherRowsUnchanged(lays[p], stores[p], boxes, |frames|, g, c);
    }
  }

  /** The counts of row g are its columns inside and outside the process's range. */
  ghost predicate RowCounted(lay: Layout, on: seq<nat>, off: seq<nat>, g: nat, columns: set<nat>) {
    && lay.LocalOf(g) < |on| && lay.LocalOf(g) < |off|
    && on[lay.LocalOf(g)] == |set c | c in columns && lay.firstCol <= c <= lay.lastCol|
    && off[lay.LocalOf(g)] == |set c | c in columns && !(lay.firstCol <= c <= lay.lastCol)|
  }

  /** The counts of an owned row, of a process that has columns, over all that was recorded for it. */
  lemma {:induction false} CountsAreSets(lay: Layout, base: Storage, st: Storage, on: seq<nat>, off: seq<nat>,
    sum: nat, g: nat, recorded: set<nat>)
    requires WellFormed(lay, st) && Counted(lay, base, st, on, off, sum) && lay.Owns(g) && lay.cols > 0
    requires forall c: nat :: c in Cols(st, g) <==> c in recorded
    ensures RowCounted(lay, on, off, g, recorded)
  {
    EmptyAscends();
    var cols := Cols(st, g);
    WithinCounts(cols, lay.firstCol, lay.lastCol);
    AscendingSize(cols, recorded);
    var inside := set c | c in recorded && lay.firstCol <= c <= lay.lastCol;
    var outside := set c | c in recorded && !(lay.firstCol <= c <= lay.lastCol);
    assert inside == set c | c in cols && lay.firstCol <= c <= lay.lastCol;
    assert recorded == inside + outside && inside !! outside;
  }

  lemma {:induction false} AllCounted(lay: Layout, base: Storage, st: Storage, on: seq<nat>, off: seq<nat>,
    sum: nat, stores: seq<Storage>)
    requires WellFormed(lay, st) && Counted(lay, base, st, on, off, sum)
    requires forall g: nat, c: nat :: lay.Owns(g) ==> (c in Cols(st, g) <==> c in Recorded(stores, g))
    ensures lay.cols > 0 ==> forall g: nat :: lay.Owns(g) ==> RowCounted(lay, on, off, g, Recorded(stores, g))
  {
    if lay.cols > 0 {
      forall g: nat | lay.Owns(g)
        ensures RowCounted(lay, on, off, g, Recorded(stores, g))
      {
        CountsAreSets(lay, base, st, on, off, sum, g, Recorded(stores, g));
      }
    }
  }

  /** The end of close() on process p, whatever complete run delivered its messages. */
  method FinishRun(graph: GraphCSR, contents: seq<seq<nat>>, lengths: seq<seq<nat>>, sum: nat, ghost lays: seq<Layout>,
    ghost stores: seq<Storage>, ghost frames: seq<seq<seq<Frame>>>, ghost out: seq<Outbox>, ghost run: seq<World>,
    ghost p: nat)
    returns (entries: nat)
    requires Consistent(lays, stores) && Prepared(lays, stores, frames, out) && p < |lays|
    requires IsRun(out, run) && Stuck(out, run[|run| - 1]) && p < |run[|run| - 1].procs|
    requires contents == run[|run| - 1].procs[p].contents && lengths == run[|run| - 1].procs[p].lengths
    requires graph.layout == lays[p] && graph.storage == stores[p]
    requires Counted(graph.layout, graph.storage, graph.storage, graph.nOn, graph.nOff, sum)
    modifies graph`storage, graph`nOn, graph`nOff, graph`ia, graph`ja
    ensures graph.storage == Closed(lays, stores, frames, p) && WellFormed(graph.layout, graph.storage)
    ensures forall g: nat, c: nat :: graph.layout.Owns(g) ==>
      (c in Cols(graph.storage, g) <==> c in Recorded(stores, g))
    ensures Counted(graph.layout, stores[p], graph.storage, graph.nOn, graph.nOff, entries)
    ensures graph.layout.cols > 0 ==> forall g: nat :: graph.layout.Owns(g) ==>
      RowCounted(graph.layout, graph.nOn, graph.nOff, g, Recorded(stores, g))
    ensures graph.layout.rows > 1 || entries > 0 ==>
      Compressed(graph.storage, graph.layout.firstRow, graph.layout.rows, graph.ia, graph.ja)
    ensures graph.layout.rows <= 1 && entries == 0 ==> graph.ia == [0] && graph.ja == []
  {
    RunCloses(lays, stores, frames, out, run, p);
    entries := graph.Finish(contents, lengths, BoxesFor(frames, p), sum);
    AllCounted(graph.layout, stores[p], graph.storage, graph.nOn, graph.nOff, entries, stores);
  }

  // ---------------------------------------------------------------------------------------------
  // Recorded sizes
  // ---------------------------------------------------------------------------------------------

  /** The closed row is as long as there are columns recorded for it. */
  lemma {:induction false} ClosedSize(lays: seq<Layout>, stores: seq<Storage>, frames: seq<seq<seq<Frame>>>,
    out: seq<Outbox>, p: nat, g: nat)
    requires Consistent(lays, stores) && Prepared(lays, stores, frames, out) && p < |lays| && lays[p].Owns(g)
    ensures Ascending(Cols(Closed(lays, stores, frames, p), g))
    ensures |Cols(Closed(lays, stores, frames, p), g)| == |Recorded(stores, g)|
  {
    var after := Cols(Closed(lays, stores, frames, p), g);
    BoxesAreOwned(lays, stores, frames, out, p);
    MergeBoxesKeeps(lays[p], stores[p], BoxesFor(frames, p), |frames|);
    EmptyAscends();
    forall c: nat
      ensures c in after <==> c in Recorded(stores, g)
    {
      ClosedRowIsUnion(lays, stores, frames, out, p, g, c);
    }
    AscendingSize(after, Recorded(stores, g));
  }

  /** A row's own columns are among those recorded for it, and are all of them exactly if they are as many. */
  lemma {:induction false} OwnColumns(lay: Layout, stores: seq<Storage>, p: nat, g: nat)
    requires p < |stores| && WellFormed(lay, stores[p])
    ensures |Cols(stores[p], g)| <= |Recorded(stores, g)|
    ensures |Cols(stores[p], g)| == |Recorded(stores, g)|
      <==> forall q: nat, c: nat :: q < |stores| && c in Cols(stores[q], g) ==> c in Cols(stores[p], g)
  {
    var own := Cols(stores[p], g);
    var elements := set c | c in own;
    EmptyAscends();
    AscendingSize(own, elements);
    assert elements <= Recorded(stores, g);
    Contained(elements, Recorded(stores, g));
  }

  lemma {:induction false} Contained(s: set<nat>, t: set<nat>)
    requires s <= t
    ensures |s| <= |t| && (|s| == |t| <==> t <= s)
  {
    assert t == s + (t - s);
    assert |t| == |s| + |t - s|;
    if |t - s| == 0 {
      assert t - s == {};
    }
  }

  /** The row sizes recorded before the exchange are not updated by it: the one of row g is right afterwards
      exactly if no other process had recorded a column of the row that its owner had not. */
  lemma {:induction false} RecordedSizeRightIff(lays: seq<Layout>, stores: seq<Storage>, frames: seq<seq<seq<Frame>>>,
    out: seq<Outbox>, p: nat, total: seq<nat>, widest: nat, g: nat)
    requires Consistent(lays, stores) && Prepared(lays, stores, frames, out) && p < |lays| && lays[p].Owns(g)
    requires Measured(lays[p], stores[p], total, widest)
    ensures total[lays[p].LocalOf(g)] == |Cols(Closed(lays, stores, frames, p), g)|
      <==> forall q: nat, c: nat :: q < |stores| && c in Cols(stores[q], g) ==> c in Cols(stores[p], g)
  {
    ClosedSize(lays, stores, frames, out, p, g);
    OwnColumns(lays[p], stores, p, g);
  }

  /** The size of the longest owned row. */
  ghost predicate IsWidest(lay: Layout, st: Storage, widest: nat) {
    && (forall g: nat :: lay.Owns(g) ==> |Cols(st, g)| <= widest)
    && (widest > 0 ==> exists g: nat :: lay.Owns(g) && |Cols(st, g)| == widest)
  }

  // where every owned row grows to its union, the greatest row before is the greatest one after exactly if no
  // union is larger
  lemma {:induction false} WidestAfter(lay: Layout, stores: seq<Storage>, st: Storage, after: Storage,
    total: seq<nat>, widest: nat)
    requires lay.Valid() && Measured(lay, st, total, widest)
    requires forall g: nat :: lay.Owns(g) ==> |Cols(st, g)| <= |Cols(after, g)| == |Recorded(stores, g)|
    ensures IsWidest(lay, after, widest) <==> forall g: nat :: lay.Owns(g) ==> |Recorded(stores, g)| <= widest
  {
    if widest > 0 && forall g: nat :: lay.Owns(g) ==> |Recorded(stores, g)| <= widest {
      var h: nat :| lay.Owns(h) && |Cols(st, h)| == widest;
      assert |Cols(after, h)| == widest;
    }
  }

  /** Neither is their maximum updated: it is right afterwards exactly if no owned row has more columns than
      that recorded over all processes. */
  lemma {:induction false} RecordedMaximumRightIff(lays: seq<Layout>, stores: seq<Storage>,
    frames: seq<seq<seq<Frame>>>, out: seq<Outbox>, p: nat, total: seq<nat>, widest: nat)
    requires Consistent(lays, stores) && Prepared(lays, stores, frames, out) && p < |lays|
    requires Measured(lays[p], stores[p], total, widest)
    ensures IsWidest(lays[p], Closed(lays, stores, frames, p), widest)
      <==> forall g: nat :: lays[p].Owns(g) ==> |Recorded(stores, g)| <= widest
  {
    var lay, st, after := lays[p], stores[p], Closed(lays, stores, frames, p);
    forall g: nat | lay.Owns(g)
      ensures |Cols(st, g)| <= |Cols(after, g)| == |Recorded(stores, g)|
    {
      ClosedSize(lays, stores, frames, out, p, g);
      OwnColumns(lay, stores, p, g);
    }
    WidestAfter(lay, stores, st, after, total, widest);
  }

  // ---------------------------------------------------------------------------------------------
  // An example
  // ---------------------------------------------------------------------------------------------

  /** Two processes with one row each; of row 0, which process 0 owns, they recorded columns d and c. */
  ghost predicate IsPair(lays: seq<Layout>, stores: seq<Storage>, c: nat, d: nat) {
    && lays == [Layout(0, 2, 0, 0, 1, 1, [0], 0, 0, 1), Layout(1, 2, 1, 1, 1, 1, [0], 1, 1, 1)]
    && stores == [map[0 := Row(0, 0, [d])], map[0 := Row(0, 0, [c])]]
  }

  /** The messages that carry these frames. */
  function Box(frames: seq<seq<Frame>>): (box: Outbox)
    ensures Boxed(frames, box)
  {
    Outbox(seq(|frames|, (d: int) requires 0 <= d < |frames| => Lengths(frames[d])),
           seq(|frames|, (d: int) requires 0 <= d < |frames| => Words(frames[d])))
  }

  lemma PairIsWellFormed(lays: seq<Layout>, stores: seq<Storage>, c: nat, d: nat)
    requires IsPair(lays, stores, c, d)
    ensures WellFormed(lays[0], stores[0]) && WellFormed(lays[1], stores[1])
  {
    SingleAscends(c);
    SingleAscends(d);
  }

  lemma {:induction false} PairIsConsistent(lays: seq<Layout>, stores: seq<Storage>, c: nat, d: nat)
    requires IsPair(lays, stores, c, d)
    ensures Consistent(lays, stores) && Measured(lays[0], stores[0], [1], 1)
  {
    PairIsWellFormed(lays, stores, c, d);
    assert forall p: nat, g: nat :: p < 2 && g in stores[p] ==> g == 0;
    assert forall p: nat, g: nat :: p < 2 && lays[p].Owns(g) ==> p == g;
    assert lays[0].Owns(0) && |Cols(stores[0], 0)| == 1;
  }

  lemma {:induction false} PairIsPrepared(lays: seq<Layout>, stores: seq<Storage>, frames: seq<seq<seq<Frame>>>,
    out: seq<Outbox>, c: nat, d: nat)
    requires IsPair(lays, stores, c, d) && frames == [[[], []], [[Frame(0, 0, [c])], []]]
    requires out == [Box(frames[0]), Box(frames[1])]
    ensures Prepared(lays, stores, frames, out)
  {
    var fs := [Frame(0, 0, [c])];
    assert PackedFor(stores[1], 0, fs) by {
      assert fs[0].index == 0;
    }
    assert PackedFor(stores[0], 1, []);
  }

  lemma {:induction false} PairRecorded(lays: seq<Layout>, stores: seq<Storage>, c: nat, d: nat)
    requires IsPair(lays, stores, c, d) && c != d
    ensures lays[0].Owns(0) && |Recorded(stores, 0)| == 2
  {
    assert d in Cols(stores[0], 0) && c in Cols(stores[1], 0);
    assert Recorded(stores, 0) == {c, d};
  }

  /** If the two columns differ, the size 1 recorded for row 0, and the maximum 1, are too small once the graph
      is closed. */
  lemma {:induction false} StaleSizeExample(lays: seq<Layout>, stores: seq<Storage>, frames: seq<seq<seq<Frame>>>,
    out: seq<Outbox>, c: nat, d: nat)
    requires IsPair(lays, stores, c, d) && c != d && frames == [[[], []], [[Frame(0, 0, [c])], []]]
    requires out == [Box(frames[0]), Box(frames[1])]
    ensures Consistent(lays, stores) && Prepared(lays, stores, frames, out)
    ensures Measured(lays[0], stores[0], [1], 1) && lays[0].Owns(0)
    ensures |Cols(Closed(lays, stores, frames, 0), 0)| == 2 && !IsWidest(lays[0], Closed(lays, stores, frames, 0), 1)
  {
    PairIsConsistent(lays, stores, c, d);
    PairIsPrepared(lays, stores, frames, out, c, d);
    PairRecorded(lays, stores, c, d);
    ClosedSize(lays, stores, frames, out, 0, 0);
  }
}
