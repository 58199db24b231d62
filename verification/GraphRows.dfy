// The rows of a distributed sparsity graph: how they are framed for sending, merged on arrival, counted.

module GraphRows {
  import opened OrderedSets

  /** A row: the process that owns it, its local index there, its columns. */
  datatype Row = Row(proc: nat, local: nat, cols: seq<nat>)

  type Storage = map<nat, Row>

  /** A process's part of the index sets: its rows and columns among all, and its local row numbers. */
  datatype Layout = Layout(rank: nat, procs: nat, firstRow: nat, lastRow: nat, rows: nat, withGhosts: nat,
                           locals: seq<nat>, firstCol: nat, lastCol: nat, cols: nat) {

    ghost predicate Valid() {
      && rank < procs && |locals| == rows
      && (if rows > 0 then lastRow + 1 == firstRow + rows else firstRow <= lastRow + 1 <= firstRow + 1)
      && (forall i: nat :: i < rows ==> locals[i] < withGhosts)
      && (forall i: nat :: i < rows ==> LocalOnce(i))
    }

    /** No later row has the local number of row i. */
    ghost predicate LocalOnce(i: nat) {
      i < |locals| && forall j: nat :: i < j < |locals| ==> locals[i] != locals[j]
    }

    /** dofGlobalClusterIsOnProc for a row index. */
    predicate Owns(g: nat) {
      rows > 0 && firstRow <= g <= lastRow
    }

    /** The local index of an owned row. */
    function LocalOf(g: nat): nat {
      if g >= firstRow && g - firstRow < |locals| then locals[g - firstRow] else 0
    }

    predicate OwnsCol(c: nat) {
      cols > 0 && firstCol <= c <= lastCol
    }
  }

  /** Rows are owned where their process entry says, with the local index of the layout. */
  ghost predicate WellFormed(lay: Layout, st: Storage) {
    && lay.Valid()
    && forall g: nat :: g in st ==>
         && st[g].proc < lay.procs && Ascending(st[g].cols)
         && (st[g].proc == lay.rank <==> lay.Owns(g))
         && (lay.Owns(g) ==> st[g].local == lay.LocalOf(g))
  }

  function Cols(st: Storage, g: nat): seq<nat> {
    if g in st then st[g].cols else []
  }

  // ---------------------------------------------------------------------------------------------
  // Framing
  // ---------------------------------------------------------------------------------------------

  /** One packed row: index, local index, then the columns. */
  datatype Frame = Frame(index: nat, local: nat, cols: seq<nat>)

  function Encode(f: Frame): seq<nat> {
    [f.index, f.local] + f.cols
  }

  function Words(fs: seq<Frame>): seq<nat> {
    if fs == [] then [] else Words(fs[..|fs| - 1]) + Encode(fs[|fs| - 1])
  }

  function Lengths(fs: seq<Frame>): (r: seq<nat>)
    ensures |r| == |fs| && forall k: nat :: k < |fs| ==> r[k] == 2 + |fs[k].cols|
  {
    if fs == [] then [] else Lengths(fs[..|fs| - 1]) + [2 + |fs[|fs| - 1].cols|]
  }

  function StartOf(lengths: seq<nat>, k: nat): nat
    requires k <= |lengths|
  {
    if k == 0 then 0 else StartOf(lengths, k - 1) + lengths[k - 1]
  }

  /** The k-th row read back from the two messages. */
  function Decode(words: seq<nat>, lengths: seq<nat>, k: nat): Frame
    requires k < |lengths| && lengths[k] >= 2 && StartOf(lengths, k) + lengths[k] <= |words|
  {
    var at := StartOf(lengths, k);
    Frame(words[at], words[at + 1], words[at + 2..at + lengths[k]])
  }

  lemma {:induction false} StartsAgree(a: seq<nat>, b: seq<nat>, k: nat)
    requires k <= |a| && k <= |b| && forall i: nat :: i < k ==> a[i] == b[i]
    ensures StartOf(a, k) == StartOf(b, k)
  {
    if k == 0 {
    } else {
      StartsAgree(a, b, k - 1);
    }
  }

  lemma {:induction false} WordsLength(fs: seq<Frame>)
    ensures |Words(fs)| == StartOf(Lengths(fs), |fs|)
  {
    if fs == [] {
    } else {
      var front := fs[..|fs| - 1];
      WordsLength(front);
      StartsAgree(Lengths(front), Lengths(fs), |front|);
    }
  }

  /** Appending to both messages does not disturb the rows before. */
  lemma {:induction false} DecodePrefix(words: seq<nat>, more: seq<nat>, lengths: seq<nat>, longer: seq<nat>, k: nat)
    requires k < |lengths| <= |longer| && forall i: nat :: i <= k ==> longer[i] == lengths[i]
    requires lengths[k] >= 2 && StartOf(lengths, k) + lengths[k] <= |words|
    ensures StartOf(longer, k) == StartOf(lengths, k)
    ensures Decode(words + more, longer, k) == Decode(words, lengths, k)
  {
    StartsAgree(lengths, longer, k);
    var at, len := StartOf(lengths, k), lengths[k];
    assert (words + more)[at + 2..at + len] == words[at + 2..at + len];
  }

  lemma {:induction false} DecodeLast(words: seq<nat>, f: Frame, lengths: seq<nat>, k: nat)
    requires k < |lengths| && lengths[k] == 2 + |f.cols| && StartOf(lengths, k) == |words|
    ensures Decode(words + Encode(f), lengths, k) == f
  {
    var w, at := words + Encode(f), |words|;
    assert w[at + 2..at + 2 + |f.cols|] == f.cols;
  }

  /** Unpacking inverts packing, row by row. */
  lemma {:induction false} DecodeEncode(fs: seq<Frame>, k: nat)
    requires k < |fs|
    ensures StartOf(Lengths(fs), k) + Lengths(fs)[k] <= |Words(fs)|
    ensures Decode(Words(fs), Lengths(fs), k) == fs[k]
  {
    var front, last := fs[..|fs| - 1], fs[|fs| - 1];
    if k < |front| {
      DecodeEncode(front, k);
      DecodePrefix(Words(front), Encode(last), Lengths(front), Lengths(fs), k);
    } else {
      WordsLength(front);
      StartsAgree(Lengths(front), Lengths(fs), k);
      DecodeLast(Words(front), last, Lengths(fs), k);
    }
  }

  /** A row travels as its index, its local index and its columns. */
  lemma {:induction false} FrameWords(fs: seq<Frame>, k: nat)
    requires k < |fs|
    ensures var at := StartOf(Lengths(fs), k);
      && at + 2 + |fs[k].cols| <= |Words(fs)|
      && Words(fs)[at] == fs[k].index && Words(fs)[at + 1] == fs[k].local
      && Words(fs)[at + 2..at + 2 + |fs[k].cols|] == fs[k].cols
  {
    DecodeEncode(fs, k);
  }

  /** Read from these offsets on, the two messages are these frames. */
  ghost predicate Reads(words: seq<nat>, lengths: seq<nat>, starts: seq<nat>, fs: seq<Frame>) {
    && |lengths| == |fs| && |starts| == |fs| + 1 && starts[0] == 0
    && forall k: nat {:trigger fs[k]} :: k < |fs| ==>
         && lengths[k] >= 2 && starts[k + 1] == starts[k] + lengths[k] <= |words|
         && fs[k] == Frame(words[starts[k]], words[starts[k] + 1], words[starts[k] + 2..starts[k] + lengths[k]])
  }

  ghost predicate Framed(words: seq<nat>, lengths: seq<nat>, fs: seq<Frame>) {
    words == Words(fs) && lengths == Lengths(fs)
  }

  function Starts(lengths: seq<nat>): seq<nat> {
    seq(|lengths| + 1, (k: int) requires 0 <= k <= |lengths| => StartOf(lengths, k))
  }

  lemma {:induction false} FrameAt(fs: seq<Frame>, words: seq<nat>, lengths: seq<nat>, starts: seq<nat>, k: nat)
    requires words == Words(fs) && lengths == Lengths(fs) && starts == Starts(lengths) && k < |fs|
    ensures lengths[k] >= 2 && starts[k + 1] == starts[k] + lengths[k] <= |words|
    ensures fs[k] == Frame(words[starts[k]], words[starts[k] + 1], words[starts[k] + 2..starts[k] + lengths[k]])
  {
    DecodeEncode(fs, k);
  }

  lemma {:induction false} PackedReads(fs: seq<Frame>, words: seq<nat>, lengths: seq<nat>, starts: seq<nat>)
    requires words == Words(fs) && lengths == Lengths(fs) && starts == Starts(lengths)
    ensures Reads(words, lengths, starts, fs)
  {
    forall k: nat {:trigger fs[k]} | k < |fs|
      ensures lengths[k] >= 2 && starts[k + 1] == starts[k] + lengths[k] <= |words|
      ensures fs[k] == Frame(words[starts[k]], words[starts[k] + 1], words[starts[k] + 2..starts[k] + lengths[k]])
    {
      FrameAt(fs, words, lengths, starts, k);
    }
  }

  /** A process has something to send exactly when it packed a row. */
  lemma {:induction false} WordsEmpty(fs: seq<Frame>)
    ensures |Words(fs)| > 0 <==> |fs| > 0
  {
  }

  // ---------------------------------------------------------------------------------------------
  // Merging
  // ---------------------------------------------------------------------------------------------

  /** A row with its columns replaced. */
  function WithCols(st: Storage, g: nat, cols: seq<nat>): Storage
    requires g in st
  {
    st[g := st[g].(cols := cols)]
  }

  lemma {:induction false} WithColsWellFormed(lay: Layout, st: Storage, g: nat, cols: seq<nat>)
    requires WellFormed(lay, st) && g in st && Ascending(cols)
    ensures WellFormed(lay, WithCols(st, g, cols))
    ensures forall h: nat :: Cols(WithCols(st, g, cols), h) == if h == g then cols else Cols(st, h)
  {
  }

  /** The row exists, empty and owned if it was not there. */
  function Created(lay: Layout, st: Storage, g: nat): (r: Storage)
    ensures g in r
  {
    if g in st then st else st[g := Row(lay.rank, lay.LocalOf(g), [])]
  }

  lemma {:induction false} CreatedRow(lay: Layout, st: Storage, g: nat)
    requires WellFormed(lay, st) && lay.Owns(g)
    ensures WellFormed(lay, Created(lay, st, g))
    ensures forall h: nat :: Cols(Created(lay, st, g), h) == Cols(st, h)
  {
  }

  function MergeRow(lay: Layout, st: Storage, f: Frame): Storage {
    var t := Created(lay, st, f.index);
    WithCols(t, f.index, InsertAll(t[f.index].cols, f.cols))
  }

  lemma {:induction false} MergeRowKeeps(lay: Layout, st: Storage, f: Frame)
    requires WellFormed(lay, st) && lay.Owns(f.index)
    ensures WellFormed(lay, MergeRow(lay, st, f))
  {
    var t := Created(lay, st, f.index);
    CreatedRow(lay, st, f.index);
    InsertAllAscends(t[f.index].cols, f.cols);
    WithColsWellFormed(lay, t, f.index, InsertAll(t[f.index].cols, f.cols));
  }

  /** A row after its first k received columns. */
  function Filled(st: Storage, g: nat, cols: seq<nat>, k: nat): Storage
    requires g in st && k <= |cols|
  {
    WithCols(st, g, InsertAll(st[g].cols, cols[..k]))
  }

  lemma {:induction false} FilledStep(lay: Layout, st: Storage, g: nat, cols: seq<nat>, k: nat)
    requires WellFormed(lay, st) && g in st && k < |cols|
    ensures var now := Filled(st, g, cols, k);
      g in now && WellFormed(lay, now) && WithCols(now, g, Insert(now[g].cols, cols[k])) == Filled(st, g, cols, k + 1)
  {
    InsertAllStep(st[g].cols, cols, k);
    InsertAllAscends(st[g].cols, cols[..k]);
    WithColsWellFormed(lay, st, g, InsertAll(st[g].cols, cols[..k]));
  }

  lemma {:induction false} FilledEnds(st: Storage, g: nat, cols: seq<nat>)
    requires g in st
    ensures Filled(st, g, cols, 0) == st
    ensures Filled(st, g, cols, |cols|) == WithCols(st, g, InsertAll(st[g].cols, cols))
  {
    assert cols[..|cols|] == cols;
  }

  ghost predicate AllOwned(lay: Layout, fs: seq<Frame>) {
    forall k: nat :: k < |fs| ==> lay.Owns(fs[k].index)
  }

  /** The first k frames, merged one after the other. */
  function MergeAll(lay: Layout, st: Storage, fs: seq<Frame>, k: nat): Storage
    requires k <= |fs|
  {
    if k == 0 then st else MergeRow(lay, MergeAll(lay, st, fs, k - 1), fs[k - 1])
  }

  lemma {:induction false} MergeAllKeeps(lay: Layout, st: Storage, fs: seq<Frame>, k: nat)
    requires WellFormed(lay, st) && AllOwned(lay, fs) && k <= |fs|
    ensures WellFormed(lay, MergeAll(lay, st, fs, k))
  {
    if k == 0 {
    } else {
      MergeAllKeeps(lay, st, fs, k - 1);
      MergeRowKeeps(lay, MergeAll(lay, st, fs, k - 1), fs[k - 1]);
    }
  }

  /** One of the first k frames is for row g and holds column c. */
  ghost predicate Carried(fs: seq<Frame>, k: nat, g: nat, c: nat) {
    exists i: nat :: i < k && i < |fs| && fs[i].index == g && c in fs[i].cols
  }

  lemma {:induction false} CarriedStep(fs: seq<Frame>, k: nat, g: nat, c: nat)
    requires k < |fs|
    ensures Carried(fs, k + 1, g, c) <==> Carried(fs, k, g, c) || (fs[k].index == g && c in fs[k].cols)
  {
  }

  lemma {:induction false} MergedRow(lay: Layout, st: Storage, f: Frame, g: nat, c: nat)
    ensures c in Cols(MergeRow(lay, st, f), g) <==> c in Cols(st, g) || (f.index == g && c in f.cols)
  {
  }

  lemma {:induction false} MergedStep(lay: Layout, st: Storage, fs: seq<Frame>, k: nat, g: nat, c: nat)
    requires k < |fs|
    ensures c in Cols(MergeAll(lay, st, fs, k + 1), g) <==>
      c in Cols(MergeAll(lay, st, fs, k), g) || (fs[k].index == g && c in fs[k].cols)
  {
    MergedRow(lay, MergeAll(lay, st, fs, k), fs[k], g, c);
  }

  lemma {:induction false} MergedMore(lay: Layout, st: Storage, fs: seq<Frame>, k: nat, g: nat, c: nat)
    requires k < |fs| && (c in Cols(MergeAll(lay, st, fs, k), g) <==> c in Cols(st, g) || Carried(fs, k, g, c))
    ensures c in Cols(MergeAll(lay, st, fs, k + 1), g) <==> c in Cols(st, g) || Carried(fs, k + 1, g, c)
  {
    MergedStep(lay, st, fs, k, g, c);
    CarriedStep(fs, k, g, c);
  }

  /** After merging, a row holds what it held and what the frames for it carried, and nothing else. */
  lemma {:induction false} MergedColumns(lay: Layout, st: Storage, fs: seq<Frame>, k: nat, g: nat, c: nat)
    requires k <= |fs|
    ensures c in Cols(MergeAll(lay, st, fs, k), g) <==> c in Cols(st, g) || Carried(fs, k, g, c)
  {
    if k == 0 {
    } else {
      MergedColumns(lay, st, fs, k - 1, g, c);
      MergedMore(lay, st, fs, k - 1, g, c);
    }
  }

  /** The boxes of the first k sources, merged one after the other. */
  function MergeBoxes(lay: Layout, st: Storage, boxes: seq<seq<Frame>>, k: nat): Storage
    requires k <= |boxes|
  {
    if k == 0 then st else MergeAll(lay, MergeBoxes(lay, st, boxes, k - 1), boxes[k - 1], |boxes[k - 1]|)
  }

  lemma {:induction false} MergeBoxesKeeps(lay: Layout, st: Storage, boxes: seq<seq<Frame>>, k: nat)
    requires WellFormed(lay, st) && k <= |boxes| && forall s: nat :: s < |boxes| ==> AllOwned(lay, boxes[s])
    ensures WellFormed(lay, MergeBoxes(lay, st, boxes, k))
  {
    if k == 0 {
    } else {
      MergeBoxesKeeps(lay, st, boxes, k - 1);
      MergeAllKeeps(lay, MergeBoxes(lay, st, boxes, k - 1), boxes[k - 1], |boxes[k - 1]|);
    }
  }

  ghost predicate CarriedBySome(boxes: seq<seq<Frame>>, k: nat, g: nat, c: nat) {
    exists s: nat :: s < k && s < |boxes| && Carried(boxes[s], |boxes[s]|, g, c)
  }

  lemma {:induction false} CarriedBoxStep(boxes: seq<seq<Frame>>, k: nat, g: nat, c: nat)
    requires k < |boxes|
    ensures CarriedBySome(boxes, k + 1, g, c) <==>
      CarriedBySome(boxes, k, g, c) || Carried(boxes[k], |boxes[k]|, g, c)
  {
    if CarriedBySome(boxes, k, g, c) {
      var s: nat :| s < k && s < |boxes| && Carried(boxes[s], |boxes[s]|, g, c);
      assert s < k + 1;
    }
    if CarriedBySome(boxes, k + 1, g, c) {
      var s: nat :| s < k + 1 && s < |boxes| && Carried(boxes[s], |boxes[s]|, g, c);
      assert s == k || s < k;
    }
  }

  lemma {:induction false} MergedBoxes(lay: Layout, st: Storage, boxes: seq<seq<Frame>>, k: nat, g: nat, c: nat)
    requires k <= |boxes|
    ensures c in Cols(MergeBoxes(lay, st, boxes, k), g) <==> c in Cols(st, g) || CarriedBySome(boxes, k, g, c)
  {
    if k == 0 {
    } else {
      MergedBoxes(lay, st, boxes, k - 1, g, c);
      MergedColumns(lay, MergeBoxes(lay, st, boxes, k - 1), boxes[k - 1], |boxes[k - 1]|, g, c);
      CarriedBoxStep(boxes, k - 1, g, c);
    }
  }

  // ---------------------------------------------------------------------------------------------
  // Counting
  // ---------------------------------------------------------------------------------------------

  /** Entries in the first k rows from `first` on. */
  function Total(st: Storage, first: nat, k: nat): nat {
    if k == 0 then 0 else Total(st, first, k - 1) + |Cols(st, first + k - 1)|
  }

  lemma {:induction false} TotalUpdate(st: Storage, st': Storage, g: nat, first: nat, k: nat)
    requires forall h: nat :: h != g ==> Cols(st', h) == Cols(st, h)
    ensures Total(st', first, k) - Total(st, first, k)
      == if first <= g < first + k then |Cols(st', g)| - |Cols(st, g)| else 0
  {
    if k == 0 {
    } else {
      TotalUpdate(st, st', g, first, k - 1);
    }
  }

  lemma {:induction false} TotalEmpty(st: Storage, first: nat, k: nat)
    requires forall h: nat :: first <= h < first + k ==> Cols(st, h) == []
    ensures Total(st, first, k) == 0
  {
    if k == 0 {
    } else {
      TotalEmpty(st, first, k - 1);
    }
  }

  /** The columns of a row that count as on-process are told by the range of columns: of all that are stored,
      or, for a process without columns, of those in `base`, which it had before merging. */
  function OnCount(lay: Layout, base: Storage, st: Storage, g: nat): nat {
    Within(if lay.cols > 0 then Cols(st, g) else Cols(base, g), lay.firstCol, lay.lastCol)
  }

  /** The per-row counts and the overall count of what is stored in the owned rows. */
  ghost predicate Counted(lay: Layout, base: Storage, st: Storage, on: seq<nat>, off: seq<nat>, sum: nat)
    requires lay.Valid()
  {
    && |on| == |off| == lay.withGhosts
    && (forall g: nat {:trigger lay.LocalOf(g)} :: lay.Owns(g) ==>
          on[lay.LocalOf(g)] == OnCount(lay, base, st, g)
          && on[lay.LocalOf(g)] + off[lay.LocalOf(g)] == |Cols(st, g)|)
    && sum == Total(st, lay.firstRow, lay.rows)
  }

  lemma {:induction false} LocalsDiffer(lay: Layout, g: nat, h: nat)
    requires lay.Valid() && lay.Owns(g) && lay.Owns(h) && g != h
    ensures lay.LocalOf(g) != lay.LocalOf(h)
  {
    assert lay.LocalOnce(g - lay.firstRow) && lay.LocalOnce(h - lay.firstRow);
  }
}
