// Closing a sparsity graph: counting and packing before the exchange, merging and counting after it, and
// the compressed row arrays.

module SparsityGraph {
  import opened OrderedSets
  import opened GraphRows
  import opened Exchange

  function Zeros(n: nat): seq<nat> {
    seq(n, i => 0)
  }

  /** The frames packed for process d are the rows recorded for it, each once. */
  ghost predicate PackedFor(st: Storage, d: nat, fs: seq<Frame>) {
    && (forall k: nat :: k < |fs| ==>
          fs[k].index in st && st[fs[k].index] == Row(d, fs[k].local, fs[k].cols))
    && (forall g: nat :: g in st && st[g].proc == d ==> exists k: nat :: k < |fs| && fs[k].index == g)
    && (forall i: nat, j: nat :: i < j < |fs| ==> fs[i].index != fs[j].index)
  }

  ghost predicate Packed(lay: Layout, st: Storage, frames: seq<seq<Frame>>) {
    && |frames| == lay.procs
    && forall d: nat :: d < lay.procs ==> if d == lay.rank then frames[d] == [] else PackedFor(st, d, frames[d])
  }

  /** The messages that carry these frames. */
  ghost predicate Boxed(frames: seq<seq<Frame>>, box: Outbox) {
    && |box.lengths| == |box.contents| == |frames|
    && forall d: nat :: d < |frames| ==> box.lengths[d] == Lengths(frames[d]) && box.contents[d] == Words(frames[d])
  }

  // ---------------------------------------------------------------------------------------------
  // Counting steps
  // ---------------------------------------------------------------------------------------------

  lemma {:induction false} CountedAtStart(lay: Layout)
    requires lay.Valid()
    ensures Counted(lay, map[], map[], Zeros(lay.withGhosts), Zeros(lay.withGhosts), 0)
  {
    TotalEmpty(map[], lay.firstRow, lay.rows);
  }

  /** The counts after row g has gained `more` entries that count as on-process and `others` that do not. */
  lemma {:induction false} CountedStep(lay: Layout, base: Storage, base': Storage, st: Storage, st': Storage,
    on: seq<nat>, off: seq<nat>, sum: nat, g: nat, more: nat, others: nat)
    requires lay.Valid() && Counted(lay, base, st, on, off, sum) && lay.Owns(g)
    requires forall h: nat :: h != g ==> Cols(st', h) == Cols(st, h) && Cols(base', h) == Cols(base, h)
    requires |Cols(st', g)| == |Cols(st, g)| + more + others
    requires OnCount(lay, base', st', g) == OnCount(lay, base, st, g) + more
    ensures var l := lay.LocalOf(g);
      Counted(lay, base', st', on[l := on[l] + more], off[l := off[l] + others], sum + more + others)
  {
    TotalUpdate(st, st', g, lay.firstRow, lay.rows);
    forall h: nat | lay.Owns(h) && h != g
      ensures lay.LocalOf(h) != lay.LocalOf(g)
      ensures OnCount(lay, base', st', h) == OnCount(lay, base, st, h)
    {
      LocalsDiffer(lay, g, h);
    }
  }

  lemma {:induction false} CountedElsewhere(lay: Layout, st: Storage, g: nat, row: Row, on: seq<nat>, off: seq<nat>,
    sum: nat)
    requires lay.Valid() && Counted(lay, st, st, on, off, sum) && !lay.Owns(g)
    ensures Counted(lay, st[g := row], st[g := row], on, off, sum)
  {
    TotalUpdate(st, st[g := row], g, lay.firstRow, lay.rows);
  }

  lemma {:induction false} CountedSame(lay: Layout, base: Storage, st: Storage, st': Storage, on: seq<nat>,
    off: seq<nat>, sum: nat)
    requires lay.Valid() && Counted(lay, base, st, on, off, sum)
    requires forall h: nat :: Cols(st', h) == Cols(st, h)
    ensures Counted(lay, base, st', on, off, sum)
  {
    TotalUpdate(st, st', 0, lay.firstRow, lay.rows);
  }

  /** The counts with the one at l raised if `more`. */
  function Raised(counts: seq<nat>, l: nat, more: bool): seq<nat> {
    if more && l < |counts| then counts[l := counts[l] + 1] else counts
  }

  /** The counts after row g has gained one entry. */
  lemma {:induction false} CountedOne(lay: Layout, base: Storage, st: Storage, st': Storage, on: seq<nat>,
    off: seq<nat>, sum: nat, g: nat, own: bool)
    requires lay.Valid() && Counted(lay, base, st, on, off, sum) && lay.Owns(g)
    requires forall h: nat :: h != g ==> Cols(st', h) == Cols(st, h)
    requires |Cols(st', g)| == |Cols(st, g)| + 1
    requires OnCount(lay, base, st', g) == OnCount(lay, base, st, g) + (if own then 1 else 0)
    ensures var l := lay.LocalOf(g);
      Counted(lay, base, st', Raised(on, l, own), Raised(off, l, !own), sum + 1)
  {
    if own {
      CountedStep(lay, base, base, st, st', on, off, sum, g, 1, 0);
      assert off[lay.LocalOf(g) := off[lay.LocalOf(g)] + 0] == off;
    } else {
      CountedStep(lay, base, base, st, st', on, off, sum, g, 0, 1);
      assert on[lay.LocalOf(g) := on[lay.LocalOf(g)] + 0] == on;
    }
  }

  lemma {:induction false} InsertCounted(lay: Layout, base: Storage, st: Storage, on: seq<nat>, off: seq<nat>,
    sum: nat, g: nat, c: nat)
    requires WellFormed(lay, st) && lay.Owns(g) && g in st && c !in st[g].cols
    requires Counted(lay, base, st, on, off, sum)
    ensures var l, next := lay.LocalOf(g), WithCols(st, g, Insert(st[g].cols, c));
      Counted(lay, base, next, Raised(on, l, lay.OwnsCol(c)), Raised(off, l, !lay.OwnsCol(c)), sum + 1)
  {
    var cols := Insert(st[g].cols, c);
    InsertAscends(st[g].cols, c);
    InsertSize(st[g].cols, c);
    InsertWithin(st[g].cols, c, lay.firstCol, lay.lastCol);
    WithColsWellFormed(lay, st, g, cols);
    CountedOne(lay, base, st, WithCols(st, g, cols), on, off, sum, g, lay.OwnsCol(c));
  }

  lemma {:induction false} WithinPrefix(cols: seq<nat>, i: nat, lo: nat, hi: nat)
    requires i < |cols|
    ensures Within(cols[..i + 1], lo, hi) == Within(cols[..i], lo, hi) + (if lo <= cols[i] <= hi then 1 else 0)
  {
    assert cols[..i + 1][..i] == cols[..i];
  }

  lemma {:induction false} PackedStep(st: Storage, st': Storage, g: nat, d: nat, fs: seq<Frame>)
    requires PackedFor(st, d, fs) && g !in st && g in st' && st' == st[g := st'[g]]
    ensures st'[g].proc != d ==> PackedFor(st', d, fs)
    ensures st'[g].proc == d ==> PackedFor(st', d, fs + [Frame(g, st'[g].local, st'[g].cols)])
  {
    if st'[g].proc == d {
      var t := fs + [Frame(g, st'[g].local, st'[g].cols)];
      forall h: nat | h in st' && st'[h].proc == d
        ensures exists k: nat :: k < |t| && t[k].index == h
      {
        if h == g {
          assert t[|fs|].index == g;
        } else {
          var k: nat :| k < |fs| && fs[k].index == h;
          assert t[k].index == h;
        }
      }
    }
  }

  /** Row sizes and their maximum, as recorded while the rows are visited. */
  ghost predicate Measured(lay: Layout, st: Storage, total: seq<nat>, widest: nat)
    requires lay.Valid()
  {
    && |total| == lay.withGhosts
    && (forall g: nat :: lay.Owns(g) ==> total[lay.LocalOf(g)] == |Cols(st, g)| <= widest)
    && (widest > 0 ==> exists g: nat :: lay.Owns(g) && |Cols(st, g)| == widest)
  }

  lemma {:induction false} MeasuredStep(lay: Layout, st: Storage, st': Storage, total: seq<nat>, widest: nat, g: nat)
    requires lay.Valid() && Measured(lay, st, total, widest) && lay.Owns(g) && Cols(st, g) == []
    requires forall h: nat :: h != g ==> Cols(st', h) == Cols(st, h)
    ensures var size := |Cols(st', g)|;
      Measured(lay, st', total[lay.LocalOf(g) := size], if size >= widest then size else widest)
  {
    forall h: nat | lay.Owns(h) && h != g
      ensures lay.LocalOf(h) != lay.LocalOf(g)
    {
      LocalsDiffer(lay, g, h);
    }
    var size := |Cols(st', g)|;
    if size < widest {
      var h: nat :| lay.Owns(h) && |Cols(st, h)| == widest;
      assert |Cols(st', h)| == widest;
    }
  }

  function Encoded(fs: seq<Frame>): seq<seq<nat>> {
    seq(|fs|, (k: int) requires 0 <= k < |fs| => Encode(fs[k]))
  }

  lemma {:induction false} MeasuredElsewhere(lay: Layout, st: Storage, st': Storage, total: seq<nat>, widest: nat,
    g: nat)
    requires lay.Valid() && Measured(lay, st, total, widest) && !lay.Owns(g)
    requires forall h: nat :: h != g ==> Cols(st', h) == Cols(st, h)
    ensures Measured(lay, st', total, widest)
  {
    if widest > 0 {
      var h: nat :| lay.Owns(h) && |Cols(st, h)| == widest;
      assert |Cols(st', h)| == widest;
    }
  }

  lemma {:induction false} CountedRow(lay: Layout, st: Storage, on: seq<nat>, off: seq<nat>, sum: nat, g: nat,
    row: Row)
    requires lay.Valid() && Counted(lay, st, st, on, off, sum) && lay.Owns(g) && g !in st
    ensures var l, w, next := lay.LocalOf(g), Within(row.cols, lay.firstCol, lay.lastCol), st[g := row];
      Counted(lay, next, next, on[l := on[l] + w], off[l := off[l] + |row.cols| - w], sum + |row.cols|)
  {
    var w := Within(row.cols, lay.firstCol, lay.lastCol);
    assert OnCount(lay, st, st, g) == 0;
    CountedStep(lay, st, st[g := row], st, st[g := row], on, off, sum, g, w, |row.cols| - w);
  }

  lemma {:induction false} OneMoreFrame(fs: seq<Frame>, f: Frame)
    ensures Encoded(fs + [f]) == Encoded(fs) + [[f.index, f.local] + f.cols]
    ensures |Words(fs + [f])| == |Words(fs)| + |f.cols| + 2
  {
    assert (fs + [f])[..|fs|] == fs;
  }

  /** What is kept per process while packing: the frames, their encodings and the total size. */
  ghost predicate Kept(lay: Layout, st: Storage, frames: seq<seq<Frame>>, memory: seq<seq<seq<nat>>>, sizes: seq<nat>) {
    && Packed(lay, st, frames) && |memory| == |sizes| == lay.procs
    && forall d: nat :: d < lay.procs ==> memory[d] == Encoded(frames[d]) && sizes[d] == |Words(frames[d])|
  }

  lemma {:induction false} NothingKept(lay: Layout, frames: seq<seq<Frame>>, memory: seq<seq<seq<nat>>>,
    sizes: seq<nat>)
    requires |frames| == |memory| == |sizes| == lay.procs
    requires forall d: nat :: d < lay.procs ==> frames[d] == [] && memory[d] == [] && sizes[d] == 0
    ensures Kept(lay, map[], frames, memory, sizes)
  {
  }

  lemma {:induction false} OthersStayPacked(lay: Layout, st: Storage, frames: seq<seq<Frame>>, g: nat, row: Row)
    requires Packed(lay, st, frames) && g !in st
    ensures forall d: nat :: d < lay.procs && d != row.proc && d != lay.rank ==>
      PackedFor(st[g := row], d, frames[d])
  {
    forall d: nat | d < lay.procs && d != row.proc && d != lay.rank
      ensures PackedFor(st[g := row], d, frames[d])
    {
      PackedStep(st, st[g := row], g, d, frames[d]);
    }
  }

  lemma {:induction false} OneMoreRow(st: Storage, left: set<nat>, g: nat)
    requires left <= st.Keys && g in left
    ensures g !in st - left && st - (left - {g}) == (st - left)[g := st[g]]
  {
  }

  /** The rows kept for one process, laid out one after the other, and their lengths. */
  method Flatten(memory: seq<seq<nat>>, size: nat, ghost fs: seq<Frame>) returns (words: seq<nat>, lengths: seq<nat>)
    requires memory == Encoded(fs) && size == |Words(fs)|
    ensures words == Words(fs) && lengths == Lengths(fs) && |words| == size
  {
    words, lengths := [], [];
    for k := 0 to |memory|
      invariant words == Words(fs[..k]) && lengths == Lengths(fs[..k])
    {
      assert fs[..k + 1][..k] == fs[..k];
      words := words + memory[k];
      lengths := lengths + [|memory[k]|];
    }
    assert fs[..|memory|] == fs;
  }

  /** The two messages from source s hold these rows, all of them owned by this process. */
  ghost predicate ArrivedFrom(lay: Layout, contents: seq<seq<nat>>, lengths: seq<seq<nat>>, boxes: seq<seq<Frame>>,
    s: nat)
  {
    && s < |contents| && s < |lengths| && s < |boxes|
    && AllOwned(lay, boxes[s]) && Framed(contents[s], lengths[s], boxes[s])
  }

  ghost predicate Arrived(lay: Layout, contents: seq<seq<nat>>, lengths: seq<seq<nat>>, boxes: seq<seq<Frame>>) {
    && |contents| == |lengths| == |boxes|
    && forall s: nat :: s < |boxes| ==> ArrivedFrom(lay, contents, lengths, boxes, s)
  }

  lemma {:induction false} ArrivedIsOwned(lay: Layout, contents: seq<seq<nat>>, lengths: seq<seq<nat>>,
    boxes: seq<seq<Frame>>)
    requires Arrived(lay, contents, lengths, boxes)
    ensures forall s: nat :: s < |boxes| ==> AllOwned(lay, boxes[s])
  {
    forall s: nat | s < |boxes|
      ensures AllOwned(lay, boxes[s])
    {
      assert ArrivedFrom(lay, contents, lengths, boxes, s);
    }
  }

  class GraphCSR {
    const layout: Layout
    var closed: bool
    var storage: Storage
    var nTotal: seq<nat>
    var nOn: seq<nat>
    var nOff: seq<nat>
    var maxNnz: nat
    var ia: seq<nat>
    var ja: seq<nat>

    constructor (layout: Layout, storage: Storage)
      requires WellFormed(layout, storage)
      ensures this.layout == layout && this.storage == storage && !closed
    {
      this.layout, this.storage, closed := layout, storage, false;
      nTotal, nOn, nOff, maxNnz := [], [], [], 0;
      ia, ja := [], [];
    }

    /** One owned row's columns, split into the process's own and the others. */
    method CountColumns(cols: seq<nat>, l: nat)
      requires l < |nOn| == |nOff|
      modifies this`nOn, this`nOff
      ensures nOn == old(nOn)[l := old(nOn[l]) + Within(cols, layout.firstCol, layout.lastCol)]
      ensures nOff == old(nOff)[l := old(nOff[l]) + |cols| - Within(cols, layout.firstCol, layout.lastCol)]
    {
      for i := 0 to |cols|
        invariant |nOn| == |nOff| == |old(nOn)|
        invariant nOn == old(nOn)[l := old(nOn[l]) + Within(cols[..i], layout.firstCol, layout.lastCol)]
        invariant nOff == old(nOff)[l := old(nOff[l]) + i - Within(cols[..i], layout.firstCol, layout.lastCol)]
      {
        WithinPrefix(cols, i, layout.firstCol, layout.lastCol);
        if cols[i] < layout.firstCol || cols[i] > layout.lastCol {
          nOff := nOff[l := nOff[l] + 1];
        } else {
          nOn := nOn[l := nOn[l] + 1];
        }
      }
      assert cols[..|cols|] == cols;
    }

    method RecordSize(g: nat, row: Row, ghost seen: Storage)
      requires layout.Valid() && g !in seen && layout.Owns(g) && row.local == layout.LocalOf(g)
      requires Measured(layout, seen, nTotal, maxNnz)
      modifies this`nTotal, this`maxNnz
      ensures Measured(layout, seen[g := row], nTotal, maxNnz)
    {
      var size := |row.cols|;
      MeasuredStep(layout, seen, seen[g := row], nTotal, maxNnz, g);
      nTotal := nTotal[row.local := size];
      if size >= maxNnz {
        maxNnz := size;
      }
    }

    method CountEntries(g: nat, row: Row, sum: nat, ghost seen: Storage) returns (next: nat)
      requires layout.Valid() && g !in seen && layout.Owns(g) && row.local == layout.LocalOf(g)
      requires Counted(layout, seen, seen, nOn, nOff, sum)
      modifies this`nOn, this`nOff
      ensures Counted(layout, seen[g := row], seen[g := row], nOn, nOff, next)
    {
      CountedRow(layout, seen, nOn, nOff, sum, g, row);
      next := sum + |row.cols|;
      CountColumns(row.cols, row.local);
    }

    method CountRow(g: nat, row: Row, sum: nat, ghost seen: Storage) returns (next: nat)
      requires layout.Valid() && g !in seen && layout.Owns(g) && row.local == layout.LocalOf(g)
      requires Counted(layout, seen, seen, nOn, nOff, sum) && Measured(layout, seen, nTotal, maxNnz)
      modifies this`nTotal, this`nOn, this`nOff, this`maxNnz
      ensures Counted(layout, seen[g := row], seen[g := row], nOn, nOff, next)
      ensures Measured(layout, seen[g := row], nTotal, maxNnz)
    {
      RecordSize(g, row, seen);
      next := CountEntries(g, row, sum, seen);
    }

    method PackRow(memory: seq<seq<seq<nat>>>, sizes: seq<nat>, ghost frames: seq<seq<Frame>>, g: nat, row: Row,
      ghost seen: Storage)
      returns (memory': seq<seq<seq<nat>>>, sizes': seq<nat>, ghost frames': seq<seq<Frame>>)
      requires Kept(layout, seen, frames, memory, sizes) && g !in seen
      requires row.proc < layout.procs && row.proc != layout.rank
      ensures Kept(layout, seen[g := row], frames', memory', sizes')
    {
      var d := row.proc;
      ghost var f := Frame(g, row.local, row.cols);
      PackedStep(seen, seen[g := row], g, d, frames[d]);
      OthersStayPacked(layout, seen, frames, g, row);
      OneMoreFrame(frames[d], f);
      frames' := frames[d := frames[d] + [f]];
      memory' := memory[d := memory[d] + [[g, row.local] + row.cols]];
      sizes' := sizes[d := sizes[d] + |row.cols| + 2];
    }

    method VisitRow(g: nat, row: Row, memory: seq<seq<seq<nat>>>, sizes: seq<nat>, ghost frames: seq<seq<Frame>>,
      sum: nat, ghost seen: Storage)
      returns (memory': seq<seq<seq<nat>>>, sizes': seq<nat>, ghost frames': seq<seq<Frame>>, sum': nat)
      requires layout.Valid() && g !in seen && row.proc < layout.procs
      requires (row.proc == layout.rank <==> layout.Owns(g)) && (layout.Owns(g) ==> row.local == layout.LocalOf(g))
      requires Counted(layout, seen, seen, nOn, nOff, sum) && Measured(layout, seen, nTotal, maxNnz)
      requires Kept(layout, seen, frames, memory, sizes)
      modifies this`nTotal, this`nOn, this`nOff, this`maxNnz
      ensures Counted(layout, seen[g := row], seen[g := row], nOn, nOff, sum')
      ensures Measured(layout, seen[g := row], nTotal, maxNnz)
      ensures Kept(layout, seen[g := row], frames', memory', sizes')
    {
      memory', sizes', frames', sum' := memory, sizes, frames, sum;
      if row.proc == layout.rank {
        OthersStayPacked(layout, seen, frames, g, row);
        sum' := CountRow(g, row, sum, seen);
      } else {
        CountedElsewhere(layout, seen, g, row, nOn, nOff, sum);
        MeasuredElsewhere(layout, seen, seen[g := row], nTotal, maxNnz, g);
        memory', sizes', frames' := PackRow(memory, sizes, frames, g, row, seen);
      }
    }

    /** Counts the owned rows and packs the others for their owners. */
    method CountAndPack() returns (box: Outbox, sum: nat, ghost frames: seq<seq<Frame>>)
      requires !closed && WellFormed(layout, storage)
      modifies this`closed, this`nTotal, this`nOn, this`nOff, this`maxNnz
      ensures closed
      ensures Counted(layout, storage, storage, nOn, nOff, sum) && Measured(layout, storage, nTotal, maxNnz)
      ensures Packed(layout, storage, frames) && Boxed(frames, box)
    {
      closed := true;
      nTotal, nOn, nOff := Zeros(layout.withGhosts), Zeros(layout.withGhosts), Zeros(layout.withGhosts);
      sum, maxNnz := 0, 0;
      var memory: seq<seq<seq<nat>>>, sizes := seq(layout.procs, i => []), Zeros(layout.procs);
      frames := seq(layout.procs, i => []);
      var left := storage.Keys;
      assert storage - left == map[];
      CountedAtStart(layout);
      NothingKept(layout, frames, memory, sizes);
      while left != {}
        invariant closed && left <= storage.Keys
        invariant Counted(layout, storage - left, storage - left, nOn, nOff, sum)
        invariant Measured(layout, storage - left, nTotal, maxNnz)
        invariant Kept(layout, storage - left, frames, memory, sizes)
        decreases |left|
      {
        var g :| g in left;
        OneMoreRow(storage, left, g);
        memory, sizes, frames, sum := VisitRow(g, storage[g], memory, sizes, frames, sum, storage - left);
        left := left - {g};
      }
      assert storage - {} == storage;
      box := FlattenAll(memory, sizes, frames);
    }

    method FlattenAll(memory: seq<seq<seq<nat>>>, sizes: seq<nat>, ghost frames: seq<seq<Frame>>) returns (box: Outbox)
      requires |memory| == |sizes| == |frames| == layout.procs
      requires forall d: nat :: d < layout.procs ==> memory[d] == Encoded(frames[d]) && sizes[d] == |Words(frames[d])|
      requires layout.procs == 1 ==> frames[0] == []
      ensures Boxed(frames, box)
    {
      var contents, lengths: seq<seq<nat>> := seq(layout.procs, i => []), seq(layout.procs, i => []);
      if layout.procs > 1 {
        for d := 0 to layout.procs
          invariant |contents| == |lengths| == layout.procs
          invariant forall e: nat :: e < d ==> lengths[e] == Lengths(frames[e]) && contents[e] == Words(frames[e])
        {
          var words, counts := Flatten(memory[d], sizes[d], frames[d]);
          contents, lengths := contents[d := words], lengths[d := counts];
        }
      }
      box := Outbox(lengths, contents);
    }

    method CountOne(l: nat, own: bool)
      requires l < |nOn| == |nOff|
      modifies this`nOn, this`nOff
      ensures nOn == Raised(old(nOn), l, own) && nOff == Raised(old(nOff), l, !own)
    {
      if !own {
        nOff := nOff[l := nOff[l] + 1];
      } else {
        nOn := nOn[l := nOn[l] + 1];
      }
    }

    method InsertNew(g: nat, c: nat, ghost base: Storage, sum: nat) returns (next: nat)
      requires WellFormed(layout, storage) && layout.Owns(g) && g in storage && c !in storage[g].cols
      requires Counted(layout, base, storage, nOn, nOff, sum)
      modifies this`storage, this`nOn, this`nOff
      ensures storage == WithCols(old(storage), g, Insert(old(storage[g].cols), c))
      ensures Counted(layout, base, storage, nOn, nOff, next)
    {
      InsertCounted(layout, base, storage, nOn, nOff, sum, g, c);
      storage := WithCols(storage, g, Insert(storage[g].cols, c));
      next := sum + 1;
      CountOne(layout.LocalOf(g), layout.OwnsCol(c));
    }

    /** One received column: inserted and counted if the row does not have it yet. */
    method InsertColumn(g: nat, c: nat, ghost base: Storage, sum: nat) returns (next: nat)
      requires WellFormed(layout, storage) && layout.Owns(g) && g in storage
      requires Counted(layout, base, storage, nOn, nOff, sum)
      modifies this`storage, this`nOn, this`nOff
      ensures storage == WithCols(old(storage), g, Insert(old(storage[g].cols), c))
      ensures Counted(layout, base, storage, nOn, nOff, next)
    {
      next := sum;
      if c !in storage[g].cols {
        next := InsertNew(g, c, base, sum);
      } else {
        InsertPresent(storage[g].cols, c);
        assert WithCols(storage, g, storage[g].cols) == storage;
      }
    }

    method InsertNext(g: nat, words: seq<nat>, at: nat, k: nat, ghost was: Storage, ghost cols: seq<nat>,
      ghost base: Storage, sum: nat)
      returns (next: nat)
      requires WellFormed(layout, was) && layout.Owns(g) && g in was && k < |cols|
      requires at + 2 + |cols| <= |words| && cols == words[at + 2..at + 2 + |cols|]
      requires storage == Filled(was, g, cols, k) && Counted(layout, base, storage, nOn, nOff, sum)
      modifies this`storage, this`nOn, this`nOff
      ensures storage == Filled(was, g, cols, k + 1) && Counted(layout, base, storage, nOn, nOff, next)
    {
      FilledStep(layout, was, g, cols, k);
      assert cols[k] == words[at + 2 + k];
      next := InsertColumn(g, words[at + 2 + k], base, sum);
    }

    method InsertColumns(g: nat, words: seq<nat>, at: nat, size: nat, ghost cols: seq<nat>, ghost base: Storage,
      sum: nat)
      returns (next: nat)
      requires WellFormed(layout, storage) && layout.Owns(g) && g in storage
      requires size == |cols| + 2 && at + size <= |words| && cols == words[at + 2..at + 2 + |cols|]
      requires Counted(layout, base, storage, nOn, nOff, sum)
      modifies this`storage, this`nOn, this`nOff
      ensures storage == WithCols(old(storage), g, InsertAll(old(storage[g].cols), cols))
      ensures Counted(layout, base, storage, nOn, nOff, next)
    {
      ghost var was := storage;
      next := sum;
      FilledEnds(was, g, cols);
      for k := 2 to size
        invariant storage == Filled(was, g, cols, k - 2)
        invariant Counted(layout, base, storage, nOn, nOff, next)
      {
        next := InsertNext(g, words, at, k - 2, was, cols, base, next);
      }
    }

    /** One received row: found or created, then filled. */
    method MergeFrame(words: seq<nat>, at: nat, size: nat, ghost f: Frame, ghost base: Storage, sum: nat)
      returns (next: nat)
      requires WellFormed(layout, storage) && layout.Owns(f.index)
      requires size >= 2 && at + size <= |words| && f == Frame(words[at], words[at + 1], words[at + 2..at + size])
      requires Counted(layout, base, storage, nOn, nOff, sum)
      modifies this`storage, this`nOn, this`nOff
      ensures storage == MergeRow(layout, old(storage), f) && WellFormed(layout, storage)
      ensures Counted(layout, base, storage, nOn, nOff, next)
    {
      MergeRowKeeps(layout, storage, f);
      var g := words[at];
      CreatedRow(layout, storage, g);
      CountedSame(layout, base, storage, Created(layout, storage, g), nOn, nOff, sum);
      if g !in storage {
        storage := storage[g := Row(layout.rank, layout.LocalOf(g), [])];
      }
      next := InsertColumns(g, words, at, size, f.cols, base, sum);
    }

    method MergeNext(words: seq<nat>, lengths: seq<nat>, k: nat, start: nat, ghost starts: seq<nat>,
      ghost fs: seq<Frame>, ghost was: Storage, ghost base: Storage, sum: nat)
      returns (after: nat, next: nat)
      requires WellFormed(layout, was) && AllOwned(layout, fs) && k < |fs| && storage == MergeAll(layout, was, fs, k)
      requires Reads(words, lengths, starts, fs) && start == starts[k]
      requires Counted(layout, base, storage, nOn, nOff, sum)
      modifies this`storage, this`nOn, this`nOff
      ensures storage == MergeAll(layout, was, fs, k + 1)
      ensures Counted(layout, base, storage, nOn, nOff, next)
      ensures after == starts[k + 1]
    {
      MergeAllKeeps(layout, was, fs, k);
      after, next := MergeRead(words, lengths, k, start, starts, fs, base, sum);
    }

    method MergeRead(words: seq<nat>, lengths: seq<nat>, k: nat, start: nat, ghost starts: seq<nat>,
      ghost fs: seq<Frame>, ghost base: Storage, sum: nat)
      returns (after: nat, next: nat)
      requires WellFormed(layout, storage) && AllOwned(layout, fs) && k < |fs|
      requires Reads(words, lengths, starts, fs) && start == starts[k]
      requires Counted(layout, base, storage, nOn, nOff, sum)
      modifies this`storage, this`nOn, this`nOff
      ensures storage == MergeRow(layout, old(storage), fs[k])
      ensures Counted(layout, base, storage, nOn, nOff, next)
      ensures after == starts[k + 1]
    {
      ghost var f := fs[k];
      next := MergeFrame(words, start, lengths[k], f, base, sum);
      after := start + lengths[k];
    }

    /** All rows of one message pair. */
    method MergeMessage(words: seq<nat>, lengths: seq<nat>, ghost starts: seq<nat>, ghost fs: seq<Frame>,
      ghost base: Storage, sum: nat)
      returns (next: nat)
      requires WellFormed(layout, storage) && AllOwned(layout, fs)
      requires Reads(words, lengths, starts, fs) && Counted(layout, base, storage, nOn, nOff, sum)
      modifies this`storage, this`nOn, this`nOff
      ensures storage == MergeAll(layout, old(storage), fs, |fs|) && WellFormed(layout, storage)
      ensures Counted(layout, base, storage, nOn, nOff, next)
    {
      ghost var was := storage;
      next := sum;
      var start := 0;
      for k := 0 to |lengths|
        invariant start == starts[k] && storage == MergeAll(layout, was, fs, k)
        invariant Counted(layout, base, storage, nOn, nOff, next)
      {
        start, next := MergeNext(words, lengths, k, start, starts, fs, was, base, next);
      }
      MergeAllKeeps(layout, was, fs, |fs|);
    }

    method MergeBox(contents: seq<seq<nat>>, lengths: seq<seq<nat>>, ghost boxes: seq<seq<Frame>>, s: nat,
      ghost was: Storage, ghost base: Storage, sum: nat)
      returns (next: nat)
      requires WellFormed(layout, was) && s < |boxes| && storage == MergeBoxes(layout, was, boxes, s)
      requires Arrived(layout, contents, lengths, boxes)
      requires Counted(layout, base, storage, nOn, nOff, sum)
      modifies this`storage, this`nOn, this`nOff
      ensures storage == MergeBoxes(layout, was, boxes, s + 1)
      ensures Counted(layout, base, storage, nOn, nOff, next)
    {
      ghost var fs := boxes[s];
      ArrivedIsOwned(layout, contents, lengths, boxes);
      assert ArrivedFrom(layout, contents, lengths, boxes, s);
      MergeBoxesKeeps(layout, was, boxes, s);
      WordsEmpty(fs);
      next := sum;
      if |contents[s]| > 0 {
        PackedReads(fs, contents[s], lengths[s], Starts(lengths[s]));
        next := MergeMessage(contents[s], lengths[s], Starts(lengths[s]), fs, base, sum);
      }
    }

    /** Everything received, source by source. */
    method Merge(contents: seq<seq<nat>>, lengths: seq<seq<nat>>, ghost boxes: seq<seq<Frame>>,
      ghost base: Storage, sum: nat)
      returns (next: nat)
      requires WellFormed(layout, storage) && |contents| == |lengths| == |boxes|
      requires forall s: nat :: s < |boxes| ==> AllOwned(layout, boxes[s]) && Framed(contents[s], lengths[s], boxes[s])
      requires Counted(layout, base, storage, nOn, nOff, sum)
      modifies this`storage, this`nOn, this`nOff
      ensures storage == MergeBoxes(layout, old(storage), boxes, |boxes|) && WellFormed(layout, storage)
      ensures Counted(layout, base, storage, nOn, nOff, next)
    {
      ghost var was := storage;
      next := MergeSources(contents, lengths, boxes, was, base, sum);
      MergeBoxesKeeps(layout, was, boxes, |boxes|);
    }

    method MergeSources(contents: seq<seq<nat>>, lengths: seq<seq<nat>>, ghost boxes: seq<seq<Frame>>,
      ghost was: Storage, ghost base: Storage, sum: nat)
      returns (next: nat)
      requires WellFormed(layout, was) && storage == was && Arrived(layout, contents, lengths, boxes)
      requires Counted(layout, base, storage, nOn, nOff, sum)
      modifies this`storage, this`nOn, this`nOff
      ensures storage == MergeBoxes(layout, was, boxes, |boxes|)
      ensures Counted(layout, base, storage, nOn, nOff, next)
    {
      next := sum;
      for s := 0 to |contents|
        invariant storage == MergeBoxes(layout, was, boxes, s)
        invariant Counted(layout, base, storage, nOn, nOff, next)
      {
        next := MergeBox(contents, lengths, boxes, s, was, base, next);
      }
    }

    /** The compressed row arrays of the owned rows. */
    method BuildArrays(sum: nat)
      requires WellFormed(layout, storage) && sum == Total(storage, layout.firstRow, layout.rows)
      modifies this`ia, this`ja
      ensures layout.rows > 1 || sum > 0 ==> Compressed(storage, layout.firstRow, layout.rows, ia, ja)
      ensures layout.rows <= 1 && sum == 0 ==> ia == [0] && ja == []
    {
      var count := layout.lastRow + 1 - layout.firstRow;
      if count > 1 || sum > 0 {
        CopyRows(count, sum);
      } else {
        ia, ja := [0], [];
      }
    }

    /** What follows the exchange: merging what arrived, then the arrays. */
    method Finish(contents: seq<seq<nat>>, lengths: seq<seq<nat>>, ghost boxes: seq<seq<Frame>>, sum: nat)
      returns (entries: nat)
      requires WellFormed(layout, storage) && |contents| == |lengths| == |boxes| == layout.procs
      requires boxes[layout.rank] == []
      requires forall s: nat :: s < |boxes| ==> AllOwned(layout, boxes[s]) && Framed(contents[s], lengths[s], boxes[s])
      requires Counted(layout, storage, storage, nOn, nOff, sum)
      modifies this`storage, this`nOn, this`nOff, this`ia, this`ja
      ensures storage == MergeBoxes(layout, old(storage), boxes, |boxes|) && WellFormed(layout, storage)
      ensures Counted(layout, old(storage), storage, nOn, nOff, entries)
      ensures layout.rows > 1 || entries > 0 ==> Compressed(storage, layout.firstRow, layout.rows, ia, ja)
      ensures layout.rows <= 1 && entries == 0 ==> ia == [0] && ja == []
    {
      entries := sum;
      if layout.procs > 1 {
        entries := Merge(contents, lengths, boxes, storage, sum);
      } else {
        AloneNothingArrives(layout, storage, boxes);
      }
      BuildArrays(entries);
    }

    method CopyRows(count: nat, sum: nat)
      requires sum == Total(storage, layout.firstRow, count)
      modifies this`ia, this`ja
      ensures Compressed(storage, layout.firstRow, count, ia, ja)
    {
      var first := layout.firstRow;
      ia, ja := [], [];
      for i := 0 to count
        invariant |ia| == i && forall k: nat {:trigger ia[k]} :: k < i ==> ia[k] == Total(storage, first, k)
        invariant ja == Concatenated(storage, first, i)
      {
        ia := ia + [|ja|];
        if first + i in storage {
          ja := ja + storage[first + i].cols;
        }
      }
      ia := ia + [sum];
      SlicesAreRows(storage, first, count, ia, ja);
    }
  }

  lemma {:induction false} AloneNothingArrives(lay: Layout, st: Storage, boxes: seq<seq<Frame>>)
    requires WellFormed(lay, st) && |boxes| == 1 && boxes[0] == []
    ensures MergeBoxes(lay, st, boxes, |boxes|) == st
  {
    assert MergeBoxes(lay, st, boxes, 0) == st && MergeAll(lay, st, boxes[0], 0) == st;
  }

  function Concatenated(st: Storage, first: nat, k: nat): (r: seq<nat>)
    ensures |r| == Total(st, first, k)
  {
    if k == 0 then [] else Concatenated(st, first, k - 1) + Cols(st, first + k - 1)
  }

  /** ia is monotone and ends at the length of ja; slice i of ja is the ascending row i. */
  ghost predicate Compressed(st: Storage, first: nat, n: nat, ia: seq<nat>, ja: seq<nat>) {
    && |ia| == n + 1 && ia[0] == 0 && ia[n] == |ja|
    && (forall i: nat, k: nat :: i <= k <= n ==> ia[i] <= ia[k])
    && (forall i: nat :: i < n ==> ja[ia[i]..ia[i + 1]] == Cols(st, first + i))
  }

  lemma {:induction false} SlicesAreRows(st: Storage, first: nat, n: nat, ia: seq<nat>, ja: seq<nat>)
    requires |ia| == n + 1 && ja == Concatenated(st, first, n)
    requires forall k: nat {:trigger ia[k]} :: k <= n ==> ia[k] == Total(st, first, k)
    ensures Compressed(st, first, n, ia, ja)
  {
    forall i: nat, k: nat | i <= k <= n
      ensures ia[i] <= ia[k]
    {
      TotalGrows(st, first, i, k);
    }
    assert ia[n] == |ja|;
    forall i: nat | i < n
      ensures ja[ia[i]..ia[i + 1]] == Cols(st, first + i)
    {
      SliceIsRow(st, first, n, i);
    }
  }

  lemma {:induction false} TotalGrows(st: Storage, first: nat, i: nat, k: nat)
    requires i <= k
    ensures Total(st, first, i) <= Total(st, first, k)
  {
    if i >= k {
    } else {
      TotalGrows(st, first, i, k - 1);
    }
  }

  lemma {:induction false} SliceIsRow(st: Storage, first: nat, n: nat, i: nat)
    requires i < n
    ensures Total(st, first, i) <= Total(st, first, i + 1) <= Total(st, first, n)
    ensures Concatenated(st, first, n)[Total(st, first, i)..Total(st, first, i + 1)] == Cols(st, first + i)
  {
    var front := Concatenated(st, first, n - 1);
    if i == n - 1 {
      assert (front + Cols(st, first + i))[|front|..] == Cols(st, first + i);
    } else {
      SliceIsRow(st, first, n - 1, i);
      var lo, hi := Total(st, first, i), Total(st, first, i + 1);
      assert (front + Cols(st, first + n - 1))[lo..hi] == front[lo..hi];
    }
  }
}
