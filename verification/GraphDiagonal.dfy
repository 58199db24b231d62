// Adding the missing diagonal entries of a graph, and what this does to rows that were not there before.

module GraphDiagonal {
  import opened OrderedSets
  import opened GraphRows

  function Least(x: nat, y: nat): nat {
    if x <= y then x else y
  }

  /** The row that is left at index i: only the very first one is given an owner when it is created. */
  function DiagonalRow(lay: Layout, st: Storage, i: nat): Row
    requires WellFormed(lay, st) && lay.Owns(i)
  {
    if i in st then st[i].(cols := Insert(st[i].cols, i))
    else if i == lay.firstRow then Row(lay.rank, lay.LocalOf(i), [i])
    else Row(0, 0, [i])
  }

  lemma {:induction false} DiagonalRowAscends(lay: Layout, st: Storage, i: nat)
    requires WellFormed(lay, st) && lay.Owns(i)
    ensures Ascending(DiagonalRow(lay, st, i).cols)
  {
    SingleAscends(i);
    if i in st {
      InsertAscends(st[i].cols, i);
    }
  }

  function WithDiagonal(lay: Layout, st: Storage, k: nat): Storage
    requires WellFormed(lay, st) && k <= lay.rows
  {
    if k == 0 then st
    else
      var i := lay.firstRow + k - 1;
      WithDiagonal(lay, st, k - 1)[i := DiagonalRow(lay, st, i)]
  }

  // the row at index g after k steps
  lemma {:induction false} DiagonalAt(lay: Layout, st: Storage, k: nat, g: nat)
    requires WellFormed(lay, st) && k <= lay.rows
    ensures var r := WithDiagonal(lay, st, k);
      && (g in r <==> g in st || lay.firstRow <= g < lay.firstRow + k)
      && (g in r ==> r[g] == if lay.firstRow <= g < lay.firstRow + k then DiagonalRow(lay, st, g) else st[g])
  {
    if k > 0 {
      DiagonalAt(lay, st, k - 1, g);
    }
  }

  // the row at index i, which the first k steps leave alone, and the next step
  lemma NextDiagonal(lay: Layout, st: Storage, k: nat, i: nat, now: Storage)
    requires WellFormed(lay, st) && k < lay.rows && i == lay.firstRow + k && now == WithDiagonal(lay, st, k)
    ensures (i in now <==> i in st) && (i in now ==> now[i] == st[i])
    ensures lay.firstRow in now <==> k > 0 || lay.firstRow in st
    ensures WithDiagonal(lay, st, k + 1) == now[i := DiagonalRow(lay, st, i)]
  {
    DiagonalAt(lay, st, k, i);
    DiagonalAt(lay, st, k, lay.firstRow);
  }

  method AddDiagonalEntry(lay: Layout, now: Storage, i: nat, ghost st: Storage) returns (next: Storage)
    requires WellFormed(lay, st) && lay.Owns(i)
    requires (i in now <==> i in st) && (i in now ==> now[i] == st[i])
    requires lay.firstRow in now <==> i > lay.firstRow || lay.firstRow in st
    ensures next == now[i := DiagonalRow(lay, st, i)]
  {
    if lay.firstRow in now {
      var row := if i in now then now[i] else Row(0, 0, []);
      next := now[i := row.(cols := Insert(row.cols, i))];
    } else {
      next := now[i := Row(lay.rank, lay.locals[i - lay.firstRow], Insert([], i))];
    }
  }

  lemma {:induction false} DiagonalDone(lay: Layout, st: Storage)
    requires WellFormed(lay, st)
    ensures var next := WithDiagonal(lay, st, Least(lay.rows, lay.cols));
      && (forall g: nat, c: nat :: c in Cols(next, g) <==>
            c in Cols(st, g) || (c == g && lay.firstRow <= g < lay.firstRow + lay.rows && g < lay.firstRow + lay.cols))
      && (forall g: nat :: g in next <==>
            g in st || (lay.firstRow <= g < lay.firstRow + lay.rows && g < lay.firstRow + lay.cols))
      && (forall g: nat :: g in st ==> next[g].proc == st[g].proc && next[g].local == st[g].local)
      && (forall g: nat :: g in next && g !in st ==>
            next[g] == if g == lay.firstRow then Row(lay.rank, lay.locals[0], [g]) else Row(0, 0, [g]))
  {
    var k := Least(lay.rows, lay.cols);
    var next := WithDiagonal(lay, st, k);
    forall g: nat
      ensures g in next <==> g in st || lay.firstRow <= g < lay.firstRow + k
      ensures g in next ==>
        next[g] == if lay.firstRow <= g < lay.firstRow + k then DiagonalRow(lay, st, g) else st[g]
    {
      DiagonalAt(lay, st, k, g);
    }
  }

  /** addMissingZeroEntriesDiagonal; the lookup is made for the first row, not for row i. */
  method AddMissingZeroEntriesDiagonal(lay: Layout, st: Storage, nRowDofs: nat, nColDofs: nat) returns (next: Storage)
    requires WellFormed(lay, st)
    ensures next
      == if lay.procs > 1 && nRowDofs != nColDofs then st else WithDiagonal(lay, st, Least(lay.rows, lay.cols))
    // the diagonal entry joins every owned row that has a column with its number
    ensures lay.procs == 1 || nRowDofs == nColDofs ==> forall g: nat, c: nat ::
      c in Cols(next, g) <==>
        c in Cols(st, g) || (c == g && lay.firstRow <= g < lay.firstRow + lay.rows && g < lay.firstRow + lay.cols)
    ensures lay.procs == 1 || nRowDofs == nColDofs ==> forall g: nat ::
      g in next <==> g in st || (lay.firstRow <= g < lay.firstRow + lay.rows && g < lay.firstRow + lay.cols)
    // rows keep their owner; of the rows created only the first gets one
    ensures forall g: nat :: g in st ==> next[g].proc == st[g].proc && next[g].local == st[g].local
    ensures forall g: nat :: g in next && g !in st ==>
      next[g] == if g == lay.firstRow then Row(lay.rank, lay.locals[0], [g]) else Row(0, 0, [g])
  {
    DiagonalDone(lay, st);
    next := st;
    if lay.procs > 1 && nRowDofs != nColDofs {
      return;
    }
    var n := Least(lay.rows, lay.cols);
    for k := 0 to n
      invariant next == WithDiagonal(lay, st, k)
    {
      NextDiagonal(lay, st, k, lay.firstRow + k, next);
      next := AddDiagonalEntry(lay, next, lay.firstRow + k, st);
    }
  }

  /** The columns are right: the diagonal of the first k owned rows was added, nothing else changed. */
  lemma {:induction false} DiagonalAdded(lay: Layout, st: Storage, k: nat, g: nat, c: nat)
    requires WellFormed(lay, st) && k <= lay.rows
    ensures c in Cols(WithDiagonal(lay, st, k), g) <==>
      c in Cols(st, g) || (lay.firstRow <= g < lay.firstRow + k && c == g)
  {
    DiagonalAt(lay, st, k, g);
  }

  /** The rows stay well formed exactly if no row but the first had to be created, unless it belongs to process 0
      and has local index 0 there. */
  lemma {:induction false} StaysWellFormedIff(lay: Layout, st: Storage, k: nat)
    requires WellFormed(lay, st) && k <= lay.rows
    ensures WellFormed(lay, WithDiagonal(lay, st, k)) <==>
      forall i: nat :: lay.firstRow < i < lay.firstRow + k && i !in st ==> lay.rank == 0 && lay.LocalOf(i) == 0
  {
    var r := WithDiagonal(lay, st, k);
    forall i: nat | lay.firstRow < i < lay.firstRow + k && i !in st
      ensures i in r && r[i] == Row(0, 0, [i]) && lay.Owns(i)
    {
      DiagonalAt(lay, st, k, i);
    }
    if forall i: nat :: lay.firstRow < i < lay.firstRow + k && i !in st ==> lay.rank == 0 && lay.LocalOf(i) == 0 {
      forall g: nat | g in r
        ensures r[g].proc < lay.procs && Ascending(r[g].cols)
        ensures r[g].proc == lay.rank <==> lay.Owns(g)
        ensures lay.Owns(g) ==> r[g].local == lay.LocalOf(g)
      {
        DiagonalAt(lay, st, k, g);
        if lay.firstRow <= g < lay.firstRow + k {
          DiagonalRowAscends(lay, st, g);
        }
      }
    }
  }

  /** Process 1 of two, with rows 1 and 2, of which only the first was recorded: row 2 is created with process 0
      as its owner, and the rows of process 1 are not well formed. */
  lemma {:induction false} OwnerlessExample(lay: Layout, st: Storage)
    requires lay == Layout(1, 2, 1, 2, 2, 2, [0, 1], 1, 2, 2) && st == map[1 := Row(1, 0, [1])]
    ensures WellFormed(lay, st) && lay.Owns(2)
    ensures WithDiagonal(lay, st, 2)[2] == Row(0, 0, [2]) && !WellFormed(lay, WithDiagonal(lay, st, 2))
  {
    SingleAscends(1);
    assert lay.LocalOf(1) == 0;
    DiagonalAt(lay, st, 2, 2);
  }
}
