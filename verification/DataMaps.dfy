// Numbering the rows of a block matrix over all processes: each process derives, from what every block
// tells it about the partition, the same global numbers.

module DataMaps {
  import opened Intervals

  /** The index map of one block row: per process the number of owned dofs, their first and last global
      number, and the global numbers of its local dofs, ghosts included. */
  datatype Block = Block(own: seq<nat>, first: seq<nat>, last: seq<nat>, locals: seq<seq<nat>>) {

    function OwnAt(q: nat): nat {
      if q < |own| then own[q] else 0
    }

    function Own(): nat -> nat {
      (q: nat) => OwnAt(q)
    }

    /** dofGlobalClusterIsOnProc. */
    predicate OnProc(g: nat, q: nat)
      requires q < |own| && q < |first| && q < |last|
    {
      own[q] > 0 && g <= last[q] && g >= first[q]
    }

    /** A partition into consecutive intervals; every process numbers each of its owned dofs once. */
    ghost predicate Valid(procs: nat) {
      && |own| == |first| == |last| == |locals| == procs
      && (forall q: nat :: q < procs ==> first[q] == Start(Own(), q))
      && (forall q: nat :: q < procs && own[q] > 0 ==> last[q] == first[q] + own[q] - 1)
      && (forall p: nat, k: nat :: p < procs && k < |locals[p]| ==> locals[p][k] < Start(Own(), procs))
      && (forall p: nat :: p < procs ==> NumbersOwned(p))
    }

    /** Process p numbers each dof it owns, and no dof twice. */
    ghost predicate NumbersOwned(p: nat) {
      && p < |locals|
      && (forall g: nat :: In(Own(), p, g) ==> exists k: nat :: k < |locals[p]| && locals[p][k] == g)
      && (forall k: nat, l: nat :: k < l < |locals[p]| ==> locals[p][k] != locals[p][l])
    }

    function Size(): nat {
      Start(Own(), |own|)
    }
  }

  lemma {:induction false} OnProcIsIn(b: Block, procs: nat, g: nat, q: nat)
    requires b.Valid(procs) && q < procs
    ensures b.OnProc(g, q) <==> In(b.Own(), q, g)
  {
  }

  /** The tables say that process q has dof g. */
  predicate Holds(own: seq<nat>, first: seq<nat>, last: seq<int>, g: nat, q: nat) {
    q < |own| && q < |first| && q < |last| && own[q] > 0 && first[q] <= g <= last[q]
  }

  /** The first process that has the dof; 0 if none has it. */
  ghost predicate IsScan(own: seq<nat>, first: seq<nat>, last: seq<int>, g: nat, res: nat) {
    && (forall q: nat :: q < res ==> !Holds(own, first, last, g, q))
    && (Holds(own, first, last, g, res) || (res == 0 && forall q: nat :: !Holds(own, first, last, g, q)))
  }

  /** The scan over the processes. */
  method ProcOnGlobalCluster(own: seq<nat>, first: seq<nat>, last: seq<int>, g: nat) returns (res: nat)
    requires |own| == |first| == |last|
    ensures IsScan(own, first, last, g, res)
  {
    var proc, find := 0, false;
    res := 0;
    while !find && proc < |own|
      invariant proc <= |own|
      invariant forall q: nat :: q < proc ==> !Holds(own, first, last, g, q)
      invariant if find then res == proc && Holds(own, first, last, g, res) else res == 0
      decreases |own| - proc, !find
    {
      if own[proc] > 0 && g <= last[proc] && g >= first[proc] {
        res := proc;
        find := true;
      } else {
        proc := proc + 1;
      }
    }
  }

  // ---------------------------------------------------------------------------------------------
  // The numbering
  // ---------------------------------------------------------------------------------------------

  ghost predicate Blocks(blocks: seq<Block>, procs: nat) {
    forall i: nat :: i < |blocks| ==> blocks[i].Valid(procs)
  }

  /** Owned dofs of process q, block by block. */
  function OwnOf(blocks: seq<Block>, q: nat): nat -> nat {
    (i: nat) => if i < |blocks| then blocks[i].OwnAt(q) else 0
  }

  /** Owned dofs of each process in the merged map. */
  function MergedOwn(blocks: seq<Block>): nat -> nat {
    (q: nat) => Start(OwnOf(blocks, q), |blocks|)
  }

  /** The global number of dof g of block i, in terms of the process q that owns it. */
  function Number(blocks: seq<Block>, i: nat, q: nat, g: int): int
    requires i < |blocks|
  {
    Start(MergedOwn(blocks), q) + Start(OwnOf(blocks, q), i) + (g - Start(blocks[i].Own(), q))
  }

  /** The number of an owned dof falls among its owner's numbers, in its block's part of them. */
  lemma {:induction false} NumberIsIn(blocks: seq<Block>, procs: nat, i: nat, q: nat, g: int)
    requires Blocks(blocks, procs) && i < |blocks| && q < procs && In(blocks[i].Own(), q, g)
    ensures In(OwnOf(blocks, q), i, Number(blocks, i, q, g) - Start(MergedOwn(blocks), q))
    ensures In(MergedOwn(blocks), q, Number(blocks, i, q, g))
    ensures 0 <= Number(blocks, i, q, g) < Start(MergedOwn(blocks), procs)
  {
    StartGrows(OwnOf(blocks, q), i, |blocks|);
    InsideEnd(MergedOwn(blocks), procs, q, Number(blocks, i, q, g));
  }

  /** Different dofs get different numbers, and the number tells the owner. */
  lemma {:induction false} NumberIsInjective(blocks: seq<Block>, procs: nat, i: nat, q: nat, g: int, j: nat, r: nat,
    h: int)
    requires Blocks(blocks, procs) && i < |blocks| && j < |blocks| && q < procs && r < procs
    requires In(blocks[i].Own(), q, g) && In(blocks[j].Own(), r, h)
    requires Number(blocks, i, q, g) == Number(blocks, j, r, h)
    ensures i == j && q == r && g == h
  {
    var x := Number(blocks, i, q, g);
    NumberIsIn(blocks, procs, i, q, g);
    NumberIsIn(blocks, procs, j, r, h);
    Disjoint(MergedOwn(blocks), q, r, x);
    Disjoint(OwnOf(blocks, q), i, j, x - Start(MergedOwn(blocks), q));
  }

  /** Every number below the total is the number of a dof. */
  lemma {:induction false} NumberIsSurjective(blocks: seq<Block>, procs: nat, x: nat) returns (i: nat, q: nat, g: nat)
    requires Blocks(blocks, procs) && x < Start(MergedOwn(blocks), procs)
    ensures i < |blocks| && q < procs && In(blocks[i].Own(), q, g) && Number(blocks, i, q, g) == x
  {
    q := Covered(MergedOwn(blocks), procs, x);
    i := Covered(OwnOf(blocks, q), |blocks|, x - Start(MergedOwn(blocks), q));
    g := x - Start(MergedOwn(blocks), q) - Start(OwnOf(blocks, q), i) + Start(blocks[i].Own(), q);
  }

  function SizesOf(blocks: seq<Block>): nat -> nat {
    (i: nat) => if i < |blocks| then blocks[i].Size() else 0
  }

  /** The total is the sum of the sizes of the blocks: no number is missing and none is left over. */
  lemma {:induction false} TotalIsSum(blocks: seq<Block>, procs: nat)
    requires Blocks(blocks, procs)
    ensures Start(MergedOwn(blocks), procs) == Start(SizesOf(blocks), |blocks|)
  {
    Exchanged(blocks, procs, |blocks|);
    SameStarts((i: nat) => if i < |blocks| then Start(blocks[i].Own(), procs) else 0, SizesOf(blocks), |blocks|);
  }

  lemma {:induction false} Exchanged(blocks: seq<Block>, procs: nat, m: nat)
    requires m <= |blocks|
    ensures Start((q: nat) => Start(OwnOf(blocks, q), m), procs)
      == Start((i: nat) => if i < |blocks| then Start(blocks[i].Own(), procs) else 0, m)
  {
    var perBlock := (i: nat) => if i < |blocks| then Start(blocks[i].Own(), procs) else 0;
    if m == 0 {
      AllZero((q: nat) => Start(OwnOf(blocks, q), 0), procs);
    } else {
      Exchanged(blocks, procs, m - 1);
      Added((q: nat) => Start(OwnOf(blocks, q), m - 1), blocks[m - 1].Own(), (q: nat) => Start(OwnOf(blocks, q), m),
            procs);
    }
  }

  lemma {:induction false} AllZero(f: nat -> nat, k: nat)
    requires forall q: nat :: q < k ==> f(q) == 0
    ensures Start(f, k) == 0
  {
    if k == 0 {
    } else {
      AllZero(f, k - 1);
    }
  }

  lemma {:induction false} Added(f: nat -> nat, g: nat -> nat, h: nat -> nat, k: nat)
    requires forall q: nat :: q < k ==> h(q) == f(q) + g(q)
    ensures Start(h, k) == Start(f, k) + Start(g, k)
  {
    if k == 0 {
    } else {
      Added(f, g, h, k - 1);
    }
  }

  // ---------------------------------------------------------------------------------------------
  // What the map of one process must hold
  // ---------------------------------------------------------------------------------------------

  /** The process that owns dof g of a block. */
  ghost function Owner(b: Block, procs: nat, g: nat): nat {
    if q: nat :| q < procs && In(b.Own(), q, g) then q else 0
  }

  lemma {:induction false} OwnerOwns(b: Block, procs: nat, g: nat)
    requires b.Valid(procs) && g < Start(b.Own(), procs)
    ensures Owner(b, procs, g) < procs && In(b.Own(), Owner(b, procs, g), g)
    ensures forall q: nat :: q < procs && In(b.Own(), q, g) ==> q == Owner(b, procs, g)
  {
    var k := Covered(b.Own(), procs, g);
    forall q: nat | q < procs && In(b.Own(), q, g)
      ensures q == Owner(b, procs, g)
    {
      Disjoint(b.Own(), q, Owner(b, procs, g), g);
    }
  }

  /** The global number of a dof: a function of the block and the dof alone. */
  ghost function GlobalNumber(blocks: seq<Block>, procs: nat, i: nat, g: nat): int
    requires i < |blocks|
  {
    Number(blocks, i, Owner(blocks[i], procs, g), g)
  }

  /** In a block the dofs of one owner are numbered in their own order, without gaps. */
  lemma {:induction false} NextNumber(blocks: seq<Block>, procs: nat, i: nat, q: nat, g: nat)
    requires Blocks(blocks, procs) && i < |blocks| && q < procs
    requires In(blocks[i].Own(), q, g) && In(blocks[i].Own(), q, g + 1)
    ensures GlobalNumber(blocks, procs, i, g + 1) == GlobalNumber(blocks, procs, i, g) + 1
  {
    OwnedBy(blocks[i], procs, q, g);
    OwnedBy(blocks[i], procs, q, g + 1);
  }

  lemma {:induction false} OwnedBy(b: Block, procs: nat, q: nat, g: nat)
    requires b.Valid(procs) && q < procs && In(b.Own(), q, g)
    ensures Owner(b, procs, g) == q
  {
    InsideEnd(b.Own(), procs, q, g);
    OwnerOwns(b, procs, g);
  }

  /** The first dof of process q in block i is numbered after all dofs of the processes before it, and after its own
      in the blocks before i. */
  lemma {:induction false} FirstNumber(blocks: seq<Block>, procs: nat, i: nat, q: nat)
    requires Blocks(blocks, procs) && i < |blocks| && q < procs && blocks[i].own[q] > 0
    ensures GlobalNumber(blocks, procs, i, blocks[i].first[q])
      == Start(MergedOwn(blocks), q) + Start(OwnOf(blocks, q), i)
  {
    OwnedBy(blocks[i], procs, q, blocks[i].first[q]);
  }

  /** On one process every dof is shifted by the sizes of the blocks before its own. */
  lemma {:induction false} AloneNumber(blocks: seq<Block>, i: nat, g: nat)
    requires Blocks(blocks, 1) && i < |blocks| && g < blocks[i].own[0]
    ensures GlobalNumber(blocks, 1, i, g) == Start(SizesOf(blocks), i) + g
  {
    assert Start(blocks[i].Own(), 1) == Start(blocks[i].Own(), 0) + blocks[i].Own()(0);
    OwnedBy(blocks[i], 1, 0, g);
    forall j: nat | j < i
      ensures OwnOf(blocks, 0)(j) == SizesOf(blocks)(j)
    {
      assert Start(blocks[j].Own(), 1) == Start(blocks[j].Own(), 0) + blocks[j].Own()(0);
    }
    SameStarts(OwnOf(blocks, 0), SizesOf(blocks), i);
  }

  /** Local dofs of a process, block by block. */
  function LocalsOf(blocks: seq<Block>, rank: nat): nat -> nat {
    (i: nat) => if i < |blocks| && rank < |blocks[i].locals| then |blocks[i].locals[rank]| else 0
  }

  function First(blocks: seq<Block>, q: nat): nat {
    Start(MergedOwn(blocks), q)
  }

  /** Local dof k of block i has been numbered. */
  ghost predicate Numbered(blocks: seq<Block>, procs: nat, rank: nat, toCluster: seq<nat>, toProcess: seq<nat>, i: nat,
    k: nat)
    requires Blocks(blocks, procs) && rank < procs && i < |blocks| && k < |blocks[i].locals[rank]|
  {
    var g, l := blocks[i].locals[rank][k], Start(LocalsOf(blocks, rank), i) + k;
    var x := GlobalNumber(blocks, procs, i, g);
    && l < |toCluster| && toCluster[l] == x
    && (Owner(blocks[i], procs, g) == rank ==>
          && 0 <= x - First(blocks, rank) < |toProcess| && toProcess[x - First(blocks, rank)] == l)
  }

  /** All dofs of the blocks before i, and the first k of block i. */
  ghost predicate NumberedTo(blocks: seq<Block>, procs: nat, rank: nat, toCluster: seq<nat>, toProcess: seq<nat>,
    i: nat, k: nat)
    requires Blocks(blocks, procs) && rank < procs
  {
    && |toCluster| == Start(LocalsOf(blocks, rank), |blocks|) && |toProcess| == MergedOwn(blocks)(rank)
    && forall j: nat, n: nat :: j < |blocks| && n < |blocks[j].locals[rank]| && (j < i || (j == i && n < k)) ==>
         Numbered(blocks, procs, rank, toCluster, toProcess, j, n)
  }

  /** Owned numbers are stored within the process's own range, at a place of their own. */
  lemma {:induction false} OwnedSlot(blocks: seq<Block>, procs: nat, rank: nat, i: nat, g: nat)
    requires Blocks(blocks, procs) && rank < procs && i < |blocks| && g < Start(blocks[i].Own(), procs)
    requires Owner(blocks[i], procs, g) == rank
    ensures 0 <= GlobalNumber(blocks, procs, i, g) - First(blocks, rank) < MergedOwn(blocks)(rank)
  {
    OwnerOwns(blocks[i], procs, g);
    NumberIsIn(blocks, procs, i, rank, g);
  }

  lemma {:induction false} GlobalNumbersDiffer(blocks: seq<Block>, procs: nat, i: nat, g: nat, j: nat, h: nat)
    requires Blocks(blocks, procs) && i < |blocks| && g < Start(blocks[i].Own(), procs)
    requires j < |blocks| && h < Start(blocks[j].Own(), procs)
    requires GlobalNumber(blocks, procs, i, g) == GlobalNumber(blocks, procs, j, h)
    ensures i == j && g == h
  {
    OwnerOwns(blocks[i], procs, g);
    OwnerOwns(blocks[j], procs, h);
    NumberIsInjective(blocks, procs, i, Owner(blocks[i], procs, g), g, j, Owner(blocks[j], procs, h), h);
  }

  lemma {:induction false} LocalSlot(blocks: seq<Block>, rank: nat, i: nat, k: nat)
    requires i < |blocks| && rank < |blocks[i].locals| && k < |blocks[i].locals[rank]|
    ensures In(LocalsOf(blocks, rank), i, Start(LocalsOf(blocks, rank), i) + k)
    ensures Start(LocalsOf(blocks, rank), i) + k < Start(LocalsOf(blocks, rank), |blocks|)
  {
    InsideEnd(LocalsOf(blocks, rank), |blocks|, i, Start(LocalsOf(blocks, rank), i) + k);
  }

  /** Writing one more dof leaves the earlier ones numbered: its places are not theirs. */
  lemma {:induction false} EarlierStay(blocks: seq<Block>, procs: nat, rank: nat, toCluster: seq<nat>,
    toProcess: seq<nat>, i: nat, k: nat, x: nat, l: nat, toCluster': seq<nat>, toProcess': seq<nat>, j: nat, n: nat)
    requires Blocks(blocks, procs) && rank < procs && i < |blocks| && k < |blocks[i].locals[rank]|
    requires j < |blocks| && n < |blocks[j].locals[rank]| && (j < i || (j == i && n < k))
    requires Numbered(blocks, procs, rank, toCluster, toProcess, j, n)
    requires x == GlobalNumber(blocks, procs, i, blocks[i].locals[rank][k]) && l == Start(LocalsOf(blocks, rank), i) + k
    requires l < |toCluster| && toCluster' == toCluster[l := x]
    requires toProcess' == toProcess ||
      (0 <= x - First(blocks, rank) < |toProcess| && toProcess' == toProcess[x - First(blocks, rank) := l])
    ensures Numbered(blocks, procs, rank, toCluster', toProcess', j, n)
  {
    LocalSlot(blocks, rank, i, k);
    LocalSlot(blocks, rank, j, n);
    if Start(LocalsOf(blocks, rank), j) + n == l {
      Disjoint(LocalsOf(blocks, rank), i, j, l);
    }
    assert blocks[i].NumbersOwned(rank);
    if GlobalNumber(blocks, procs, j, blocks[j].locals[rank][n]) == x {
      GlobalNumbersDiffer(blocks, procs, i, blocks[i].locals[rank][k], j, blocks[j].locals[rank][n]);
    }
  }

  lemma {:induction false} NumberOfLocal(blocks: seq<Block>, procs: nat, p: nat, toCluster: seq<nat>,
    toProcess: seq<nat>, i: nat, k: nat, g: nat, l: nat)
    requires Blocks(blocks, procs) && p < procs && i < |blocks| && k < |blocks[i].locals[p]|
    requires g == blocks[i].locals[p][k] && l == Start(LocalsOf(blocks, p), i) + k
    requires NumberedTo(blocks, procs, p, toCluster, toProcess, |blocks|, 0)
    ensures l < |toCluster| && toCluster[l] == GlobalNumber(blocks, procs, i, g)
    ensures Owner(blocks[i], procs, g) == p ==>
      var slot := toCluster[l] - First(blocks, p);
      0 <= slot < |toProcess| && toProcess[slot] == l
  {
    assert Numbered(blocks, procs, p, toCluster, toProcess, i, k);
  }

  /** The map of process p, dof by dof: the numbers of the owner q start after those of the processes before it and
      run through its blocks, in each of them in the order of the dofs. */
  lemma {:induction false} LocalNumbers(blocks: seq<Block>, procs: nat, p: nat, toCluster: seq<nat>,
    toProcess: seq<nat>, i: nat, k: nat, q: nat)
    requires Blocks(blocks, procs) && p < procs && q < procs && i < |blocks| && k < |blocks[i].locals[p]|
    requires blocks[i].OnProc(blocks[i].locals[p][k], q)
    requires NumberedTo(blocks, procs, p, toCluster, toProcess, |blocks|, 0)
    ensures var l := Start(LocalsOf(blocks, p), i) + k;
      && l < |toCluster|
      && toCluster[l] - Start(MergedOwn(blocks), q) - Start(OwnOf(blocks, q), i)
         == blocks[i].locals[p][k] - blocks[i].first[q]
  {
    var g := blocks[i].locals[p][k];
    OwnedBy(blocks[i], procs, q, g);
    NumberOfLocal(blocks, procs, p, toCluster, toProcess, i, k, g, Start(LocalsOf(blocks, p), i) + k);
  }

  /** Two processes that both hold a dof give it the same number: a ghost has the number its owner assigns. */
  lemma {:induction false} GhostNumbersAgree(blocks: seq<Block>, procs: nat, p: nat, q: nat, i: nat, k: nat, n: nat,
    toClusterP: seq<nat>, toProcessP: seq<nat>, toClusterQ: seq<nat>, toProcessQ: seq<nat>)
    requires Blocks(blocks, procs) && p < procs && q < procs && i < |blocks|
    requires NumberedTo(blocks, procs, p, toClusterP, toProcessP, |blocks|, 0)
    requires NumberedTo(blocks, procs, q, toClusterQ, toProcessQ, |blocks|, 0)
    requires k < |blocks[i].locals[p]| && n < |blocks[i].locals[q]| && blocks[i].locals[p][k] == blocks[i].locals[q][n]
    ensures var lp, lq := Start(LocalsOf(blocks, p), i) + k, Start(LocalsOf(blocks, q), i) + n;
      lp < |toClusterP| && lq < |toClusterQ| && toClusterP[lp] == toClusterQ[lq]
  {
    var g := blocks[i].locals[p][k];
    NumberOfLocal(blocks, procs, p, toClusterP, toProcessP, i, k, g, Start(LocalsOf(blocks, p), i) + k);
    NumberOfLocal(blocks, procs, q, toClusterQ, toProcessQ, i, n, g, Start(LocalsOf(blocks, q), i) + n);
  }

  lemma {:induction false} InverseOfNumber(blocks: seq<Block>, procs: nat, rank: nat, toCluster: seq<nat>,
    toProcess: seq<nat>, x: nat)
    requires Blocks(blocks, procs) && rank < procs && x < |toProcess|
    requires NumberedTo(blocks, procs, rank, toCluster, toProcess, |blocks|, 0)
    ensures toProcess[x] < |toCluster| && toCluster[toProcess[x]] == First(blocks, rank) + x
  {
    var number := First(blocks, rank) + x;
    var i, k := DofOfNumber(blocks, procs, rank, number);
    var g, l := blocks[i].locals[rank][k], Start(LocalsOf(blocks, rank), i) + k;
    NumberOfLocal(blocks, procs, rank, toCluster, toProcess, i, k, g, l);
    assert toCluster[l] == number && toProcess[x] == l;
  }

  lemma {:induction false} NumberedOwn(blocks: seq<Block>, procs: nat, rank: nat, toProcess: seq<nat>, i: nat, g: nat,
    x: nat, l: nat)
    requires Blocks(blocks, procs) && rank < procs && i < |blocks| && g < Start(blocks[i].Own(), procs)
    requires x == GlobalNumber(blocks, procs, i, g) && In(MergedOwn(blocks), rank, x)
    requires Owner(blocks[i], procs, g) == rank ==>
      0 <= x - First(blocks, rank) < |toProcess| && toProcess[x - First(blocks, rank)] == l
    ensures 0 <= x - First(blocks, rank) < |toProcess| && toProcess[x - First(blocks, rank)] == l
  {
    OwnNumberIsOwned(blocks, procs, rank, i, g);
  }

  // the same for the k-th dof of block i, which is local dof l
  lemma {:induction false} InverseOfDof(blocks: seq<Block>, procs: nat, rank: nat, toCluster: seq<nat>,
    toProcess: seq<nat>, i: nat, k: nat, l: nat)
    requires Blocks(blocks, procs) && rank < procs && i < |blocks| && k < |blocks[i].locals[rank]|
    requires l == Start(LocalsOf(blocks, rank), i) + k && l < |toCluster|
    requires NumberedTo(blocks, procs, rank, toCluster, toProcess, |blocks|, 0)
    requires First(blocks, rank) <= toCluster[l] < First(blocks, rank) + |toProcess|
    ensures toProcess[toCluster[l] - First(blocks, rank)] == l
  {
    var g := blocks[i].locals[rank][k];
    NumberOfLocal(blocks, procs, rank, toCluster, toProcess, i, k, g, l);
    NumberedOwn(blocks, procs, rank, toProcess, i, g, toCluster[l], l);
  }

  lemma {:induction false} InverseOfLocal(blocks: seq<Block>, procs: nat, rank: nat, toCluster: seq<nat>,
    toProcess: seq<nat>, l: nat)
    requires Blocks(blocks, procs) && rank < procs && l < |toCluster|
    requires NumberedTo(blocks, procs, rank, toCluster, toProcess, |blocks|, 0)
    requires First(blocks, rank) <= toCluster[l] < First(blocks, rank) + |toProcess|
    ensures toProcess[toCluster[l] - First(blocks, rank)] == l
  {
    var i := Covered(LocalsOf(blocks, rank), |blocks|, l);
    InverseOfDof(blocks, procs, rank, toCluster, toProcess, i, l - Start(LocalsOf(blocks, rank), i), l);
  }

  /** On owned dofs the two maps are inverse to each other, in both orders. */
  lemma {:induction false} MapsInvert(blocks: seq<Block>, procs: nat, rank: nat, toCluster: seq<nat>,
    toProcess: seq<nat>)
    requires Blocks(blocks, procs) && rank < procs
    requires NumberedTo(blocks, procs, rank, toCluster, toProcess, |blocks|, 0)
    ensures forall x: nat :: x < |toProcess| ==>
      toProcess[x] < |toCluster| && toCluster[toProcess[x]] == First(blocks, rank) + x
    ensures forall l: nat ::
      l < |toCluster| && First(blocks, rank) <= toCluster[l] < First(blocks, rank) + |toProcess| ==>
      toProcess[toCluster[l] - First(blocks, rank)] == l
  {
    forall x: nat | x < |toProcess|
      ensures toProcess[x] < |toCluster| && toCluster[toProcess[x]] == First(blocks, rank) + x
    {
      InverseOfNumber(blocks, procs, rank, toCluster, toProcess, x);
    }
    forall l: nat | l < |toCluster| && First(blocks, rank) <= toCluster[l] < First(blocks, rank) + |toProcess|
      ensures toProcess[toCluster[l] - First(blocks, rank)] == l
    {
      InverseOfLocal(blocks, procs, rank, toCluster, toProcess, l);
    }
  }

  /** Every number in the process's range is that of a local dof. */
  lemma {:induction false} DofOfNumber(blocks: seq<Block>, procs: nat, rank: nat, x: nat) returns (i: nat, k: nat)
    requires Blocks(blocks, procs) && rank < procs && In(MergedOwn(blocks), rank, x)
    ensures i < |blocks| && k < |blocks[i].locals[rank]|
    ensures Owner(blocks[i], procs, blocks[i].locals[rank][k]) == rank
    ensures GlobalNumber(blocks, procs, i, blocks[i].locals[rank][k]) == x
  {
    InsideEnd(MergedOwn(blocks), procs, rank, x);
    var q: nat, g: nat;
    i, q, g := NumberIsSurjective(blocks, procs, x);
    NumberIsIn(blocks, procs, i, q, g);
    Disjoint(MergedOwn(blocks), rank, q, x);
    assert blocks[i].NumbersOwned(rank);
    k :| k < |blocks[i].locals[rank]| && blocks[i].locals[rank][k] == g;
    OwnerOwns(blocks[i], procs, g);
  }

  lemma {:induction false} OwnNumberIsOwned(blocks: seq<Block>, procs: nat, rank: nat, i: nat, g: nat)
    requires Blocks(blocks, procs) && rank < procs && i < |blocks| && g < Start(blocks[i].Own(), procs)
    requires In(MergedOwn(blocks), rank, GlobalNumber(blocks, procs, i, g))
    ensures Owner(blocks[i], procs, g) == rank
  {
    OwnerOwns(blocks[i], procs, g);
    var q := Owner(blocks[i], procs, g);
    NumberIsIn(blocks, procs, i, q, g);
    Disjoint(MergedOwn(blocks), rank, q, GlobalNumber(blocks, procs, i, g));
  }

  // ---------------------------------------------------------------------------------------------
  // The owner of a merged number
  // ---------------------------------------------------------------------------------------------

  /** The last number of a process, given the count that is tested for zero. */
  function LastOf(tested: nat, own: nat, first: nat): int {
    if tested == 0 then first else first + own - 1
  }

  /** The last local number of a process with this many local dofs. */
  function LastLocal(count: nat): nat {
    if count == 0 then 0 else count - 1
  }

  /** In the row map each process's own count is tested. */
  function RowLast(own: nat, first: nat): int {
    LastOf(own, own, first)
  }

  /** The counts and first numbers of the processes before k. */
  ghost predicate Counts(blocks: seq<Block>, procs: nat, k: nat, own: seq<nat>, first: seq<nat>) {
    && |own| == |first| == procs && k <= procs
    && forall q: nat {:trigger own[q]} {:trigger first[q]} :: q < k ==>
         own[q] == MergedOwn(blocks)(q) && first[q] == First(blocks, q)
  }

  /** The last numbers of the processes before k in the row map. */
  ghost predicate RowLasts(k: nat, own: seq<nat>, first: seq<nat>, last: seq<int>) {
    && |own| == |first| == |last| && k <= |last|
    && forall q: nat {:trigger last[q]} :: q < k ==> last[q] == RowLast(own[q], first[q])
  }

  /** The tables of a merged row map. */
  ghost predicate Tables(blocks: seq<Block>, procs: nat, own: seq<nat>, first: seq<nat>, last: seq<int>) {
    Counts(blocks, procs, procs, own, first) && RowLasts(procs, own, first, last)
  }

  /** The scan finds, for the merged number of a dof, the process that owns the dof in its block. */
  lemma {:induction false} MergedOwnerFound(blocks: seq<Block>, procs: nat, own: seq<nat>, first: seq<nat>,
    last: seq<int>, i: nat, g: nat, q: nat)
    requires Blocks(blocks, procs) && Tables(blocks, procs, own, first, last) && q < procs
    requires i < |blocks| && g < Start(blocks[i].Own(), procs)
    requires IsScan(own, first, last, GlobalNumber(blocks, procs, i, g), q)
    ensures q == Owner(blocks[i], procs, g)
  {
    var r, x := Owner(blocks[i], procs, g), GlobalNumber(blocks, procs, i, g);
    OwnerOwns(blocks[i], procs, g);
    NumberIsIn(blocks, procs, i, r, g);
    assert Holds(own, first, last, x, r);
    Disjoint(MergedOwn(blocks), q, r, x);
  }

  /** The last number of each process as set for the column map of process `rank`: the test for "no dofs"
      looks at process `rank`, whose count is still zero while lower processes are being set. */
  function ColumnLast(rank: nat, ownOfRank: nat, q: nat, own: nat, first: nat): int {
    LastOf(if q < rank then 0 else ownOfRank, own, first)
  }

  /** The last numbers of the processes before k in the column map. */
  ghost predicate ColumnLasts(rank: nat, k: nat, own: seq<nat>, first: seq<nat>, last: seq<int>) {
    && |own| == |first| == |last| && k <= |last| && rank < |own|
    && forall q: nat {:trigger last[q]} :: q < k ==> last[q] == ColumnLast(rank, own[rank], q, own[q], first[q])
  }

  /** The tables of a merged column map. */
  ghost predicate ColumnTables(blocks: seq<Block>, procs: nat, rank: nat, own: seq<nat>, first: seq<nat>,
    last: seq<int>)
  {
    Counts(blocks, procs, procs, own, first) && ColumnLasts(rank, procs, own, first, last)
  }

  /** In the merged column map the scan finds the owner of every column exactly if no process but 0 that
      comes before `rank`, or any at all when `rank` has no columns, owns two columns or more. */
  lemma {:induction false} ColumnOwnerFoundIff(blocks: seq<Block>, procs: nat, rank: nat, own: seq<nat>,
    first: seq<nat>, last: seq<int>)
    requires Blocks(blocks, procs) && ColumnTables(blocks, procs, rank, own, first, last)
    ensures (forall x: nat, q: nat, res: nat ::
               q < procs && In(MergedOwn(blocks), q, x) && IsScan(own, first, last, x, res) ==> res == q)
      <==> (forall q: nat :: 0 < q < procs && own[q] >= 2 ==> rank <= q && own[rank] > 0)
  {
    if forall q: nat :: 0 < q < procs && own[q] >= 2 ==> rank <= q && own[rank] > 0 {
      forall x: nat, q: nat, res: nat | q < procs && In(MergedOwn(blocks), q, x) && IsScan(own, first, last, x, res)
        ensures res == q
      {
        ColumnScan(blocks, procs, rank, own, first, last, x, q, res);
      }
    } else {
      var q: nat :| 0 < q < procs && own[q] >= 2 && !(rank <= q && own[rank] > 0);
      var x := first[q] + own[q] - 1;
      assert In(MergedOwn(blocks), q, x);
      forall r: nat
        ensures !Holds(own, first, last, x, r)
      {
        HeldIsIn(blocks, procs, rank, own, first, last, x, r);
        if Holds(own, first, last, x, r) {
          Disjoint(MergedOwn(blocks), q, r, x);
        }
      }
      assert IsScan(own, first, last, x, 0);
    }
  }

  lemma {:induction false} HeldIsIn(blocks: seq<Block>, procs: nat, rank: nat, own: seq<nat>, first: seq<nat>,
    last: seq<int>, x: nat, r: nat)
    requires ColumnTables(blocks, procs, rank, own, first, last)
    ensures Holds(own, first, last, x, r) ==> r < procs && In(MergedOwn(blocks), r, x)
  {
  }

  lemma {:induction false} ColumnScan(blocks: seq<Block>, procs: nat, rank: nat, own: seq<nat>, first: seq<nat>,
    last: seq<int>, x: nat, q: nat, res: nat)
    requires ColumnTables(blocks, procs, rank, own, first, last) && q < procs
    requires In(MergedOwn(blocks), q, x) && IsScan(own, first, last, x, res)
    requires 0 < q && own[q] >= 2 ==> rank <= q && own[rank] > 0
    ensures res == q
  {
    HeldIsIn(blocks, procs, rank, own, first, last, x, res);
    InIsHeld(blocks, procs, rank, own, first, last, x, q);
    if Holds(own, first, last, x, res) {
      Disjoint(MergedOwn(blocks), q, res, x);
    }
  }

  lemma {:induction false} InIsHeld(blocks: seq<Block>, procs: nat, rank: nat, own: seq<nat>, first: seq<nat>,
    last: seq<int>, x: nat, q: nat)
    requires ColumnTables(blocks, procs, rank, own, first, last) && q < procs && In(MergedOwn(blocks), q, x)
    requires 0 < q && own[q] >= 2 ==> rank <= q && own[rank] > 0
    ensures q == 0 || Holds(own, first, last, x, q)
  {
  }

  /** The last numbers of the rows: the count of each process is tested. */
  lemma {:induction false} RowLastNumber(blocks: seq<Block>, procs: nat, own: seq<nat>, first: seq<nat>,
    last: seq<int>, q: nat)
    requires Tables(blocks, procs, own, first, last) && q < procs
    ensures own[q] == Start(OwnOf(blocks, q), |blocks|)
    ensures own[q] == 0 ==> last[q] == first[q]
    ensures own[q] > 0 ==> last[q] + 1 == first[q] + own[q]
  {
  }

  /** Those of the columns: before process `rank` no count is set yet, and from it on its own count is tested. */
  lemma {:induction false} ColumnLastNumber(blocks: seq<Block>, procs: nat, rank: nat, own: seq<nat>,
    first: seq<nat>, last: seq<int>, q: nat)
    requires ColumnTables(blocks, procs, rank, own, first, last) && q < procs
    ensures rank < procs
    ensures q < rank || own[rank] == 0 ==> last[q] == first[q]
    ensures q >= rank && own[rank] > 0 ==> last[q] + 1 == first[q] + own[q]
  {
  }

  /** Three processes with none, two and no columns, all in one block. */
  function MiddleOwnsAll(): Block {
    Block([0, 2, 0], [0, 0, 2], [0, 1, 2], [[], [0, 1], []])
  }

  /** For process 2 the last number of process 1 is its first one, and column 1 is found on process 0. */
  lemma {:induction false} MissedOwnerExample(blocks: seq<Block>, own: seq<nat>, first: seq<nat>, last: seq<int>)
    requires blocks == [MiddleOwnsAll()] && own == [0, 2, 0] && first == [0, 0, 2] && last == [0, 0, 2]
    ensures Blocks(blocks, 3) && ColumnTables(blocks, 3, 2, own, first, last)
    ensures In(MergedOwn(blocks), 1, 1) && IsScan(own, first, last, 1, 0)
  {
    MiddleIsValid(blocks[0]);
    MiddleStarts(blocks);
  }

  lemma {:induction false} MiddleIsValid(b: Block)
    requires b == MiddleOwnsAll()
    ensures b.Valid(3)
  {
    assert Start(b.Own(), 1) == 0 && Start(b.Own(), 2) == 2 && Start(b.Own(), 3) == 2;
    forall p: nat, g: nat | p < 3 && In(b.Own(), p, g)
      ensures exists k: nat :: k < |b.locals[p]| && b.locals[p][k] == g
    {
      assert p == 1 && b.locals[p][g] == g;
    }
  }

  lemma {:induction false} MiddleStarts(blocks: seq<Block>)
    requires blocks == [MiddleOwnsAll()]
    ensures forall q: nat :: q < 3 ==> MergedOwn(blocks)(q) == [0, 2, 0][q] && First(blocks, q) == [0, 0, 2][q]
  {
  }

  /** The tables and the maps of one process for the rows, or the columns, of the block matrix. */
  class DataMap {
    var own: seq<nat>
    var withGhosts: seq<nat>
    var first: seq<nat>
    var last: seq<int>
    var firstLocal: seq<nat>
    var lastLocal: seq<nat>
    var size: nat
    var toCluster: seq<nat>
    var toProcess: seq<nat>

    ghost predicate Sized(procs: nat)
      reads this
    {
      |own| == |withGhosts| == |first| == |last| == |firstLocal| == |lastLocal| == procs
    }

    constructor (procs: nat)
      ensures Sized(procs) && own == withGhosts == first == firstLocal == lastLocal == seq(procs, i => 0)
      ensures last == seq(procs, i => 0) && size == 0 && toCluster == [] && toProcess == []
    {
      own, withGhosts, first := seq(procs, i => 0), seq(procs, i => 0), seq(procs, i => 0);
      firstLocal, lastLocal := seq(procs, i => 0), seq(procs, i => 0);
      last, size := seq(procs, i => 0), 0;
      toCluster, toProcess := [], [];
    }

    /** Owned dofs of process q in the blocks before row. */
    static method OwnedBefore(blocks: seq<Block>, q: nat, row: nat) returns (sum: nat)
      requires row <= |blocks| && forall i: nat :: i < |blocks| ==> q < |blocks[i].own|
      ensures sum == Start(OwnOf(blocks, q), row)
    {
      sum := 0;
      for i := 0 to row
        invariant sum == Start(OwnOf(blocks, q), i)
      {
        sum := sum + blocks[i].own[q];
      }
    }

    static method LocalsBefore(blocks: seq<Block>, q: nat, row: nat) returns (sum: nat)
      requires row <= |blocks| && forall i: nat :: i < |blocks| ==> q < |blocks[i].locals|
      ensures sum == Start(LocalsOf(blocks, q), row)
    {
      sum := 0;
      for i := 0 to row
        invariant sum == Start(LocalsOf(blocks, q), i)
      {
        sum := sum + |blocks[i].locals[q]|;
      }
    }

    static method SumOfSizes(blocks: seq<Block>) returns (sum: nat)
      ensures sum == Start(SizesOf(blocks), |blocks|)
    {
      sum := 0;
      for i := 0 to |blocks|
        invariant sum == Start(SizesOf(blocks), i)
      {
        sum := sum + blocks[i].Size();
      }
    }

    /** Owned dofs of all processes before proc. */
    static method NumbersBefore(blocks: seq<Block>, procs: nat, proc: nat) returns (size: nat)
      requires Blocks(blocks, procs) && proc <= procs
      ensures size == First(blocks, proc)
    {
      size := 0;
      for p := 0 to proc
        invariant size == First(blocks, p)
      {
        var owned := OwnedBefore(blocks, p, |blocks|);
        size := size + owned;
      }
    }

    /** Sets the tables of process proc; whether it has dofs is asked of process `tested`. */
    method SetTables(blocks: seq<Block>, procs: nat, rank: nat, proc: nat, tested: nat)
      requires Blocks(blocks, procs) && proc < procs && tested < procs && Sized(procs)
      modifies this`own, this`withGhosts, this`first, this`last, this`firstLocal, this`lastLocal, this`size
      ensures own == old(own)[proc := MergedOwn(blocks)(proc)] && first == old(first)[proc := First(blocks, proc)]
      ensures last == old(last)[proc := LastOf(own[tested], own[proc], first[proc])]
      ensures withGhosts == old(withGhosts)[proc := Start(LocalsOf(blocks, proc), |blocks|)]
      ensures firstLocal == old(firstLocal)[proc := 0]
      ensures lastLocal == old(lastLocal)[proc := LastLocal(withGhosts[proc])]
      ensures size == if proc == rank then Start(MergedOwn(blocks), procs) else old(size)
    {
      SetFirst(blocks, procs, proc);
      SetCounts(blocks, procs, proc);
      if proc == rank {
        SetSize(blocks, procs);
      }
      SetLast(proc, tested);
    }

    method SetFirst(blocks: seq<Block>, procs: nat, proc: nat)
      requires Blocks(blocks, procs) && proc < procs && Sized(procs)
      modifies this`first, this`firstLocal
      ensures first == old(first)[proc := First(blocks, proc)] && firstLocal == old(firstLocal)[proc := 0]
    {
      var start := NumbersBefore(blocks, procs, proc);
      first := first[proc := start];
      firstLocal := firstLocal[proc := 0];
    }

    method SetCounts(blocks: seq<Block>, procs: nat, proc: nat)
      requires Blocks(blocks, procs) && proc < procs && Sized(procs)
      modifies this`own, this`withGhosts, this`lastLocal
      ensures own == old(own)[proc := MergedOwn(blocks)(proc)]
      ensures withGhosts == old(withGhosts)[proc := Start(LocalsOf(blocks, proc), |blocks|)]
      ensures lastLocal == old(lastLocal)[proc := LastLocal(withGhosts[proc])]
    {
      var without := OwnedBefore(blocks, proc, |blocks|);
      var all := LocalsBefore(blocks, proc, |blocks|);
      own, withGhosts := own[proc := without], withGhosts[proc := all];
      lastLocal := lastLocal[proc := if all == 0 then 0 else all - 1];
    }

    method SetSize(blocks: seq<Block>, procs: nat)
      requires Blocks(blocks, procs)
      modifies this`size
      ensures size == Start(MergedOwn(blocks), procs)
    {
      TotalIsSum(blocks, procs);
      size := SumOfSizes(blocks);
    }

    method SetLast(proc: nat, tested: nat)
      requires proc < |own| == |first| == |last| && tested < |own|
      modifies this`last
      ensures last == old(last)[proc := LastOf(own[tested], own[proc], first[proc])]
    {
      var end: int := first[proc];
      if own[tested] != 0 {
        end := end + own[proc] - 1;
      }
      last := last[proc := end];
    }

    /** Counts, local numbers and size are set for the processes before k. */
    ghost predicate Filled(blocks: seq<Block>, procs: nat, rank: nat, k: nat)
      reads this
    {
      && Sized(procs) && Counts(blocks, procs, k, own, first)
      && (forall q: nat {:trigger withGhosts[q]} :: q < k ==>
            withGhosts[q] == Start(LocalsOf(blocks, q), |blocks|))
      && (forall q: nat {:trigger firstLocal[q]} :: q < k ==> firstLocal[q] == 0)
      && (forall q: nat {:trigger lastLocal[q]} :: q < k ==> lastLocal[q] == LastLocal(withGhosts[q]))
      && (rank < k ==> size == Start(MergedOwn(blocks), procs))
    }

    method SetRowTables(blocks: seq<Block>, procs: nat, rank: nat, proc: nat)
      requires Blocks(blocks, procs) && proc < procs
      requires Filled(blocks, procs, rank, proc) && RowLasts(proc, own, first, last)
      modifies this`own, this`withGhosts, this`first, this`last, this`firstLocal, this`lastLocal, this`size
      ensures Filled(blocks, procs, rank, proc + 1) && RowLasts(proc + 1, own, first, last)
    {
      SetTables(blocks, procs, rank, proc, proc);
    }

    method SetColumnTables(blocks: seq<Block>, procs: nat, rank: nat, proc: nat)
      requires Blocks(blocks, procs) && proc < procs && rank < procs
      requires Filled(blocks, procs, rank, proc) && ColumnLasts(rank, proc, own, first, last)
      requires proc <= rank ==> own[rank] == 0
      modifies this`own, this`withGhosts, this`first, this`last, this`firstLocal, this`lastLocal, this`size
      ensures Filled(blocks, procs, rank, proc + 1) && ColumnLasts(rank, proc + 1, own, first, last)
      ensures proc < rank ==> own[rank] == 0
    {
      SetTables(blocks, procs, rank, proc, rank);
    }

    /** The number of a dof this process does not own, from the tables of its owner. */
    method GhostNumber(blocks: seq<Block>, procs: nat, rank: nat, i: nat, g: nat) returns (x: nat)
      requires Blocks(blocks, procs) && rank < procs && i < |blocks| && g < Start(blocks[i].Own(), procs)
      requires Counts(blocks, procs, procs, own, first)
      ensures x == GlobalNumber(blocks, procs, i, g)
    {
      var b := blocks[i];
      var realproc := ProcOnGlobalCluster(b.own, b.first, b.last, g);
      OwnerFound(b, procs, g, realproc);
      OwnerOwns(b, procs, g);
      var start := OwnedBefore(blocks, realproc, i);
      x := first[realproc] + start + (g - b.first[realproc]);
    }

    /** Numbers one local dof. */
    method NumberDof(blocks: seq<Block>, procs: nat, rank: nat, i: nat, k: nat, startLocal: nat, startCluster: nat)
      requires Blocks(blocks, procs) && rank < procs && i < |blocks| && k < |blocks[i].locals[rank]|
      requires Counts(blocks, procs, procs, own, first)
      requires startLocal == Start(LocalsOf(blocks, rank), i)
      requires startCluster == First(blocks, rank) + Start(OwnOf(blocks, rank), i)
      requires NumberedTo(blocks, procs, rank, toCluster, toProcess, i, k)
      modifies this`toCluster, this`toProcess
      ensures NumberedTo(blocks, procs, rank, toCluster, toProcess, i, k + 1)
    {
      ghost var before, beforeInverse := toCluster, toProcess;
      var b, l := blocks[i], startLocal + k;
      var g := b.locals[rank][k];
      OwnerAt(b, procs, g, rank);
      LocalSlot(blocks, rank, i, k);
      var x: nat;
      if b.OnProc(g, rank) {
        OwnedSlot(blocks, procs, rank, i, g);
        x := startCluster + (g - b.first[rank]);
        toCluster := toCluster[l := x];
        toProcess := toProcess[x - first[rank] := l];
      } else {
        x := GhostNumber(blocks, procs, rank, i, g);
        toCluster := toCluster[l := x];
      }
      OneMoreNumbered(blocks, procs, rank, before, beforeInverse, i, k, x, l, toCluster, toProcess);
    }

    /** Numbers the local dofs of one block. */
    method NumberBlock(blocks: seq<Block>, procs: nat, rank: nat, i: nat, startLocal: nat, startCluster: nat)
      returns (nextLocal: nat, nextCluster: nat)
      requires Blocks(blocks, procs) && rank < procs && i < |blocks|
      requires Counts(blocks, procs, procs, own, first)
      requires startLocal == Start(LocalsOf(blocks, rank), i)
      requires startCluster == First(blocks, rank) + Start(OwnOf(blocks, rank), i)
      requires NumberedTo(blocks, procs, rank, toCluster, toProcess, i, 0)
      modifies this`toCluster, this`toProcess
      ensures NumberedTo(blocks, procs, rank, toCluster, toProcess, i + 1, 0)
      ensures nextLocal == Start(LocalsOf(blocks, rank), i + 1)
      ensures nextCluster == First(blocks, rank) + Start(OwnOf(blocks, rank), i + 1)
    {
      for k := 0 to |blocks[i].locals[rank]|
        invariant NumberedTo(blocks, procs, rank, toCluster, toProcess, i, k)
      {
        NumberDof(blocks, procs, rank, i, k, startLocal, startCluster);
      }
      BlockNumbered(blocks, procs, rank, toCluster, toProcess, i);
      return startLocal + |blocks[i].locals[rank]|, startCluster + blocks[i].own[rank];
    }

    /** Numbers all local dofs: the two maps of this process. */
    method UpdateMaps(blocks: seq<Block>, procs: nat, rank: nat)
      requires Blocks(blocks, procs) && rank < procs && Counts(blocks, procs, procs, own, first)
      requires |withGhosts| == procs && withGhosts[rank] == Start(LocalsOf(blocks, rank), |blocks|)
      requires |firstLocal| == procs && firstLocal[rank] == 0
      modifies this`toCluster, this`toProcess
      ensures NumberedTo(blocks, procs, rank, toCluster, toProcess, |blocks|, 0)
    {
      toCluster, toProcess := seq(withGhosts[rank], i => 0), seq(own[rank], i => 0);
      var startCluster, startLocal := first[rank], firstLocal[rank];
      for i := 0 to |blocks|
        invariant startLocal == Start(LocalsOf(blocks, rank), i)
        invariant startCluster == First(blocks, rank) + Start(OwnOf(blocks, rank), i)
        invariant NumberedTo(blocks, procs, rank, toCluster, toProcess, i, 0)
      {
        startLocal, startCluster := NumberBlock(blocks, procs, rank, i, startLocal, startCluster);
      }
    }
  }

  /** Sets the tables of both maps, process by process. */
  method UpdateTables(rows: DataMap, cols: DataMap, rowBlocks: seq<Block>, colBlocks: seq<Block>, procs: nat, rank: nat)
    requires Blocks(rowBlocks, procs) && Blocks(colBlocks, procs) && rank < procs && rows != cols
    requires rows.Sized(procs) && cols.Sized(procs) && cols.own[rank] == 0
    modifies rows, cols
    ensures rows.Filled(rowBlocks, procs, rank, procs)
    ensures Tables(rowBlocks, procs, rows.own, rows.first, rows.last)
    ensures cols.Filled(colBlocks, procs, rank, procs)
    ensures ColumnTables(colBlocks, procs, rank, cols.own, cols.first, cols.last)
  {
    for proc := 0 to procs
      invariant rows.Filled(rowBlocks, procs, rank, proc) && RowLasts(proc, rows.own, rows.first, rows.last)
      invariant cols.Filled(colBlocks, procs, rank, proc) && ColumnLasts(rank, proc, cols.own, cols.first, cols.last)
      invariant proc <= rank ==> cols.own[rank] == 0
    {
      rows.SetRowTables(rowBlocks, procs, rank, proc);
      cols.SetColumnTables(colBlocks, procs, rank, proc);
    }
  }

  /** updateDataMap: the tables of both maps, then their dofs. */
  method UpdateDataMap(rowBlocks: seq<Block>, colBlocks: seq<Block>, procs: nat, rank: nat)
    returns (rows: DataMap, cols: DataMap)
    requires Blocks(rowBlocks, procs) && Blocks(colBlocks, procs) && rank < procs
    ensures fresh(rows) && fresh(cols)
    ensures rows.Filled(rowBlocks, procs, rank, procs) && cols.Filled(colBlocks, procs, rank, procs)
    ensures Tables(rowBlocks, procs, rows.own, rows.first, rows.last)
    ensures ColumnTables(colBlocks, procs, rank, cols.own, cols.first, cols.last)
    ensures NumberedTo(rowBlocks, procs, rank, rows.toCluster, rows.toProcess, |rowBlocks|, 0)
    ensures NumberedTo(colBlocks, procs, rank, cols.toCluster, cols.toProcess, |colBlocks|, 0)
  {
    rows := new DataMap(procs);
    cols := new DataMap(procs);
    UpdateTables(rows, cols, rowBlocks, colBlocks, procs, rank);
    rows.UpdateMaps(rowBlocks, procs, rank);
    cols.UpdateMaps(colBlocks, procs, rank);
  }

  lemma {:induction false} BlockNumbered(blocks: seq<Block>, procs: nat, rank: nat, toCluster: seq<nat>,
    toProcess: seq<nat>, i: nat)
    requires Blocks(blocks, procs) && rank < procs && i < |blocks|
    requires NumberedTo(blocks, procs, rank, toCluster, toProcess, i, |blocks[i].locals[rank]|)
    ensures NumberedTo(blocks, procs, rank, toCluster, toProcess, i + 1, 0)
  {
  }

  lemma {:induction false} OwnerAt(b: Block, procs: nat, g: nat, q: nat)
    requires b.Valid(procs) && g < Start(b.Own(), procs) && q < procs
    ensures b.OnProc(g, q) <==> Owner(b, procs, g) == q
    ensures b.OnProc(g, q) ==> b.first[q] == Start(b.Own(), q) <= g
  {
    OwnerOwns(b, procs, g);
    OnProcIsIn(b, procs, g, q);
  }

  /** The scan over a block's tables finds the owner. */
  lemma {:induction false} OwnerFound(b: Block, procs: nat, g: nat, res: nat)
    requires b.Valid(procs) && g < Start(b.Own(), procs)
    requires IsScan(b.own, b.first, b.last, g, res)
    ensures res == Owner(b, procs, g)
  {
    OwnerOwns(b, procs, g);
    var q := Owner(b, procs, g);
    OnProcIsIn(b, procs, g, q);
    assert Holds(b.own, b.first, b.last, g, q);
    OnProcIsIn(b, procs, g, res);
  }

  lemma {:induction false} OneMoreNumbered(blocks: seq<Block>, procs: nat, rank: nat, toCluster: seq<nat>,
    toProcess: seq<nat>, i: nat, k: nat, x: nat, l: nat, toCluster': seq<nat>, toProcess': seq<nat>)
    requires Blocks(blocks, procs) && rank < procs && i < |blocks| && k < |blocks[i].locals[rank]|
    requires NumberedTo(blocks, procs, rank, toCluster, toProcess, i, k)
    requires x == GlobalNumber(blocks, procs, i, blocks[i].locals[rank][k]) && l == Start(LocalsOf(blocks, rank), i) + k
    requires l < |toCluster| && toCluster' == toCluster[l := x]
    requires if Owner(blocks[i], procs, blocks[i].locals[rank][k]) == rank
      then 0 <= x - First(blocks, rank) < |toProcess| && toProcess' == toProcess[x - First(blocks, rank) := l]
      else toProcess' == toProcess
    ensures NumberedTo(blocks, procs, rank, toCluster', toProcess', i, k + 1)
  {
    forall j: nat, n: nat | j < |blocks| && n < |blocks[j].locals[rank]| && (j < i || (j == i && n < k + 1))
      ensures Numbered(blocks, procs, rank, toCluster', toProcess', j, n)
    {
      if j < i || n < k {
        EarlierStay(blocks, procs, rank, toCluster, toProcess, i, k, x, l, toCluster', toProcess', j, n);
      }
    }
  }
}
