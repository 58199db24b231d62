// The elimination of listed unknowns on a matrix stored by columns: one pass over the listed columns,
// a second one over the columns that mirror what the first pass met.

module ZeroRowsSparse {
  import opened Sums
  import opened Systems
  import opened Dirichlet
  import opened ZeroRowsDense

  /** The pattern of a square matrix: column c holds rows inner[outer[c]..outer[c+1]], each once. */
  datatype Structure = Structure(n: nat, outer: seq<nat>, inner: seq<nat>) {

    ghost predicate Valid() {
      && |outer| == n + 1 && outer[n] == |inner|
      && (forall c: nat, d: nat :: c <= d <= n ==> outer[c] <= outer[d])
      && (forall p: nat :: p < |inner| ==> inner[p] < n)
      && (forall c: nat :: c < n ==> OnceEach(c))
    }

    /** Column c holds no row twice. */
    ghost predicate OnceEach(c: nat) {
      c + 1 < |outer| && outer[c + 1] <= |inner| &&
      forall p: nat, q: nat :: outer[c] <= p < q < outer[c + 1] ==> inner[p] != inner[q]
    }

    /** Position p stores entry (r, c). */
    ghost predicate At(p: nat, r: nat, c: nat)
      requires Valid()
    {
      c < n && outer[c] <= p < outer[c + 1] && inner[p] == r
    }

    ghost predicate Stored(r: nat, c: nat)
      requires Valid()
    {
      exists p: nat :: At(p, r, c)
    }

    ghost function Value(values: seq<real>, r: nat, c: nat): real
      requires Valid() && |values| == |inner|
    {
      if Stored(r, c) then var p: nat :| At(p, r, c); values[p] else 0.0
    }

    ghost function Values(values: seq<real>): (nat, nat) -> real
      requires Valid() && |values| == |inner|
    {
      (r: nat, c: nat) => Value(values, r, c)
    }
  }

  lemma {:induction false} ValueAt(st: Structure, values: seq<real>, p: nat, r: nat, c: nat)
    requires st.Valid() && |values| == |st.inner| && st.At(p, r, c)
    ensures st.Value(values, r, c) == values[p] && st.Stored(r, c)
  {
    assert st.OnceEach(c);
  }

  ghost predicate Marked(m: map<nat, set<nat>>, r: nat, c: nat) {
    r in m && c in m[r]
  }

  function Marking(m: map<nat, set<nat>>, r: nat, c: nat): (m': map<nat, set<nat>>)
    ensures forall q: nat, d: nat :: Marked(m', q, d) <==> Marked(m, q, d) || (q == r && d == c)
    ensures m'.Keys == m.Keys + {r}
  {
    m[r := (if r in m then m[r] else {}) + {c}]
  }

  // ---------------------------------------------------------------------------------------------
  // What the two passes compute
  // ---------------------------------------------------------------------------------------------

  /** Column c appears in the list for the first time after row r has appeared for the last time. */
  ghost predicate FirstAfter(rows: seq<nat>, r: nat, c: nat) {
    exists p: nat :: p < |rows| && rows[p] == c && c !in rows[..p] && r !in rows[p..]
  }

  ghost function LateTerm(a: (nat, nat) -> real, rows: seq<nat>, v: nat -> real, r: nat): nat -> real {
    (c: nat) => if FirstAfter(rows, r, c) then Mul(a(r, c), v(c)) else 0.0
  }

  ghost function SparseConstrained(st: Structure, a: (nat, nat) -> real, s: set<nat>, keep: bool): (nat, nat) -> real
    requires st.Valid()
  {
    (r: nat, c: nat) =>
      if !st.Stored(r, c) then 0.0
      else if c in s then (if r == c then Kept(a, keep, c) else 0.0)
      else if r in s && st.Stored(c, r) then 0.0
      else a(r, c)
  }

  ghost function SparseMoved(st: Structure, a: (nat, nat) -> real, rows: seq<nat>, keep: bool, v: nat -> real,
    b: nat -> real): nat -> real
    requires st.Valid()
  {
    (r: nat) =>
      if r in rows && st.Stored(r, r) then Mul(Kept(a, keep, r), v(r)) - Sum(st.n, LateTerm(a, rows, v, r))
      else b(r) - Sum(st.n, MovedTerm(a, Listed(rows), v, r))
  }

  lemma {:induction false} FirstAfterFront(rows: seq<nat>, i: nat, r: nat, c: nat)
    requires FirstAfter(rows + [i], r, c)
    ensures r != i && (FirstAfter(rows, r, c) || (c == i && i !in rows))
  {
    var t := rows + [i];
    var p: nat :| p < |t| && t[p] == c && c !in t[..p] && r !in t[p..];
    if p < |rows| {
      assert t[..p] == rows[..p] && t[p..] == rows[p..] + [i];
      assert rows[p] == c;
    } else {
      assert t[..p] == rows && t[p..] == [i];
    }
  }

  lemma {:induction false} FirstAfterStep(rows: seq<nat>, i: nat, r: nat, c: nat)
    ensures FirstAfter(rows + [i], r, c) <==> r != i && (FirstAfter(rows, r, c) || (c == i && i !in rows))
  {
    var t := rows + [i];
    if FirstAfter(t, r, c) {
      FirstAfterFront(rows, i, r, c);
    }
    if r != i && FirstAfter(rows, r, c) {
      var p: nat :| p < |rows| && rows[p] == c && c !in rows[..p] && r !in rows[p..];
      assert t[..p] == rows[..p] && t[p..] == rows[p..] + [i];
      assert t[p] == c;
    }
    if r != i && c == i && i !in rows {
      var p := |rows|;
      assert t[..p] == rows && t[p..] == [i] && t[p] == c;
    }
  }

  lemma {:induction false} SameColumns(n: nat, a: (nat, nat) -> real, rows: seq<nat>, v: nat -> real, i: nat, r: nat)
    requires i in rows
    ensures Listed(rows + [i]) == Listed(rows)
    ensures r != i ==> Sum(n, LateTerm(a, rows + [i], v, r)) == Sum(n, LateTerm(a, rows, v, r))
  {
    assert Listed(rows + [i]) == Listed(rows);
    if r != i {
      forall c: nat | c < n
        ensures LateTerm(a, rows + [i], v, r)(c) == LateTerm(a, rows, v, r)(c)
      {
        FirstAfterStep(rows, i, r, c);
      }
      SumEqual(n, LateTerm(a, rows + [i], v, r), LateTerm(a, rows, v, r));
    }
  }

  lemma {:induction false} NewColumn(n: nat, a: (nat, nat) -> real, rows: seq<nat>, v: nat -> real, i: nat, r: nat)
    requires i < n && i !in rows
    ensures Sum(n, MovedTerm(a, Listed(rows + [i]), v, r))
      == Sum(n, MovedTerm(a, Listed(rows), v, r)) + Mul(a(r, i), v(i))
    ensures r != i ==> Sum(n, LateTerm(a, rows + [i], v, r)) == Sum(n, LateTerm(a, rows, v, r)) + Mul(a(r, i), v(i))
  {
    assert Listed(rows + [i]) == Listed(rows) + {i};
    SumUpdate(n, i, MovedTerm(a, Listed(rows), v, r), MovedTerm(a, Listed(rows + [i]), v, r));
    if r != i {
      forall c: nat
        ensures FirstAfter(rows + [i], r, c) <==> FirstAfter(rows, r, c) || c == i
      {
        FirstAfterStep(rows, i, r, c);
      }
      assert !FirstAfter(rows, r, i);
      SumUpdate(n, i, LateTerm(a, rows, v, r), LateTerm(a, rows + [i], v, r));
    }
  }

  lemma {:induction false} JustSet(n: nat, a: (nat, nat) -> real, rows: seq<nat>, v: nat -> real, i: nat)
    ensures Sum(n, LateTerm(a, rows + [i], v, i)) == 0.0
  {
    forall c: nat | c < n
      ensures LateTerm(a, rows + [i], v, i)(c) == 0.0
    {
      FirstAfterStep(rows, i, i, c);
    }
    SumZero(n, LateTerm(a, rows + [i], v, i));
  }

  /** One more listed column: what it still holds is subtracted, its own row is set if it is stored. */
  lemma {:induction false} SparseMovedStep(st: Structure, a: (nat, nat) -> real, rows: seq<nat>, keep: bool,
    v: nat -> real, b: nat -> real, i: nat, r: nat)
    requires st.Valid() && i < st.n && r < st.n
    requires !st.Stored(i, i) ==> a(i, i) == 0.0
    ensures SparseMoved(st, a, rows + [i], keep, v, b)(r)
      == if r == i && st.Stored(i, i) then Mul(Kept(a, keep, i), v(i))
         else SparseMoved(st, a, rows, keep, v, b)(r) - (if i in rows then 0.0 else Mul(a(r, i), v(i)))
  {
    assert r in rows + [i] <==> r in rows || r == i;
    if r != i {
      SumsStep(st.n, a, rows, v, i, r);
    } else if st.Stored(i, i) {
      JustSet(st.n, a, rows, v, i);
    } else {
      SumsStep(st.n, a, rows, v, i, i);
      MulZero(a(i, i), v(i));
    }
  }

  lemma {:induction false} SumsStep(n: nat, a: (nat, nat) -> real, rows: seq<nat>, v: nat -> real, i: nat, r: nat)
    requires i < n
    ensures var more := if i in rows then 0.0 else Mul(a(r, i), v(i));
      && Sum(n, MovedTerm(a, Listed(rows + [i]), v, r)) == Sum(n, MovedTerm(a, Listed(rows), v, r)) + more
      && (r != i ==> Sum(n, LateTerm(a, rows + [i], v, r)) == Sum(n, LateTerm(a, rows, v, r)) + more)
  {
    if i in rows {
      SameColumns(n, a, rows, v, i, r);
    } else {
      NewColumn(n, a, rows, v, i, r);
    }
  }

  // ---------------------------------------------------------------------------------------------
  // The two passes
  // ---------------------------------------------------------------------------------------------

  /** What the first pass leaves at position p of a listed column. */
  function Cleared(st: Structure, c: nat, keep: bool, p: nat, x: real): real
    requires p < |st.inner|
  {
    if st.inner[p] != c then 0.0 else if keep then x else 1.0
  }

  method ClearEntry(st: Structure, values: array<real>, p: nat, c: nat, v: real, rhs: array<real>, keep: bool)
    requires p < values.Length == |st.inner| && st.inner[p] < rhs.Length && values != rhs
    modifies values, rhs
    ensures forall q: nat :: q < values.Length ==>
      values[q] == if q == p then Cleared(st, c, keep, p, old(values[p])) else old(values[q])
    ensures forall r: nat :: r < rhs.Length ==>
      rhs[r] == if r != st.inner[p] then old(rhs[r])
                else if r == c then Mul(values[p], v) else old(rhs[r]) - Mul(old(values[p]), v)
  {
    var r, value := st.inner[p], 1.0;
    if keep {
      value := values[p];
    }
    rhs[r] := rhs[r] - Mul(values[p], v);
    values[p] := 0.0;
    if r == c {
      values[p] := value;
      rhs[r] := Mul(value, v);
    }
  }

  /** The rows stored in column c before position p. */
  ghost function RowsBefore(st: Structure, c: nat, p: nat): set<nat>
    requires st.Valid() && c < st.n && p <= st.outer[c + 1]
  {
    set q: nat | st.outer[c] <= q < p :: st.inner[q]
  }

  lemma {:induction false} NextRow(st: Structure, c: nat, p: nat)
    requires st.Valid() && c < st.n && st.outer[c] <= p < st.outer[c + 1]
    ensures RowsBefore(st, c, p + 1) == RowsBefore(st, c, p) + {st.inner[p]}
    ensures forall q: nat :: st.outer[c] <= q < p ==> st.inner[q] != st.inner[p]
    ensures st.inner[p] !in RowsBefore(st, c, p)
  {
    assert st.OnceEach(c);
    forall r: nat | r in RowsBefore(st, c, p) + {st.inner[p]}
      ensures r in RowsBefore(st, c, p + 1)
    {
      if r != st.inner[p] {
        var q: nat :| st.outer[c] <= q < p && st.inner[q] == r;
        assert q < p + 1;
      }
    }
  }

  lemma {:induction false} AllRows(st: Structure, c: nat)
    requires st.Valid() && c < st.n
    ensures forall r: nat :: r in RowsBefore(st, c, st.outer[c + 1]) <==> st.Stored(r, c)
  {
    forall r: nat
      ensures r in RowsBefore(st, c, st.outer[c + 1]) <==> st.Stored(r, c)
    {
      if r in RowsBefore(st, c, st.outer[c + 1]) {
        var q: nat :| st.outer[c] <= q < st.outer[c + 1] && st.inner[q] == r;
        assert st.At(q, r, c);
      }
      if st.Stored(r, c) {
        var q: nat :| st.At(q, r, c);
        assert st.outer[c] <= q < st.outer[c + 1] && st.inner[q] == r;
      }
    }
  }

  ghost predicate ColumnCleared(st: Structure, now: seq<real>, next: seq<real>, c: nat, keep: bool)
    requires st.Valid() && |now| == |next| == |st.inner| && c < st.n
  {
    forall p: nat :: p < |now| ==>
      next[p] == if st.outer[c] <= p < st.outer[c + 1] then Cleared(st, c, keep, p, now[p]) else now[p]
  }

  ghost predicate ColumnMoved(st: Structure, now: seq<real>, next: seq<real>, c: nat, v: real, sums: seq<real>,
    after: seq<real>)
    requires st.Valid() && |now| == |next| == |st.inner| && c < st.n && |sums| == |after| == st.n
  {
    && (forall p: nat :: st.outer[c] <= p < st.outer[c + 1] ==>
          after[st.inner[p]] ==
            if st.inner[p] == c then Mul(next[p], v) else sums[st.inner[p]] - Mul(now[p], v))
    && (forall r: nat :: r < st.n && !st.Stored(r, c) ==> after[r] == sums[r])
  }

  method ClearColumn(st: Structure, values: array<real>, c: nat, v: real, rhs: array<real>, keep: bool,
    marks: map<nat, set<nat>>)
    returns (m: map<nat, set<nat>>)
    requires st.Valid() && values.Length == |st.inner| && rhs.Length == st.n && c < st.n && values != rhs
    requires forall r: nat :: r in marks ==> r < st.n
    modifies values, rhs
    ensures ColumnCleared(st, old(values[..]), values[..], c, keep)
    ensures ColumnMoved(st, old(values[..]), values[..], c, v, old(rhs[..]), rhs[..])
    ensures forall r: nat, d: nat :: Marked(m, r, d) <==> Marked(marks, r, d) || (d == c && st.Stored(r, c))
    ensures forall r: nat :: r in m ==> r < st.n
  {
    m := marks;
    ghost var met := RowsBefore(st, c, st.outer[c]);
    for p := st.outer[c] to st.outer[c + 1]
      invariant met == RowsBefore(st, c, p)
      invariant forall q: nat :: q < values.Length ==>
        values[q] == if st.outer[c] <= q < p then Cleared(st, c, keep, q, old(values[q])) else old(values[q])
      invariant forall q: nat :: st.outer[c] <= q < p ==>
        rhs[st.inner[q]] == if st.inner[q] == c then Mul(values[q], v)
                            else old(rhs[st.inner[q]]) - Mul(old(values[q]), v)
      invariant forall r: nat :: r < st.n && r !in met ==> rhs[r] == old(rhs[r])
      invariant forall r: nat, d: nat :: Marked(m, r, d) <==> Marked(marks, r, d) || (d == c && r in met)
      invariant forall r: nat :: r in m ==> r < st.n
    {
      NextRow(st, c, p);
      m, met := Marking(m, st.inner[p], c), met + {st.inner[p]};
      ClearEntry(st, values, p, c, v, rhs, keep);
    }
    AllRows(st, c);
  }

  method ClearMirrored(st: Structure, values: array<real>, c: nat, marked: set<nat>)
    requires st.Valid() && values.Length == |st.inner| && c < st.n
    modifies values
    ensures forall p: nat :: p < values.Length ==>
      values[p] == if st.outer[c] <= p < st.outer[c + 1] && st.inner[p] in marked && st.inner[p] != c then 0.0
                   else old(values[p])
  {
    for p := st.outer[c] to st.outer[c + 1]
      invariant forall q: nat :: q < values.Length ==>
        values[q] == if st.outer[c] <= q < p && st.inner[q] in marked && st.inner[q] != c then 0.0 else old(values[q])
    {
      if st.inner[p] in marked {
        if st.inner[p] != c {
          values[p] := 0.0;
        }
      }
    }
  }

  ghost predicate FirstPassDone(st: Structure, was: seq<real>, now: seq<real>, s: set<nat>, keep: bool)
    requires st.Valid() && |was| == |now| == |st.inner|
  {
    forall c: nat, p: nat :: c < st.n && st.outer[c] <= p < st.outer[c + 1] ==>
      now[p] == if c in s then Cleared(st, c, keep, p, was[p]) else was[p]
  }

  // what is marked are exactly the stored entries of the columns in s
  ghost predicate MarksDone(st: Structure, m: map<nat, set<nat>>, s: set<nat>)
    requires st.Valid()
  {
    forall r: nat, c: nat :: Marked(m, r, c) <==> c in s && st.Stored(r, c)
  }

  lemma MarksStep(st: Structure, marks: map<nat, set<nat>>, m: map<nat, set<nat>>, s: set<nat>, i: nat)
    requires st.Valid() && MarksDone(st, marks, s)
    requires forall r: nat, d: nat :: Marked(m, r, d) <==> Marked(marks, r, d) || (d == i && st.Stored(r, i))
    ensures MarksDone(st, m, s + {i})
  {
  }

  lemma {:induction false} FirstPassStep(st: Structure, was: seq<real>, now: seq<real>, next: seq<real>, s: set<nat>,
    keep: bool, i: nat)
    requires st.Valid() && |was| == |now| == |next| == |st.inner| && i < st.n
    requires FirstPassDone(st, was, now, s, keep)
    requires ColumnCleared(st, now, next, i, keep)
    ensures FirstPassDone(st, was, next, s + {i}, keep)
  {
    forall c: nat, p: nat | c < st.n && st.outer[c] <= p < st.outer[c + 1]
      ensures next[p] == if c in s + {i} then Cleared(st, c, keep, p, was[p]) else was[p]
    {
      assert now[p] == if c in s then Cleared(st, c, keep, p, was[p]) else was[p];
      if c < i {
        assert st.outer[c + 1] <= st.outer[i];
      } else if i < c {
        assert st.outer[i + 1] <= st.outer[c];
      }
    }
  }

  /** What clearing column i does to row r of the right hand side, in terms of the original entry (r, i). */
  lemma {:induction false} SubtractedEntry(st: Structure, was: seq<real>, now: seq<real>, next: seq<real>, s: set<nat>,
    keep: bool, v: real, i: nat, r: nat, sums: seq<real>, after: seq<real>)
    requires st.Valid() && |was| == |now| == |next| == |st.inner| && i < st.n && r < st.n && |sums| == |after| == st.n
    requires FirstPassDone(st, was, now, s, keep)
    requires ColumnCleared(st, now, next, i, keep) && ColumnMoved(st, now, next, i, v, sums, after)
    ensures after[r] == if r == i && st.Stored(i, i) then Mul(Kept(st.Values(was), keep, i), v)
                        else sums[r] - (if i in s then 0.0 else Mul(st.Value(was, r, i), v))
  {
    if st.Stored(r, i) {
      var p: nat :| st.At(p, r, i);
      ValueAt(st, was, p, r, i);
      assert now[p] == if i in s then Cleared(st, i, keep, p, was[p]) else was[p];
      assert next[p] == Cleared(st, i, keep, p, now[p]);
    }
  }

  ghost predicate SumsDone(st: Structure, a: (nat, nat) -> real, rows: seq<nat>, keep: bool, v: nat -> real,
    b: nat -> real, sums: seq<real>)
    requires st.Valid() && |sums| == st.n
  {
    forall r: nat :: r < st.n ==> sums[r] == SparseMoved(st, a, rows, keep, v, b)(r)
  }

  lemma {:induction false} ColumnSubtracted(st: Structure, was: seq<real>, now: seq<real>, next: seq<real>,
    rows: seq<nat>, keep: bool, v: nat -> real, b: nat -> real, i: nat, sums: seq<real>, after: seq<real>)
    requires st.Valid() && |was| == |now| == |next| == |st.inner| && i < st.n && |sums| == |after| == st.n
    requires FirstPassDone(st, was, now, Listed(rows), keep)
    requires SumsDone(st, st.Values(was), rows, keep, v, b, sums)
    requires ColumnCleared(st, now, next, i, keep) && ColumnMoved(st, now, next, i, v(i), sums, after)
    ensures SumsDone(st, st.Values(was), rows + [i], keep, v, b, after)
  {
    forall r: nat | r < st.n
      ensures after[r] == SparseMoved(st, st.Values(was), rows + [i], keep, v, b)(r)
    {
      assert sums[r] == SparseMoved(st, st.Values(was), rows, keep, v, b)(r);
      EntrySubtracted(st, was, now, next, rows, keep, v, b, i, sums, after, r);
    }
  }

  lemma {:induction false} EntrySubtracted(st: Structure, was: seq<real>, now: seq<real>, next: seq<real>,
    rows: seq<nat>, keep: bool, v: nat -> real, b: nat -> real, i: nat, sums: seq<real>, after: seq<real>, r: nat)
    requires st.Valid() && |was| == |now| == |next| == |st.inner| && i < st.n && |sums| == |after| == st.n
    requires FirstPassDone(st, was, now, Listed(rows), keep) && r < st.n
    requires sums[r] == SparseMoved(st, st.Values(was), rows, keep, v, b)(r)
    requires ColumnCleared(st, now, next, i, keep) && ColumnMoved(st, now, next, i, v(i), sums, after)
    ensures after[r] == SparseMoved(st, st.Values(was), rows + [i], keep, v, b)(r)
  {
    SubtractedEntry(st, was, now, next, Listed(rows), keep, v(i), i, r, sums, after);
    SubtractedSum(st, was, rows, keep, v, b, i, r, sums[r], after[r]);
  }

  lemma {:induction false} SubtractedSum(st: Structure, was: seq<real>, rows: seq<nat>, keep: bool, v: nat -> real,
    b: nat -> real, i: nat, r: nat, sum: real, after: real)
    requires st.Valid() && |was| == |st.inner| && i < st.n && r < st.n
    requires sum == SparseMoved(st, st.Values(was), rows, keep, v, b)(r)
    requires after == if r == i && st.Stored(i, i) then Mul(Kept(st.Values(was), keep, i), v(i))
                      else sum - (if i in Listed(rows) then 0.0 else Mul(st.Value(was, r, i), v(i)))
    ensures after == SparseMoved(st, st.Values(was), rows + [i], keep, v, b)(r)
  {
    SparseMovedStep(st, st.Values(was), rows, keep, v, b, i, r);
  }

  method FirstPass(st: Structure, values: array<real>, rows: seq<nat>, vals: seq<real>, rhs: array<real>, keep: bool)
    returns (m: map<nat, set<nat>>)
    requires st.Valid() && values.Length == |st.inner| && rhs.Length == st.n == |vals| && values != rhs
    requires forall k: nat :: k < |rows| ==> rows[k] < st.n
    modifies values, rhs
    ensures FirstPassDone(st, old(values[..]), values[..], Listed(rows), keep)
    ensures MarksDone(st, m, Listed(rows))
    ensures forall r: nat :: r in m ==> r < st.n
    ensures SumsDone(st, st.Values(old(values[..])), rows, keep, Vec(vals), Vec(old(rhs[..])), rhs[..])
  {
    ghost var was, b := values[..], Vec(rhs[..]);
    ghost var a, v := st.Values(was), Vec(vals);
    m := map[];
    NoneSubtracted(st, a, keep, v, b);
    for k := 0 to |rows|
      invariant FirstPassDone(st, was, values[..], Listed(rows[..k]), keep)
      invariant MarksDone(st, m, Listed(rows[..k]))
      invariant forall r: nat :: r in m ==> r < st.n
      invariant SumsDone(st, a, rows[..k], keep, v, b, rhs[..])
    {
      var i := rows[k];
      ghost var now, sums, marks := values[..], rhs[..], m;
      m := ClearColumn(st, values, i, vals[i], rhs, keep, m);
      assert rows[..k + 1] == rows[..k] + [i];
      assert Listed(rows[..k + 1]) == Listed(rows[..k]) + {i};
      MarksStep(st, marks, m, Listed(rows[..k]), i);
      FirstPassStep(st, was, now, values[..], Listed(rows[..k]), keep, i);
      ColumnSubtracted(st, was, now, values[..], rows[..k], keep, v, b, i, sums, rhs[..]);
    }
    assert rows[..|rows|] == rows;
  }

  lemma {:induction false} NoneSubtracted(st: Structure, a: (nat, nat) -> real, keep: bool, v: nat -> real,
    b: nat -> real)
    requires st.Valid()
    ensures forall r: nat :: SparseMoved(st, a, [], keep, v, b)(r) == b(r)
  {
    forall r: nat
      ensures SparseMoved(st, a, [], keep, v, b)(r) == b(r)
    {
      SumZero(st.n, MovedTerm(a, Listed([]), v, r));
    }
  }

  ghost predicate SecondPassDone(st: Structure, was: seq<real>, now: seq<real>, m: map<nat, set<nat>>, done: set<nat>)
    requires st.Valid() && |was| == |now| == |st.inner|
  {
    forall c: nat, p: nat :: c < st.n && st.outer[c] <= p < st.outer[c + 1] ==>
      now[p] == if c in done && Marked(m, c, st.inner[p]) && st.inner[p] != c then 0.0 else was[p]
  }

  lemma {:induction false} SecondPassStep(st: Structure, was: seq<real>, now: seq<real>, next: seq<real>,
    m: map<nat, set<nat>>, done: set<nat>, i: nat)
    requires st.Valid() && |was| == |now| == |next| == |st.inner| && i < st.n && i in m
    requires SecondPassDone(st, was, now, m, done)
    requires forall p: nat :: p < |now| ==>
      next[p] == if st.outer[i] <= p < st.outer[i + 1] && st.inner[p] in m[i] && st.inner[p] != i then 0.0 else now[p]
    ensures SecondPassDone(st, was, next, m, done + {i})
  {
    forall c: nat, p: nat | c < st.n && st.outer[c] <= p < st.outer[c + 1]
      ensures next[p] == if c in done + {i} && Marked(m, c, st.inner[p]) && st.inner[p] != c then 0.0 else was[p]
    {
      assert now[p] == if c in done && Marked(m, c, st.inner[p]) && st.inner[p] != c then 0.0 else was[p];
      if c < i {
        assert st.outer[c + 1] <= st.outer[i];
      } else if i < c {
        assert st.outer[i + 1] <= st.outer[c];
      }
    }
  }

  method SecondPass(st: Structure, values: array<real>, m: map<nat, set<nat>>)
    requires st.Valid() && values.Length == |st.inner|
    requires forall r: nat :: r in m ==> r < st.n
    modifies values
    ensures SecondPassDone(st, old(values[..]), values[..], m, m.Keys)
  {
    ghost var was := values[..];
    var left := m.Keys;
    while left != {}
      invariant left <= m.Keys
      invariant SecondPassDone(st, was, values[..], m, m.Keys - left)
      decreases |left|
    {
      var c :| c in left;
      ghost var now := values[..];
      ClearMirrored(st, values, c, m[c]);
      SecondPassStep(st, was, now, values[..], m, m.Keys - left, c);
      assert m.Keys - (left - {c}) == m.Keys - left + {c};
      left := left - {c};
    }
    assert m.Keys - {} == m.Keys;
  }

  lemma {:induction false} BothPasses(st: Structure, was: seq<real>, mid: seq<real>, now: seq<real>, m: map<nat,
    set<nat>>, s: set<nat>, keep: bool, r: nat, c: nat)
    requires st.Valid() && |was| == |mid| == |now| == |st.inner| && r < st.n && c < st.n
    requires FirstPassDone(st, was, mid, s, keep)
    requires MarksDone(st, m, s)
    requires SecondPassDone(st, mid, now, m, m.Keys)
    ensures st.Value(now, r, c) == SparseConstrained(st, st.Values(was), s, keep)(r, c)
  {
    if st.Stored(r, c) {
      var p: nat :| st.At(p, r, c);
      ValueAt(st, now, p, r, c);
      ValueAt(st, was, p, r, c);
      assert mid[p] == if c in s then Cleared(st, c, keep, p, was[p]) else was[p];
      assert st.Values(was)(r, c) == was[p];
      assert now[p] == if c in m.Keys && Marked(m, c, st.inner[p]) && st.inner[p] != c then 0.0 else mid[p];
      if c in s {
        assert r == c ==> Kept(st.Values(was), keep, c) == if keep then was[p] else 1.0;
      } else if r in s && st.Stored(c, r) {
        assert Marked(m, c, r);
      } else {
        assert !Marked(m, c, r);
      }
    }
  }

  method ZeroRows(st: Structure, values: array<real>, rows: seq<nat>, vals: seq<real>, rhs: array<real>, keep: bool)
    requires st.Valid() && values.Length == |st.inner| && rhs.Length == st.n == |vals| && values != rhs
    requires forall k: nat :: k < |rows| ==> rows[k] < st.n
    modifies values, rhs
    ensures forall r: nat, c: nat :: r < st.n && c < st.n ==>
      st.Value(values[..], r, c) == SparseConstrained(st, st.Values(old(values[..])), Listed(rows), keep)(r, c)
    ensures forall r: nat :: r < st.n ==>
      rhs[r] == SparseMoved(st, st.Values(old(values[..])), rows, keep, Vec(vals), Vec(old(rhs[..])))(r)
  {
    ghost var was := values[..];
    var m := FirstPass(st, values, rows, vals, rhs, keep);
    ghost var mid := values[..];
    SecondPass(st, values, m);
    forall r: nat, c: nat | r < st.n && c < st.n
      ensures st.Value(values[..], r, c) == SparseConstrained(st, st.Values(was), Listed(rows), keep)(r, c)
    {
      BothPasses(st, was, mid, values[..], m, Listed(rows), keep, r, c);
    }
  }
}
