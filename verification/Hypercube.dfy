// Symmetries of the interior points of a square, as maps of their numbers: point (i, j) of n by n is
// number i * n + j.

module Hypercube {
  import opened Dihedral

  function Index(n: nat, i: nat, j: nat): nat {
    i * n + j
  }

  function RowOf(n: nat, p: nat): nat {
    if n == 0 then 0 else p / n
  }

  function ColumnOf(n: nat, p: nat): nat {
    if n == 0 then 0 else p % n
  }

  /** Every number below n * n is the number of exactly one point. */
  lemma {:induction false} PointOf(n: nat, p: nat)
    requires p < n * n
    ensures n > 0 && RowOf(n, p) < n && ColumnOf(n, p) < n && Index(n, RowOf(n, p), ColumnOf(n, p)) == p
  {
    if n > 0 && RowOf(n, p) >= n {
      Ordered(n, RowOf(n, p), n);
    }
  }

  lemma {:induction false} Ordered(a: nat, i: nat, k: nat)
    requires k <= i
    ensures k * a <= i * a
  {
    assert i * a == k * a + (i - k) * a;
  }

  lemma {:induction false} NumberOf(n: nat, i: nat, j: nat)
    requires i < n && j < n
    ensures Index(n, i, j) < n * n && RowOf(n, Index(n, i, j)) == i && ColumnOf(n, Index(n, i, j)) == j
  {
    Ordered(n, n, i + 1);
    assert (i + 1) * n == i * n + n;
    Quotient(n, i, j);
  }

  lemma {:induction false} Quotient(n: nat, i: nat, j: nat)
    requires j < n
    ensures (i * n + j) / n == i && (i * n + j) % n == j
  {
    var q, r := (i * n + j) / n, (i * n + j) % n;
    assert i * n + j == q * n + r;
    assert (q - i) * n == j - r;
    Multiples(q - i, n);
  }

  lemma {:induction false} Multiples(k: int, n: int)
    requires n >= 0
    ensures k >= 1 ==> k * n >= n
    ensures k <= -1 ==> k * n <= -n
  {
    assert k * n == (k - 1) * n + n == (k + 1) * n - n;
  }

  // ---------------------------------------------------------------------------------------------
  // The symmetries
  // ---------------------------------------------------------------------------------------------

  function Flip(n: nat): nat -> nat {
    (p: nat) => if p < n * n && RowOf(n, p) < n then Index(n, n - 1 - RowOf(n, p), ColumnOf(n, p)) else p
  }

  function Turn(n: nat): nat -> nat {
    (p: nat) => if p < n * n && RowOf(n, p) < n then Index(n, ColumnOf(n, p), n - 1 - RowOf(n, p)) else p
  }

  function Symmetry(n: nat, e: Element): nat -> nat {
    (p: nat) => Act(Turn(n), Flip(n), e, p)
  }

  lemma {:induction false} FlipAt(n: nat, i: nat, j: nat)
    requires i < n && j < n
    ensures Flip(n)(Index(n, i, j)) == Index(n, n - 1 - i, j)
  {
    NumberOf(n, i, j);
  }

  lemma {:induction false} TurnAt(n: nat, i: nat, j: nat)
    requires i < n && j < n
    ensures Turn(n)(Index(n, i, j)) == Index(n, j, n - 1 - i)
  {
    NumberOf(n, i, j);
  }

  lemma {:induction false} FourTurns(turn: nat -> nat, p: nat)
    ensures Turns(turn, 0, p) == p && Turns(turn, 1, p) == turn(p) && Turns(turn, 2, p) == turn(turn(p))
    ensures Turns(turn, 3, p) == turn(turn(turn(p))) && Turns(turn, 4, p) == turn(turn(turn(turn(p))))
  {
    assert Turns(turn, 1, p) == turn(Turns(turn, 0, p));
    assert Turns(turn, 2, p) == turn(Turns(turn, 1, p));
    assert Turns(turn, 3, p) == turn(Turns(turn, 2, p));
  }

  lemma {:induction false} RelationsAt(n: nat, p: nat)
    requires p < n * n
    ensures Turn(n)(p) < n * n && Flip(n)(p) < n * n
    ensures Turns(Turn(n), 4, p) == p && Flip(n)(Flip(n)(p)) == p
    ensures Turn(n)(Flip(n)(Turn(n)(p))) == Flip(n)(p)
  {
    PointOf(n, p);
    var i, j, m := RowOf(n, p), ColumnOf(n, p), n - 1;
    TurnAt(n, i, j);
    FlipAt(n, i, j);
    FlipAt(n, m - i, j);
    FourTurnsReturn(n, i, j);
    TurnFlipTurn(n, i, j);
    NumberOf(n, j, m - i);
    NumberOf(n, m - i, j);
  }

  lemma {:induction false} FourTurnsReturn(n: nat, i: nat, j: nat)
    requires i < n && j < n
    ensures Turns(Turn(n), 4, Index(n, i, j)) == Index(n, i, j)
  {
    var m := n - 1;
    TurnAt(n, i, j);
    TurnAt(n, j, m - i);
    TurnAt(n, m - i, m - j);
    TurnAt(n, m - j, i);
    FourTurns(Turn(n), Index(n, i, j));
  }

  lemma {:induction false} TurnFlipTurn(n: nat, i: nat, j: nat)
    requires i < n && j < n
    ensures Turn(n)(Flip(n)(Turn(n)(Index(n, i, j)))) == Flip(n)(Index(n, i, j))
  {
    var m := n - 1;
    TurnAt(n, i, j);
    FlipAt(n, j, m - i);
    TurnAt(n, m - j, m - i);
    FlipAt(n, i, j);
  }

  /** The maps satisfy the relations of the symmetry group of the square, for every order. */
  lemma {:induction false} SquareRelations(n: nat)
    ensures Relations(4, n * n, Turn(n), Flip(n))
  {
    forall p: nat | p < n * n
      ensures RelatedAt(4, n * n, Turn(n), Flip(n), p)
    {
      RelationsAt(n, p);
    }
  }

  /** Composing the maps is composing the elements of the group of order eight. */
  lemma {:induction false} SymmetryLaws(n: nat, e: Element, f: Element, p: nat)
    requires p < n * n && e.turn < 4 && f.turn < 4
    ensures Symmetry(n, e)(Symmetry(n, f)(p)) == Symmetry(n, Compose(4, e, f))(p)
    ensures Symmetry(n, f)(p) < n * n && Symmetry(n, Element(0, false))(p) == p
  {
    SquareRelations(n);
    ActionComposes(4, n * n, Turn(n), Flip(n), e, f, p);
  }

  // ---------------------------------------------------------------------------------------------
  // The functions of the script
  // ---------------------------------------------------------------------------------------------

  datatype Option = None | Some(value: int)

  function SidePoints(order: int): nat {
    if order >= 1 then order - 1 else 0
  }

  /** The image of a point number; `other` for any other number. */
  function Image(n: nat, symmetry: nat -> nat, index: int, other: Option): Option {
    if 0 <= index < n * n then Some(symmetry(index)) else other
  }

  /** After i rows and j columns the counter p has passed exactly the numbers below i * n + j. */
  lemma {:induction false} CounterAt(n: nat, i: nat, j: nat, index: int)
    requires i < n && j < n && index == Index(n, i, j)
    ensures index < n * n && Flip(n)(index) == (n - 1 - i) * n + j && Turn(n)(index) == (n - 1 - i) + n * j
  {
    NumberOf(n, i, j);
    FlipAt(n, i, j);
    TurnAt(n, i, j);
  }

  /** The flip and the turn in numbers, s being the number of points on a side. */
  lemma {:induction false} InNumbers(order: int, index: int)
    ensures var s := order - 1;
      && (0 <= index < SidePoints(order) * SidePoints(order) <==> s > 0 && 0 <= index < s * s)
      && (s > 0 && 0 <= index < s * s ==>
            && Flip(SidePoints(order))(index) == (s - 1 - index / s) * s + index % s
            && Turn(SidePoints(order))(index) == index % s * s + (s - 1 - index / s))
  {
    if order >= 2 && 0 <= index < (order - 1) * (order - 1) {
      PointOf(order - 1, index);
    }
  }

  method Base(order: int, index: int) returns (result: int)
    ensures Some(result) == Image(SidePoints(order), Flip(SidePoints(order)), index, Some(index))
    ensures var s := order - 1;
      result == if s > 0 && 0 <= index < s * s then (s - 1 - index / s) * s + index % s else index
  {
    InNumbers(order, index);
    ghost var side := SidePoints(order);
    var n := order - 1;
    var p := 0;
    result := index;
    var i := 0;
    while i < n
      invariant 0 <= i <= side && p == i * side
      invariant result == if 0 <= index < p && index < side * side then Flip(side)(index) else index
    {
      var k := n - 1 - i;
      var first := k * n;
      for j := 0 to n
        invariant p == i * n + j
        invariant result == if 0 <= index < p && index < side * side then Flip(side)(index) else index
      {
        CounterAt(n, i, j, p);
        if index == p {
          result := first + j;
        }
        p := p + 1;
      }
      assert (i + 1) * n == i * n + n;
      i := i + 1;
    }
  }

  method OnceAnticlockwise(order: int, index: int) returns (result: Option)
    ensures result == Image(SidePoints(order), Turn(SidePoints(order)), index, None)
    ensures var s := order - 1;
      result == if s > 0 && 0 <= index < s * s then Some(index % s * s + (s - 1 - index / s)) else None
  {
    InNumbers(order, index);
    ghost var side := SidePoints(order);
    var n := order - 1;
    var p := 0;
    var i := 0;
    while i < n
      invariant 0 <= i <= side && p == i * side && !(0 <= index < p)
    {
      var k := n - 1 - i;
      for j := 0 to n
        invariant p == i * n + j && !(0 <= index < p)
      {
        if index == p {
          CounterAt(n, i, j, p);
          return Some(k + n * j);
        }
        p := p + 1;
      }
      assert (i + 1) * n == i * n + n;
      i := i + 1;
    }
    result := None;
  }

  method SecondDiagonal(order: int, index: int) returns (result: Option)
    ensures result == Image(SidePoints(order), Symmetry(SidePoints(order), Element(1, true)), index, None)
  {
    ghost var n := SidePoints(order);
    var p := Base(order, index);
    if 0 <= index < n * n {
      RelationsAt(n, index);
      FourTurns(Turn(n), p);
    }
    result := OnceAnticlockwise(order, p);
  }

  /** After a symmetry, a number is still the number of a point. */
  lemma {:induction false} StaysPoint(n: nat, e: Element, p: nat)
    requires p < n * n && e.turn < 4
    ensures Symmetry(n, e)(p) < n * n
    ensures Flip(n)(p) == Symmetry(n, Element(0, true))(p) && Turn(n)(p) == Symmetry(n, Element(1, false))(p)
  {
    SymmetryLaws(n, e, e, p);
    FourTurns(Turn(n), p);
    FourTurns(Turn(n), Flip(n)(p));
  }

  method Height(order: int, index: int) returns (result: Option)
    ensures result == Image(SidePoints(order), Symmetry(SidePoints(order), Element(2, true)), index, None)
  {
    ghost var n := SidePoints(order);
    result := SecondDiagonal(order, index);
    if result.Some? {
      StaysPoint(n, Element(1, true), index);
      SymmetryLaws(n, Element(1, false), Element(1, true), index);
      StaysPoint(n, Element(1, false), result.value);
      result := OnceAnticlockwise(order, result.value);
    }
  }

  method TwiceClockwise(order: int, index: int) returns (result: Option)
    ensures result == Image(SidePoints(order), Symmetry(SidePoints(order), Element(2, false)), index, None)
  {
    ghost var n := SidePoints(order);
    var p := Base(order, index);
    if 0 <= index < n * n {
      StaysPoint(n, Element(0, true), index);
      SymmetryLaws(n, Element(2, true), Element(0, true), index);
    }
    result := Height(order, p);
  }

  method Diagonal(order: int, index: int) returns (result: Option)
    ensures result == Image(SidePoints(order), Symmetry(SidePoints(order), Element(3, true)), index, None)
  {
    ghost var n := SidePoints(order);
    result := Height(order, index);
    if result.Some? {
      StaysPoint(n, Element(2, true), index);
      SymmetryLaws(n, Element(1, false), Element(2, true), index);
      StaysPoint(n, Element(1, false), result.value);
      result := OnceAnticlockwise(order, result.value);
    }
  }

  method OnceClockwise(order: int, index: int) returns (result: Option)
    ensures result == Image(SidePoints(order), Symmetry(SidePoints(order), Element(3, false)), index, None)
  {
    ghost var n := SidePoints(order);
    result := OnceAnticlockwise(order, index);
    if result.Some? {
      StaysPoint(n, Element(1, false), index);
      SymmetryLaws(n, Element(2, false), Element(1, false), index);
      result := TwiceClockwise(order, result.value);
    }
  }

  /** Where an element takes point (0, j). */
  function TopRowImage(n: nat, e: Element, j: nat): (r: (nat, nat))
    requires j < n && e.turn < 4
    ensures r.0 < n && r.1 < n
  {
    var m := n - 1;
    if e.turn == 0 then (if e.flip then (m, j) else (0, j))
    else if e.turn == 1 then (if e.flip then (j, 0) else (j, m))
    else if e.turn == 2 then (if e.flip then (0, m - j) else (m, m - j))
    else if e.flip then (m - j, m) else (m - j, 0)
  }

  /** The images, for any numbering of the points on which the turn and the flip act by coordinates. */
  lemma {:induction false} TopRowActs(n: nat, turn: nat -> nat, flip: nat -> nat, number: (nat, nat) -> nat,
    e: Element, j: nat)
    requires j < n && e.turn < 4
    requires forall i: nat, k: nat :: i < n && k < n ==>
      turn(number(i, k)) == number(k, n - 1 - i) && flip(number(i, k)) == number(n - 1 - i, k)
    ensures Act(turn, flip, e, number(0, j)) == number(TopRowImage(n, e, j).0, TopRowImage(n, e, j).1)
  {
    var m := n - 1;
    FourTurns(turn, number(0, j));
    FourTurns(turn, number(m, j));
    assert turn(number(0, j)) == number(j, m) && turn(number(j, m)) == number(m, m - j);
    assert turn(number(m, m - j)) == number(m - j, 0) && flip(number(0, j)) == number(m, j);
    assert turn(number(m, j)) == number(j, 0) && turn(number(j, 0)) == number(0, m - j);
    assert turn(number(0, m - j)) == number(m - j, m);
  }

  lemma {:induction false} ImageOf(n: nat, e: Element, j: nat)
    requires j < n && e.turn < 4
    ensures var (r, c) := TopRowImage(n, e, j);
      Symmetry(n, e)(Index(n, 0, j)) == Index(n, r, c)
  {
    var number := (i: nat, k: nat) => Index(n, i, k);
    forall i: nat, k: nat | i < n && k < n
      ensures Turn(n)(number(i, k)) == number(k, n - 1 - i) && Flip(n)(number(i, k)) == number(n - 1 - i, k)
    {
      TurnAt(n, i, k);
      FlipAt(n, i, k);
    }
    TopRowActs(n, Turn(n), Flip(n), number, e, j);
  }

  lemma {:induction false} NumbersDiffer(n: nat, x: (nat, nat), y: (nat, nat))
    requires x.0 < n && x.1 < n && y.0 < n && y.1 < n && x != y
    ensures Index(n, x.0, x.1) != Index(n, y.0, y.1)
  {
    NumberOf(n, x.0, x.1);
    NumberOf(n, y.0, y.1);
  }

  /** With at least two points on a side, the eight symmetries are eight different maps. */
  lemma {:induction false} SymmetriesDiffer(n: nat, e: Element, f: Element)
    requires n >= 2 && e.turn < 4 && f.turn < 4 && e != f
    ensures exists p: nat :: p < n * n && Symmetry(n, e)(p) != Symmetry(n, f)(p)
  {
    var j := if TopRowImage(n, e, 0) != TopRowImage(n, f, 0) then 0 else 1;
    ImagesDiffer(n, e, f);
    ImageOf(n, e, j);
    ImageOf(n, f, j);
    NumbersDiffer(n, TopRowImage(n, e, j), TopRowImage(n, f, j));
    NumberOf(n, 0, j);
    assert Symmetry(n, e)(Index(n, 0, j)) != Symmetry(n, f)(Index(n, 0, j));
  }

  lemma {:induction false} ImagesDiffer(n: nat, e: Element, f: Element)
    requires n >= 2 && e.turn < 4 && f.turn < 4 && e != f
    ensures TopRowImage(n, e, 0) != TopRowImage(n, f, 0) || TopRowImage(n, e, 1) != TopRowImage(n, f, 1)
  {
  }
}
