// Symmetries of the interior points of a simplex, as maps of their numbers.
//
// The points are numbered row by row; row r of N has N - r points. With d = N - 1 - r - c, the three
// numbers (r, c, d) of a point are permuted by the symmetries of the triangle.

module Simplex {
  import opened Dihedral

  datatype Option = None | Some(value: nat)

  /** 0 + 1 + ... + (k - 1). */
  function Triangle(k: nat): nat {
    if k == 0 then 0 else Triangle(k - 1) + (k - 1)
  }

  lemma {:induction false} TriangleIsHalfProduct(k: nat)
    ensures k * (k - 1) / 2 == Triangle(k)
    ensures k * (k - 1) == 2 * Triangle(k)
  {
    if k == 0 {
    } else {
      TriangleIsHalfProduct(k - 1);
      assert k * (k - 1) == (k - 1) * (k - 2) + 2 * (k - 1);
    }
  }

  /** Points in the first r of n rows. */
  function RowStart(n: nat, r: nat): int {
    r * n - Triangle(r)
  }

  function Points(n: nat): nat {
    Triangle(n + 1)
  }

  function Index(n: nat, r: nat, c: nat): int {
    RowStart(n, r) + c
  }

  /** Row and column of a point number. */
  function Locate(n: nat, p: nat): (nat, nat)
    requires p < Points(n)
  {
    if p < n then (0, p) else
      var rc := Locate(n - 1, p - n);
      (rc.0 + 1, rc.1)
  }

  lemma {:induction false} NextRow(n: nat, r: nat)
    requires r < n
    ensures RowStart(n, r + 1) == RowStart(n, r) + (n - r)
    ensures n > 0 ==> RowStart(n, r + 1) == n + RowStart(n - 1, r)
  {
    assert (r + 1) * n == r * n + n && r * (n - 1) == r * n - r;
  }

  /** Points are numbered from 0 without gaps: every number has exactly one row and column. */
  lemma {:induction false} LocateIndex(n: nat, p: nat)
    requires p < Points(n)
    ensures var (r, c) := Locate(n, p); r + c < n && Index(n, r, c) == p
  {
    if p >= n {
      LocateIndex(n - 1, p - n);
      NextRow(n, Locate(n - 1, p - n).0);
    }
  }

  lemma {:induction false} IndexLocate(n: nat, r: nat, c: nat)
    requires r + c < n
    ensures 0 <= Index(n, r, c) < Points(n) && Locate(n, Index(n, r, c)) == (r, c)
  {
    if r == 0 {
      assert Points(n) == Triangle(n) + n;
    } else {
      IndexLocate(n - 1, r - 1, c);
      NextRow(n, r - 1);
      assert Points(n) == Points(n - 1) + n;
    }
  }

  /** The numbers run along the rows, one row after the other. */
  lemma {:induction false} NumbersRun(n: nat, r: nat, c: nat)
    requires r + c < n
    ensures Index(n, 0, 0) == 0
    ensures r + c + 1 < n ==> Index(n, r, c + 1) == Index(n, r, c) + 1
    ensures r + 1 < n ==> Index(n, r + 1, 0) == Index(n, r, n - 1 - r) + 1
  {
    if r + 1 < n {
      NextRow(n, r);
    }
  }

  // ---------------------------------------------------------------------------------------------
  // The symmetries
  // ---------------------------------------------------------------------------------------------

  function BaseMap(n: nat, p: nat): nat {
    if p < Points(n) then
      var (r, c) := Locate(n, p);
      LocateIndex(n, p);
      IndexLocate(n, c, r);
      Index(n, c, r)
    else p
  }

  function HeightMap(n: nat, p: nat): nat {
    if p < Points(n) then
      var (r, c) := Locate(n, p);
      LocateIndex(n, p);
      IndexLocate(n, r, n - 1 - r - c);
      Index(n, r, n - 1 - r - c)
    else p
  }

  function Turn(n: nat): nat -> nat {
    (p: nat) => BaseMap(n, HeightMap(n, p))
  }

  function Flip(n: nat): nat -> nat {
    (p: nat) => BaseMap(n, p)
  }

  /** In coordinates: the base map exchanges r and c, the height map c and d. */
  lemma {:induction false} BaseAt(n: nat, r: nat, c: nat)
    requires r + c < n
    ensures Index(n, r, c) >= 0 && Index(n, c, r) >= 0 && BaseMap(n, Index(n, r, c)) == Index(n, c, r)
  {
    IndexLocate(n, r, c);
    IndexLocate(n, c, r);
  }

  lemma {:induction false} HeightAt(n: nat, r: nat, c: nat)
    requires r + c < n
    ensures Index(n, r, c) >= 0 && Index(n, r, n - 1 - r - c) >= 0
    ensures HeightMap(n, Index(n, r, c)) == Index(n, r, n - 1 - r - c)
  {
    IndexLocate(n, r, c);
    IndexLocate(n, r, n - 1 - r - c);
  }

  /** Point c of the first row, in numbers: the base map takes it to the start of row c, the height map reverses the
      row. */
  lemma {:induction false} FirstRowImages(n: nat, c: nat)
    requires c < n
    ensures BaseMap(n, c) == c * n - c * (c - 1) / 2 && HeightMap(n, c) == n - 1 - c
  {
    TriangleIsHalfProduct(c);
    BaseAt(n, 0, c);
    HeightAt(n, 0, c);
  }

  lemma {:induction false} TurnAt(n: nat, r: nat, c: nat)
    requires r + c < n
    ensures Index(n, r, c) >= 0 && Index(n, n - 1 - r - c, r) >= 0
    ensures Turn(n)(Index(n, r, c)) == Index(n, n - 1 - r - c, r)
  {
    HeightAt(n, r, c);
    BaseAt(n, r, n - 1 - r - c);
  }

  lemma {:induction false} ThreeTurns(turn: nat -> nat, p: nat)
    ensures Turns(turn, 1, p) == turn(p) && Turns(turn, 2, p) == turn(turn(p))
    ensures Turns(turn, 3, p) == turn(turn(turn(p)))
  {
    assert Turns(turn, 0, p) == p;
    assert Turns(turn, 1, p) == turn(p);
    assert Turns(turn, 2, p) == turn(turn(p));
  }

  lemma {:induction false} ThreeTurnsReturn(n: nat, r: nat, c: nat)
    requires r + c < n
    ensures Index(n, r, c) >= 0 && Turns(Turn(n), 3, Index(n, r, c)) == Index(n, r, c)
  {
    var d := n - 1 - r - c;
    TurnAt(n, r, c);
    TurnAt(n, d, r);
    TurnAt(n, c, d);
    ThreeTurns(Turn(n), Index(n, r, c));
  }

  lemma {:induction false} TurnFlipTurn(n: nat, r: nat, c: nat)
    requires r + c < n
    ensures Index(n, r, c) >= 0 && Turn(n)(Flip(n)(Turn(n)(Index(n, r, c)))) == Flip(n)(Index(n, r, c))
  {
    var d := n - 1 - r - c;
    TurnAt(n, r, c);
    BaseAt(n, d, r);
    TurnAt(n, r, d);
    BaseAt(n, r, c);
  }

  /** The maps satisfy the relations of the symmetry group of the triangle, for every order. */
  lemma {:induction false} TriangleRelations(n: nat)
    ensures Relations(3, Points(n), Turn(n), Flip(n))
  {
    forall p: nat | p < Points(n)
      ensures RelatedAt(3, Points(n), Turn(n), Flip(n), p)
    {
      RelationsAt(n, p);
    }
  }

  lemma {:induction false} RelationsAt(n: nat, p: nat)
    requires p < Points(n)
    ensures Turn(n)(p) < Points(n) && Flip(n)(p) < Points(n)
    ensures Turns(Turn(n), 3, p) == p && Flip(n)(Flip(n)(p)) == p
    ensures Turn(n)(Flip(n)(Turn(n)(p))) == Flip(n)(p)
  {
    var (r, c) := Locate(n, p);
    LocateIndex(n, p);
    TurnAt(n, r, c);
    ThreeTurnsReturn(n, r, c);
    BaseAt(n, r, c);
    BaseAt(n, c, r);
    TurnFlipTurn(n, r, c);
    IndexLocate(n, c, r);
    IndexLocate(n, n - 1 - r - c, r);
  }

  /** The height map is two turns after a flip, and a flip followed by a height is two turns. */
  lemma {:induction false} HeightIsElement(n: nat, p: nat)
    requires p < Points(n)
    ensures HeightMap(n, p) == Act(Turn(n), Flip(n), Element(2, true), p)
    ensures HeightMap(n, BaseMap(n, p)) == Act(Turn(n), Flip(n), Element(2, false), p)
    ensures HeightMap(n, p) < Points(n)
  {
    var (r, c) := Locate(n, p);
    LocateIndex(n, p);
    BaseAt(n, r, c);
    HeightAt(n, r, c);
    HeightAt(n, c, r);
    TwoTurns(n, r, c);
    TwoTurns(n, c, r);
    IndexLocate(n, r, n - 1 - r - c);
  }

  lemma {:induction false} TwoTurns(n: nat, r: nat, c: nat)
    requires r + c < n
    ensures Index(n, r, c) >= 0 && Turns(Turn(n), 2, Index(n, r, c)) == Index(n, c, n - 1 - r - c)
  {
    var d := n - 1 - r - c;
    TurnAt(n, r, c);
    TurnAt(n, d, r);
    ThreeTurns(Turn(n), Index(n, r, c));
  }

  /** Three corners that are turned into each other tell the six elements apart. */
  lemma {:induction false} CornersDiffer(turn: nat -> nat, flip: nat -> nat, a: nat, b: nat, c: nat, e: Element,
    f: Element)
    requires a != b && b != c && a != c && turn(a) == c && turn(c) == b && turn(b) == a && flip(a) == a && flip(b) == c
    requires e.turn < 3 && f.turn < 3 && e != f
    ensures Act(turn, flip, e, a) != Act(turn, flip, f, a) || Act(turn, flip, e, b) != Act(turn, flip, f, b)
  {
    ThreeTurns(turn, a);
    ThreeTurns(turn, b);
    ThreeTurns(turn, c);
    assert Turns(turn, 0, a) == a && Turns(turn, 0, b) == b && Turns(turn, 0, c) == c;
  }

  /** With at least two points on a side, the six symmetries are six different maps. */
  lemma {:induction false} SymmetriesDiffer(n: nat, e: Element, f: Element)
    requires n >= 2 && e.turn < 3 && f.turn < 3 && e != f
    ensures exists p: nat :: p < Points(n) && Act(Turn(n), Flip(n), e, p) != Act(Turn(n), Flip(n), f, p)
  {
    var m := n - 1;
    IndexLocate(n, 0, 0);
    IndexLocate(n, 0, m);
    IndexLocate(n, m, 0);
    TurnAt(n, 0, 0);
    TurnAt(n, m, 0);
    TurnAt(n, 0, m);
    BaseAt(n, 0, 0);
    BaseAt(n, 0, m);
    CornersDiffer(Turn(n), Flip(n), Index(n, 0, 0), Index(n, 0, m), Index(n, m, 0), e, f);
  }

  // ---------------------------------------------------------------------------------------------
  // The functions of the script
  // ---------------------------------------------------------------------------------------------

  /** The numbers computed in the search loops are indices, with i the antidiagonal r + c. */
  lemma {:induction false} SearchedIndex(n: nat, i: nat, j: nat)
    requires j <= i < n
    ensures i + j * (j - 1) / 2 + j * (n - j) == Index(n, j, i - j)
  {
    TriangleIsHalfProduct(j);
    assert j * (n - j) == j * n - j * j && j * j == j * (j - 1) + j;
  }

  /** What a symmetry function returns: the image of a point number, nothing for any other number. */
  function Image(n: nat, symmetry: nat -> nat, index: int): Option {
    if 0 <= index < Points(n) then Some(symmetry(index)) else None
  }

  function SidePoints(order: int): nat {
    if order >= 2 then order - 2 else 0
  }

  function NPoints(order: int): int {
    (order - 2) * (order - 1) / 2
  }

  /** The number of points is the size of the maps' domain exactly for positive orders. */
  lemma {:induction false} NPointsRightIff(order: int)
    ensures NPoints(order) == Points(SidePoints(order)) <==> order >= 1
    ensures NPoints(0) == 1 && Points(SidePoints(0)) == 0
  {
    assert Points(0) == 0;
    if order >= 2 {
      TriangleIsHalfProduct((order - 1) as nat);
      assert (order - 1) * (order - 1 - 1) == (order - 2) * (order - 1);
    } else if order < 1 {
      NegativeProduct(2 - order, 1 - order);
      assert (order - 2) * (order - 1) == (2 - order) * (1 - order);
    }
  }

  lemma {:induction false} NegativeProduct(x: int, y: int)
    requires x >= 2 && y >= 1
    ensures x * y >= 2
  {
    assert x * y == (x - 2) * y + 2 * y;
  }

  /** The point sought by the search loops has not been passed at antidiagonal i, row j. */
  ghost predicate Ahead(n: nat, index: int, i: int, j: int) {
    0 <= index < Points(n) ==>
      var (r, c) := Locate(n, index);
      r + c > i || (r + c == i && r >= j)
  }

  /** One step of the base search: either this is the point, or it is further ahead. */
  lemma {:induction false} BaseSearch(n: nat, index: int, i: nat, j: nat)
    requires j <= i < n && Ahead(n, index, i, j)
    ensures var first, last := i + j * (j - 1) / 2 + j * (n - j),
                               i + (i - j) * (i - j - 1) / 2 + (i - j) * (n - (i - j));
      if first == index then last >= 0 && Image(n, Flip(n), index) == Some(last) else Ahead(n, index, i, j + 1)
  {
    SearchedIndex(n, i, j);
    SearchedIndex(n, i, i - j);
    BaseAt(n, j, i - j);
    IndexLocate(n, j, i - j);
    if 0 <= index < Points(n) {
      LocateIndex(n, index);
    }
  }

  method Base(order: int, index: int) returns (image: Option)
    ensures image == Image(SidePoints(order), Flip(SidePoints(order)), index)
  {
    var n := order - 2;
    var i := 0;
    while i < n
      invariant 0 <= i <= SidePoints(order) && Ahead(SidePoints(order), index, i, 0)
    {
      for j := 0 to i + 1
        invariant Ahead(n, index, i, j)
      {
        var first := i + j * (j - 1) / 2 + j * (n - j);
        var last := i + (i - j) * (i - j - 1) / 2 + (i - j) * (n - (i - j));
        BaseSearch(n, index, i, j);
        if first == index {
          return Some(last);
        }
      }
      StillAhead(n, index, i);
      i := i + 1;
    }
    image := None;
    NothingAhead(SidePoints(order), index);
  }

  lemma {:induction false} StillAhead(n: nat, index: int, i: nat)
    requires Ahead(n, index, i, i + 1)
    ensures Ahead(n, index, i + 1, 0)
  {
  }

  lemma {:induction false} NothingAhead(n: nat, index: int)
    requires Ahead(n, index, n, 0)
    ensures !(0 <= index < Points(n))
  {
    if 0 <= index < Points(n) {
      LocateIndex(n, index);
    }
  }

  /** Row i as the height loop delimits it. */
  lemma {:induction false} RowBounds(n: nat, i: nat)
    requires i < n
    ensures i * n - i * (i - 1) / 2 == RowStart(n, i)
    ensures (i + 1) * n - (i + 1) * i / 2 - 1 == RowStart(n, i) + (n - i) - 1
  {
    TriangleIsHalfProduct(i);
    TriangleIsHalfProduct(i + 1);
    assert (i + 1) * (i + 1 - 1) == (i + 1) * i;
    NextRow(n, i);
  }

  /** The point sought has not been passed at row i, column j. */
  ghost predicate Below(n: nat, index: int, i: int, j: int) {
    0 <= index < Points(n) ==>
      var (r, c) := Locate(n, index);
      r > i || (r == i && c >= j)
  }

  lemma {:induction false} HeightSearch(n: nat, index: int, i: nat, j: nat)
    requires i + j < n && Below(n, index, i, j)
    ensures var first, last := i * n - i * (i - 1) / 2, (i + 1) * n - (i + 1) * i / 2 - 1;
      if index == first + j
        then last - j >= 0 && Image(n, (p: nat) => HeightMap(n, p), index) == Some(last - j)
        else Below(n, index, i, j + 1)
  {
    RowBounds(n, i);
    HeightAt(n, i, j);
    IndexLocate(n, i, j);
    if 0 <= index < Points(n) {
      LocateIndex(n, index);
    }
  }

  method Height(order: int, index: int) returns (image: Option)
    ensures image == Image(SidePoints(order), (p: nat) => HeightMap(SidePoints(order), p), index)
  {
    var n := order - 2;
    var i := 0;
    while i < n
      invariant 0 <= i <= SidePoints(order) && Below(SidePoints(order), index, i, 0)
    {
      var first := i * n - i * (i - 1) / 2;
      var last := (i + 1) * n - (i + 1) * i / 2 - 1;
      for j := 0 to n - i
        invariant Below(n, index, i, j)
      {
        HeightSearch(n, index, i, j);
        if index == first + j {
          return Some(last - j);
        }
      }
      NextBelow(n, index, i);
      i := i + 1;
    }
    image := None;
    NothingBelow(SidePoints(order), index);
  }

  lemma {:induction false} NextBelow(n: nat, index: int, i: nat)
    requires i < n && Below(n, index, i, n - i)
    ensures Below(n, index, i + 1, 0)
  {
    if 0 <= index < Points(n) {
      LocateIndex(n, index);
    }
  }

  lemma {:induction false} NothingBelow(n: nat, index: int)
    requires Below(n, index, n, 0)
    ensures !(0 <= index < Points(n))
  {
    if 0 <= index < Points(n) {
      LocateIndex(n, index);
    }
  }

  /** The symmetry of a group element, as a map of point numbers. */
  function Symmetry(n: nat, e: Element): nat -> nat {
    (p: nat) => Act(Turn(n), Flip(n), e, p)
  }

  method Anticlockwise(order: int, index: int) returns (image: Option)
    ensures image == Image(SidePoints(order), Symmetry(SidePoints(order), Element(1, false)), index)
  {
    ghost var n := SidePoints(order);
    image := Height(order, index);
    if image.Some? {
      HeightIsElement(n, index);
      ThreeTurns(Turn(n), index);
      image := Base(order, image.value);
    }
  }

  method Hypotenuse(order: int, index: int) returns (image: Option)
    ensures image == Image(SidePoints(order), Symmetry(SidePoints(order), Element(1, true)), index)
  {
    ghost var n := SidePoints(order);
    image := Base(order, index);
    if image.Some? {
      RelationsAt(n, index);
      image := Anticlockwise(order, image.value);
    }
  }

  method Clockwise(order: int, index: int) returns (image: Option)
    ensures image == Image(SidePoints(order), Symmetry(SidePoints(order), Element(2, false)), index)
  {
    ghost var n := SidePoints(order);
    image := Base(order, index);
    if image.Some? {
      RelationsAt(n, index);
      HeightIsElement(n, index);
      image := Height(order, image.value);
    }
  }

  /** The involutions, the order of a turn and its inverse, as the functions of the script compose. */
  lemma {:induction false} SymmetryLaws(n: nat, e: Element, f: Element, p: nat)
    requires p < Points(n) && e.turn < 3 && f.turn < 3
    ensures Symmetry(n, e)(Symmetry(n, f)(p)) == Symmetry(n, Compose(3, e, f))(p)
    ensures Symmetry(n, f)(p) < Points(n) && Symmetry(n, Element(0, false))(p) == p
  {
    TriangleRelations(n);
    ActionComposes(3, Points(n), Turn(n), Flip(n), e, f, p);
  }
}
