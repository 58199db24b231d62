// The dihedral group of a regular polygon, and what it takes for a turn and a flip of a point set to be
// an action of it.

module Dihedral {

  /** First a flip (or not), then `turn` turns by one corner. */
  datatype Element = Element(turn: nat, flip: bool)

  /** The element that applies f, then e. */
  function Compose(n: nat, e: Element, f: Element): Element
    requires e.turn < n && f.turn < n
  {
    var sum := e.turn + (if e.flip then n - f.turn else f.turn);
    Element(if sum >= n then sum - n else sum, e.flip != f.flip)
  }

  function Turns(turn: nat -> nat, k: nat, p: nat): nat {
    if k == 0 then p else turn(Turns(turn, k - 1, p))
  }

  function Act(turn: nat -> nat, flip: nat -> nat, e: Element, p: nat): nat {
    Turns(turn, e.turn, if e.flip then flip(p) else p)
  }

  /** On the points below m: n turns are none, two flips are none, and a flip reverses the turns. */
  ghost predicate Relations(n: nat, m: nat, turn: nat -> nat, flip: nat -> nat) {
    n > 0 && forall p: nat :: p < m ==> RelatedAt(n, m, turn, flip, p)
  }

  ghost predicate RelatedAt(n: nat, m: nat, turn: nat -> nat, flip: nat -> nat, p: nat) {
    && turn(p) < m && flip(p) < m
    && Turns(turn, n, p) == p && flip(flip(p)) == p && turn(flip(turn(p))) == flip(p)
  }

  lemma {:induction false} TurnsStay(n: nat, m: nat, turn: nat -> nat, flip: nat -> nat, k: nat, p: nat)
    requires Relations(n, m, turn, flip) && p < m
    ensures Turns(turn, k, p) < m
  {
    if k == 0 {
    } else {
      TurnsStay(n, m, turn, flip, k - 1, p);
      assert RelatedAt(n, m, turn, flip, Turns(turn, k - 1, p));
    }
  }

  lemma {:induction false} TurnsAdd(turn: nat -> nat, j: nat, k: nat, p: nat)
    ensures Turns(turn, j + k, p) == Turns(turn, j, Turns(turn, k, p))
  {
    if j == 0 {
    } else {
      TurnsAdd(turn, j - 1, k, p);
    }
  }

  lemma {:induction false} TurnFirst(turn: nat -> nat, k: nat, p: nat)
    ensures Turns(turn, k + 1, p) == Turns(turn, k, turn(p))
  {
    if k == 0 {
      assert Turns(turn, 1, p) == turn(Turns(turn, 0, p));
    } else {
      TurnFirst(turn, k - 1, p);
    }
  }

  /** Turning around a flip undoes the turns. */
  lemma {:induction false} FlipBetweenTurns(n: nat, m: nat, turn: nat -> nat, flip: nat -> nat, k: nat, p: nat)
    requires Relations(n, m, turn, flip) && p < m
    ensures Turns(turn, k, flip(Turns(turn, k, p))) == flip(p)
  {
    if k == 0 {
    } else {
      TurnsStay(n, m, turn, flip, k - 1, p);
      FlipBetweenTurns(n, m, turn, flip, k - 1, p);
      assert RelatedAt(n, m, turn, flip, Turns(turn, k - 1, p));
      OneMoreTurn(turn, flip, k, p, Turns(turn, k - 1, p));
    }
  }

  lemma {:induction false} OneMoreTurn(turn: nat -> nat, flip: nat -> nat, k: nat, p: nat, q: nat)
    requires k > 0 && q == Turns(turn, k - 1, p) && turn(flip(turn(q))) == flip(q)
    requires Turns(turn, k - 1, flip(q)) == flip(p)
    ensures Turns(turn, k, flip(Turns(turn, k, p))) == flip(p)
  {
    TurnFirst(turn, k - 1, flip(turn(q)));
  }

  lemma {:induction false} FlipAfterTurns(n: nat, m: nat, turn: nat -> nat, flip: nat -> nat, k: nat, p: nat)
    requires Relations(n, m, turn, flip) && p < m && k <= n
    ensures flip(Turns(turn, k, p)) == Turns(turn, n - k, flip(p))
  {
    var q := flip(Turns(turn, k, p));
    TurnsStay(n, m, turn, flip, k, p);
    FlipBetweenTurns(n, m, turn, flip, k, p);
    TurnsAdd(turn, n - k, k, q);
    assert RelatedAt(n, m, turn, flip, Turns(turn, k, p)) && RelatedAt(n, m, turn, flip, q);
  }

  lemma {:induction false} FullTurnsCancel(n: nat, m: nat, turn: nat -> nat, flip: nat -> nat, k: nat, p: nat)
    requires Relations(n, m, turn, flip) && p < m && k >= n
    ensures Turns(turn, k, p) == Turns(turn, k - n, p)
  {
    TurnsAdd(turn, k - n, n, p);
    assert RelatedAt(n, m, turn, flip, p);
  }

  /** The relations are enough: composing elements is composing their maps. */
  lemma {:induction false} ActionComposes(n: nat, m: nat, turn: nat -> nat, flip: nat -> nat, e: Element, f: Element,
    p: nat)
    requires Relations(n, m, turn, flip) && p < m && e.turn < n && f.turn < n
    ensures Act(turn, flip, Compose(n, e, f), p) == Act(turn, flip, e, Act(turn, flip, f, p))
    ensures Act(turn, flip, f, p) < m
  {
    var q := if f.flip then flip(p) else p;
    assert RelatedAt(n, m, turn, flip, p) && RelatedAt(n, m, turn, flip, q);
    TurnsStay(n, m, turn, flip, f.turn, q);
    if e.flip {
      FlipAfterTurns(n, m, turn, flip, f.turn, q);
      TurnsCompose(n, m, turn, flip, e.turn, n - f.turn, flip(q));
      assert flip(q) == if f.flip then p else flip(p);
    } else {
      TurnsCompose(n, m, turn, flip, e.turn, f.turn, q);
    }
  }

  /** j turns after k turns, counted modulo n. */
  lemma {:induction false} TurnsCompose(n: nat, m: nat, turn: nat -> nat, flip: nat -> nat, j: nat, k: nat, p: nat)
    requires Relations(n, m, turn, flip) && p < m
    ensures Turns(turn, if j + k >= n then j + k - n else j + k, p) == Turns(turn, j, Turns(turn, k, p))
  {
    TurnsAdd(turn, j, k, p);
    if j + k >= n {
      FullTurnsCancel(n, m, turn, flip, j + k, p);
    }
  }

  /** Every element has an inverse, so every map of the action is a bijection on the points. */
  lemma {:induction false} ActionInverts(n: nat, m: nat, turn: nat -> nat, flip: nat -> nat, e: Element, p: nat)
    returns (inverse: Element)
    requires Relations(n, m, turn, flip) && p < m && e.turn < n
    ensures inverse.turn < n && Compose(n, inverse, e) == Element(0, false) == Compose(n, e, inverse)
    ensures Act(turn, flip, inverse, Act(turn, flip, e, p)) == p
  {
    inverse := if e.flip || e.turn == 0 then e else Element(n - e.turn, false);
    ActionComposes(n, m, turn, flip, inverse, e, p);
  }
}
