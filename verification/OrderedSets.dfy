// Sets of column indices kept in ascending order, as an ordered container stores them.

module OrderedSets {

  function Front(s: seq<nat>): seq<nat>
    requires s != []
  {
    s[..|s| - 1]
  }

  function Last(s: seq<nat>): nat
    requires s != []
  {
    s[|s| - 1]
  }

  /** Each element is greater than all before it. */
  ghost predicate Ascending(s: seq<nat>) {
    s != [] ==> Ascending(Front(s)) && forall y: nat :: y in Front(s) ==> y < Last(s)
  }

  lemma {:induction false} EmptyAscends()
    ensures Ascending([])
  {
  }

  lemma {:induction false} SingleAscends(x: nat)
    ensures Ascending([x])
  {
    assert Front([x]) == [];
    EmptyAscends();
  }

  lemma {:induction false} AscendingAt(s: seq<nat>, i: nat, j: nat)
    requires Ascending(s) && i < j < |s|
    ensures s[i] < s[j]
  {
    if j == |s| - 1 {
      assert Front(s)[i] in Front(s);
    } else {
      AscendingAt(Front(s), i, j);
    }
  }

  lemma {:induction false} Members(s: seq<nat>)
    requires s != []
    ensures forall y: nat :: y in s <==> y in Front(s) || y == Last(s)
  {
    assert s == Front(s) + [Last(s)];
  }

  lemma {:induction false} Append(s: seq<nat>, x: nat)
    ensures Front(s + [x]) == s && Last(s + [x]) == x
    ensures forall y: nat :: y in s + [x] <==> y in s || y == x
  {
  }

  function Insert(s: seq<nat>, x: nat): (t: seq<nat>)
    ensures forall y: nat :: y in t <==> y in s || y == x
  {
    if s == [] then
      [x]
    else
      Members(s);
      if x > Last(s) then s + [x] else if x == Last(s) then s else Insert(Front(s), x) + [Last(s)]
  }

  lemma {:induction false} InsertAscends(s: seq<nat>, x: nat)
    requires Ascending(s)
    ensures Ascending(Insert(s, x))
  {
    if s == [] {
      Append([], x);
      assert [] + [x] == [x];
    } else {
      Members(s);
      if x > Last(s) {
        Append(s, x);
      } else if x < Last(s) {
        InsertAscends(Front(s), x);
        Append(Insert(Front(s), x), Last(s));
      }
    }
  }

  lemma {:induction false} InsertSize(s: seq<nat>, x: nat)
    requires Ascending(s)
    ensures |Insert(s, x)| == if x in s then |s| else |s| + 1
  {
    if s == [] {
    } else {
      Members(s);
      if x < Last(s) {
        InsertSize(Front(s), x);
      }
    }
  }

  /** How many elements lie in lo..hi. */
  function Within(s: seq<nat>, lo: nat, hi: nat): (r: nat)
    ensures r <= |s|
  {
    if s == [] then 0 else Within(Front(s), lo, hi) + (if lo <= Last(s) <= hi then 1 else 0)
  }

  lemma {:induction false} WithinAppend(s: seq<nat>, x: nat, lo: nat, hi: nat)
    ensures Within(s + [x], lo, hi) == Within(s, lo, hi) + (if lo <= x <= hi then 1 else 0)
  {
    Append(s, x);
  }

  lemma {:induction false} InsertWithin(s: seq<nat>, x: nat, lo: nat, hi: nat)
    requires Ascending(s)
    ensures Within(Insert(s, x), lo, hi) == Within(s, lo, hi) + (if x !in s && lo <= x <= hi then 1 else 0)
  {
    if s == [] {
      WithinAppend([], x, lo, hi);
      assert Insert(s, x) == [] + [x];
    } else {
      Members(s);
      if x < Last(s) {
        InsertWithin(Front(s), x, lo, hi);
        WithinAppend(Insert(Front(s), x), Last(s), lo, hi);
        WithinAppend(Front(s), Last(s), lo, hi);
        assert s == Front(s) + [Last(s)];
      } else if x > Last(s) {
        WithinAppend(s, x, lo, hi);
      }
    }
  }

  function InsertAll(s: seq<nat>, xs: seq<nat>): (t: seq<nat>)
    ensures forall y: nat :: y in t <==> y in s || y in xs
  {
    if xs == [] then s else
      Members(xs);
      Insert(InsertAll(s, Front(xs)), Last(xs))
  }

  lemma {:induction false} InsertAllAscends(s: seq<nat>, xs: seq<nat>)
    requires Ascending(s)
    ensures Ascending(InsertAll(s, xs))
  {
    if xs == [] {
    } else {
      InsertAllAscends(s, Front(xs));
      InsertAscends(InsertAll(s, Front(xs)), Last(xs));
    }
  }

  lemma {:induction false} InsertAllStep(s: seq<nat>, xs: seq<nat>, k: nat)
    requires k < |xs|
    ensures InsertAll(s, xs[..k + 1]) == Insert(InsertAll(s, xs[..k]), xs[k])
  {
    assert xs[..k + 1][..k] == xs[..k];
  }

  ghost predicate Subset(s: seq<nat>, t: seq<nat>) {
    forall y: nat :: y in s ==> y in t
  }

  lemma {:induction false} HeadIsMember(s: seq<nat>)
    ensures s == [] || s[0] in s
  {
  }

  lemma {:induction false} FrontsAreSubsets(s: seq<nat>, t: seq<nat>)
    requires Ascending(s) && Ascending(t) && s != [] && t != [] && Subset(s, t)
    ensures if Last(s) == Last(t) then Subset(Front(s), Front(t)) else Subset(s, Front(t))
  {
    Members(s);
    Members(t);
    assert Last(s) in t;
  }

  lemma {:induction false} FrontsDecide(s: seq<nat>, t: seq<nat>)
    requires s != [] && t != [] && Last(s) == Last(t) && Front(s) == Front(t)
    ensures s == t
  {
    assert s == Front(s) + [Last(s)] && t == Front(t) + [Last(t)];
  }

  /** A subset is no longer, and as long only if it is everything. */
  lemma {:induction false} SubsetLength(s: seq<nat>, t: seq<nat>)
    requires Ascending(s) && Ascending(t) && Subset(s, t)
    ensures |s| <= |t| && (|s| == |t| ==> s == t)
  {
    HeadIsMember(s);
    if s != [] && t != [] {
      FrontsAreSubsets(s, t);
      if Last(s) == Last(t) {
        SubsetLength(Front(s), Front(t));
        if |s| == |t| {
          FrontsDecide(s, t);
        }
      } else {
        SubsetLength(s, Front(t));
      }
    }
  }

  /** Two ascending sequences with the same elements are equal: the order carries no information. */
  lemma {:induction false} AscendingUnique(s: seq<nat>, t: seq<nat>)
    requires Ascending(s) && Ascending(t) && Subset(s, t) && Subset(t, s)
    ensures s == t
  {
    SubsetLength(s, t);
    SubsetLength(t, s);
  }

  /** The length is the number of elements. */
  lemma {:induction false} AscendingSize(s: seq<nat>, elements: set<nat>)
    requires Ascending(s) && forall y: nat :: y in s <==> y in elements
    ensures |s| == |elements|
  {
    if s == [] {
      assert forall y: nat :: y !in elements;
      assert elements == {};
    } else {
      Members(s);
      AscendingSize(Front(s), elements - {Last(s)});
    }
  }

  /** Within counts elements, each once. */
  lemma {:induction false} WithinCounts(s: seq<nat>, lo: nat, hi: nat)
    requires Ascending(s)
    ensures Within(s, lo, hi) == |set c | c in s && lo <= c <= hi|
  {
    if s == [] {
    } else {
      Members(s);
      var front, all := set c | c in Front(s) && lo <= c <= hi, set c | c in s && lo <= c <= hi;
      WithinCounts(Front(s), lo, hi);
      if lo <= Last(s) <= hi {
        assert all == front + {Last(s)} && Last(s) !in front;
      } else {
        assert all == front;
      }
    }
  }

  lemma {:induction false} InsertPresent(s: seq<nat>, x: nat)
    requires Ascending(s) && x in s
    ensures Insert(s, x) == s
  {
    InsertAscends(s, x);
    AscendingUnique(Insert(s, x), s);
  }
}
