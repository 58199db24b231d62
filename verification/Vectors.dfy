// Real vectors as sequences, and their inner product.

module Vectors {
  import opened Sums

  type Vector = seq<real>

  function Dot(x: Vector, y: Vector): real
    requires |x| == |y|
  {
    if |x| == 0 then 0.0 else Dot(x[1..], y[1..]) + x[0] * y[0]
  }

  /** y + c*x */
  function AddScaled(y: Vector, c: real, x: Vector): (r: Vector)
    requires |x| == |y|
    ensures |r| == |y| && forall i: nat :: i < |r| ==> r[i] == y[i] + c * x[i]
  {
    seq(|y|, (i: int) requires 0 <= i < |y| && |x| == |y| => y[i] + c * x[i])
  }

  ghost predicate Nonzero(x: Vector) {
    exists i: nat :: i < |x| && x[i] != 0.0
  }

  lemma {:induction false} DotCommutes(x: Vector, y: Vector)
    requires |x| == |y|
    ensures Dot(x, y) == Dot(y, x)
  {
    if |x| == 0 {
    } else {
      DotCommutes(x[1..], y[1..]);
    }
  }

  lemma {:induction false} DotStep(x: Vector, y: Vector)
    requires |x| == |y| > 0
    ensures Dot(x, y) == Dot(x[1..], y[1..]) + Mul(x[0], y[0])
  {
  }

  lemma {:induction false} DotAddScaled(z: Vector, y: Vector, c: real, x: Vector)
    requires |x| == |y| == |z|
    ensures Dot(z, AddScaled(y, c, x)) == Dot(z, y) + Mul(c, Dot(z, x))
  {
    if |z| == 0 {
    } else {
      var r := AddScaled(y, c, x);
      AddScaledTail(y, c, x);
      DotAddScaled(z[1..], y[1..], c, x[1..]);
      DotStep(z, r);
      DotStep(z, y);
      DotStep(z, x);
      Distribute(Dot(z, r), Dot(z, y), Dot(z, x), Dot(z[1..], y[1..]), Dot(z[1..], x[1..]), z[0], r[0], y[0], c, x[0]);
    }
  }

  lemma {:induction false} AddScaledTail(y: Vector, c: real, x: Vector)
    requires |x| == |y| > 0
    ensures AddScaled(y, c, x)[1..] == AddScaled(y[1..], c, x[1..])
  {
    var r, tail := AddScaled(y, c, x), AddScaled(y[1..], c, x[1..]);
    assert forall i: nat :: i < |tail| ==> r[1..][i] == tail[i];
  }

  lemma {:induction false} Distribute(zr: real, zy: real, zx: real, restY: real, restX: real,
                                      z: real, r: real, y: real, c: real, x: real)
    requires r == y + c * x && zy == restY + Mul(z, y) && zx == restX + Mul(z, x)
    requires zr == (restY + Mul(c, restX)) + Mul(z, r)
    ensures zr == zy + Mul(c, zx)
  {
    assert z * r == z * y + z * (c * x);
    assert c * zx == c * restX + c * (z * x);
  }

  lemma {:induction false} AddScaledDot(y: Vector, c: real, x: Vector, z: Vector)
    requires |x| == |y| == |z|
    ensures Dot(AddScaled(y, c, x), z) == Dot(y, z) + Mul(c, Dot(x, z))
  {
    DotCommutes(AddScaled(y, c, x), z);
    DotAddScaled(z, y, c, x);
    DotCommutes(y, z);
    DotCommutes(x, z);
  }

  lemma {:induction false} DotSelf(x: Vector)
    ensures Dot(x, x) >= 0.0
    ensures Nonzero(x) ==> Dot(x, x) > 0.0
  {
    if |x| == 0 {
    } else {
      DotSelf(x[1..]);
      Square(x[0]);
      assert Mul(x[0], x[0]) == x[0] * x[0];
      if Nonzero(x) && x[0] == 0.0 {
        var i: nat :| i < |x| && x[i] != 0.0;
        assert x[1..][i - 1] != 0.0;
      }
    }
  }

  lemma {:induction false} DotZero(x: Vector, y: Vector)
    requires |x| == |y| && !Nonzero(x)
    ensures Dot(x, y) == 0.0
  {
    if |x| == 0 {
    } else {
      assert x[0] == 0.0;
      forall i: nat | i < |x[1..]|
        ensures x[1..][i] == 0.0
      {
        assert x[1..][i] == x[i + 1];
      }
      DotZero(x[1..], y[1..]);
    }
  }

  function Scaled(c: real, x: Vector): (y: Vector)
    ensures |y| == |x| && forall i: nat :: i < |y| ==> y[i] == c * x[i]
  {
    seq(|x|, (i: int) requires 0 <= i < |x| => c * x[i])
  }

  lemma {:induction false} ScaledTail(c: real, x: Vector)
    requires |x| > 0
    ensures Scaled(c, x)[1..] == Scaled(c, x[1..])
  {
    var t, tail := Scaled(c, x), Scaled(c, x[1..]);
    assert forall i: nat :: i < |tail| ==> t[1..][i] == t[i + 1] == tail[i];
  }

  lemma {:induction false} ScaledDot(c: real, x: Vector, z: Vector)
    requires |x| == |z|
    ensures Dot(Scaled(c, x), z) == Mul(c, Dot(x, z))
  {
    if |x| == 0 {
    } else {
      var t := Scaled(c, x);
      ScaledTail(c, x);
      ScaledDot(c, x[1..], z[1..]);
      DotStep(t, z);
      DotStep(x, z);
      ScaleStep(c, x[0], z[0], Dot(x[1..], z[1..]), Dot(x, z), t[0]);
    }
  }

  lemma {:induction false} ScaleStep(c: real, x: real, z: real, rest: real, total: real, t: real)
    requires t == c * x && total == rest + Mul(x, z)
    ensures Mul(c, rest) + Mul(t, z) == Mul(c, total)
  {
    assert t * z == c * (x * z);
  }
}
