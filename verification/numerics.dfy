/**
 Shared numeric vocabulary for the pointer transforms: 2D vectors over reals
 (the f32 `Vector2` of cgmath), integer points (`Vector2<i32>`), and the scalar
 operations of Rust's `f32` that the transforms use (`trunc`, `fract`,
 `signum`, `round`, `abs`).

 The square-root based length of a vector (cgmath's `magnitude`, and through it
 `distance` and `normalize`) is not defined here: it is a parameter `mag` of the
 operations that need it, constrained only by the facts the proofs use
 (`IsNorm`).
 */
module Numerics {

  /** A point or displacement with real coordinates. */
  datatype Vec = Vec(x: real, y: real) {
    function Add(o: Vec): Vec { Vec(x + o.x, y + o.y) }
    function Sub(o: Vec): Vec { Vec(x - o.x, y - o.y) }
    function Scale(c: real): Vec { Vec(c * x, c * y) }
  }

  /** A point with integer coordinates (a screen position). */
  datatype IVec = IVec(x: int, y: int) {
    function Add(o: IVec): IVec { IVec(x + o.x, y + o.y) }
  }

  const Zero: Vec := Vec(0.0, 0.0)

  function Abs(x: real): real {
    if x < 0.0 then -x else x
  }


  /** `f32::trunc`: the integer part, rounded toward zero. */
  function Trunc(x: real): (r: int)
    ensures x >= 0.0 ==> 0.0 <= r as real <= x < r as real + 1.0
    ensures x < 0.0 ==> r as real - 1.0 < x <= r as real <= 0.0
  {
    if x >= 0.0 then x.Floor else -((-x).Floor)
  }

  /** `f32::fract`: what `trunc` throws away; it has the sign of `x`. */
  function Fract(x: real): (r: real)
    ensures Trunc(x) as real + r == x
    ensures -1.0 < r < 1.0
    ensures x >= 0.0 ==> r >= 0.0
    ensures x < 0.0 ==> r <= 0.0
  {
    x - Trunc(x) as real
  }

  /** `f32::signum` as an integer: +1 for zero and positives, -1 for negatives. */
  function Signum(x: real): (r: int)
    ensures r == 1 || r == -1
    ensures x > 0.0 ==> r == 1
    ensures x < 0.0 ==> r == -1
  {
    if x >= 0.0 then 1 else -1
  }

  /** `f32::round`: to the nearest integer, halves rounded away from zero. */
  function RoundHalfAway(x: real): (r: int)
    ensures x >= 0.0 ==> r as real - 0.5 <= x < r as real + 0.5
    ensures x < 0.0 ==> r as real - 0.5 < x <= r as real + 0.5
  {
    if x >= 0.0 then (x + 0.5).Floor else -((-x + 0.5).Floor)
  }

  /** Rust's saturating `as usize` cast of an integral value: negatives become 0. */
  function ToUsize(i: int): (n: nat)
    ensures i >= 0 ==> n == i
    ensures i < 0 ==> n == 0
  {
    if i < 0 then 0 else i
  }

  /** `as f32` of an integer point (exact in the real model). */
  function ToReal(p: IVec): Vec { Vec(p.x as real, p.y as real) }

  /** `as i32` of each coordinate: truncation toward zero, so within a unit of the point and never farther from zero. */
  function TruncVec(v: Vec): (p: IVec)
    ensures Abs(p.x as real - v.x) < 1.0 && Abs(p.y as real - v.y) < 1.0
    ensures v.x >= 0.0 ==> 0 <= p.x && p.x as real <= v.x
    ensures v.x < 0.0 ==> v.x <= p.x as real && p.x <= 0
    ensures v.y >= 0.0 ==> 0 <= p.y && p.y as real <= v.y
    ensures v.y < 0.0 ==> v.y <= p.y as real && p.y <= 0
  {
    IVec(Trunc(v.x), Trunc(v.y))
  }

  /**
   The facts about a vector length that the transforms rely on: it is positive
   away from the zero vector, it scales with a non-negative factor, reversing
   a vector keeps its length, and the unit axis vectors have length 1. The Euclidean `magnitude` of
   cgmath has all of them.
   */
  ghost predicate IsNorm(mag: Vec -> real) {
    && (forall v :: v != Zero ==> mag(v) > 0.0)
    && (forall v: Vec, c: real :: c >= 0.0 ==> mag(v.Scale(c)) == c * mag(v))
    && (forall v: Vec :: mag(v.Scale(-1.0)) == mag(v))
    && mag(Vec(1.0, 0.0)) == 1.0
    && mag(Vec(0.0, 1.0)) == 1.0
  }

  /** The length of a vector under `IsNorm` is never negative, and is 0 only for `Zero`. */
  lemma NormNonNegative(mag: Vec -> real, v: Vec)
    requires IsNorm(mag)
    ensures mag(v) >= 0.0
    ensures mag(v) == 0.0 <==> v == Zero
  {
    if v == Zero {
      assert v.Scale(0.0) == Zero;
      assert mag(v.Scale(0.0)) == 0.0 * mag(v);
    }
  }

  /** Scaling by a factor in [0, 1] keeps a value between 0 and itself; strictly for a factor in (0, 1). */
  lemma ShrinkTowardZero(k: real, d: real)
    requires 0.0 <= k <= 1.0
    ensures d >= 0.0 ==> 0.0 <= k * d <= d
    ensures d <= 0.0 ==> d <= k * d <= 0.0
    ensures 0.0 < k < 1.0 && d > 0.0 ==> 0.0 < k * d < d
    ensures 0.0 < k < 1.0 && d < 0.0 ==> d < k * d < 0.0
  {
    if d >= 0.0 {
      assert k * d <= 1.0 * d;
    } else {
      assert k * (-d) <= 1.0 * (-d);
    }
  }

  lemma NonNegativeProduct(a: real, b: real)
    requires a >= 0.0 && b >= 0.0
    ensures a * b >= 0.0
  {
  }

  lemma CancelInverse(m: real, a: real)
    requires m != 0.0
    ensures m * ((1.0 / m) * a) == a
  {
    assert m * (1.0 / m) == 1.0;
  }

  /** cgmath's `distance`: the length of the difference. */
  function Distance(a: Vec, b: Vec, mag: Vec -> real): (d: real)
    requires IsNorm(mag)
    ensures d >= 0.0
    ensures d == 0.0 <==> a == b
  {
    NormNonNegative(mag, b.Sub(a));
    assert b.Sub(a) == Zero <==> a == b;
    mag(b.Sub(a))
  }

  /** cgmath's `normalize`: the vector scaled to length 1 (see `NormalizeScalesBack` for its direction). */
  function Normalize(v: Vec, mag: Vec -> real): (u: Vec)
    requires IsNorm(mag)
    requires v != Zero
    ensures mag(u) == 1.0
  {
    NormNonNegative(mag, v);
    var m := mag(v);
    assert mag(v.Scale(1.0 / m)) == (1.0 / m) * m;
    v.Scale(1.0 / m)
  }

  /** The normalized vector points the same way as the vector: scaled by the length it gives the vector back. */
  lemma NormalizeScalesBack(v: Vec, mag: Vec -> real)
    requires IsNorm(mag)
    requires v != Zero
    ensures Normalize(v, mag).Scale(mag(v)) == v
  {
    NormNonNegative(mag, v);
    CancelInverse(mag(v), v.x);
    CancelInverse(mag(v), v.y);
  }
}
