/**
 The pointer acceleration curve (`Acceleration` in src/transforms.rs): a
 displacement is multiplied by a gain that follows a logistic curve between
 `cdMin` and `cdMax`, centred on the velocity `vInf` that splits `[vMin, vMax]`
 at `ratio`. The curve's input is the displacement times `dt`, as written.

 `f32::exp` is a parameter: the facts used are that it is positive and, for
 the monotonicity result, increasing.
 */
module PointerAcceleration {
  import opened Numerics

  datatype Acceleration = Acceleration(cdMin: real, cdMax: real, vMin: real, vMax: real, lambda: real, ratio: real)

  ghost predicate PositiveFn(exp: real -> real) {
    forall e :: exp(e) > 0.0
  }

  ghost predicate IncreasingFn(exp: real -> real) {
    forall u, v :: u < v ==> exp(u) < exp(v)
  }

  /** The velocity at the midpoint of the logistic curve. */
  function VInf(a: Acceleration): real {
    a.ratio * (a.vMax - a.vMin) + a.vMin
  }

  /** The exponent of the logistic curve for an input velocity. */
  function Exponent(a: Acceleration, rawVel: real): real {
    -a.lambda * (Abs(rawVel) - VInf(a))
  }

  /** The logistic curve as a function of the value of the exponential. */
  function Curve(a: Acceleration, e: real): real
    requires e > 0.0
  {
    (a.cdMax - a.cdMin) / (1.0 + e) + a.cdMin
  }

  /** The gain for an input velocity: within `[cdMin, cdMax]` when `cdMin <= cdMax`. */
  function Gain(a: Acceleration, rawVel: real, exp: real -> real): (cd: real)
    requires PositiveFn(exp)
    ensures a.cdMin <= a.cdMax ==> a.cdMin <= cd <= a.cdMax
  {
    var e := exp(Exponent(a, rawVel));
    assert a.cdMin <= a.cdMax ==> a.cdMin <= Curve(a, e) <= a.cdMax by {
      if a.cdMin <= a.cdMax {
        ScaledFraction(a.cdMax - a.cdMin, e);
      }
    }
    Curve(a, e)
  }

  lemma ScaledFraction(w: real, e: real)
    requires e > 0.0 && w >= 0.0
    ensures 0.0 <= w / (1.0 + e) <= w
  {
  }

  /** The accelerated displacement: a zero displacement stays zero. */
  function Transform(a: Acceleration, diff: real, dt: real, exp: real -> real): (r: real)
    requires PositiveFn(exp)
    ensures diff == 0.0 ==> r == 0.0
  {
    diff * Gain(a, diff * dt, exp)
  }

  /**
   With `0 <= cdMin <= cdMax` the accelerated displacement keeps the sign of
   the displacement and its size is between `cdMin` and `cdMax` times the
   displacement's size.
   */
  lemma TransformBounds(a: Acceleration, diff: real, dt: real, exp: real -> real)
    requires PositiveFn(exp)
    requires 0.0 <= a.cdMin <= a.cdMax
    ensures Abs(diff) * a.cdMin <= Abs(Transform(a, diff, dt, exp)) <= Abs(diff) * a.cdMax
    ensures diff >= 0.0 ==> Transform(a, diff, dt, exp) >= 0.0
    ensures diff <= 0.0 ==> Transform(a, diff, dt, exp) <= 0.0
  {
    var g := Gain(a, diff * dt, exp);
    ProductBounds(diff, g, a.cdMin, a.cdMax);
  }

  lemma ProductBounds(d: real, g: real, lo: real, hi: real)
    requires 0.0 <= lo <= g <= hi
    ensures Abs(d) * lo <= Abs(d * g) <= Abs(d) * hi
    ensures d >= 0.0 ==> d * g >= 0.0
    ensures d <= 0.0 ==> d * g <= 0.0
  {
    if d >= 0.0 {
      assert d * lo <= d * g <= d * hi;
    } else {
      assert (-d) * lo <= (-d) * g <= (-d) * hi;
      assert Abs(d * g) == (-d) * g;
    }
  }

  /**
   With an increasing `exp`, a non-negative `lambda` and `cdMin <= cdMax`, the
   gain never decreases as the input velocity grows in size.
   */
  lemma GainMonotone(a: Acceleration, v1: real, v2: real, exp: real -> real)
    requires PositiveFn(exp) && IncreasingFn(exp)
    requires a.lambda >= 0.0 && a.cdMin <= a.cdMax
    requires Abs(v1) <= Abs(v2)
    ensures Gain(a, v1, exp) <= Gain(a, v2, exp)
  {
    var e1, e2 := Exponent(a, v1), Exponent(a, v2);
    assert e2 <= e1 by {
      NegMulAntitone(a.lambda, Abs(v1) - VInf(a), Abs(v2) - VInf(a));
    }
    assert exp(e2) <= exp(e1);
    CurveAntitone(a, exp(e2), exp(e1));
  }

  lemma NegMulAntitone(k: real, u: real, v: real)
    requires k >= 0.0 && u <= v
    ensures -k * v <= -k * u
  {
    assert k * u <= k * v;
  }

  lemma CurveAntitone(a: Acceleration, e2: real, e1: real)
    requires a.cdMin <= a.cdMax && 0.0 < e2 <= e1
    ensures Curve(a, e1) <= Curve(a, e2)
  {
    FractionAntitone(a.cdMax - a.cdMin, e2, e1);
  }

  lemma FractionAntitone(w: real, e2: real, e1: real)
    requires w >= 0.0 && 0.0 < e2 <= e1
    ensures w / (1.0 + e1) <= w / (1.0 + e2)
  {
    assert (1.0 + e2) * (w / (1.0 + e2)) == w;
    assert (1.0 + e1) * (w / (1.0 + e1)) == w;
  }
}
