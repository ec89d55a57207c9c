/**
 The exponential smoothing primitive (`LowPassFilter` in src/transforms.rs).
 Each call blends the new sample with the previous output using a caller
 supplied smoothing factor `alpha`; the very first sample is taken as the
 previous output, so the filter starts at its input instead of at 0.
 */
module LowPass {
  import opened Numerics

  datatype LowPassFilter = LowPassFilter(firstTime: bool, hatXPrev: real)

  /** A filter that has not seen a sample yet. */
  function New(): LowPassFilter {
    LowPassFilter(true, 0.0)
  }

  /**
   One smoothing step; the result is the new state and the output.
   The output always becomes the stored previous output. On the first call it
   is the input itself; afterwards its distance from the input is the previous
   distance scaled by `1 - alpha` (see `FilterStaysBetween`).
   */
  function Filter(f: LowPassFilter, x: real, alpha: real): (r: (LowPassFilter, real))
    ensures !r.0.firstTime && r.0.hatXPrev == r.1
    ensures f.firstTime ==> r.1 == x
    ensures !f.firstTime ==> r.1 - x == (1.0 - alpha) * (f.hatXPrev - x)
  {
    var prev := if f.firstTime then x else f.hatXPrev;
    var hatx := alpha * x + (1.0 - alpha) * prev;
    assert hatx - x == (1.0 - alpha) * (prev - x) by {
      assert alpha * x == x - (1.0 - alpha) * x;
    }
    (LowPassFilter(false, hatx), hatx)
  }

  /**
   With `alpha` in [0, 1] a started filter outputs a value between its previous
   output and the input; with `alpha` strictly inside (0, 1) and a previous
   output different from the input, strictly between them.
   */
  lemma FilterStaysBetween(f: LowPassFilter, x: real, alpha: real)
    requires !f.firstTime && 0.0 <= alpha <= 1.0
    ensures x <= f.hatXPrev ==> x <= Filter(f, x, alpha).1 <= f.hatXPrev
    ensures f.hatXPrev <= x ==> f.hatXPrev <= Filter(f, x, alpha).1 <= x
    ensures 0.0 < alpha < 1.0 && x < f.hatXPrev ==> x < Filter(f, x, alpha).1 < f.hatXPrev
    ensures 0.0 < alpha < 1.0 && f.hatXPrev < x ==> f.hatXPrev < Filter(f, x, alpha).1 < x
  {
    ShrinkTowardZero(1.0 - alpha, f.hatXPrev - x);
  }

  /** `b` raised to the power `n`. */
  function Pow(b: real, n: nat): real {
    if n == 0 then 1.0 else b * Pow(b, n - 1)
  }

  /** The state after feeding the same sample `n` times with the same `alpha`. */
  function Repeat(f: LowPassFilter, x: real, alpha: real, n: nat): LowPassFilter {
    if n == 0 then f else Filter(Repeat(f, x, alpha, n - 1), x, alpha).0
  }

  /** `n` contractions of the distance between `p` and `x` by the factor `b`. */
  function Approach(p: real, x: real, b: real, n: nat): real {
    if n == 0 then p else x + b * (Approach(p, x, b, n - 1) - x)
  }

  /**
   For a constant input the filter converges geometrically: after `n` calls
   on a started filter, the error is the initial error times `(1 - alpha)^n`.
   */
  lemma ConstantInputConverges(f: LowPassFilter, x: real, alpha: real, n: nat)
    requires !f.firstTime
    ensures Repeat(f, x, alpha, n).hatXPrev - x == Pow(1.0 - alpha, n) * (f.hatXPrev - x)
  {
    RepeatApproaches(f, x, alpha, n);
    ApproachIsGeometric(f.hatXPrev, x, 1.0 - alpha, n);
  }

  /** Each repetition contracts the distance to the input by `1 - alpha`. */
  lemma {:induction false} RepeatApproaches(f: LowPassFilter, x: real, alpha: real, n: nat)
    requires !f.firstTime
    ensures !Repeat(f, x, alpha, n).firstTime
    ensures Repeat(f, x, alpha, n).hatXPrev == Approach(f.hatXPrev, x, 1.0 - alpha, n)
  {
    if n > 0 {
      RepeatApproaches(f, x, alpha, n - 1);
    }
  }

  /** `n` contractions by `b` scale the distance by `b^n`. */
  lemma {:induction false} ApproachIsGeometric(p: real, x: real, b: real, n: nat)
    ensures Approach(p, x, b, n) - x == Pow(b, n) * (p - x)
  {
    if n > 0 {
      ApproachIsGeometric(p, x, b, n - 1);
      ApproachStep(p, x, b, n);
    }
  }

  /** The inductive step of `ApproachIsGeometric`: the bound for `n - 1` gives the bound for `n`. */
  lemma ApproachStep(p: real, x: real, b: real, n: nat)
    requires n > 0
    requires Approach(p, x, b, n - 1) - x == Pow(b, n - 1) * (p - x)
    ensures Approach(p, x, b, n) - x == Pow(b, n) * (p - x)
  {
    ScaleError(Approach(p, x, b, n) - x, Approach(p, x, b, n - 1) - x,
               b, Pow(b, n - 1), Pow(b, n), p - x);
  }

  /** One step of the geometric error bound: `d = b*q`, `q = p*e` and `P = b*p` give `d = P*e`. */
  lemma ScaleError(d: real, q: real, b: real, p: real, P: real, e: real)
    requires q == p * e && d == b * q && P == b * p
    ensures d == P * e
  {
    assert b * (p * e) == (b * p) * e;
  }

  /** A filter started at `x` stays at `x` while `x` keeps arriving. */
  lemma {:induction false} FirstSampleIsFixed(x: real, alpha: real, n: nat)
    ensures Repeat(Filter(New(), x, alpha).0, x, alpha, n).hatXPrev == x
  {
    ConstantInputConverges(Filter(New(), x, alpha).0, x, alpha, n);
  }
}
