/**
 The adaptive-cutoff "1 euro" filter (`OneEuroFilter` in src/transforms.rs):
 two low-pass filters, one smoothing the estimated derivative of the signal,
 the other smoothing the signal with a cutoff that grows with that smoothed
 derivative, so fast motion lags less and slow motion jitters less.
 */
module OneEuro {
  import opened Numerics
  import LowPass

  /** pi, to the precision the proofs need: only its positivity is used. */
  const Pi: real := 3.14159265358979

  /**
   The smoothing factor for a sampling rate and a cutoff frequency:
   `1 / (1 + tau / te)` with time constant `tau = 1 / (2 pi cutoff)` and
   sampling period `te = 1 / rate`. For positive rate and cutoff it is a
   proper smoothing factor, strictly between 0 and 1.
   */
  function Alpha(rate: real, cutoff: real): (a: real)
    requires rate > 0.0 && cutoff > 0.0
    ensures 0.0 < a < 1.0
  {
    var tau := 1.0 / (2.0 * Pi * cutoff);
    var te := 1.0 / rate;
    PositiveRatio(1.0, 2.0 * Pi * cutoff);
    PositiveRatio(1.0, rate);
    PositiveRatio(tau, te);
    UnitFraction(tau / te);
    1.0 / (1.0 + tau / te)
  }

  lemma PositiveRatio(a: real, b: real)
    requires a > 0.0 && b > 0.0
    ensures a / b > 0.0
  {
  }

  lemma UnitFraction(q: real)
    requires q > 0.0
    ensures 0.0 < 1.0 / (1.0 + q) < 1.0
  {
  }

  /**
   A higher cutoff gives a larger smoothing factor, that is less smoothing:
   `tau / te` is `rate / (2 pi cutoff)`, which shrinks as the cutoff grows.
   */
  lemma AlphaMonotone(rate: real, c1: real, c2: real)
    requires rate > 0.0 && 0.0 < c1 <= c2
    ensures Alpha(rate, c1) <= Alpha(rate, c2)
  {
    var w1, w2 := 2.0 * Pi * c1, 2.0 * Pi * c2;
    assert 0.0 < w1 <= w2 by { MulLe(2.0 * Pi, c1, c2); }
    var q1 := (1.0 / w1) / (1.0 / rate);
    var q2 := (1.0 / w2) / (1.0 / rate);
    RatioOfInverses(w1, rate, q1);
    RatioOfInverses(w2, rate, q2);
    InverseAntitone(w1, w2, rate, q1, q2);
    ReciprocalAntitone(q2, q1);
  }

  lemma MulLe(k: real, a: real, b: real)
    requires k > 0.0 && 0.0 < a <= b
    ensures 0.0 < k * a <= k * b
  {
  }

  /** `(1/w) / (1/r)` is `r / w`. */
  lemma RatioOfInverses(w: real, r: real, q: real)
    requires w > 0.0 && r > 0.0 && q == (1.0 / w) / (1.0 / r)
    ensures q == r / w && q > 0.0
  {
    assert (1.0 / w) / (1.0 / r) == r / w;
  }

  /** `r / w` shrinks as `w` grows. */
  lemma InverseAntitone(w1: real, w2: real, r: real, q1: real, q2: real)
    requires 0.0 < w1 <= w2 && r > 0.0 && q1 == r / w1 && q2 == r / w2
    ensures 0.0 < q2 <= q1
  {
    assert q1 * w1 == r;
    assert q2 * w2 == r;
    assert q2 * w1 <= q2 * w2;
  }

  /** `1 / (1 + q)` grows as `q` shrinks. */
  lemma ReciprocalAntitone(q2: real, q1: real)
    requires 0.0 < q2 <= q1
    ensures 1.0 / (1.0 + q1) <= 1.0 / (1.0 + q2)
  {
    assert (1.0 + q1) * (1.0 / (1.0 + q1)) == 1.0;
    assert (1.0 + q2) * (1.0 / (1.0 + q2)) == 1.0;
  }

  datatype OneEuroFilter = OneEuroFilter(
    firstTime: bool,
    minCutoff: real,
    beta: real,
    dCutoff: real,
    xFilt: LowPass.LowPassFilter,
    dxFilt: LowPass.LowPassFilter)

  /** A filter with the given tuning that has not seen a sample yet. */
  function New(minCutoff: real, beta: real, dCutoff: real): OneEuroFilter {
    OneEuroFilter(true, minCutoff, beta, dCutoff, LowPass.New(), LowPass.New())
  }

  /** The tuning the filter is meant for: positive cutoffs and a non-negative speed coefficient. */
  predicate Tuned(f: OneEuroFilter) {
    f.minCutoff > 0.0 && f.beta >= 0.0 && f.dCutoff > 0.0
  }

  /** The adaptive cutoff for a smoothed derivative: never below the minimum cutoff. */
  function Cutoff(f: OneEuroFilter, edx: real): (c: real)
    requires Tuned(f)
    ensures c >= f.minCutoff
    ensures edx == 0.0 ==> c == f.minCutoff
  {
    assert Abs(edx) >= 0.0;
    NonNegativeProduct(f.beta, Abs(edx));
    f.minCutoff + f.beta * Abs(edx)
  }

  /** The cutoff grows with the size of the smoothed derivative: fast motion is smoothed less. */
  lemma CutoffMonotone(f: OneEuroFilter, e1: real, e2: real)
    requires Tuned(f) && Abs(e1) <= Abs(e2)
    ensures Cutoff(f, e1) <= Cutoff(f, e2)
  {
    assert f.beta * Abs(e1) <= f.beta * Abs(e2);
  }

  /**
   The derivative estimate fed to the derivative filter: 0 on the first call,
   otherwise the change from the previous filtered value times the rate.
   */
  function RawDerivative(f: OneEuroFilter, x: real, rate: real): (dx: real)
    ensures f.firstTime ==> dx == 0.0
    ensures x == f.xFilt.hatXPrev ==> dx == 0.0
  {
    if f.firstTime then 0.0 else (x - f.xFilt.hatXPrev) * rate
  }

  /**
   One filtering step with sampling interval `dt`. The tuning is kept, the
   signal filter's stored value is the output, the first call feeds a zero
   derivative and a filter whose signal filter is fresh returns its input.
   */
  function Filter(f: OneEuroFilter, x: real, dt: real): (r: (OneEuroFilter, real))
    requires dt > 0.0
    requires Tuned(f)
    ensures r.0.minCutoff == f.minCutoff && r.0.beta == f.beta && r.0.dCutoff == f.dCutoff
    ensures Tuned(r.0)
    ensures !r.0.firstTime && !r.0.xFilt.firstTime && !r.0.dxFilt.firstTime
    ensures r.0.xFilt.hatXPrev == r.1
    ensures f.firstTime && f.dxFilt.firstTime ==> r.0.dxFilt.hatXPrev == 0.0
    ensures f.xFilt.firstTime ==> r.1 == x
  {
    var rate := 1.0 / dt;
    var dx := RawDerivative(f, x, rate);
    var d := LowPass.Filter(f.dxFilt, dx, Alpha(rate, f.dCutoff));
    var cutoff := Cutoff(f, d.1);
    var s := LowPass.Filter(f.xFilt, x, Alpha(rate, cutoff));
    (f.(firstTime := false, xFilt := s.0, dxFilt := d.0), s.1)
  }

  /**
   A started filter moves its output toward the input: the output lies between
   the previous output and the input, strictly when they differ.
   */
  lemma FilterApproachesInput(f: OneEuroFilter, x: real, dt: real)
    requires dt > 0.0 && Tuned(f)
    requires !f.xFilt.firstTime
    ensures x <= f.xFilt.hatXPrev ==> x <= Filter(f, x, dt).1 <= f.xFilt.hatXPrev
    ensures f.xFilt.hatXPrev <= x ==> f.xFilt.hatXPrev <= Filter(f, x, dt).1 <= x
    ensures x < f.xFilt.hatXPrev ==> x < Filter(f, x, dt).1 < f.xFilt.hatXPrev
    ensures f.xFilt.hatXPrev < x ==> f.xFilt.hatXPrev < Filter(f, x, dt).1 < x
  {
    var rate := 1.0 / dt;
    var d := LowPass.Filter(f.dxFilt, RawDerivative(f, x, rate), Alpha(rate, f.dCutoff));
    LowPass.FilterStaysBetween(f.xFilt, x, Alpha(rate, Cutoff(f, d.1)));
  }

  /**
   A filter at rest on `x`: started, its signal filter holding `x` and its
   derivative filter holding 0.
   */
  predicate Settled(f: OneEuroFilter, x: real) {
    && !f.firstTime && !f.xFilt.firstTime && !f.dxFilt.firstTime
    && f.xFilt.hatXPrev == x && f.dxFilt.hatXPrev == 0.0
  }

  /** The first call of a fresh filter returns its input and leaves the filter at rest on it. */
  lemma FirstCallSettles(minCutoff: real, beta: real, dCutoff: real, x: real, dt: real)
    requires dt > 0.0 && Tuned(New(minCutoff, beta, dCutoff))
    ensures Filter(New(minCutoff, beta, dCutoff), x, dt).1 == x
    ensures Settled(Filter(New(minCutoff, beta, dCutoff), x, dt).0, x)
  {
  }

  /**
   A filter at rest on `x` fed `x` again stays exactly where it is: the
   derivative estimate is 0, the cutoff is the minimum cutoff and the output is `x`.
   */
  lemma SettledIsFixed(f: OneEuroFilter, x: real, dt: real)
    requires dt > 0.0 && Tuned(f) && Settled(f, x)
    ensures Filter(f, x, dt) == (f, x)
  {
    var rate := 1.0 / dt;
    var d := LowPass.Filter(f.dxFilt, 0.0, Alpha(rate, f.dCutoff));
    assert d.1 == 0.0 by {
      LowPass.FilterStaysBetween(f.dxFilt, 0.0, Alpha(rate, f.dCutoff));
    }
    assert Cutoff(f, d.1) == f.minCutoff;
    LowPass.FilterStaysBetween(f.xFilt, x, Alpha(rate, f.minCutoff));
  }

  // ---------------------------------------------------------------------------
  // Contraction toward the input

  /**
   The least smoothing factor a filter can use at interval `dt`: the one for
   the minimum cutoff. Every step uses at least this much of the input.
   */
  function MinAlpha(f: OneEuroFilter, dt: real): (a: real)
    requires dt > 0.0 && Tuned(f)
    ensures 0.0 < a < 1.0
  {
    Alpha(1.0 / dt, f.minCutoff)
  }

  /**
   One step of a started filter shrinks the distance from its output to the
   input by at least the factor `1 - MinAlpha`, whatever the derivative does.
   */
  lemma StepContracts(f: OneEuroFilter, x: real, dt: real)
    requires dt > 0.0 && Tuned(f) && !f.xFilt.firstTime
    ensures Abs(Filter(f, x, dt).0.xFilt.hatXPrev - x) <= (1.0 - MinAlpha(f, dt)) * Abs(f.xFilt.hatXPrev - x)
  {
    var rate := 1.0 / dt;
    var d := LowPass.Filter(f.dxFilt, RawDerivative(f, x, rate), Alpha(rate, f.dCutoff));
    var c := Cutoff(f, d.1);
    var a := Alpha(rate, c);
    AlphaMonotone(rate, f.minCutoff, c);
    var s := LowPass.Filter(f.xFilt, x, a);
    assert Filter(f, x, dt).0.xFilt.hatXPrev == s.1;
    ContractBound(f.xFilt.hatXPrev - x, s.1 - x, 1.0 - a, 1.0 - MinAlpha(f, dt));
  }

  /** `e' = k e` with `0 <= k <= k0` gives `|e'| <= k0 |e|`. */
  lemma ContractBound(e: real, e': real, k: real, k0: real)
    requires e' == k * e && 0.0 <= k <= k0
    ensures Abs(e') <= k0 * Abs(e)
  {
    if e >= 0.0 {
      assert k * e <= k0 * e;
    } else {
      assert k * (-e) <= k0 * (-e);
    }
  }
}
