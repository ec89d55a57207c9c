/**
 The fractional-motion accumulator (`AccumulatingRounder` in
 src/transforms.rs): each value is split into its integer part, which is
 emitted, and its fraction, which is carried; whenever the carried amount
 reaches a whole unit in size, one unit of it is emitted as well. Nothing is
 lost, and the carry never reaches a whole unit.
 */
module Rounding {
  import opened Numerics

  datatype AccumulatingRounder = AccumulatingRounder(accum: real)

  /** A rounder with nothing carried. */
  function New(): AccumulatingRounder {
    AccumulatingRounder(0.0)
  }

  /** The carry is less than one unit in size. */
  predicate Bounded(r: AccumulatingRounder) {
    -1.0 < r.accum < 1.0
  }

  /**
   One rounding step; the result is the new state and the emitted integer.
   The emitted integer plus the new carry equals the value plus the old carry,
   a bounded carry stays bounded, and the emitted integer is the truncation of
   the value nudged by at most one unit. A unit is only nudged out once the
   carry plus the fraction reaches one in size, so the new carry keeps the
   sign of that sum (see `RoundDetermined`).
   */
  function Round(r: AccumulatingRounder, x: real): (res: (AccumulatingRounder, int))
    ensures res.1 as real + res.0.accum == x + r.accum
    ensures Bounded(r) ==> Bounded(res.0)
    ensures Trunc(x) - 1 <= res.1 <= Trunc(x) + 1
    ensures r.accum + Fract(x) >= 0.0 ==> res.0.accum >= 0.0
    ensures r.accum + Fract(x) <= 0.0 ==> res.0.accum <= 0.0
  {
    var acc := r.accum + Fract(x);
    if Abs(acc) >= 1.0 then
      var nudge := Signum(acc);
      (AccumulatingRounder(acc - nudge as real), Trunc(x) + nudge)
    else
      (AccumulatingRounder(acc), Trunc(x))
  }

  /**
   The contract of `Round` pins it down: from a bounded carry, any emitted
   integer and new carry that conserve the total, keep the carry under one
   unit and keep the sign of carry plus fraction are the ones `Round` gives.
   */
  lemma RoundDetermined(r: AccumulatingRounder, x: real, carry: real, n: int)
    requires Bounded(r)
    requires n as real + carry == x + r.accum && -1.0 < carry < 1.0
    requires r.accum + Fract(x) >= 0.0 ==> carry >= 0.0
    requires r.accum + Fract(x) <= 0.0 ==> carry <= 0.0
    ensures Round(r, x) == (AccumulatingRounder(carry), n)
  {
    var acc := r.accum + Fract(x);
    var k := n - Trunc(x);
    assert acc - carry == k as real;
    var res := Round(r, x);
    var k' := res.1 - Trunc(x);
    assert acc - res.0.accum == k' as real;
    assert carry - res.0.accum == (k' - k) as real;
    assert k == k';
  }

  /** Feeds the values in order; the result is the final state and the emitted integers. */
  function RoundAll(r: AccumulatingRounder, xs: seq<real>): (res: (AccumulatingRounder, seq<int>))
    ensures |res.1| == |xs|
    decreases |xs|
  {
    if |xs| == 0 then (r, [])
    else
      var first := Round(r, xs[0]);
      var rest := RoundAll(first.0, xs[1..]);
      (rest.0, [first.1] + rest.1)
  }

  function SumReal(xs: seq<real>): real {
    if |xs| == 0 then 0.0 else xs[0] + SumReal(xs[1..])
  }

  function SumInt(xs: seq<int>): int {
    if |xs| == 0 then 0 else xs[0] + SumInt(xs[1..])
  }

  /**
   Conservation over a whole sequence: everything emitted plus the final carry
   equals everything fed plus the initial carry, and a bounded carry stays
   bounded throughout.
   */
  lemma {:induction false} RoundAllConserves(r: AccumulatingRounder, xs: seq<real>)
    ensures SumInt(RoundAll(r, xs).1) as real + RoundAll(r, xs).0.accum == SumReal(xs) + r.accum
    ensures Bounded(r) ==> Bounded(RoundAll(r, xs).0)
    decreases |xs|
  {
    if |xs| > 0 {
      var first := Round(r, xs[0]);
      RoundAllConserves(first.0, xs[1..]);
    }
  }

  /**
   Starting from a fresh rounder, the running sum of the emitted integers is
   always within one unit of the running sum of the values fed.
   */
  lemma RunningSumWithinOne(xs: seq<real>)
    ensures Abs(SumInt(RoundAll(New(), xs).1) as real - SumReal(xs)) < 1.0
  {
    RoundAllConserves(New(), xs);
  }

  /**
   Feeding `xs` then `ys` is feeding `xs`, then feeding `ys` from the state
   `xs` left behind: the emitted integers are concatenated.
   */
  lemma {:induction false} RoundAllAppend(r: AccumulatingRounder, xs: seq<real>, ys: seq<real>)
    ensures var a := RoundAll(r, xs);
            var b := RoundAll(a.0, ys);
            RoundAll(r, xs + ys) == (b.0, a.1 + b.1)
    decreases |xs|
  {
    if |xs| > 0 {
      var first := Round(r, xs[0]);
      assert (xs + ys)[0] == xs[0];
      assert (xs + ys)[1..] == xs[1..] + ys;
      RoundAllAppend(first.0, xs[1..], ys);
      var rest := RoundAll(first.0, xs[1..]);
      var b := RoundAll(rest.0, ys);
      assert RoundAll(r, xs + ys) == (b.0, [first.1] + (rest.1 + b.1));
      assert RoundAll(r, xs) == (rest.0, [first.1] + rest.1);
      assert [first.1] + (rest.1 + b.1) == ([first.1] + rest.1) + b.1;
    } else {
      assert xs + ys == ys;
      assert RoundAll(r, xs).1 + RoundAll(r, ys).1 == RoundAll(r, ys).1;
    }
  }

  /** Feeding 0.3 four times emits 0, 0, 0, 1 and leaves 0.2 carried. */
  lemma FourFractions()
    ensures RoundAll(New(), [0.3, 0.3, 0.3, 0.3]) == (AccumulatingRounder(0.2), [0, 0, 0, 1])
  {
    assert Trunc(0.3) == 0 && Fract(0.3) == 0.3;
    var r4 := RoundAll(AccumulatingRounder(0.2), []);
    var r3 := RoundAll(AccumulatingRounder(0.9), [0.3]);
    assert [0.3][1..] == [];
    assert r3.0 == r4.0 == AccumulatingRounder(0.2);
    assert r3.1 == [1] + r4.1 == [1];
    var r2 := RoundAll(AccumulatingRounder(0.6), [0.3, 0.3]);
    assert [0.3, 0.3][1..] == [0.3];
    assert r2.0 == r3.0;
    assert r2.1 == [0] + r3.1 == [0, 1];
    var r1 := RoundAll(AccumulatingRounder(0.3), [0.3, 0.3, 0.3]);
    assert [0.3, 0.3, 0.3][1..] == [0.3, 0.3];
    assert r1.0 == r2.0;
    assert r1.1 == [0] + r2.1 == [0, 0, 1];
    var r0 := RoundAll(New(), [0.3, 0.3, 0.3, 0.3]);
    assert [0.3, 0.3, 0.3, 0.3][1..] == [0.3, 0.3, 0.3];
    assert r0.0 == r1.0;
    assert r0.1 == [0] + r1.1 == [0, 0, 0, 1];
  }

  /** With 0.2 carried, feeding 0.3 three times emits 0, 0, 1 and leaves 0.1 carried. */
  lemma ThreeMoreFractions()
    ensures RoundAll(AccumulatingRounder(0.2), [0.3, 0.3, 0.3]) == (AccumulatingRounder(0.1), [0, 0, 1])
  {
    assert Trunc(0.3) == 0 && Fract(0.3) == 0.3;
    var r3 := RoundAll(AccumulatingRounder(0.1), []);
    var r2 := RoundAll(AccumulatingRounder(0.8), [0.3]);
    assert [0.3][1..] == [];
    assert r2.0 == r3.0 == AccumulatingRounder(0.1);
    assert r2.1 == [1] + r3.1 == [1];
    var r1 := RoundAll(AccumulatingRounder(0.5), [0.3, 0.3]);
    assert [0.3, 0.3][1..] == [0.3];
    assert r1.0 == r2.0;
    assert r1.1 == [0] + r2.1 == [0, 1];
    var r0 := RoundAll(AccumulatingRounder(0.2), [0.3, 0.3, 0.3]);
    assert [0.3, 0.3, 0.3][1..] == [0.3, 0.3];
    assert r0.0 == r1.0;
    assert r0.1 == [0] + r1.1 == [0, 0, 1];
  }

  /**
   A constant 0.3 fed seven times from a fresh rounder emits 0, 0, 0, 1, 0, 0, 1:
   the carry reaches a whole pixel after four samples and again after three
   more, because the first nudge leaves 0.2 carried.
   */
  lemma ConstantFractionExample()
    ensures RoundAll(New(), [0.3, 0.3, 0.3, 0.3, 0.3, 0.3, 0.3]) == (AccumulatingRounder(0.1), [0, 0, 0, 1, 0, 0, 1])
  {
    FourFractions();
    ThreeMoreFractions();
    RoundAllAppend(New(), [0.3, 0.3, 0.3, 0.3], [0.3, 0.3, 0.3]);
    assert [0.3, 0.3, 0.3, 0.3] + [0.3, 0.3, 0.3] == [0.3, 0.3, 0.3, 0.3, 0.3, 0.3, 0.3];
    assert [0, 0, 0, 1] + [0, 0, 1] == [0, 0, 0, 1, 0, 0, 1];
  }
}
