/**
 The gaze-plus-head pointer (`PolyMouseTransform` in src/transforms.rs). The
 pointer is normally moved by head motion, rounded to whole pixels by one
 accumulating rounder per axis ("tracking"). When the user looks far from the
 pointer while moving the head fast enough, the pointer is "thrown" toward
 the gaze point at a fixed speed; the throw ends with a "snap" onto the circle
 of radius `minJump` around the gaze point, which is remembered as the last
 jump destination.

 Vector lengths come from the parameter `mag` (see `Numerics.IsNorm`).
 */
module PolyMouse {
  import opened Numerics
  import Rounding

  datatype Params = Params(
    minJump: real,
    speedExpandFactor: real,
    headSmoothingFactor: real,
    throwThreshSpeed: real,
    throwSpeed: real,
    smallJumpFactor: real)

  datatype PolyMouseTransform = PolyMouseTransform(
    params: Params,
    throwing: bool,
    smoothedHeadSpeed: real,
    lastJumpDestination: Vec,
    xRound: Rounding.AccumulatingRounder,
    yRound: Rounding.AccumulatingRounder)

  /** Tracking, with no smoothed speed, the last jump at the origin and nothing carried. */
  function New(params: Params): PolyMouseTransform {
    PolyMouseTransform(params, false, 0.0, Zero, Rounding.New(), Rounding.New())
  }

  /**
   What every reachable state satisfies when the smoothing factor is in
   [0, 1]: both carries are under one pixel and the smoothed speed is not negative.
   */
  predicate Inv(s: PolyMouseTransform) {
    Rounding.Bounded(s.xRound) && Rounding.Bounded(s.yRound) && s.smoothedHeadSpeed >= 0.0
  }

  // ---------------------------------------------------------------------------
  // Head speed smoothing and the throw guard

  /**
   The smoothed head speed after a head displacement over `dt`: a blend of the
   old smoothed speed and the new speed `mag(headDelta) / dt`. With the factor
   in [0, 1] it lies between the two, so it stays non-negative.
   */
  function SmoothSpeed(s: PolyMouseTransform, headDelta: Vec, dt: real, mag: Vec -> real): (v: real)
    requires dt > 0.0 && IsNorm(mag)
    ensures var k, prev, now := s.params.headSmoothingFactor, s.smoothedHeadSpeed, mag(headDelta) / dt;
            && (0.0 <= k <= 1.0 && prev <= now ==> prev <= v <= now)
            && (0.0 <= k <= 1.0 && now <= prev ==> now <= v <= prev)
  {
    var k := s.params.headSmoothingFactor;
    var headSpeed := mag(headDelta) / dt;
    var v := s.smoothedHeadSpeed * (1.0 - k) + headSpeed * k;
    assert 0.0 <= k <= 1.0 ==>
             && (s.smoothedHeadSpeed <= headSpeed ==> s.smoothedHeadSpeed <= v <= headSpeed)
             && (headSpeed <= s.smoothedHeadSpeed ==> headSpeed <= v <= s.smoothedHeadSpeed) by {
      if 0.0 <= k <= 1.0 {
        Blend(s.smoothedHeadSpeed, headSpeed, k);
      }
    }
    v
  }

  /** `a * (1 - k) + b * k` with `k` in [0, 1] lies between `a` and `b`. */
  lemma Blend(a: real, b: real, k: real)
    requires 0.0 <= k <= 1.0
    ensures a <= b ==> a <= a * (1.0 - k) + b * k <= b
    ensures b <= a ==> b <= a * (1.0 - k) + b * k <= a
  {
    if a <= b {
      BlendStep(a, b, k, b - a, k * (b - a));
      Fraction(k, b - a, k * (b - a));
    } else {
      BlendStep(b, a, 1.0 - k, a - b, (1.0 - k) * (a - b));
      Fraction(1.0 - k, a - b, (1.0 - k) * (a - b));
    }
  }

  /** `a * (1 - k) + b * k` is `a` moved by `kd = k * d` where `d = b - a`, and it is symmetric in the roles of `a` and `b`. */
  lemma BlendStep(a: real, b: real, k: real, d: real, kd: real)
    requires d == b - a && kd == k * d
    ensures a * (1.0 - k) + b * k == a + kd
    ensures b * (1.0 - (1.0 - k)) + a * (1.0 - k) == a * (1.0 - k) + b * k
  {
  }

  /** A fraction `k` in [0, 1] of a non-negative `d` is between 0 and `d`. */
  lemma Fraction(k: real, d: real, kd: real)
    requires 0.0 <= k <= 1.0 && d >= 0.0 && kd == k * d
    ensures 0.0 <= kd <= d
  {
    assert kd >= 0.0 by { NonNegativeProduct(k, d); }
    assert (1.0 - k) * d >= 0.0 by { NonNegativeProduct(1.0 - k, d); }
    assert kd + (1.0 - k) * d == d;
  }

  /** The radius around the pointer beyond which the gaze counts as far away; it grows with the head speed. */
  function JumpRadius(s: PolyMouseTransform): real {
    s.params.minJump + s.smoothedHeadSpeed * s.params.speedExpandFactor
  }

  /**
   The gaze is farther from the pointer than the jump radius, and farther from
   the last jump destination than the small-jump radius. With non-negative
   radii both points then differ from the gaze point (see `FarAwayAvoidsGaze`).
   */
  function LookingFarAway(s: PolyMouseTransform, gaze: Vec, mouse: Vec, mag: Vec -> real): (far: bool)
    requires IsNorm(mag)
    ensures far && JumpRadius(s) >= 0.0 ==> mouse != gaze
    ensures far && JumpRadius(s) * s.params.smallJumpFactor >= 0.0 ==> s.lastJumpDestination != gaze
  {
    var jumpRadius := JumpRadius(s);
    var smallJump := jumpRadius * s.params.smallJumpFactor;
    Distance(mouse, gaze, mag) > jumpRadius && Distance(s.lastJumpDestination, gaze, mag) > smallJump
  }

  /** The state after smoothing the head speed, before the guard. */
  function Smoothed(s: PolyMouseTransform, headDelta: Vec, dt: real, mag: Vec -> real): PolyMouseTransform
    requires dt > 0.0 && IsNorm(mag)
  {
    s.(smoothedHeadSpeed := SmoothSpeed(s, headDelta, dt, mag))
  }

  /** The condition that starts a throw: looking far away with a smoothed speed over the threshold. */
  predicate StartsThrow(s: PolyMouseTransform, gaze: Vec, mouse: Vec, mag: Vec -> real)
    requires IsNorm(mag)
  {
    LookingFarAway(s, gaze, mouse, mag) && s.smoothedHeadSpeed > s.params.throwThreshSpeed
  }

  /** The step takes the throw branch: already throwing, or a throw starts now. */
  predicate ThrowBranch(s: PolyMouseTransform, gaze: Vec, mouse: IVec, headDelta: Vec, dt: real, mag: Vec -> real)
    requires dt > 0.0 && IsNorm(mag)
  {
    s.throwing || StartsThrow(Smoothed(s, headDelta, dt, mag), gaze, ToReal(mouse), mag)
  }

  // ---------------------------------------------------------------------------
  // The throw

  /** The distance covered by one throw step. */
  function ThrowDist(s: PolyMouseTransform, dt: real): real {
    s.params.throwSpeed * dt
  }

  /** The throw keeps going: the gaze is farther than one throw step plus the minimum jump. */
  predicate ThrowContinues(s: PolyMouseTransform, gaze: Vec, mouse: Vec, dt: real, mag: Vec -> real)
    requires IsNorm(mag)
  {
    Distance(mouse, gaze, mag) > ThrowDist(s, dt) + s.params.minJump
  }

  /** The unit direction from the pointer to the gaze point. */
  function Direction(gaze: Vec, mouse: Vec, mag: Vec -> real): (u: Vec)
    requires IsNorm(mag) && gaze != mouse
    ensures mag(u) == 1.0
  {
    assert gaze.Sub(mouse) != Zero;
    Normalize(gaze.Sub(mouse), mag)
  }

  /** Going the distance along the direction leads from the pointer to the gaze point. */
  lemma DirectionReachesGaze(gaze: Vec, mouse: Vec, mag: Vec -> real)
    requires IsNorm(mag) && gaze != mouse
    ensures Direction(gaze, mouse, mag).Scale(Distance(mouse, gaze, mag)) == gaze.Sub(mouse)
  {
    assert gaze.Sub(mouse) != Zero;
    NormalizeScalesBack(gaze.Sub(mouse), mag);
  }

  /**
   The real-valued destination of a throw step: one throw step toward the gaze
   point while the throw continues, otherwise the point `minJump` short of the
   gaze point on the line from the pointer.
   */
  function ThrowDestination(s: PolyMouseTransform, gaze: Vec, mouse: Vec, dt: real, mag: Vec -> real): (d: Vec)
    requires IsNorm(mag) && gaze != mouse
    ensures ThrowContinues(s, gaze, mouse, dt, mag) ==>
      d.Sub(mouse) == Direction(gaze, mouse, mag).Scale(ThrowDist(s, dt))
    ensures ThrowContinues(s, gaze, mouse, dt, mag) && ThrowDist(s, dt) >= 0.0 ==>
      Distance(mouse, d, mag) == ThrowDist(s, dt)
    ensures !ThrowContinues(s, gaze, mouse, dt, mag) ==>
      gaze.Sub(d) == Direction(gaze, mouse, mag).Scale(s.params.minJump)
    ensures !ThrowContinues(s, gaze, mouse, dt, mag) && s.params.minJump >= 0.0 ==>
      Distance(d, gaze, mag) == s.params.minJump
  {
    var dirn := Direction(gaze, mouse, mag);
    var t := ThrowDist(s, dt);
    var j := s.params.minJump;
    ScaledLength(mag, dirn, t);
    ScaledLength(mag, dirn, j);
    if ThrowContinues(s, gaze, mouse, dt, mag) then mouse.Add(dirn.Scale(t))
    else gaze.Add(dirn.Scale(-j))
  }

  /**
   One throw step on a state in the throw branch. A continuing throw keeps
   throwing and keeps the last jump destination; a snap stops throwing and
   records the gaze point as the last jump destination. The output is the
   destination truncated toward zero: within a pixel of it on each axis, and
   never farther from zero.
   */
  function Throw(t: PolyMouseTransform, gaze: Vec, mouse: Vec, dt: real, mag: Vec -> real): (r: (PolyMouseTransform, IVec))
    requires IsNorm(mag) && gaze != mouse
    ensures r.0.params == t.params && r.0.smoothedHeadSpeed == t.smoothedHeadSpeed
    ensures r.0.xRound == t.xRound && r.0.yRound == t.yRound
    ensures ThrowContinues(t, gaze, mouse, dt, mag) ==>
              r.0.throwing == t.throwing && r.0.lastJumpDestination == t.lastJumpDestination
    ensures !ThrowContinues(t, gaze, mouse, dt, mag) ==>
              !r.0.throwing && r.0.lastJumpDestination == gaze
    ensures var dest := ThrowDestination(t, gaze, mouse, dt, mag);
            Abs(r.1.x as real - dest.x) < 1.0 && Abs(r.1.y as real - dest.y) < 1.0
    ensures var dest := ThrowDestination(t, gaze, mouse, dt, mag);
            && (dest.x >= 0.0 ==> 0 <= r.1.x && r.1.x as real <= dest.x)
            && (dest.x < 0.0 ==> dest.x <= r.1.x as real && r.1.x <= 0)
            && (dest.y >= 0.0 ==> 0 <= r.1.y && r.1.y as real <= dest.y)
            && (dest.y < 0.0 ==> dest.y <= r.1.y as real && r.1.y <= 0)
  {
    var destF := ThrowDestination(t, gaze, mouse, dt, mag);
    var t' := if ThrowContinues(t, gaze, mouse, dt, mag) then t
              else t.(lastJumpDestination := gaze, throwing := false);
    (t', TruncVec(destF))
  }

  /**
   A continuing throw with a non-negative step and minimum jump moves the real
   destination straight toward the gaze point: its distance to the gaze is the
   old distance less one throw step, and still more than the minimum jump.
   */
  lemma ThrowApproachesGaze(s: PolyMouseTransform, gaze: Vec, mouse: Vec, dt: real, mag: Vec -> real)
    requires IsNorm(mag) && gaze != mouse
    requires ThrowDist(s, dt) >= 0.0 && s.params.minJump >= 0.0
    requires ThrowContinues(s, gaze, mouse, dt, mag)
    ensures Distance(ThrowDestination(s, gaze, mouse, dt, mag), gaze, mag)
            == Distance(mouse, gaze, mag) - ThrowDist(s, dt)
    ensures Distance(ThrowDestination(s, gaze, mouse, dt, mag), gaze, mag) > s.params.minJump
  {
    DirectionReachesGaze(gaze, mouse, mag);
    var u := Direction(gaze, mouse, mag);
    var m := Distance(mouse, gaze, mag);
    var t := ThrowDist(s, dt);
    var dest := mouse.Add(u.Scale(t));
    assert gaze.Sub(dest) == u.Scale(m - t) by {
      RemainingLeg(gaze.x, mouse.x, u.x, m, t);
      RemainingLeg(gaze.y, mouse.y, u.y, m, t);
    }
    assert mag(u.Scale(m - t)) == (m - t) * mag(u);
  }

  /** `g - (p + t*u) == (m - t) * u` when `m * u == g - p`. */
  lemma RemainingLeg(g: real, p: real, u: real, m: real, t: real)
    requires m * u == g - p
    ensures g - (p + t * u) == (m - t) * u
  {
  }

  /**
   A snap with a non-negative minimum jump lands exactly `minJump` from the
   gaze point (before truncation to pixels).
   */
  lemma SnapLandsNearGaze(s: PolyMouseTransform, gaze: Vec, mouse: Vec, dt: real, mag: Vec -> real)
    requires IsNorm(mag) && gaze != mouse
    requires s.params.minJump >= 0.0
    requires !ThrowContinues(s, gaze, mouse, dt, mag)
    ensures Distance(ThrowDestination(s, gaze, mouse, dt, mag), gaze, mag) == s.params.minJump
  {
    var u := Direction(gaze, mouse, mag);
    var j := s.params.minJump;
    var dest := gaze.Add(u.Scale(-j));
    assert gaze.Sub(dest) == u.Scale(j);
    assert mag(u.Scale(j)) == j * mag(u);
  }

  /**
   Both jump radii being non-negative, a throw only starts when the gaze is
   away from the pointer, so the throw direction is defined on that step.
   */
  lemma FarAwayAvoidsGaze(s: PolyMouseTransform, gaze: Vec, mouse: Vec, mag: Vec -> real)
    requires IsNorm(mag)
    requires s.params.minJump >= 0.0 && s.smoothedHeadSpeed >= 0.0 && s.params.speedExpandFactor >= 0.0
    requires StartsThrow(s, gaze, mouse, mag)
    ensures mouse != gaze
  {
    assert s.smoothedHeadSpeed * s.params.speedExpandFactor >= 0.0 by {
      NonNegativeProduct(s.smoothedHeadSpeed, s.params.speedExpandFactor);
    }
  }

  /** Whether a throw continues, and where it lands, depend on the parameters only. */
  lemma SameParamsSameThrow(t: PolyMouseTransform, s: PolyMouseTransform, gaze: Vec, mouse: Vec, dt: real, mag: Vec -> real)
    requires IsNorm(mag) && t.params == s.params
    ensures ThrowContinues(t, gaze, mouse, dt, mag) == ThrowContinues(s, gaze, mouse, dt, mag)
    ensures gaze != mouse ==> ThrowDestination(t, gaze, mouse, dt, mag) == ThrowDestination(s, gaze, mouse, dt, mag)
  {
    assert ThrowDist(t, dt) == ThrowDist(s, dt);
  }

  // ---------------------------------------------------------------------------
  // Throws along the x axis

  /** `IsNorm`'s homogeneity for one vector and one factor. */
  lemma Homog(mag: Vec -> real, v: Vec, c: real)
    requires IsNorm(mag) && c >= 0.0
    ensures mag(v.Scale(c)) == c * mag(v)
  {
  }

  /** A non-negative multiple of a unit vector has that multiple as its length. */
  lemma ScaledLength(mag: Vec -> real, u: Vec, c: real)
    requires IsNorm(mag) && mag(u) == 1.0
    ensures c >= 0.0 ==> mag(u.Scale(c)) == c
  {
    if c >= 0.0 { Homog(mag, u, c); }
  }

  /** Scaling `(g, 0)` by `1 / g` gives the unit x vector. */
  lemma UnitX(g: real)
    requires g > 0.0
    ensures Vec(g, 0.0).Scale(1.0 / g) == Vec(1.0, 0.0)
  {
    assert (1.0 / g) * g == 1.0;
  }

  /** From the origin toward a gaze point `(g, 0)` with `g > 0`: the distance is `g` and the direction is the unit x vector. */
  lemma AlongXAxis(g: real, mag: Vec -> real)
    requires IsNorm(mag) && g > 0.0
    ensures Distance(Zero, Vec(g, 0.0), mag) == g
    ensures Direction(Vec(g, 0.0), Zero, mag) == Vec(1.0, 0.0)
  {
    assert Vec(g, 0.0).Sub(Zero) == Vec(1.0, 0.0).Scale(g);
    Homog(mag, Vec(1.0, 0.0), g);
    UnitX(g);
  }

  /**
   Thrown from the origin toward `(g, 0)` when the gaze is beyond one throw
   step plus the minimum jump, the real destination is `(ThrowDist, 0)`.
   */
  lemma ThrowAlongX(t: PolyMouseTransform, g: real, dt: real, mag: Vec -> real)
    requires IsNorm(mag) && g > 0.0 && g > ThrowDist(t, dt) + t.params.minJump
    ensures ThrowContinues(t, Vec(g, 0.0), Zero, dt, mag)
    ensures ThrowDestination(t, Vec(g, 0.0), Zero, dt, mag) == Vec(ThrowDist(t, dt), 0.0)
    ensures Throw(t, Vec(g, 0.0), Zero, dt, mag) == (t, TruncVec(Vec(ThrowDist(t, dt), 0.0)))
  {
    AlongXAxis(g, mag);
    var d := ThrowDist(t, dt);
    assert Zero.Add(Vec(1.0, 0.0).Scale(d)) == Vec(d, 0.0);
  }

  /**
   A throw step of 10 pixels (speed 100, `dt` 0.1) from the origin toward a
   gaze point 200 pixels to the right moves the pointer to (10, 0) and keeps throwing.
   */
  lemma ThrowExample(t: PolyMouseTransform, mag: Vec -> real)
    requires IsNorm(mag) && t.params.throwSpeed == 100.0 && t.params.minJump == 5.0
    ensures Throw(t, Vec(200.0, 0.0), Zero, 0.1, mag) == (t, IVec(10, 0))
  {
    assert ThrowDist(t, 0.1) == 10.0;
    ThrowAlongX(t, 200.0, 0.1, mag);
    assert TruncVec(Vec(10.0, 0.0)) == IVec(10, 0);
  }

  /**
   A throw step shorter than a pixel is lost to the truncation: with speed 5
   and `dt` 0.1 the real destination from the origin toward (100, 0) is
   (0.5, 0), which truncates back to the origin, and the throw goes on.
   */
  lemma ThrowStalls(t: PolyMouseTransform, mag: Vec -> real)
    requires IsNorm(mag) && t.params.throwSpeed == 5.0 && t.params.minJump == 5.0
    ensures Throw(t, Vec(100.0, 0.0), Zero, 0.1, mag) == (t, IVec(0, 0))
  {
    assert ThrowDist(t, 0.1) == 0.5;
    ThrowAlongX(t, 100.0, 0.1, mag);
    assert TruncVec(Vec(0.5, 0.0)) == IVec(0, 0);
  }

  /** Scaling `(-d, 0)` by `1 / d` gives the negative unit x vector. */
  lemma NegUnitX(d: real)
    requires d > 0.0
    ensures Vec(-d, 0.0).Scale(1.0 / d) == Vec(-1.0, 0.0)
  {
    assert (1.0 / d) * d == 1.0;
  }

  /** From `(m, 0)` toward a gaze point `(g, 0)` with `g < m`: the distance is `m - g` and the direction is the negative unit x vector. */
  lemma BackAlongXAxis(m: real, g: real, mag: Vec -> real)
    requires IsNorm(mag) && g < m
    ensures Distance(Vec(m, 0.0), Vec(g, 0.0), mag) == m - g
    ensures Direction(Vec(g, 0.0), Vec(m, 0.0), mag) == Vec(-1.0, 0.0)
  {
    assert Vec(g, 0.0).Sub(Vec(m, 0.0)) == Vec(-(m - g), 0.0);
    assert Vec(-(m - g), 0.0) == Vec(1.0, 0.0).Scale(-1.0).Scale(m - g);
    Homog(mag, Vec(1.0, 0.0).Scale(-1.0), m - g);
    NegUnitX(m - g);
  }

  /**
   Toward zero the truncation works the other way: with speed 5 and `dt` 0.1
   a throw from (5, 0) toward (-100, 0) has the real destination (4.5, 0),
   which truncates to (4, 0), a whole pixel from the pointer.
   */
  lemma ThrowTowardZero(t: PolyMouseTransform, mag: Vec -> real)
    requires IsNorm(mag) && t.params.throwSpeed == 5.0 && t.params.minJump == 5.0
    ensures Throw(t, Vec(-100.0, 0.0), Vec(5.0, 0.0), 0.1, mag) == (t, IVec(4, 0))
  {
    assert ThrowDist(t, 0.1) == 0.5;
    BackAlongXAxis(5.0, -100.0, mag);
    assert ThrowContinues(t, Vec(-100.0, 0.0), Vec(5.0, 0.0), 0.1, mag);
    assert Vec(5.0, 0.0).Add(Vec(-1.0, 0.0).Scale(0.5)) == Vec(4.5, 0.0);
    assert ThrowDestination(t, Vec(-100.0, 0.0), Vec(5.0, 0.0), 0.1, mag) == Vec(4.5, 0.0);
    assert Trunc(4.5) == 4 && Trunc(0.0) == 0;
  }

  /**
   In the whole step, a state already throwing in that situation leaves the
   pointer at the origin and stays throwing with the same parameters, so the
   next step starts from the same situation: the pointer never reaches the gaze.
   */
  lemma StalledThrowRepeats(s: PolyMouseTransform, headDelta: Vec, mag: Vec -> real)
    requires IsNorm(mag) && s.throwing && s.params.throwSpeed == 5.0 && s.params.minJump == 5.0
    ensures Transform(s, Vec(100.0, 0.0), IVec(0, 0), headDelta, 0.1, mag) == (Smoothed(s, headDelta, 0.1, mag), IVec(0, 0))
    ensures Smoothed(s, headDelta, 0.1, mag).throwing && Smoothed(s, headDelta, 0.1, mag).params == s.params
  {
    assert ToReal(IVec(0, 0)) == Zero;
    ThrowingStepThrows(s, Vec(100.0, 0.0), IVec(0, 0), headDelta, 0.1, mag);
    ThrowStalls(Smoothed(s, headDelta, 0.1, mag), mag);
  }

  /** A step of a state that is already throwing is one throw step from the smoothed state. */
  lemma ThrowingStepThrows(s: PolyMouseTransform, gaze: Vec, mouse: IVec, headDelta: Vec, dt: real, mag: Vec -> real)
    requires dt > 0.0 && IsNorm(mag) && s.throwing && gaze != ToReal(mouse)
    ensures Transform(s, gaze, mouse, headDelta, dt, mag) == Throw(Smoothed(s, headDelta, dt, mag), gaze, ToReal(mouse), dt, mag)
  {
    var s1 := Smoothed(s, headDelta, dt, mag);
    assert s1.(throwing := true) == s1;
  }

  // ---------------------------------------------------------------------------
  // A throw on real positions

  /**
   `n` throw steps from `p` keeping the position real instead of truncating it
   after each step: the position and whether the throw is still going. The
   throw stops at the first step that snaps.
   */
  function Advance(s: PolyMouseTransform, gaze: Vec, p: Vec, dt: real, n: nat, mag: Vec -> real): (r: (Vec, bool))
    requires IsNorm(mag) && gaze != p
    requires ThrowDist(s, dt) >= 0.0 && s.params.minJump >= 0.0
    ensures r.1 ==> r.0 != gaze
    ensures r.1 && n > 0 ==> Distance(r.0, gaze, mag) > s.params.minJump
    decreases n
  {
    if n == 0 then (p, true)
    else if ThrowContinues(s, gaze, p, dt, mag) then
      ThrowApproachesGaze(s, gaze, p, dt, mag);
      Advance(s, gaze, ThrowDestination(s, gaze, p, dt, mag), dt, n - 1, mag)
    else
      (ThrowDestination(s, gaze, p, dt, mag), false)
  }

  /** The distance covered by `n` steps of length `d`, one step at a time. */
  function Travel(n: nat, d: real): (t: real)
    ensures t == n as real * d
  {
    if n == 0 then 0.0 else Travel(n - 1, d) + d
  }

  /**
   While a throw on real positions goes on, the position has come `n` throw
   steps closer to the gaze point (and is not on it); once it stops, the
   position is the snap point `minJump` from the gaze.
   */
  lemma {:induction false} ThrowProgress(s: PolyMouseTransform, gaze: Vec, p: Vec, dt: real, n: nat, mag: Vec -> real)
    requires IsNorm(mag) && gaze != p
    requires ThrowDist(s, dt) >= 0.0 && s.params.minJump >= 0.0
    ensures var r := Advance(s, gaze, p, dt, n, mag);
            r.1 ==> r.0 != gaze && Distance(r.0, gaze, mag) == Distance(p, gaze, mag) - Travel(n, ThrowDist(s, dt))
    ensures var r := Advance(s, gaze, p, dt, n, mag);
            !r.1 ==> Distance(r.0, gaze, mag) == s.params.minJump
    decreases n
  {
    if n > 0 {
      if ThrowContinues(s, gaze, p, dt, mag) {
        var q := ThrowDestination(s, gaze, p, dt, mag);
        ThrowApproachesGaze(s, gaze, p, dt, mag);
        ThrowProgress(s, gaze, q, dt, n - 1, mag);
      } else {
        SnapLandsNearGaze(s, gaze, p, dt, mag);
      }
    }
  }

  /**
   With a positive throw step, a throw on real positions has snapped onto the
   `minJump` circle once the steps taken cover the starting distance.
   */
  lemma ThrowEnds(s: PolyMouseTransform, gaze: Vec, p: Vec, dt: real, n: nat, mag: Vec -> real)
    requires IsNorm(mag) && gaze != p
    requires ThrowDist(s, dt) > 0.0 && s.params.minJump >= 0.0
    requires n as real * ThrowDist(s, dt) >= Distance(p, gaze, mag)
    ensures !Advance(s, gaze, p, dt, n, mag).1
    ensures Distance(Advance(s, gaze, p, dt, n, mag).0, gaze, mag) == s.params.minJump
  {
    ThrowProgress(s, gaze, p, dt, n, mag);
    assert Travel(n, ThrowDist(s, dt)) >= Distance(p, gaze, mag);
  }

  // ---------------------------------------------------------------------------
  // Tracking

  /**
   One tracking step: each axis of the head displacement goes through its
   rounder and the rounded move is added to the pointer. On each axis the
   pixels moved plus the new carry equal the head displacement plus the old
   carry; throwing state and last jump destination are untouched.
   */
  function Track(t: PolyMouseTransform, mouse: IVec, headDelta: Vec): (r: (PolyMouseTransform, IVec))
    ensures r.0.params == t.params && r.0.throwing == t.throwing
    ensures r.0.smoothedHeadSpeed == t.smoothedHeadSpeed
    ensures r.0.lastJumpDestination == t.lastJumpDestination
    ensures (r.1.x - mouse.x) as real + r.0.xRound.accum == headDelta.x + t.xRound.accum
    ensures (r.1.y - mouse.y) as real + r.0.yRound.accum == headDelta.y + t.yRound.accum
    ensures Rounding.Bounded(t.xRound) && Rounding.Bounded(t.yRound) ==>
              Rounding.Bounded(r.0.xRound) && Rounding.Bounded(r.0.yRound)
  {
    var rx := Rounding.Round(t.xRound, headDelta.x);
    var ry := Rounding.Round(t.yRound, headDelta.y);
    (t.(xRound := rx.0, yRound := ry.0), mouse.Add(IVec(rx.1, ry.1)))
  }

  // ---------------------------------------------------------------------------
  // The step

  /**
   One step of the pointer transform. The head speed is smoothed first; then
   a throw starts if the guard holds, and the throw branch or the tracking
   branch runs. The throw direction must be defined when the throw branch is
   taken.
   */
  function Transform(s: PolyMouseTransform, gaze: Vec, mouse: IVec, headDelta: Vec, dt: real, mag: Vec -> real): (r: (PolyMouseTransform, IVec))
    requires dt > 0.0 && IsNorm(mag)
    requires ThrowBranch(s, gaze, mouse, headDelta, dt, mag) ==> gaze != ToReal(mouse)
    ensures r.0.params == s.params
    ensures r.0.smoothedHeadSpeed == SmoothSpeed(s, headDelta, dt, mag)
    // a throw starts only through the guard
    ensures !s.throwing && r.0.throwing ==> StartsThrow(Smoothed(s, headDelta, dt, mag), gaze, ToReal(mouse), mag)
    // the throw branch: a continuing throw or a snap, rounders untouched
    ensures ThrowBranch(s, gaze, mouse, headDelta, dt, mag) ==>
              r.0.xRound == s.xRound && r.0.yRound == s.yRound
    ensures ThrowBranch(s, gaze, mouse, headDelta, dt, mag) && ThrowContinues(s, gaze, ToReal(mouse), dt, mag) ==>
              r.0.throwing && r.0.lastJumpDestination == s.lastJumpDestination
    ensures ThrowBranch(s, gaze, mouse, headDelta, dt, mag) && !ThrowContinues(s, gaze, ToReal(mouse), dt, mag) ==>
              !r.0.throwing && r.0.lastJumpDestination == gaze
    ensures ThrowBranch(s, gaze, mouse, headDelta, dt, mag) ==>
              var dest := ThrowDestination(s, gaze, ToReal(mouse), dt, mag);
              && Abs(r.1.x as real - dest.x) < 1.0 && Abs(r.1.y as real - dest.y) < 1.0
              && (dest.x >= 0.0 ==> 0 <= r.1.x && r.1.x as real <= dest.x)
              && (dest.x < 0.0 ==> dest.x <= r.1.x as real && r.1.x <= 0)
              && (dest.y >= 0.0 ==> 0 <= r.1.y && r.1.y as real <= dest.y)
              && (dest.y < 0.0 ==> dest.y <= r.1.y as real && r.1.y <= 0)
    // the tracking branch: rounded head motion, nothing else changes
    ensures !ThrowBranch(s, gaze, mouse, headDelta, dt, mag) ==>
              && !r.0.throwing && r.0.lastJumpDestination == s.lastJumpDestination
              && r.1 == mouse.Add(IVec(Rounding.Round(s.xRound, headDelta.x).1, Rounding.Round(s.yRound, headDelta.y).1))
              && r.0.xRound == Rounding.Round(s.xRound, headDelta.x).0
              && r.0.yRound == Rounding.Round(s.yRound, headDelta.y).0
  {
    var mouseF := ToReal(mouse);
    var s1 := Smoothed(s, headDelta, dt, mag);
    var t := if StartsThrow(s1, gaze, mouseF, mag) then s1.(throwing := true) else s1;
    SameParamsSameThrow(t, s, gaze, mouseF, dt, mag);
    if t.throwing then Throw(t, gaze, mouseF, dt, mag)
    else Track(t, mouse, headDelta)
  }

  /**
   With the smoothing factor in [0, 1], every step keeps `Inv`: the carries
   stay under a pixel and the smoothed speed stays non-negative.
   */
  lemma TransformKeepsInv(s: PolyMouseTransform, gaze: Vec, mouse: IVec, headDelta: Vec, dt: real, mag: Vec -> real)
    requires dt > 0.0 && IsNorm(mag)
    requires ThrowBranch(s, gaze, mouse, headDelta, dt, mag) ==> gaze != ToReal(mouse)
    requires 0.0 <= s.params.headSmoothingFactor <= 1.0
    requires Inv(s)
    ensures Inv(Transform(s, gaze, mouse, headDelta, dt, mag).0)
  {
    var v := SmoothSpeed(s, headDelta, dt, mag);
    NormNonNegative(mag, headDelta);
    assert mag(headDelta) / dt >= 0.0;
    if !ThrowBranch(s, gaze, mouse, headDelta, dt, mag) {
      var r := Transform(s, gaze, mouse, headDelta, dt, mag);
      assert Rounding.Bounded(r.0.xRound) && Rounding.Bounded(r.0.yRound);
    }
  }

  /** A new transform satisfies `Inv`. */
  lemma NewHasInv(params: Params)
    ensures Inv(New(params))
    ensures !New(params).throwing
  {
  }
}
