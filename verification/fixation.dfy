/**
 The gaze fixation filter (`FixationFilter` in src/transforms.rs). It keeps the
 most recent gaze points in a bounded first-in first-out buffer and measures
 the I-DT dispersion of the last few of them: the width plus the height of
 their axis-aligned bounding box, together with the new point. The output is
 a "sticky" point that jumps to the new point only while the dispersion is
 under the fixation threshold, and otherwise stays where it was.
 */
module Fixation {
  import opened Numerics

  /** The buffer capacity: older points are evicted beyond it. */
  const MaxBuffer: nat := 128

  datatype FixationFilter = FixationFilter(buffer: seq<Vec>, minFixationS: real, maxVelocity: real, cur: Vec)

  /** An empty filter whose sticky point starts at the origin. */
  function New(minFixationS: real, maxVelocity: real): FixationFilter {
    FixationFilter([], minFixationS, maxVelocity, Zero)
  }

  /** The buffer respects the capacity. */
  predicate Valid(f: FixationFilter) {
    |f.buffer| <= MaxBuffer
  }

  // ---------------------------------------------------------------------------
  // The bounded buffer

  /**
   Appends a point, first dropping the oldest one when the buffer is full. The
   new point is last; a buffer that was not full keeps its contents as a
   prefix, a full one loses exactly its front element; the capacity is kept.
   */
  function Push(buffer: seq<Vec>, pt: Vec): (b: seq<Vec>)
    ensures |b| > 0 && b[|b| - 1] == pt
    ensures |buffer| <= MaxBuffer ==> |b| <= MaxBuffer
    ensures |buffer| < MaxBuffer ==> |b| == |buffer| + 1 && b[..|buffer|] == buffer
    ensures |buffer| >= MaxBuffer ==> |b| == |buffer| && b[..|b| - 1] == buffer[1..]
  {
    if |buffer| >= MaxBuffer then buffer[1..] + [pt] else buffer + [pt]
  }

  /** Pushes the points in order. */
  function PushAll(buffer: seq<Vec>, pts: seq<Vec>): seq<Vec>
    decreases |pts|
  {
    if |pts| == 0 then buffer else Push(PushAll(buffer, pts[..|pts| - 1]), pts[|pts| - 1])
  }

  /** The last `MaxBuffer` elements of `s`, or all of them when there are fewer. */
  function Recent(s: seq<Vec>): (w: seq<Vec>)
    ensures |w| <= MaxBuffer
  {
    if |s| <= MaxBuffer then s else s[|s| - MaxBuffer..]
  }

  /**
   Whatever the pushes, a buffer within capacity always holds exactly the most
   recent `MaxBuffer` points of its old contents followed by everything pushed.
   */
  lemma {:induction false} PushAllKeepsRecent(buffer: seq<Vec>, pts: seq<Vec>)
    requires |buffer| <= MaxBuffer
    ensures PushAll(buffer, pts) == Recent(buffer + pts)
    decreases |pts|
  {
    if |pts| == 0 {
      assert buffer + pts == buffer;
    } else {
      var init := pts[..|pts| - 1];
      var p := pts[|pts| - 1];
      PushAllKeepsRecent(buffer, init);
      assert buffer + pts == (buffer + init) + [p];
      PushRecent(buffer + init, p);
    }
  }

  /** Pushing onto the most recent points of `s` gives the most recent points of `s` extended. */
  lemma PushRecent(s: seq<Vec>, p: Vec)
    ensures Push(Recent(s), p) == Recent(s + [p])
  {
    if |s| >= MaxBuffer {
      var k := |s| - MaxBuffer;
      assert s[k..][1..] + [p] == (s + [p])[k + 1..];
    }
  }

  // ---------------------------------------------------------------------------
  // The sample window

  /**
   The number of samples the dispersion is measured over: `min_fixation_s / dt`
   rounded half away from zero, cast to `usize` (negatives become 0), and
   capped at the buffer length. Away from the cap it is the nearest count to
   `min_fixation_s / dt`.
   */
  function SampleCount(minFixationS: real, dt: real, len: nat): (n: nat)
    requires dt != 0.0
    ensures n <= len
    ensures minFixationS / dt < 0.0 ==> n == 0
    ensures minFixationS / dt >= 0.0 && n < len ==> n as real - 0.5 <= minFixationS / dt < n as real + 0.5
    ensures n == len && len > 0 ==> minFixationS / dt >= len as real - 0.5
  {
    var wanted := ToUsize(RoundHalfAway(minFixationS / dt));
    if wanted > len then len else wanted
  }

  /** The last `n` points of the buffer. */
  function Window(buffer: seq<Vec>, n: nat): (w: seq<Vec>)
    requires n <= |buffer|
    ensures |w| == n
    ensures forall i :: 0 <= i < n ==> w[i] == buffer[|buffer| - n + i]
  {
    buffer[|buffer| - n..]
  }

  // ---------------------------------------------------------------------------
  // Dispersion

  /** An axis-aligned box given by its minimum and maximum corners. */
  datatype Box = Box(lo: Vec, hi: Vec)

  predicate Inside(b: Box, v: Vec) {
    b.lo.x <= v.x <= b.hi.x && b.lo.y <= v.y <= b.hi.y
  }

  predicate Ordered(b: Box) {
    b.lo.x <= b.hi.x && b.lo.y <= b.hi.y
  }

  /** `big` extends at least as far as `small` in all four directions. */
  predicate Covers(big: Box, small: Box) {
    big.lo.x <= small.lo.x && big.lo.y <= small.lo.y && small.hi.x <= big.hi.x && small.hi.y <= big.hi.y
  }

  /** The box of a single point. */
  function PointBox(p: Vec): Box {
    Box(p, p)
  }

  /**
   One iteration of the bounding loop, with the same comparisons: a minimum is
   replaced on `<`, a maximum on `>=`. The box grows just enough to take in
   the point.
   */
  function Include(b: Box, el: Vec): (r: Box)
    ensures Inside(r, el) && Covers(r, b)
    ensures Ordered(b) ==> Ordered(r)
    ensures (r.lo.x == b.lo.x || r.lo.x == el.x) && (r.lo.y == b.lo.y || r.lo.y == el.y)
    ensures (r.hi.x == b.hi.x || r.hi.x == el.x) && (r.hi.y == b.hi.y || r.hi.y == el.y)
  {
    var lo := Vec(if el.x < b.lo.x then el.x else b.lo.x, if el.y < b.lo.y then el.y else b.lo.y);
    var hi := Vec(if el.x >= b.hi.x then el.x else b.hi.x, if el.y >= b.hi.y then el.y else b.hi.y);
    Box(lo, hi)
  }

  /**
   The box after running the bounding loop over `w` from a starting box: it
   covers the starting box and contains every point of `w`.
   */
  function Enclose(b: Box, w: seq<Vec>): (r: Box)
    ensures Covers(r, b)
    ensures forall i :: 0 <= i < |w| ==> Inside(r, w[i])
    ensures Ordered(b) ==> Ordered(r)
    decreases |w|
  {
    if |w| == 0 then b
    else
      var r0 := Enclose(b, w[..|w| - 1]);
      var r := Include(r0, w[|w| - 1]);
      assert forall i :: 0 <= i < |w| - 1 ==> w[..|w| - 1][i] == w[i];
      r
  }

  /**
   The loop computes the least such box: any box that contains the starting
   box and every point of `w` covers it.
   */
  lemma {:induction false} EncloseIsLeast(b: Box, w: seq<Vec>, big: Box)
    requires Covers(big, b)
    requires forall i :: 0 <= i < |w| ==> Inside(big, w[i])
    ensures Covers(big, Enclose(b, w))
    decreases |w|
  {
    if |w| > 0 {
      assert forall i :: 0 <= i < |w| - 1 ==> w[..|w| - 1][i] == w[i];
      EncloseIsLeast(b, w[..|w| - 1], big);
    }
  }

  /** I-DT dispersion of a box: its width plus its height. */
  function Dispersion(b: Box): (d: real)
    ensures Ordered(b) ==> d >= 0.0
  {
    (b.hi.x - b.lo.x) + (b.hi.y - b.lo.y)
  }

  /**
   The dispersion bounds the spread of the points it was measured over: any
   two points in the box are at most the dispersion apart in taxicab distance.
   */
  lemma DispersionBoundsSpread(b: Box, u: Vec, v: Vec)
    requires Inside(b, u) && Inside(b, v)
    ensures Abs(u.x - v.x) + Abs(u.y - v.y) <= Dispersion(b)
  {
  }

  /** A window made of copies of one point has zero dispersion around that point. */
  lemma {:induction false} StillWindowIsPoint(pt: Vec, w: seq<Vec>)
    requires forall i :: 0 <= i < |w| ==> w[i] == pt
    ensures Enclose(PointBox(pt), w) == PointBox(pt)
    decreases |w|
  {
    if |w| > 0 {
      StillWindowIsPoint(pt, w[..|w| - 1]);
    }
  }

  /**
   The dispersion loop as written: the last `n` buffered points are visited in
   order, starting from the box of `pt`. The result is the dispersion of the
   least box containing `pt` and the window.
   */
  method MeasureDispersion(buffer: seq<Vec>, n: nat, pt: Vec) returns (d: real)
    requires n <= |buffer|
    ensures d == Dispersion(Enclose(PointBox(pt), Window(buffer, n)))
    ensures d >= 0.0
  {
    var min := pt;
    var max := pt;
    var start := |buffer| - n;
    var i := start;
    while i < |buffer|
      invariant start <= i <= |buffer|
      invariant Box(min, max) == Enclose(PointBox(pt), buffer[start..i])
    {
      var el := buffer[i];
      if el.x < min.x {
        min := min.(x := el.x);
      }
      if el.y < min.y {
        min := min.(y := el.y);
      }
      if el.x >= max.x {
        max := max.(x := el.x);
      }
      if el.y >= max.y {
        max := max.(y := el.y);
      }
      assert buffer[start..i + 1][..i - start] == buffer[start..i];
      i := i + 1;
    }
    assert buffer[start..|buffer|] == Window(buffer, n);
    d := (max.x - min.x) + (max.y - min.y);
  }

  // ---------------------------------------------------------------------------
  // The transform

  /** The dispersion threshold: `max_velocity * min_fixation_s`. */
  function Threshold(f: FixationFilter): real {
    f.maxVelocity * f.minFixationS
  }

  /** The window the step measures for `pt` at interval `dt`, taken from the buffer after the push. */
  function WindowOf(f: FixationFilter, pt: Vec, dt: real): (w: seq<Vec>)
    requires dt != 0.0
    ensures var b := Push(f.buffer, pt);
            |w| == SampleCount(f.minFixationS, dt, |b|)
            && forall i :: 0 <= i < |w| ==> w[i] == b[|b| - |w| + i]
  {
    var b := Push(f.buffer, pt);
    Window(b, SampleCount(f.minFixationS, dt, |b|))
  }

  /** The points are tightly clustered: the dispersion of `pt` and its window is under the threshold. */
  predicate Fixated(f: FixationFilter, pt: Vec, dt: real)
    requires dt != 0.0
  {
    Dispersion(Enclose(PointBox(pt), WindowOf(f, pt, dt))) < Threshold(f)
  }

  /**
   One step; the result is the new filter and the output point. The point is
   always pushed and the tuning kept. With `dt == 0` the point itself is
   returned and the sticky point is untouched. Otherwise the sticky point
   moves to `pt` when the window is fixated and stays put when it is not, and
   it is what is returned.
   */
  function Transform(f: FixationFilter, pt: Vec, dt: real): (r: (FixationFilter, Vec))
    ensures r.0.buffer == Push(f.buffer, pt)
    ensures r.0.minFixationS == f.minFixationS && r.0.maxVelocity == f.maxVelocity
    ensures Valid(f) ==> Valid(r.0)
    ensures dt == 0.0 ==> r.1 == pt && r.0.cur == f.cur
    ensures dt != 0.0 ==> r.1 == r.0.cur
    ensures dt != 0.0 && Fixated(f, pt, dt) ==> r.1 == pt
    ensures dt != 0.0 && !Fixated(f, pt, dt) ==> r.1 == f.cur
  {
    var g := f.(buffer := Push(f.buffer, pt));
    if dt == 0.0 then (g, pt)
    else
      var cur := if Fixated(f, pt, dt) then pt else f.cur;
      (g.(cur := cur), cur)
  }

  /** Pushing `pt` onto a buffer holding nothing but `pt` gives such a buffer again. */
  lemma PushKeepsStill(buffer: seq<Vec>, pt: Vec)
    requires forall i :: 0 <= i < |buffer| ==> buffer[i] == pt
    ensures var b := Push(buffer, pt); forall i :: 0 <= i < |b| ==> b[i] == pt
  {
    if |buffer| >= MaxBuffer {
      assert Push(buffer, pt) == buffer[1..] + [pt];
    } else {
      assert Push(buffer, pt) == buffer + [pt];
    }
  }

  /** The last `n` points of a buffer holding nothing but `pt` are all `pt`. */
  lemma WindowKeepsStill(buffer: seq<Vec>, n: nat, pt: Vec)
    requires n <= |buffer|
    requires forall i :: 0 <= i < |buffer| ==> buffer[i] == pt
    ensures var w := Window(buffer, n); forall i :: 0 <= i < |w| ==> w[i] == pt
  {
  }

  /**
   While the gaze rests on one point, the step returns it: a buffer holding
   nothing but `pt` has zero dispersion, which is under any positive threshold.
   */
  lemma StillGazeMoves(f: FixationFilter, pt: Vec, dt: real)
    requires dt != 0.0 && Threshold(f) > 0.0
    requires forall i :: 0 <= i < |f.buffer| ==> f.buffer[i] == pt
    ensures Transform(f, pt, dt).1 == pt
  {
    var b := Push(f.buffer, pt);
    var n := SampleCount(f.minFixationS, dt, |b|);
    PushKeepsStill(f.buffer, pt);
    WindowKeepsStill(b, n, pt);
    StillWindowIsPoint(pt, Window(b, n));
    assert WindowOf(f, pt, dt) == Window(b, n);
    assert Dispersion(PointBox(pt)) == 0.0;
    assert Fixated(f, pt, dt);
  }

  /**
   A saccade holds the sticky point: when some point of the window is at least
   the threshold away from `pt` in taxicab distance, the previous sticky point
   is returned.
   */
  lemma SpreadHolds(f: FixationFilter, pt: Vec, dt: real, q: Vec)
    requires dt != 0.0
    requires q in WindowOf(f, pt, dt)
    requires Abs(q.x - pt.x) + Abs(q.y - pt.y) >= Threshold(f)
    ensures Transform(f, pt, dt).1 == f.cur
  {
    var w := WindowOf(f, pt, dt);
    var box := Enclose(PointBox(pt), w);
    assert Inside(box, pt);
    DispersionBoundsSpread(box, q, pt);
  }
}
