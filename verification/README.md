# FusionMouse pointer transforms in Dafny

This project models the per-frame signal-conditioning core of FusionMouse,
`src/transforms.rs`. That core turns an eye-gaze point, a head-motion delta and
the current cursor position into cursor motion. Each component is a small
state record with a step function. The model writes each step as a pure
function that returns the new state together with the output, and proves what
the step promises.

| file | module | component |
|---|---|---|
| numerics.dfy | `Numerics` | `Vector2<f32>`/`Vector2<i32>`, `f32::trunc`/`fract`/`signum`/`round`, the `as` casts, and the length, distance and normalisation of cgmath |
| lowpass.dfy | `LowPass` | `LowPassFilter`: exponential smoothing that starts at its first sample |
| oneeuro.dfy | `OneEuro` | `OneEuroFilter`: the adaptive-cutoff "1 euro" filter |
| veconeeuro.dfy | `VecOneEuro` | `VecOneEuroFilter`: one 1 euro filter per axis |
| acceleration.dfy | `PointerAcceleration` | `Acceleration`: the logistic gain curve |
| rounder.dfy | `Rounding` | `AccumulatingRounder`: sub-pixel motion carried between frames |
| fixation.dfy | `Fixation` | `FixationFilter`: I-DT fixation detection over a 128-point history |
| polymouse.dfy | `PolyMouse` | `PolyMouseTransform`: head tracking with gaze "throws" |

`f32` is modelled as `real` and `i32` as `int`. Truncating casts are written
out as `Numerics.Trunc`. The saturating `as usize` of a negative rounded count
is written out as `Numerics.ToUsize`.

Some operations are foreign numerics: cgmath's `magnitude` (a square root,
and through it `distance` and `normalize`), `f32::exp` and `PI`. The first two
are parameters, constrained only by the facts the proofs use:
- `mag` must satisfy `Numerics.IsNorm`: it is positive away from zero, scales with non-negative factors, is symmetric, and gives the unit axes length 1.
- `exp` must be positive, and also increasing for `PointerAcceleration.GainMonotone`.

`PI` is a decimal constant; only its positivity matters.

The `FixationFilter` buffer is a `seq` bounded by `MaxBuffer` (128). It is not
modelled as a `VecDeque`.

Feeding a constant 0.3 to a fresh `AccumulatingRounder` emits 0,0,0,1,0,0,1.
The first nudge leaves 0.2 carried, so the second whole pixel arrives after
three more samples (`Rounding.ConstantFractionExample`). Over any
run, the emitted pixels stay within one of the true running sum
(`Rounding.RunningSumWithinOne`).

A throw moves the pointer `throw_speed * dt` toward the gaze point on each
step, and then truncates the result to whole pixels. With `throw_speed` 100
and `dt` 0.1, a throw from (0, 0) toward (200, 0) reaches (10, 0)
(`PolyMouse.ThrowExample`). The truncation is toward zero. On an axis where
a step shorter than a pixel moves away from zero, truncation discards it: from
(0, 0) toward (100, 0) with a 0.5-pixel step the pointer never moves (see
Findings). Toward zero it moves a whole pixel instead: from (5, 0) toward
(-100, 0) it lands on (4, 0) (`PolyMouse.ThrowTowardZero`).

## Model

| member | source | states |
|---|---|---|
| Numerics.Trunc | src/transforms.rs:122 | the integer part lies between 0 and `x`, less than one unit from `x` |
| Numerics.Fract | src/transforms.rs:123 | `trunc(x) + fract(x) == x`, the fraction is under one unit in size and has the sign of `x` |
| Numerics.Signum | src/transforms.rs:125 | the sign is +1 or -1, +1 for positives and -1 for negatives |
| Numerics.RoundHalfAway | src/transforms.rs:162 | the rounded count is the nearest integer, with halves resolved away from zero |
| Numerics.ToUsize | src/transforms.rs:162 | the `as usize` cast keeps non-negative counts and maps negative ones to 0 |
| Numerics.TruncVec | src/transforms.rs:262 | the `as i32` point is truncated toward zero on each axis: within one pixel of the real point and never farther from zero |
| Numerics.Distance | src/transforms.rs:254 | a distance is never negative, and it is 0 exactly when the two points coincide |
| Numerics.Normalize | src/transforms.rs:251 | the normalised vector has length 1 |
| Numerics.NormalizeScalesBack | src/transforms.rs:251 | the normalised vector scaled by the original length gives the vector back, so it points the same way |
| LowPass.Filter | src/transforms.rs:20-28 | the output becomes the stored previous output; the first call returns the input exactly; later the error to the input shrinks by the factor `1 - alpha` |
| LowPass.FilterStaysBetween | src/transforms.rs:25 | with `alpha` in [0, 1] the output lies between the previous output and the input, strictly inside (0, 1) |
| LowPass.RepeatApproaches | src/transforms.rs:20-28 | feeding one value `n` times applies the one-step contraction `n` times |
| LowPass.ConstantInputConverges | src/transforms.rs:20-28 | under a constant input the error after `n` calls is the initial error times `(1 - alpha)^n` |
| LowPass.FirstSampleIsFixed | src/transforms.rs:21-25 | a filter started on `x` stays on `x` while `x` keeps arriving |
| OneEuro.Alpha | src/transforms.rs:66-70 | for a positive rate and cutoff the smoothing factor is strictly between 0 and 1 |
| OneEuro.Cutoff | src/transforms.rs:62 | the adaptive cutoff is never below `mincutoff`, and equals it for a zero derivative |
| OneEuro.CutoffMonotone | src/transforms.rs:62 | with `beta >= 0` the cutoff grows with the size of the smoothed derivative, so fast motion gets a higher cutoff |
| OneEuro.AlphaMonotone | src/transforms.rs:66-70 | at a fixed rate a higher cutoff gives a larger smoothing factor, that is less smoothing |
| OneEuro.RawDerivative | src/transforms.rs:53-59 | the derivative estimate is 0 on the first call and 0 when the input equals the previous output |
| OneEuro.Filter | src/transforms.rs:52-63 | the tuning is kept, both inner filters are started, the signal filter stores the output, the first call feeds a zero derivative and returns the input |
| OneEuro.FilterApproachesInput | src/transforms.rs:61-63 | a started filter moves its output toward the input, strictly when they differ |
| OneEuro.FirstCallSettles | src/transforms.rs:52-63 | the first call of a fresh filter returns the input and leaves the filter at rest on it |
| OneEuro.SettledIsFixed | src/transforms.rs:52-63 | a filter at rest on `x` that is fed `x` again returns `x` and its state is unchanged |
| OneEuro.StepContracts | src/transforms.rs:52-70 | whatever the derivative does, one step of a started filter shrinks the distance from its output to the input by at least the factor `1 - alpha(rate, mincutoff)` |
| VecOneEuro.Filter | src/transforms.rs:86-88 | each axis filter keeps its tuning and stores its own output coordinate; fresh filters return the point itself |
| VecOneEuro.AxesIndependent | src/transforms.rs:86-88 | the x output and x filter state do not depend on the y coordinate |
| VecOneEuro.ConstantPointIsFixed | src/transforms.rs:79-88 | a fresh 2D filter returns a resting point and then keeps returning it with its state unchanged |
| PointerAcceleration.Gain | src/transforms.rs:104-107 | the gain lies in `[cd_min, cd_max]` |
| PointerAcceleration.Transform | src/transforms.rs:103-109 | a zero displacement stays zero |
| PointerAcceleration.TransformBounds | src/transforms.rs:103-109 | the accelerated displacement keeps its sign, and its size is between `cd_min` and `cd_max` times the displacement's size |
| PointerAcceleration.GainMonotone | src/transforms.rs:104-107 | with `lambda >= 0` the gain never decreases as the input speed grows |
| Rounding.Round | src/transforms.rs:121-130 | emitted pixels plus the new carry equal the input plus the old carry; a carry under one pixel stays under one; the output is the truncation nudged by at most one; a pixel is only nudged out once carry plus fraction reaches one, so the new carry keeps that sum's sign |
| Rounding.RoundDetermined | src/transforms.rs:121-130 | from a bounded carry, any output and new carry meeting `Round`'s conservation, bound and sign promises are exactly what `Round` returns |
| Rounding.RoundAll | src/transforms.rs:121-130 | feeding a sequence emits one integer per value |
| Rounding.RoundAllConserves | src/transforms.rs:122-128 | over any sequence, all emitted pixels plus the final carry equal all input plus the initial carry, and the carry bound holds throughout |
| Rounding.RunningSumWithinOne | src/transforms.rs:117-130 | from a fresh rounder, the emitted running sum is always less than one pixel from the true running sum |
| Rounding.RoundAllAppend | src/transforms.rs:121-130 | rounding two sequences in a row gives the same result as rounding their concatenation |
| Rounding.FourFractions | src/transforms.rs:117-130 | a constant 0.3 fed four times to a fresh rounder emits 0,0,0,1 and leaves 0.2 carried |
| Rounding.ThreeMoreFractions | src/transforms.rs:121-130 | with 0.2 carried, a constant 0.3 fed three times emits 0,0,1 and leaves 0.1 carried |
| Rounding.ConstantFractionExample | src/transforms.rs:117-130 | a constant 0.3 fed seven times emits 0,0,0,1,0,0,1 and leaves 0.1 carried |
| Fixation.Push | src/transforms.rs:153-156 | the new point is last and the capacity is kept; a buffer that was not full keeps its contents as a prefix; a full buffer loses exactly its front element |
| Fixation.PushRecent | src/transforms.rs:153-156 | pushing onto the most recent 128 points of a history gives the most recent 128 points of the extended history |
| Fixation.PushAllKeepsRecent | src/transforms.rs:153-156 | after any run of pushes the buffer holds exactly the most recent 128 points, in order |
| Fixation.SampleCount | src/transforms.rs:162-166 | the window size is at most the buffer length, 0 for a negative ratio, and otherwise the nearest integer to `min_fixation_s / dt` unless capped |
| Fixation.Window | src/transforms.rs:171-172 | the window is the last `n` buffered points, in order |
| Fixation.Include | src/transforms.rs:173-184 | one loop iteration grows the box just enough to contain the point; each bound either stays or becomes the point's coordinate |
| Fixation.Enclose | src/transforms.rs:169-185 | the loop's box covers the starting box and contains every window point |
| Fixation.EncloseIsLeast | src/transforms.rs:169-185 | any box containing the starting box and every window point covers the loop's box, so the loop computes the least bounding box |
| Fixation.Dispersion | src/transforms.rs:186-187 | the dispersion of an ordered box is non-negative |
| Fixation.DispersionBoundsSpread | src/transforms.rs:186-187 | any two points in the box are at most the dispersion apart in taxicab distance |
| Fixation.StillWindowIsPoint | src/transforms.rs:169-187 | a window of copies of `pt` leaves the box at `pt`, so the dispersion is 0 |
| Fixation.PushKeepsStill | src/transforms.rs:153-156 | pushing `pt` onto a buffer holding only `pt` leaves a buffer holding only `pt` |
| Fixation.MeasureDispersion | src/transforms.rs:168-187 | the loop as written returns the dispersion of the least box around `pt` and the window, which is non-negative |
| Fixation.WindowOf | src/transforms.rs:156-172 | the window measured is the last `SampleCount` points of the buffer after the push |
| Fixation.Transform | src/transforms.rs:152-194 | the point is always pushed; with `dt == 0` it is returned and `cur` is untouched; otherwise the output is `cur`, which moves to `pt` exactly when the dispersion is under `max_velocity * min_fixation_s` |
| Fixation.StillGazeMoves | src/transforms.rs:152-193 | while the gaze rests on one point and the threshold is positive, the sticky point follows it |
| Fixation.SpreadHolds | src/transforms.rs:186-193 | a window point at least the threshold away from `pt` holds the previous sticky point |
| PolyMouse.SmoothSpeed | src/transforms.rs:237-241 | with the smoothing factor in [0, 1] the smoothed speed lies between the old smoothed speed and the new head speed |
| PolyMouse.LookingFarAway | src/transforms.rs:270-276 | when the gaze counts as far away (with non-negative radii), it differs from both the pointer and the last jump destination |
| PolyMouse.FarAwayAvoidsGaze | src/transforms.rs:244-251 | a throw only starts when the gaze is away from the pointer, so its direction is defined |
| PolyMouse.Direction | src/transforms.rs:251 | the throw direction has length 1 |
| PolyMouse.DirectionReachesGaze | src/transforms.rs:251 | moving the pointer-to-gaze distance along the direction leads from the pointer to the gaze |
| PolyMouse.ThrowDestination | src/transforms.rs:250-260 | a continuing throw moves the real position `throw_dist` along the unit direction toward the gaze, which with a non-negative `throw_dist` is exactly `throw_dist` from the pointer; a snap lands on the same line, `min_jump` along the direction short of the gaze, exactly `min_jump` from it when `min_jump` is non-negative |
| PolyMouse.Throw | src/transforms.rs:249-262 | a continuing throw keeps throwing and the last jump; a snap stops throwing and records the gaze as the last jump; rounders are untouched; the output is the destination truncated toward zero on each axis |
| PolyMouse.SameParamsSameThrow | src/transforms.rs:250-259 | whether a throw continues, and where it lands, depend only on the parameters, not on the rest of the state |
| PolyMouse.ThrowApproachesGaze | src/transforms.rs:250-255 | a continuing throw step ends one throw distance closer to the gaze, still beyond `min_jump` |
| PolyMouse.SnapLandsNearGaze | src/transforms.rs:256-259 | a snap lands exactly `min_jump` from the gaze point |
| PolyMouse.ThrowAlongX | src/transforms.rs:249-255 | thrown from the origin toward `(g, 0)` beyond one step plus `min_jump`, the throw continues and the real destination is `(throw_dist, 0)` |
| PolyMouse.ThrowExample | src/transforms.rs:249-262 | with `throw_speed` 100 and `dt` 0.1, a throw from (0, 0) toward (200, 0) moves the pointer to (10, 0) and keeps throwing |
| PolyMouse.ThrowStalls | src/transforms.rs:249-262 | with `throw_speed` 5 and `dt` 0.1, a throw from (0, 0) toward (100, 0) has the destination (0.5, 0), which truncates back to (0, 0); the state is unchanged |
| PolyMouse.ThrowTowardZero | src/transforms.rs:249-262 | with `throw_speed` 5 and `dt` 0.1, a throw from (5, 0) toward (-100, 0) has the destination (4.5, 0), which truncates to (4, 0), a whole pixel from the pointer |
| PolyMouse.ThrowingStepThrows | src/transforms.rs:244-262 | a step of a state that is already throwing is one throw step from the state with the smoothed speed |
| PolyMouse.StalledThrowRepeats | src/transforms.rs:228-262 | in that stalled situation a whole step leaves the pointer at (0, 0), still throwing with the same parameters, so every later step repeats it |
| PolyMouse.Advance | src/transforms.rs:249-260 | `n` throw steps on real positions, stopping at the first snap: a throw still going never sits on the gaze point, and after at least one step it is still outside the `min_jump` circle |
| PolyMouse.ThrowProgress | src/transforms.rs:249-260 | a throw kept on real positions comes `n` throw steps closer to the gaze while it goes on, and ends exactly `min_jump` from the gaze |
| PolyMouse.ThrowEnds | src/transforms.rs:249-260 | with a positive throw step, a throw kept on real positions has snapped onto the `min_jump` circle once the steps taken cover the starting distance |
| PolyMouse.Track | src/transforms.rs:263-267 | on each axis the pixels moved plus the new carry equal the head delta plus the old carry; the carry bound is kept; throwing and the last jump are untouched |
| PolyMouse.Transform | src/transforms.rs:228-268 | throwing starts only through the guard; the throw branch splits into continue or snap, keeps the rounders and outputs the destination truncated toward zero; the tracking branch adds the rounded head motion and leaves the last jump alone |
| PolyMouse.TransformKeepsInv | src/transforms.rs:228-268 | with the smoothing factor in [0, 1], every step keeps both carries under one pixel and the smoothed speed non-negative |
| PolyMouse.NewHasInv | src/transforms.rs:217-226 | a new transform is tracking and satisfies the invariant |

## Left out

- IEEE `f32` behaviour is not modelled: rounding error, NaN and infinities are absent. Every value is an exact `real`.
- The `as i32` and `as f32` casts between `f32` and `i32` do not saturate or lose precision; only truncation is modelled. `mouse_pt + rounded_move` cannot overflow, because integers are unbounded.
- cgmath's `magnitude`, `distance` and `normalize` are not defined: they are foreign square-root numerics. The model takes any `mag` satisfying `Numerics.IsNorm`.
- `f32::exp` is a parameter for the same reason. `PI` is a 15-digit decimal constant.
- `VecDeque` capacity and allocation are not modelled, because the buffer is a `seq`. Indexing with `get(i).unwrap()` cannot fail for the indices the loop visits.
- OneEuro.Filter: requires `dt > 0`, positive cutoffs and `beta >= 0`. The code accepts any `f32`. With `dt == 0` or a zero cutoff it divides by zero. With a negative `dt`, a negative cutoff or a negative `beta`, the smoothing factor can leave (0, 1), so the filter extrapolates instead of smoothing. The model covers only positive intervals and the tuning the filter is meant for.
- PolyMouse.Transform: requires `dt > 0`. With `dt == 0`, `magnitude / dt` divides by zero. With a negative `dt` the head speed and the throw distance come out negative, so a throw step would move the pointer away from the gaze. The model covers only positive intervals.
- PolyMouse.Transform: also requires the gaze to differ from the pointer whenever the throw branch is taken. With equal points `normalize` divides by zero and the source's result is undefined. `PolyMouse.FarAwayAvoidsGaze` shows that the guard itself rules this out on the step a throw starts, when the radii are non-negative.
- OneEuro.Cutoff: its contract states only the lower bound and the zero-derivative case. Growth with the derivative is the separate lemma `OneEuro.CutoffMonotone`.
- OneEuro.Filter: the n-call convergence under a constant input is not stated, that is an error of at most `(1 - alpha(rate, mincutoff))^n` times the initial error. Only the one-call contraction `OneEuro.StepContracts` is proved. The n-call bound follows from it by induction on the number of calls, which the model does not carry out.
- PolyMouse.Transform: there is no progress promise for a throw. The pointer is truncated to whole pixels after every step, and a step under one pixel can stall the throw forever (see Findings). Progress is proved only for a throw kept on real positions, in `PolyMouse.ThrowEnds`.
- Numerics.Normalize: its contract states only the unit length. Its direction is stated by the separate lemma `Numerics.NormalizeScalesBack`.
- PointerAcceleration.GainMonotone: assumes an increasing `exp` and `lambda >= 0`; the bounds on the gain assume `cd_min <= cd_max`. Monotonicity is stated for the gain, not for the accelerated displacement, whose proof over real products is beyond the model.
- The `new` constructors are modelled as plain functions without contracts. `VecOneEuro.ConstantPointIsFixed` and `PolyMouse.NewHasInv` state what they promise.

## Findings

| source | as written | input that shows it | evidently intended | confidence | as-written member | corrected member |
|---|---|---|---|---|---|---|
| src/transforms.rs:254-262 | each throw step starts from the integer pointer and truncates `mouse_pt_f + dirn * throw_dist` toward zero back to `i32`, so on an axis where the step moves away from zero a step under one pixel is discarded | `throw_speed` 5, `min_jump` 5, `dt` 0.1, pointer (0, 0), gaze (100, 0), already throwing: the destination (0.5, 0) truncates to (0, 0), so the pointer never moves and `throwing` stays true | the pointer advances `throw_dist` per step until it snaps onto the `min_jump` circle around the gaze point, and tracking resumes | not executed | PolyMouse.StalledThrowRepeats | PolyMouse.ThrowEnds |
