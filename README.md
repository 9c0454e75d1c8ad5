# N-body orbits, RK4 and the HSV palette — a Dafny model

This project models the computational core of a small browser page that
animates an N-body gravity simulation:

- `docs/scripts/RK4.js` is a fixed-step classic Runge-Kutta integrator written
  as a generator. It is modelled by `rk4.dfy` as the class `RK4.Stepper`, whose
  `Next` is one `next()` call. The specification functions `Step` (one
  four-stage update) and `Evolve` (n updates) describe its trajectory.
- `docs/scripts/gravity_simulator.js` is the `Simulator` class. It is modelled
  by `gravity_simulator.dfy` as `GravitySimulator.Simulator`:
  - the constructor moves the bodies into the centre-of-mass frame and creates
    the integrator;
  - `calc_accelerators` fills an N x N x 3 array in place and sums it;
  - `calc_positions` pulls one frame and keeps the running minimum separation.

  The pure parts are functions: the barycentric shift, `calc_derivatives` and
  the derivative closure. Lemmas prove what the physics promises over exact
  reals:
  - the centre-of-mass frame has zero total momentum;
  - the accelerations balance: Newton's third law for the mass-weighted sum;
  - every Runge-Kutta step keeps the state in that frame.
- `docs/scripts/color.js` holds the `HSV` class and the `HSV_palette`
  generator. They are modelled by `color.dfy`:
  - the hue is reduced with JavaScript's truncated `%`;
  - saturation and value are clamped;
  - `toRGB` works sector by sector. It is proved to put the channels in
    [min, max]. Before flooring, the channels are inverted by the usual
    RGB-to-HSV formula: v always, s when v > 0, and h when v > 0 and s > 0.
    The floored, packed result is a 24-bit integer whose bytes are the
    floored channels.
  - the palette's hue walk is proved to be the initial hue plus the sum of
    the steps so far, up to whole turns. That sum is proved equal to
    120k + 60⌊k/3⌋ − 30⌊k/6⌋, and the hues repeat with period 24.
- `docs/gravity.js` is the page script. `gravity_page.dfy` models its logic:
  - `addOrbitPoint` shifts a 300-entry `array<real>` in place and sets the
    draw range. The model proves the buffer always holds the most recent 100
    points in order, and that the draw range shows exactly those.
  - `HSL_palette` walks the same hues as the HSV palette.
  - the frame counter of `tick` records a trail point on every fourth frame,
    with index `Math.round(count / 4)`.

Numbers are Dafny `real`s. Vectors are `seq<real>`, and N x 3 matrices are
sequences of rows of three. The integrator's state is the 2 x N x 3 tensor
`[positions, velocities]` flattened row-major. `math.norm` is library code;
it is the parameter `norm: Vector -> real`. The momentum results assume it is
symmetric (`norm(-v) == norm(v)`). Where the script would produce NaN or
Infinity (two bodies at zero separation), the derivative answers `None`.

`wrappers.dfy` holds the `Option` type and `vectors.dfy` the vector helpers
(the operations math.js provides).

## Model

| member | source | states |
|---|---|---|
| RK4.Stepper.constructor | docs/scripts/RK4.js:1-4 | creating the generator runs none of its body: not started, count 0, value is initValue |
| RK4.Stepper.Next | docs/scripts/RK4.js:1-18 | the first call yields (0, initValue) without evaluating func; every later call advances count by exactly one, yields time = previous time + deltaT, and yields Step of the previous (t, value); the invariant keeps t == count * deltaT and value == Evolve(initValue, count) |
| RK4.Stepper.Update | docs/scripts/RK4.js:8-15 | the four stages are taken at (t, y), (t + h/2, y + h/2 k1), (t + h/2, y + h/2 k2), (t + h, y + h k3); count goes up by one, t is recomputed as count * deltaT, and the new value is the classic update Step(t, value) |
| RK4.Step | docs/scripts/RK4.js:8-15 | one update from (t, value): the four stages at the classic points and the 1-2-2-1 combination over six; undefined when any stage is; the result has the state's size |
| RK4.Evolve | docs/scripts/RK4.js:7-17 | the value after n updates, the m-th update starting at time m * deltaT; same size as initValue when defined |
| RK4.Advance | docs/scripts/RK4.js:13-15 | one defined update extends the trajectory by one state, and the clock count * deltaT moves on by exactly deltaT |
| RK4.CombineEqualMiddleStages | docs/scripts/RK4.js:15 | the weighted combination with equal middle stages is y + h/6 (k1 + 4 k2 + k4) |
| RK4.StepOfTimeOnlyDerivative | docs/scripts/RK4.js:8-15 | when func depends on time only, one update is Simpson's rule over [t, t + h] |
| RK4.StepOfConstantDerivative | docs/scripts/RK4.js:8-15 | with a constant derivative c, each update adds exactly deltaT * c |
| RK4.EvolveWithConstantDerivative | docs/scripts/RK4.js:7-17 | with a constant derivative c, the n-th value is initValue + n deltaT c |
| RK4.ZeroDerivativeIsStationary | docs/scripts/RK4.js:7-17 | with a zero derivative the value never changes |
| RK4.StepOfLinearDerivative | docs/scripts/RK4.js:8-15 | for y' = a y one update multiplies y by 1 + z + z²/2 + z³/6 + z⁴/24 with z = a h, which holds only if the stage arguments and weights are the classic ones |
| RK4.StepKeeps | docs/scripts/RK4.js:8-15 | a property closed under sums and multiples that the derivative respects holds after every update |
| RK4.EvolveKeeps | docs/scripts/RK4.js:7-17 | such a property holds for every value the generator yields |
| GravitySimulator.Simulator.constructor | docs/scripts/gravity_simulator.js:4-33 | the initial positions and velocities are stored in the centre-of-mass frame, G is 1, min is undefined, and the not-yet-started integrator runs the derivative closure from the packed state [positions, velocities] with step delta_t |
| GravitySimulator.ToCentreFrame | docs/scripts/gravity_simulator.js:14-20 | every row minus the mass-weighted mean of the rows; the result is again N x 3 (its zero weighted sum is GravitySimulator.CentreFrameHasZeroMomentum) |
| GravitySimulator.WeightedSumOfShift | docs/scripts/gravity_simulator.js:15-16 | subtracting c from every row lowers the mass-weighted sum by (total mass) c |
| GravitySimulator.CentreFrameHasZeroMomentum | docs/scripts/gravity_simulator.js:14-20 | after subtracting the centre of mass, the mass-weighted sum of the rows is exactly zero: for positions (centre of mass at the origin) and for velocities (total momentum zero) |
| GravitySimulator.UnpackPack | docs/scripts/gravity_simulator.js:26-31 | reading the position and velocity halves of the packed state gives back the matrices packed |
| GravitySimulator.PackUnpack | docs/scripts/gravity_simulator.js:26-28 | packing the two halves of a state gives back the state |
| GravitySimulator.CalcDerivatives | docs/scripts/gravity_simulator.js:55-57 | the rate of the positions is the velocity matrix itself; the rate of the velocities is an N x 3 matrix whose mass-weighted sum is zero for a symmetric norm |
| GravitySimulator.Derivative | docs/scripts/gravity_simulator.js:25-29 | the closure handed to the integrator: unpacks the state into positions and velocities, applies calc_derivatives with G = 1 and packs the result; it ignores t (contract in GravitySimulator.DerivativeDomain and GravitySimulator.DerivativeParts) |
| GravitySimulator.DerivativeDomain | docs/scripts/gravity_simulator.js:25-29 | the closure is defined exactly on states of size 6N whose bodies are pairwise apart |
| GravitySimulator.DerivativeParts | docs/scripts/gravity_simulator.js:25-29 | the derivative of the positions is the velocity half unchanged, the derivative of the velocities is the accelerations, and the time argument is ignored |
| GravitySimulator.Accelerations | docs/scripts/gravity_simulator.js:60-76 | the N x 3 reference matrix: row i sums the pair terms -G m_j (p_i - p_j) / norm(p_i - p_j)^3 over j != i, with zero for j == i |
| GravitySimulator.Simulator.CalcAccelerators | docs/scripts/gravity_simulator.js:60-77 | the result is the N x 3 matrix whose row i is the sum over j != i of -G m_j (p_i - p_j) / norm(p_i - p_j)^3 |
| GravitySimulator.Simulator.FillRow | docs/scripts/gravity_simulator.js:64-74 | row i of acc_matrix receives the pair accelerations, its diagonal entry stays zero, and no other row changes |
| GravitySimulator.Simulator.SetEntry | docs/scripts/gravity_simulator.js:71 | acc_matrix[i, j] becomes acc and no other entry changes |
| GravitySimulator.Simulator.SumRows | docs/scripts/gravity_simulator.js:76 | summing acc_matrix over its second axis gives the accelerations |
| GravitySimulator.Simulator.SumRow | docs/scripts/gravity_simulator.js:76 | row i of the sum is acc_matrix[i, 0] + ... + acc_matrix[i, N-1] |
| GravitySimulator.PairMomentaCancel | docs/scripts/gravity_simulator.js:65-71 | for a symmetric norm and every pair a, b (a == b included), m_a times coordinate k of the pull of b on a is minus m_b times that of the pull of a on b |
| GravitySimulator.AccelerationsConserveMomentum | docs/scripts/gravity_simulator.js:60-76 | for a symmetric norm, the mass-weighted sum of the accelerations is the zero vector |
| GravitySimulator.DerivativeBarycentric | docs/scripts/gravity_simulator.js:55-57 | from a state with zero total momentum the derivative is again a state with zero weighted sums |
| GravitySimulator.StepKeepsBarycentric | docs/scripts/gravity_simulator.js:24-32 | every Runge-Kutta update of the simulator keeps the centre of mass at the origin and the total momentum at zero |
| GravitySimulator.EvolveKeepsBarycentric | docs/scripts/gravity_simulator.js:24-32 | every state the integrator yields has its centre of mass at the origin and zero momentum |
| GravitySimulator.Simulator.CalcPositions | docs/scripts/gravity_simulator.js:35-52 | returns the integrator's time and the position half of its state: on the first call time 0 and the centre-frame initial positions, later the next Step at time + delta_t; the returned positions have their centre of mass at the origin; min then bounds every pairwise separation of these positions, never increases, and is one of the separations or the old min |
| GravitySimulator.Simulator.UpdateMin | docs/scripts/gravity_simulator.js:37-47 | after the double loop min is at most the separation of every ordered pair i != j, at most the old min, defined once there are two bodies, and equal to the old min or one of the separations |
| Color.Rem360 | docs/scripts/color.js:3-5 | JavaScript's `% 360`: the remainder has the sign of the dividend, lies within (-360, 360), and differs from it by whole turns |
| Color.WrapUnique | docs/scripts/color.js:3-6 | the angle in [0, 360) a whole number of turns from x is unique |
| Color.NewHsv | docs/scripts/color.js:2-9 | the hue becomes the angle in [0, 360) equal to h modulo whole turns, for negative h too; s and v are clamped to [0, 100] (unchanged inside, 0 below, 100 above) |
| Color.NewHsvIdempotent | docs/scripts/color.js:2-9 | constructing again from an HSV's own fields gives the same fields |
| Color.Channels | docs/scripts/color.js:14-41 | the six sectors of toRGB before flooring; in every sector one channel equals max and one equals min |
| Color.TopBottomRange | docs/scripts/color.js:14-15 | 0 <= min <= max <= 255 |
| Color.ChannelsSpan | docs/scripts/color.js:17-41 | in every hue sector one channel is max, one is min and the third lies between them, all within [0, 255] |
| Color.GreyWithoutSaturation | docs/scripts/color.js:15-41 | with s = 0 every hue gives r = g = b = max |
| Color.HueOfSector0 | docs/scripts/color.js:17-20 | in the red-to-yellow sector the hue is read back from g |
| Color.HueOfSector1 | docs/scripts/color.js:21-24 | in the yellow-to-green sector the hue is read back from r |
| Color.HueOfSector2 | docs/scripts/color.js:25-28 | in the green-to-cyan sector the hue is read back from b |
| Color.HueOfSector3 | docs/scripts/color.js:29-32 | in the cyan-to-blue sector the hue is read back from g |
| Color.HueOfSector4 | docs/scripts/color.js:33-36 | in the blue-to-magenta sector the hue is read back from r |
| Color.HueOfSector5 | docs/scripts/color.js:37-40 | in the magenta-to-red sector the hue is read back from b |
| Color.ChannelsRoundTrip | docs/scripts/color.js:11-41 | the standard RGB-to-HSV conversion of the unfloored channels gives back v; also s when v > 0, and h when v > 0 and s > 0 |
| Color.ToRgb | docs/scripts/color.js:11-48 | for an HSV object (hue in [0, 360), s and v in [0, 100]) the result is an integer in [0, 0xFFFFFF] whose three bytes are the floored r, g and b, each in [0, 255] |
| Color.BytesUnpack | docs/scripts/color.js:47 | r * 16^4 + g * 16^2 + b with bytes r, g, b splits back into r, g, b |
| Color.PaletteHue | docs/scripts/color.js:56-63 | the raw hue after k steps: init_h, then (h + step) % 360; after the first step it lies in (-360, 360) |
| Color.HueIncrementCounts | docs/scripts/color.js:57-62 | the k-th step is 120, plus 60 when k is a multiple of 3, minus 30 when k is a multiple of 6 |
| Color.IncrementsClosedForm | docs/scripts/color.js:56-63 | the sum of the first k steps is 120k + 60⌊k/3⌋ − 30⌊k/6⌋ |
| Color.PaletteHueIsSum | docs/scripts/color.js:51-66 | after k steps the raw hue is the initial hue plus the first k steps (150 at every sixth, else 180 at every third, else 120), up to whole turns |
| Color.PaletteHueInRange | docs/scripts/color.js:53-63 | started in [0, 360), the raw hue never leaves [0, 360) |
| Color.IncrementsOverSix | docs/scripts/color.js:57-63 | six consecutive steps add 810 degrees, so `d2 /= 2` has no lasting effect |
| Color.PaletteRepeats | docs/scripts/color.js:51-66 | the palette's hues repeat with period 24 |
| Color.HsvPalette.constructor | docs/scripts/color.js:51-53 | creating the generator runs none of its body: count 0, h is init_h, s and v kept |
| Color.HsvPalette.Next | docs/scripts/color.js:51-66 | the first call yields the colour of init_h with count 0; every later call advances count by one; each colour is the HSV of the current hue, whose hue is init_h plus the sum of the steps so far, wrapped |
| GravityPage.OrbitLine.constructor | docs/gravity.js:95-107 | a buffer of MAX_POINT_COUNT zero points, with the empty draw range (0, 0) |
| GravityPage.OrbitLine.AddOrbitPoint | docs/gravity.js:121-137 | the new buffer is the old one without its first point, with the new point appended; its length is unchanged; the draw range becomes (MAX - index - 1, index + 1) when index < MAX and is left alone otherwise; the buffer keeps holding the latest points |
| GravityPage.ShiftedSlots | docs/gravity.js:124-132 | after the shift, slot q holds what slot q + 1 held and the last slot holds the new point |
| GravityPage.ShiftKeepsTrail | docs/gravity.js:122-132 | if the buffer held the most recent min(n, MAX) points in order, after the shift it holds the most recent min(n + 1, MAX) |
| GravityPage.AddKeepsShowingTrail | docs/gravity.js:134-136 | adding point number n with index n keeps the draw range showing exactly the last min(n + 1, MAX) slots |
| GravityPage.DrawnIsTrail | docs/gravity.js:122-136 | when indices 0, 1, 2, ... are passed in turn, the drawn points are exactly the most recent min(n, MAX) points in insertion order |
| GravityPage.HslPalette.constructor | docs/gravity.js:59-61 | creating the generator runs none of its body: count 0, h is init_h, s and l kept |
| GravityPage.HslPalette.Next | docs/gravity.js:59-75 | the same hue walk as `HSV_palette`: the first call yields init_h, and the k-th colour's hue is init_h plus the first k steps, up to whole turns |
| GravityPage.SphereHues | docs/gravity.js:77-82 | `HSL_palette(40, 100, 60)` gives the first four spheres the hues 40, 160, 280 and 100 |
| GravityPage.SampleIndexCountsSamples | docs/gravity.js:155-161 | a point is recorded exactly when count % 4 == 0, with index Math.round(count / 4) == count / 4, which is the number of points recorded before |
| GravityPage.Page.constructor | docs/gravity.js:92-119 | one fresh, empty orbit line per body, with t and count zero |
| GravityPage.Page.AddTrailPoints | docs/gravity.js:156-160 | each orbit i receives positions[i]; all trails keep showing their points |
| GravityPage.Page.Tick | docs/gravity.js:143-161 | t becomes the time, count goes up by one, and every orbit receives its body's position exactly when the old count is a multiple of 4 |

## Left out

- IEEE-754 arithmetic is not modelled: rounding, NaN and Infinity. Numbers are exact reals. A division by a zero separation, where the script would compute non-finite values, is the derivative answering `None`.
- The Float32 storage of the trail buffer is not modelled. The buffer is an `array<real>`.
- Rendering is not modelled: three.js (scene, camera, OrbitControls, meshes, materials, `renderer.render`), `requestAnimationFrame`, and setting the sphere positions in `tick` (docs/gravity.js:151-153). All of these are library calls without logic to state. `canvas.js` is not part of this model.
- The vertex colours of the trails are not modelled: their alpha gradient `j / MAX_POINT_COUNT` (docs/gravity.js:100-106).
- The sphere radii `0.3 * cbrt(m / min m)` (docs/gravity.js:81) are not modelled, because `Math.cbrt` is library code.
- `THREE.Color` parsing of the `hsl(...)` string is not modelled. `GravityPage.Hsl` keeps the three numbers as passed.
- `math.norm` is a parameter. Its symmetry is assumed where the momentum results need it (`SymmetricNorm`).
- `GravitySimulator.Simulator.constructor`: requires a nonzero total mass. The script would divide by zero there and carry NaN positions.
- `GravitySimulator.Simulator.constructor`: requires a symmetric norm. The script always uses the Euclidean norm, which has that property.
- The shape checks at docs/scripts/gravity_simulator.js:11-12 are `console.assert`s that only log. They are preconditions (`IsMatrix`) here.
- `RK4.Stepper.Next`: requires the next update to be defined, meaning no stage lands where the derivative is non-finite. Past such a point the script goes on yielding NaN values.
- `GravitySimulator.Simulator.CalcPositions`: requires the next update to be defined, for the same reason as `RK4.Stepper.Next`.
- `GravitySimulator.Simulator.CalcAccelerators`: requires the bodies to be pairwise apart. Otherwise the script divides by zero.
- The accuracy, convergence order and energy behaviour of the integrator are not modelled. The script promises none of them.
- math.js `subset`/`reshape` indexing is not modelled. The state is a flat vector with explicit halves (`PositionHalf`, `VelocityHalf`).
- `Color.Rem360`: JavaScript's `%` can return -0. Over reals there is no signed zero, so this is not modelled.
- `GravityPage.Page.Tick`: takes the time and positions returned by `calc_positions` as parameters. It does not call `GravitySimulator.Simulator.CalcPositions` itself. The loop `for (let i = 0; i < 1; i++)` around that call runs once.
- `GravityPage.Page.Tick`: does not model `controls.update()`.
