# Droplet Simulator — a Dafny model of the game core

Droplet Simulator is a browser game. A small ship flies through an endless
field of space objects. Asteroids and the occasional large red starship are
scattered over square regions 10 km wide. A region is generated the first
time the camera comes near it. Holding Space scans for objects between
50 m and 10 km away and shows an arrow or icon for each one. Holding Shift
switches the ship into "droplet" mode for half a second. In this mode the
ship is much faster, and touching an object destroys it in a shower of
spark particles. Megastructures are pixel-masked bodies. Impacts carve
holes in them, chips of the mask fly off as fragments, and the structure
counts as destroyed once less than 30% of its pixels are intact.

The model follows the source file by file:

| file | module | what it holds |
|---|---|---|
| `JsMath.dfy` | `JsMath` | `Math.floor`, `Math.round`, `Math.min` and the iteration counts of the source's `for` loops over reals |
| `Vector2.dfy` | `Vectors` | the immutable 2-D vector, its region key and the (unused) snapping `normalize` |
| `BigVector2.dfy` | `BigVectors` | the BigInt vector, with BigInt division that truncates toward zero |
| `Particle.dfy` | `Particles` | a particle as a class with a value snapshot, its step and its life-time |
| `SpaceObject.dfy` | `SpaceObjects` | a drifting object as a class with a value snapshot |
| `Ship.dfy` | `Ships` | the ship: keyboard force, droplet timer, speed cap, damping |
| `DirectionIndicator.dfy` | `Indicators` | scan markers: colour ramp, on-screen test, arrow or icon |
| `Megastructure.dfy` | `Megastructures` | the alpha mask as an `array<byte>`, penetration, fragments, explosion |
| `Game.dfy` | `Games` | the game state as a class: region generation, collision, particles, camera and the frame loop |

Each entity the source updates in place is a class with `modifies`
frames. `Particle`, `SpaceObject`, `Ship`, `Fragment`, `Megastructure`
and `Game` are classes. A ghost `State()` or `Snapshot()` function gives
each class a value view. Every method is proved against a pure function
on that view, and the properties are proved about those functions.

Randomness, trigonometry and square roots are not computed. Each
`Math.random()` draw is a `Roll`, a real in `[0, 1)`, and is passed in as
an input. `Math.cos`/`Math.sin` become a parameter `trig: real -> Vector2`.
`Math.sqrt` becomes a parameter `sqrt`, and `Games.IsSqrt` states what it
must satisfy when a proof needs it.

## Model

| member | source | states |
|---|---|---|
| JsMath.Min | src/Game.ts:422 | the minimum is at most both arguments and equals one of them |
| JsMath.Floor | src/entities/Vector2.ts:31-35 | the result is the unique integer k with k ≤ t < k + 1 |
| JsMath.FloorUnique | src/entities/Vector2.ts:31-35 | Floor(t) == k exactly when k ≤ t < k + 1 |
| JsMath.FloorMonotone | src/entities/Vector2.ts:31-35 | Floor is monotone |
| JsMath.Round | src/entities/BigVector2.ts:8-11 | Math.round lands within half a unit, with halves rounded up: t − 0.5 < k ≤ t + 0.5 |
| JsMath.RoundInteger | src/entities/BigVector2.ts:8-11 | rounding an integer gives it back |
| JsMath.Iterations | src/entities/Megastructure.ts:158-160 | a loop `for (i = 0; i < bound; i++)` runs the least n with n ≥ bound times |
| JsMath.Samples | src/entities/Megastructure.ts:105-106 | a loop `for (x = -r; x <= r; x++)` runs 0 times iff span < 0, else ⌊span⌋ + 1 times |
| Vectors.Add | src/entities/Vector2.ts:10-12 | `add`: the componentwise sum; its algebra is stated by AddCommutative, AddAssociative and AddZero |
| Vectors.Multiply | src/entities/Vector2.ts:14-16 | `multiply`: each component times the scalar; MultiplyOne and MultiplyDistributes state its algebra |
| Vectors.Normalize | src/entities/Vector2.ts:23-28 | `normalize(scale)`: each component snapped to the nearest multiple of the scale; NormalizeSnaps and NormalizeIdempotent state what it guarantees |
| Vectors.RegionKey | src/entities/Vector2.ts:31-35 | `getRegionKey`: the floor of each coordinate over the region size; RegionKeyBands characterises it by the region's square |
| Vectors.AddCommutative | src/entities/Vector2.ts:10-12 | vector addition is commutative |
| Vectors.AddAssociative | src/entities/Vector2.ts:10-12 | vector addition is associative |
| Vectors.AddZero | src/entities/Vector2.ts:10-12 | the zero vector is a two-sided identity |
| Vectors.MultiplyOne | src/entities/Vector2.ts:14-16 | scaling by 1 is the identity |
| Vectors.MultiplyDistributes | src/entities/Vector2.ts:14-16 | scaling distributes over addition |
| Vectors.LengthSquared | src/entities/Vector2.ts:18-20 | the squared length is non-negative and is zero exactly for the zero vector |
| Vectors.LengthUnique | src/entities/Vector2.ts:18-20 | a vector has exactly one non-negative length |
| Vectors.SquareOrder | src/entities/Vector2.ts:18-20 | comparing non-negative lengths is the same as comparing their squares, which justifies the square-based distance tests |
| Vectors.SnapMultiple | src/entities/Vector2.ts:23-28 | a snapped coordinate is an integer multiple of the scale, namely Round(t / scale) |
| Vectors.SnapIdempotent | src/entities/Vector2.ts:23-28 | snapping twice is snapping once |
| Vectors.SnapClose | src/entities/Vector2.ts:23-28 | snapping moves a coordinate by at most half the scale |
| Vectors.NormalizeSnaps | src/entities/Vector2.ts:23-28 | both coordinates of `normalize(scale)` are multiples of the scale and within half a scale of the input |
| Vectors.NormalizeIdempotent | src/entities/Vector2.ts:23-28 | normalize is idempotent |
| Vectors.BandOf | src/entities/Vector2.ts:31-35 | ⌊t / size⌋ == k exactly when t lies in the band [k·size, (k+1)·size) |
| Vectors.RegionKeyBands | src/entities/Vector2.ts:31-35 | a position has region key (kx, ky) exactly when it lies in that region's square |
| BigVectors.Add | src/entities/BigVector2.ts:13-15 | `add`: the componentwise BigInt sum; AddCommutative, AddAssociative and AddZero state its algebra |
| BigVectors.Multiply | src/entities/BigVector2.ts:17-20 | `multiply` by a BigInt: the exact componentwise product; MultiplyOne and MultiplyDistributes state its algebra |
| BigVectors.ToVector2 | src/entities/BigVector2.ts:29-31 | `toVector2`: each BigInt converted to a number; FromToVector2 proves the round trip back |
| BigVectors.TruncDiv | src/entities/BigVector2.ts:40-41 | BigInt `/`, truncating toward zero; TruncDivRemainder and TruncDivNonNegative characterise it |
| BigVectors.FromNumbers | src/entities/BigVector2.ts:8-11 | the constructor rounds each coordinate to within half a unit, halves upward |
| BigVectors.RoundHalfUp | src/entities/BigVector2.ts:8-11 | a half-way value k + ½ rounds up to k + 1, and k − ½ rounds to k |
| BigVectors.FromIntegerNumbers | src/entities/BigVector2.ts:8-11 | integer coordinates pass through the constructor unchanged |
| BigVectors.AddCommutative | src/entities/BigVector2.ts:13-15 | BigInt vector addition is commutative |
| BigVectors.AddAssociative | src/entities/BigVector2.ts:13-15 | BigInt vector addition is associative |
| BigVectors.AddZero | src/entities/BigVector2.ts:13-15 | the zero vector is a two-sided identity |
| BigVectors.MultiplyNumber | src/entities/BigVector2.ts:17-20 | a number scalar multiplies exactly like the integer nearest to it, halves rounded up: like every k with k − ½ ≤ scalar < k + ½ |
| BigVectors.MultiplyNumberNear | src/entities/BigVector2.ts:17-20 | every scalar in [k − ½, k + ½) multiplies exactly like k |
| BigVectors.MultiplyOne | src/entities/BigVector2.ts:17-20 | scaling by 1, as an integer or as a number, is the identity |
| BigVectors.MultiplyDistributes | src/entities/BigVector2.ts:17-20 | integer scaling distributes over addition |
| BigVectors.LengthSquared | src/entities/BigVector2.ts:22-26 | the squared length is non-negative and is zero exactly for the zero vector |
| BigVectors.FromVector2 | src/entities/BigVector2.ts:34-36 | conversion from a Vector2 rounds exactly like the constructor |
| BigVectors.FromToVector2 | src/entities/BigVector2.ts:29-36 | BigVector2 → Vector2 → BigVector2 is the identity |
| BigVectors.TruncDivRemainder | src/entities/BigVector2.ts:39-43 | BigInt division truncates: the remainder is smaller than the divisor in magnitude and has the dividend's sign |
| BigVectors.TruncDivNonNegative | src/entities/BigVector2.ts:39-43 | on non-negative operands, BigInt division agrees with floor division |
| BigVectors.FloorDivision | src/entities/Vector2.ts:31-35 | for a positive divisor, Math.floor of the real quotient is Euclidean integer division |
| BigVectors.RegionKey | src/entities/BigVector2.ts:39-43 | the key is a division-by-zero error exactly when the region size is 0 |
| BigVectors.RegionKeyAgreesNonNegative | src/entities/BigVector2.ts:39-43 | in the non-negative quadrant the BigInt key equals the Vector2 key of the same point |
| BigVectors.RegionKeyTruncatesNegative | src/entities/BigVector2.ts:39-43 | for (−1, −1) the BigInt key is (0, 0) while the Vector2 key is (−1, −1) |
| Particles.Step | src/entities/Particle.ts:18-21 | `update(deltaTime)`: move by velocity·dt and lose dt of life; StepEffect and RunEffect state its effect |
| Particles.FadeRatio | src/entities/Particle.ts:24 | the drawing alpha life / maxLife; FadeRatioBounds bounds it |
| Particles.Spawned | src/entities/Particle.ts:10-16 | a new particle starts with life == maxLife == the given lifetime |
| Particles.Particle.constructor | src/entities/Particle.ts:10-16 | the object's state is the spawned particle |
| Particles.Particle.Update | src/entities/Particle.ts:18-21 | the new state is one step of the old one |
| Particles.StepEffect | src/entities/Particle.ts:18-21 | a step moves by velocity·dt and takes dt off the life; nothing else changes |
| Particles.SumNonNegative | src/entities/Particle.ts:18-21 | a run of non-negative frame times has a non-negative total |
| Particles.RunEffect | src/entities/Particle.ts:18-21 | after any run of frames the life dropped by exactly the total time; maxLife, velocity and colour are unchanged |
| Particles.ExpiresAfterLifetime | src/entities/Particle.ts:10-21 | once the elapsed time reaches the lifetime, the particle's life is ≤ 0 |
| Particles.FadeRatioBounds | src/entities/Particle.ts:24 | the drawing alpha life / maxLife never exceeds 1 and is positive while the particle lives |
| Particles.States | src/Game.ts:255 | the value view of a particle list is position-wise the particles' states |
| Particles.StatesMatch | src/Game.ts:255 | a list whose elements have the given states has that value view |
| Particles.Alive | src/Game.ts:393-396 | the kept list is no longer than the input and every kept particle has life > 0 |
| Particles.AliveKeepsExactlyLiving | src/Game.ts:393-396 | a particle survives the filter exactly when it was present and alive |
| SpaceObjects.Step | src/entities/SpaceObject.ts:18-20 | `update(deltaTime)`: move by velocity·dt; StepEffect, StepZero and StepAdditive state its effect |
| SpaceObjects.SpaceObject.constructor | src/entities/SpaceObject.ts:10-16 | the object's state holds exactly the given position, velocity, size, colour and kind |
| SpaceObjects.SpaceObject.Update | src/entities/SpaceObject.ts:18-20 | the new state is one step of the old one |
| SpaceObjects.StepEffect | src/entities/SpaceObject.ts:18-20 | a step moves by velocity·dt and changes nothing else |
| SpaceObjects.StepZero | src/entities/SpaceObject.ts:18-20 | a zero-time step changes nothing |
| SpaceObjects.StepAdditive | src/entities/SpaceObject.ts:18-20 | two steps of a and b are one step of a + b |
| SpaceObjects.States | src/Game.ts:254 | the value view of an object list is position-wise the objects' states |
| SpaceObjects.StatesMatch | src/Game.ts:254 | a list whose elements have the given states has that value view |
| Ships.KeyForce | src/entities/Ship.ts:38-43 | the force built from the held arrow/WASD keys; KeyForceComponents gives each axis |
| Ships.DropletStep | src/entities/Ship.ts:22-35 | the Shift check and droplet timer; ShiftArmsDroplet, DropletExpires and the mode-invariant lemmas state its effect |
| Ships.Capped | src/entities/Ship.ts:47-49 | the speed cap; CappedFast and CapExact state that a capped velocity has length exactly maxSpeed |
| Ships.Step | src/entities/Ship.ts:20-53 | the whole `update`: droplet block, key force, integration, cap, damping, reset; StepKeepsSpeedMatchesMode, StepKeepsTimerMatchesMode, StepResetsAcceleration and StepSpeedBound state what it keeps |
| Ships.KeyForceComponents | src/entities/Ship.ts:38-43 | each arrow/WASD pair pushes ±300 along its axis, and opposite keys cancel |
| Ships.SpawnedValid | src/entities/Ship.ts:12-18 | a new ship is in normal mode with a max speed and a timer that match that mode |
| Ships.StepKeepsSpeedMatchesMode | src/entities/Ship.ts:20-53 | an update keeps maxSpeed equal to the droplet speed exactly in droplet mode |
| Ships.StepKeepsTimerMatchesMode | src/entities/Ship.ts:20-53 | an update keeps the droplet timer positive exactly in droplet mode |
| Ships.ShiftArmsDroplet | src/entities/Ship.ts:22-35 | holding Shift enters droplet mode at droplet speed, with half a second minus this frame left |
| Ships.DropletExpires | src/entities/Ship.ts:29-35 | without Shift, a timer that runs out returns the ship to normal mode and speed |
| Ships.StepResetsAcceleration | src/entities/Ship.ts:52 | every update clears the accumulated acceleration |
| Ships.CappedFast | src/entities/Ship.ts:47-49 | above the cap, the velocity is rescaled by maxSpeed / speed |
| Ships.LengthSquaredMultiply | src/entities/Ship.ts:47-49 | scaling by k scales the squared length by k² |
| Ships.CapExact | src/entities/Ship.ts:47-49 | a capped velocity has length exactly maxSpeed |
| Ships.StepSpeedBound | src/entities/Ship.ts:45-52 | after an update the ship's velocity is no longer than the damped cap |
| Ships.Ship.constructor | src/entities/Ship.ts:12-18 | the new ship is the spawned ship state and satisfies the mode invariant |
| Ships.Ship.ApplyForce | src/entities/Ship.ts:55-57 | the force is added to the acceleration and nothing else changes |
| Ships.Ship.Integrate | src/entities/Ship.ts:45-52 | velocity = damped cap of (v + a·dt), position += velocity·dt, acceleration reset, mode untouched |
| Ships.Ship.TickDroplet | src/entities/Ship.ts:22-35 | the droplet block moves the state as DropletStep does |
| Ships.Ship.Update | src/entities/Ship.ts:20-53 | the new state is Step of the old one, and the mode invariant is kept |
| Indicators.Red | src/entities/DirectionIndicator.ts:20-21 | the red channel ⌊255·ratio⌋; ChannelBounds, ChannelEnds, ChannelsMonotone and ChannelSum characterise it |
| Indicators.Blue | src/entities/DirectionIndicator.ts:20-22 | the blue channel ⌊255·(1 − ratio)⌋; characterised by the same lemmas as Red |
| Indicators.OnScreen | src/entities/DirectionIndicator.ts:33-35 | the on-screen test in screen coordinates; OnScreenCentred restates it about the camera |
| Indicators.Draw | src/entities/DirectionIndicator.ts:14-89 | the decisions of `draw`: colour, arrow or not, icon kind; DrawShowsArrowOffScreen states them |
| Indicators.NormalizedBounds | src/entities/DirectionIndicator.ts:20 | the distance ratio min(d / 10000, 1) lies in [0, 1] |
| Indicators.ChannelBounds | src/entities/DirectionIndicator.ts:20-23 | the red and blue channels are bytes |
| Indicators.ChannelEnds | src/entities/DirectionIndicator.ts:20-23 | the colour is pure blue at distance 0 and pure red from 10 km on |
| Indicators.ChannelsMonotone | src/entities/DirectionIndicator.ts:20-23 | farther targets are redder and less blue |
| Indicators.ChannelSum | src/entities/DirectionIndicator.ts:20-23 | red + blue is 255 when 255·ratio is an integer and 254 otherwise, because both channels are floored |
| Indicators.OnScreenCentred | src/entities/DirectionIndicator.ts:33-37 | a target is on screen exactly when it lies within half a screen of the camera on both axes |
| Indicators.DrawShowsArrowOffScreen | src/entities/DirectionIndicator.ts:33-88 | an edge arrow is drawn exactly when the target is off screen; asteroids get a dot, starships a box; the colour channels are bytes |
| Megastructures.FragmentStep | src/entities/Megastructure.ts:219-227 | the fragment's `update`; FragmentStepEffect states its effect |
| Megastructures.InDisc | src/entities/Megastructure.ts:107-108 | the disc test without a square root; InDiscMeans proves it equal to the source's `distance <= radius` |
| Megastructures.Shatters | src/entities/Megastructure.ts:115-116 | the destruction chance test without a square root; ShattersMeans proves it equal to the source's test |
| Megastructures.BurstParticle | src/entities/Megastructure.ts:159-169 | one explosion particle of `explode`; BurstParticleBounds states its bounds |
| Megastructures.Debris | src/entities/Megastructure.ts:174-185 | one debris fragment of `explode`; DebrisBounds states its bounds |
| Megastructures.FragmentSpawned | src/entities/Megastructure.ts:210-217 | a new fragment has life == maxLife, rotation 0 and spin in [−5, 5) |
| Megastructures.FragmentStepEffect | src/entities/Megastructure.ts:219-227 | a step moves by velocity·dt, damps velocity by 0.98, adds 49·dt of gravity and takes dt off the life |
| Megastructures.StepAll | src/entities/Megastructure.ts:66 | every fragment is stepped, position by position |
| Megastructures.Alive | src/entities/Megastructure.ts:67 | the kept fragments number at most the input and all have life > 0 |
| Megastructures.AliveKeepsExactlyLiving | src/entities/Megastructure.ts:67 | a fragment survives the filter exactly when it was present and alive |
| Megastructures.Fragment.constructor | src/entities/Megastructure.ts:210-217 | the object's state is the spawned fragment |
| Megastructures.Fragment.Update | src/entities/Megastructure.ts:219-227 | the new state is one step of the old one |
| Megastructures.States | src/entities/Megastructure.ts:10 | the value view of a fragment list is position-wise the fragments' states |
| Megastructures.StatesMatch | src/entities/Megastructure.ts:10 | a list whose elements have the given states has that value view |
| Megastructures.AlphaIndexBounds | src/entities/Megastructure.ts:112 | a canvas pixel's alpha index lies inside the RGBA buffer |
| Megastructures.AlphaIndexRange | src/entities/Megastructure.ts:112 | the index lies in the buffer and is the fourth byte (index mod 4 == 3) of its pixel |
| Megastructures.AlphaIndexInjective | src/entities/Megastructure.ts:112 | distinct canvas pixels have distinct alpha bytes |
| Megastructures.OpaqueIn | src/entities/Megastructure.ts:190-197 | the count of opaque pixels in a prefix is at most the prefix length |
| Megastructures.Intact | src/entities/Megastructure.ts:190-197 | the intact count is at most the number of pixels |
| Megastructures.OpaqueInMonotone | src/entities/Megastructure.ts:190-197 | a mask whose alphas were only cleared has no more opaque pixels |
| Megastructures.ClearingNeverRestores | src/entities/Megastructure.ts:190-197 | damage never increases the intact count |
| Megastructures.ImpactOf | src/entities/Megastructure.ts:98-100 | the radius is min(force / 5, 30), and the impact point is converted to canvas coordinates about the centre |
| Megastructures.PassesOffset | src/entities/Megastructure.ts:105-106 | loop pass i happens exactly when its offset −r + i is within the radius |
| Megastructures.PixelShift | src/entities/Megastructure.ts:107-108 | the pixel visited at pass j is the base pixel shifted by j |
| Megastructures.InDiscMeans | src/entities/Megastructure.ts:107-109 | the squared-distance test is the source's distance ≤ radius |
| Megastructures.ShattersMeans | src/entities/Megastructure.ts:115-116 | the square-free test is the source's chance test roll < 1 − (distance / radius)·0.5 |
| Megastructures.ZeroRadiusShattersNothing | src/entities/Megastructure.ts:115-116 | an impact of zero radius clears no pixel |
| Megastructures.ClearedPixel | src/entities/Megastructure.ts:105-124 | a cleared pixel lies on the canvas, was opaque before the impact, and lies in the impact disc |
| Megastructures.HitsCleared | src/entities/Megastructure.ts:105-124 | every reported destroyed pixel was cleared by the loop |
| Megastructures.HitsComplete | src/entities/Megastructure.ts:105-124 | every pixel the loop clears is reported as destroyed |
| Megastructures.ClearAlpha | src/entities/Megastructure.ts:117 | clearing keeps the buffer length |
| Megastructures.ClearAlphaEffect | src/entities/Megastructure.ts:117 | clearing zeroes that pixel's alpha and leaves every other pixel's alpha alone |
| Megastructures.CarveStep | src/entities/Megastructure.ts:105-124 | one visit leaves each pixel cleared iff it was cleared at or before that visit |
| Megastructures.CarveDone | src/entities/Megastructure.ts:105-124 | after the loops a pixel is transparent exactly when the impact cleared it |
| Megastructures.Shard | src/entities/Megastructure.ts:127-140 | a fragment starts at its pixel in world coordinates, with speed in [−100, 100), life in [1, 3) and the structure's colour |
| Megastructures.Shards | src/entities/Megastructure.ts:127-140 | there are at most as many fragments as destroyed pixels, each with life in [1, 3) and the structure's colour |
| Megastructures.ShardsFromPixels | src/entities/Megastructure.ts:127-140 | each fragment comes from a destroyed pixel whose 10% roll succeeded; all rolls succeeding gives one per pixel, none gives none |
| Megastructures.PaletteIndex | src/entities/Megastructure.ts:166-167 | the colour pick is a valid palette index |
| Megastructures.BurstParticleBounds | src/entities/Megastructure.ts:158-170 | an explosion particle starts at the centre with speed in [300, 900) along its heading, life in [3, 7) and a palette colour |
| Megastructures.DebrisBounds | src/entities/Megastructure.ts:173-186 | debris starts along its heading within the structure's size, with velocity 300·heading ± 50, life in [2, 5) and the structure's colour |
| Megastructures.CanvasSide | src/entities/Megastructure.ts:21-22 | the canvas side is ⌊min(2·size, 2000)⌋ |
| Megastructures.Megastructure.constructor | src/entities/Megastructure.ts:15-24 | the body, canvas size and mask are as given; the structure is intact with no fragments and lastDamageTime 0 |
| Megastructures.Megastructure.PassClears | src/entities/Megastructure.ts:107-118 | one inner visit reports a hit exactly when the pixel is on the canvas, opaque, in the disc and its chance roll succeeds |
| Megastructures.Megastructure.CarvePass | src/entities/Megastructure.ts:105-124 | one visit extends the carving invariant by one pixel and only clears alphas |
| Megastructures.Megastructure.CarveRow | src/entities/Megastructure.ts:105-124 | one row of the double loop extends the carving invariant by one row and returns that row's hits |
| Megastructures.Megastructure.Carve | src/entities/Megastructure.ts:105-124 | the double loop clears exactly the pixels the impact reaches, only clears, and returns them in loop order |
| Megastructures.Megastructure.Shatter | src/entities/Megastructure.ts:127-140 | new fragments are appended for the destroyed pixels as Shards says; old fragments and the body are kept |
| Megastructures.Megastructure.ThrowShard | src/entities/Megastructure.ts:128-139 | one destroyed pixel adds a fragment exactly when its roll is below 10% |
| Megastructures.Megastructure.AddFragment | src/entities/Megastructure.ts:131-138 | one fresh fragment is appended with the given state |
| Megastructures.Megastructure.IntactPixels | src/entities/Megastructure.ts:190-197 | the loop counts exactly the pixels with alpha > 0 |
| Megastructures.Megastructure.Penetrate | src/entities/Megastructure.ts:92-147 | when destroyed or in cooldown nothing changes; otherwise the damage time is set, the mask is carved, shards are appended, and the structure is destroyed iff fewer than 30% of pixels are intact |
| Megastructures.Megastructure.Explode | src/entities/Megastructure.ts:150-187 | an already destroyed structure is untouched; otherwise it becomes destroyed, one burst particle per iteration of the min(size, 500) loop are appended to the list and 20 debris fragments to its own |
| Megastructures.Megastructure.Destroy | src/entities/Megastructure.ts:153-186 | the explosion's effect once the guard passed |
| Megastructures.Megastructure.SpawnBurst | src/entities/Megastructure.ts:158-170 | the particle list grows by exactly the burst particles |
| Megastructures.Megastructure.ThrowDebris | src/entities/Megastructure.ts:173-186 | the fragment list grows by exactly 20 debris fragments |
| Megastructures.Megastructure.Update | src/entities/Megastructure.ts:62-68 | the body drifts, lastDamageTime advances by dt, and the fragments are stepped and filtered to the living ones |
| Megastructures.Megastructure.UpdateFragments | src/entities/Megastructure.ts:66 | every fragment is stepped |
| Megastructures.Megastructure.KeepLiving | src/entities/Megastructure.ts:67 | the fragment list becomes its living sub-list |
| Megastructures.Living | src/entities/Megastructure.ts:67 | the kept list is exactly the living fragments, in order, drawn from the input |
| Games.KeyOf | src/Game.ts:298 | the region key of `generateObjectsInRegion`; CentreKey proves a region's centre keys back to it |
| Games.RegionBodies | src/Game.ts:302-323 | the bodies one region receives; RegionBodiesShape states their counts and ranges |
| Games.Visit | src/Game.ts:297-324 | one `generateObjectsInRegion` as a value: known keys add nothing, new ones add their bodies; PopulateCovered and PopulateCount state it |
| Games.Advance | src/Game.ts:449-455 | one cell of either generator loop: the skip test, then Visit; GuardsAgree and PopulateRegions state which cells are skipped |
| Games.Populate | src/Game.ts:439-459 | the generator loops over a window of keys as a value; PopulateRegions, PopulateIdempotent, PopulateCount and PopulateGuards state what it generates |
| Games.CameraRegion | src/Game.ts:441-442 | the camera's region as the loops compute it |
| Games.Follow | src/Game.ts:341-344 | the camera lerp; FollowClosesGap and FollowStill state its effect |
| Games.Explosion | src/Game.ts:420-432 | the sparks of `createExplosion`; ExplosionShape and SparkCountBounds state their number and shape |
| Games.Collide | src/Game.ts:357-371 | the collision filter as a value; CollideSurvivors, CollideQuiet and SparksAtWrecks state its result |
| Games.Trail | src/Game.ts:380-390 | the trail particle; TrailShape states it |
| Games.Steer | src/Game.ts:332-339 | the ship part of `update`, with the key force applied twice; FrameInvariants states the mode invariants it keeps |
| Games.Pilot | src/Game.ts:331-344 | steering then the camera lerp |
| Games.Explore | src/Game.ts:346-354 | region generation then the scan |
| Games.Wreck | src/Game.ts:356-371 | the collision pass, in droplet mode only |
| Games.Age | src/Game.ts:373-396 | objects step, the trail, then particles step and expire |
| Games.Frame | src/Game.ts:330-401 | one `update(deltaTime)` in the source's order; FrameInvariants states what it keeps |
| Games.DistanceIsLength | src/Game.ts:409-410 | the scan distance is the length of the difference vector |
| Games.CentreKey | src/Game.ts:297-300 | the centre of region r, keyed with the region size, gives r back |
| Games.AsteroidCount | src/Game.ts:303 | a region gets between 3 and 7 asteroids |
| Games.ScatterBounds | src/Game.ts:305-306 | a scattered coordinate lies within half the region's extent of its centre |
| Games.RegionBodiesShape | src/Game.ts:302-323 | a region holds 3–7 grey asteroids of size [10, 60) and speed under 10 per axis, then possibly one red starship of size [500, 1000), all inside the region |
| Games.Window | src/Game.ts:445-446 | the neighbourhood window has 25 cells |
| Games.WindowCovers | src/Game.ts:445-446 | the window holds exactly the cells within two regions on each axis |
| Games.WindowAt | src/Game.ts:445-446 | the window lists its cells column by column, as the nested loops visit them |
| Games.GuardsAgree | src/Game.ts:449-454 | the "within 2 km of spawn" test skips exactly the origin region |
| Games.PopulateRegions | src/Game.ts:297-300 | generation marks exactly the visited, unskipped keys as done |
| Games.PopulateCovered | src/Game.ts:299 | keys already generated add nothing |
| Games.PopulateIdempotent | src/Game.ts:297-300 | generating the same regions a second time adds nothing |
| Games.PopulateCount | src/Game.ts:297-324 | every newly generated region adds between 3 and 8 bodies |
| Games.PopulateGuards | src/Game.ts:449-454 | nearby generation with the distance test equals generation that skips only the origin |
| Games.InitialWorld | src/Game.ts:286-295 | the initial world marks exactly the 24 cells around the origin as generated, with 3–8 bodies each |
| Games.OriginNeverGenerated | src/Game.ts:289-291 | the origin region is never generated unless it already was |
| Games.FollowAxis | src/Game.ts:342-343 | one camera step leaves (1 − 0.05) of the gap on each axis |
| Games.FollowClosesGap | src/Game.ts:341-344 | the camera closes 5% of the gap to the ship per frame, and stays put only when it is on the ship |
| Games.FollowStill | src/Game.ts:342-343 | a camera axis is unchanged exactly when it equals the target |
| Games.Indicate | src/Game.ts:403-418 | at most one marker per object, and every marker's distance is in the scan band |
| Games.IndicateExactly | src/Game.ts:403-418 | a marker is shown exactly for the objects whose distance lies in (50, 10000] |
| Games.ScanBand | src/Game.ts:413 | the scan band test is 50² < |Δ|² ≤ 10000² on squared lengths |
| Games.SparkBound | src/Game.ts:422 | the spark loop bound is at most 50 |
| Games.SparkCountBounds | src/Game.ts:422-432 | an explosion emits at most 50 sparks, at least one for a positive size, and none for a non-positive one |
| Games.ExplosionShape | src/Game.ts:420-432 | sparks start at the centre, live [0.5, 1.5), are orange, and move at a speed in [100, 300) |
| Games.Shake | src/Game.ts:435-436 | the camera shake moves each axis by less than 10 |
| Games.HitsGeometry | src/Game.ts:359-364 | a collision is a squared distance below the squared sum of the radii |
| Games.CollideSurvivors | src/Game.ts:357-371 | an object survives the collision pass exactly when the ship does not touch it |
| Games.CollideQuiet | src/Game.ts:357-371 | when nothing is hit, no object, particle or camera change results |
| Games.SparksAtWrecks | src/Game.ts:362-366 | every spark a collision emits starts at the position of an object the ship hit |
| Games.TrailShape | src/Game.ts:380-390 | at most one trail particle, produced iff the 10% roll succeeds, white, living 2 s, within 10 of the ship and slower than 50 per axis |
| Games.IndicateStep | src/Game.ts:408-417 | one scan iteration appends the object's marker iff it is in the band |
| Games.AliveStep | src/Game.ts:393-396 | one filter iteration keeps the particle iff it is alive |
| Games.FrameInvariants | src/Game.ts:330-401 | a frame keeps the ship's mode invariants, keeps only living particles, shows markers only in the band and only with Space held, never loses a region and never generates the origin; it covers the window around the camera after the lerp, before any shake; outside droplet mode every old object is kept, in order and stepped once, and the camera only follows the ship |
| Games.PickDistinct | src/Game.ts:357-371 | picking increasing indices from a list of distinct objects keeps them distinct |
| Games.FilterParticles | src/Game.ts:393-396 | the kept particles are exactly the living ones after every particle steps once |
| Games.Markers | src/Game.ts:405-417 | the loop builds exactly the markers Indicate specifies |
| Games.Game.AddObject | src/Game.ts:311 | one fresh object with the given state is appended and nothing else changes |
| Games.Game.GenerateObjectsInRegion | src/Game.ts:297-324 | an already generated key changes nothing; otherwise the key is recorded and the region's bodies are appended |
| Games.Game.constructor | src/Game.ts:264-284 | the game starts with a spawned ship at the origin, the camera there, no particles, markers or keys, and exactly the initial world's regions and bodies |
| Games.Game.VisitRegion | src/Game.ts:292 | visiting one region extends the generation by it |
| Games.Game.InitialCell | src/Game.ts:290-292 | one cell of the initial loops extends the generation, skipping the origin |
| Games.Game.NearbyCell | src/Game.ts:446-457 | one cell of the nearby loops extends the generation, skipping cells within 2 km of spawn |
| Games.Game.InitialColumn | src/Game.ts:290-293 | one column of the initial loops generates its five cells |
| Games.Game.GenerateInitialObjects | src/Game.ts:286-295 | the objects and regions become the generation of the 5×5 window around the origin |
| Games.Game.NearbyStep | src/Game.ts:446-457 | one cell of the nearby loops, indexed within the window |
| Games.Game.NearbyColumn | src/Game.ts:446-458 | one column of the nearby loops generates its five cells |
| Games.Game.GenerateNearbyRegions | src/Game.ts:439-459 | the objects and regions become the generation of the window around the camera's region; existing objects are kept |
| Games.Game.UpdateNavigation | src/Game.ts:403-418 | the markers become exactly Indicate of the objects relative to the ship |
| Games.Game.AddParticle | src/Game.ts:430-431 | one fresh particle with the given state is appended |
| Games.Game.EmitSpark | src/Game.ts:423-431 | one spark is appended |
| Games.Game.EmitSparks | src/Game.ts:422-432 | the particle list grows by exactly the explosion's sparks |
| Games.Game.ShakeCamera | src/Game.ts:435-436 | the camera moves by the shake |
| Games.Game.CreateExplosion | src/Game.ts:420-437 | the explosion's sparks are appended and the camera is shaken |
| Games.Game.CollideOne | src/Game.ts:358-370 | an object is kept iff not hit; a hit object's explosion is appended |
| Games.Game.CollisionPass | src/Game.ts:358-370 | the loop yields the survivors, sparks and camera Collide specifies |
| Games.Game.CollideObjects | src/Game.ts:357-371 | the objects become the survivors, particles gain the sparks and the camera shakes as Collide says |
| Games.Game.UpdateObjects | src/Game.ts:374 | every object steps once |
| Games.Game.EmitTrail | src/Game.ts:380-390 | the trail particle, if any, is appended |
| Games.Game.UpdateParticles | src/Game.ts:393-396 | particles step once and the dead are removed; objects and ship are untouched |
| Games.Game.SteerShip | src/Game.ts:332-339 | the ship's new state is the keyboard force (twice) followed by its update |
| Games.Game.PilotPhase | src/Game.ts:331-344 | the steering and camera part of a frame moves the world as Pilot says |
| Games.Game.Scan | src/Game.ts:350-354 | the markers are Indicate of the objects while Space is held and empty otherwise |
| Games.Game.StreamPhase | src/Game.ts:347 | the objects and regions become the nearby generation around the camera |
| Games.Game.ScanPhase | src/Game.ts:350-354 | the marker part of a frame updates only the markers |
| Games.Game.ExplorePhase | src/Game.ts:346-354 | region streaming and scanning move the world as Explore says |
| Games.Game.WreckPhase | src/Game.ts:356-371 | the collision part of a frame moves the world as Wreck says |
| Games.Game.MovePhase | src/Game.ts:374 | only the objects change, each stepped once |
| Games.Game.TrailPhase | src/Game.ts:379-390 | only the particle list changes, by the trail |
| Games.Game.ParticlePhase | src/Game.ts:392-396 | only the particle list changes, stepped and filtered |
| Games.Game.AgePhase | src/Game.ts:373-396 | the last part of a frame moves the world as Age says |
| Games.Game.Update | src/Game.ts:330-401 | one update moves the world as Frame says and keeps the game invariant |
| Games.Game.Tick | src/Game.ts:502-506 | dt is the elapsed time in seconds, the clock is set to the new time, and the world moves one Frame |
| Games.Game.SetClock | src/Game.ts:504 | only the clock changes |
| Games.Game.KeyDown | src/Game.ts:280 | the key is marked held |
| Games.Game.KeyUp | src/Game.ts:281 | the key is marked released |

## Left out

- Drawing is not modelled, except for the decisions it depends on: the indicator's colour, the on-screen test, arrow or icon, and the particle fade ratio. The canvas calls, the starfield, `Ship.draw`, text and the fragment rotation drawing are left out.
- Each `Math.random()` draw is an input `Roll`. `Math.cos`/`Math.sin` and `Math.sqrt` are parameters. `Games.IsSqrt` and `Games.IsUnitCircle` say what a proof assumes of them.
- Floating point is modelled as exact reals. Rounding error, `NaN`, infinities and `BigInt(NaN)` are not modelled.
- Vectors.Normalize and Vectors.RegionKey require a non-zero scale. In JavaScript a zero scale gives `NaN`/`Infinity`, which exact reals cannot express.
- Particles.FadeRatio requires maxLife ≠ 0, for the same reason.
- Region keys are string keys `"x,y"` in the source. They are modelled as integer pairs, which is equivalent because the keys are built from integers.
- The DOM is not modelled: `document`, `window`, canvas sizing, the HUD text, listener registration and `requestAnimationFrame`. The two key listeners themselves are `Games.Game.KeyDown` and `Games.Game.KeyUp`.
- Games.Game.constructor stops after `generateInitialObjects`. The first `gameLoop(0)` that `init` makes is the caller's `Tick(0.0)`.
- Lines 1-248 of `src/Game.ts` redefine Vector2 (without `normalize` and `getRegionKey`), Particle, DirectionIndicator, SpaceObject and Ship, identically to the entity files. The Game class uses these copies. The model uses the entity modules once in their place.
- The constructor always fills `imageData`, so the branches for a missing image (penetrate doing nothing, an intact count of 0) are not modelled.
- `generateObjects` (an empty method) and `generateStructure` (which rasterises a shape into the mask) are not modelled. The Megastructure constructor takes its initial mask as an input.
- Megastructure extends SpaceObject in the source. In the model its body fields are flattened into the class and `Body()` is their SpaceObject view.
- Megastructure's `explode` receives the game in the source. In the model it receives and returns the particle list, because explode touches only that part of the game.
- `chunkSize` and the extra constructor arguments passed to `Particle` in `explode` have no effect in the source and are left out.
- Ships.Ship.Update takes the speed (the length of the accelerated velocity) as an input tied to the velocity by `IsLength`, instead of computing a square root.
- The force is applied twice per frame in `Game.update` (lines 332-337 and again inside the ship update). The model keeps this double application.
- Indicators.Draw does not model the arrow's edge position or angle (trigonometry and clamping), nor the `toFixed` distance text. It models the choice between arrow and icon, the icon kind and the colour.
- Megastructures are not placed in the world by `Game` in the source. They are modelled on their own.
