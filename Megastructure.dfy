/** A destructible megastructure (`Megastructure`): a space object that shows
    a pixel mask (the RGBA bytes of an off-screen canvas) in which impacts clear
    alpha bytes. Once fewer than 30% of the pixels are left it counts as
    destroyed, and it throws off fragments (`MegastructureFragment`) that drift
    under gravity and drag until their life runs out. */
module Megastructures {
  import opened JsMath
  import opened Vectors
  import SpaceObjects
  import Particles

  /** One byte of the canvas' `ImageData`. */
  newtype byte = b: int | 0 <= b < 256

  const MaxCanvasSize := 2000
  /** `damageCooldown`: the shortest time between two effective impacts. */
  const DamageCooldown := 0.1
  const MaxRadius := 30.0
  const DestroyedFraction := 0.3
  const FragmentChance := 0.1
  const BurstFragments := 20
  const MaxBurstParticles := 500.0
  const Gravity := 50.0
  const Drag := 0.98

  // ---------------------------------------------------------------- fragments

  /** Everything `MegastructureFragment` stores, as a value. */
  datatype FragmentState = FragmentState(
    position: Vector2,
    velocity: Vector2,
    color: string,
    life: real,
    maxLife: real,
    rotation: real,
    rotationSpeed: real)

  /** `new MegastructureFragment(x, y, vx, vy, color, life)`; `spin` is the
      `Math.random()` the constructor draws for the rotation speed. */
  function FragmentSpawned(x: real, y: real, vx: real, vy: real, color: string, life: real, spin: Roll): (f: FragmentState)
    ensures f.life == f.maxLife == life && f.rotation == 0.0
    ensures -5.0 <= f.rotationSpeed < 5.0
  {
    FragmentState(Vector2(x, y), Vector2(vx, vy), color, life, life, 0.0, (spin - 0.5) * 10.0)
  }

  /** `MegastructureFragment.update(deltaTime)`: the fragment moves with its
      old velocity, then gravity pulls the velocity down the screen and drag
      scales it by 0.98. */
  function FragmentStep(f: FragmentState, dt: real): FragmentState
  {
    f.(position := Add(f.position, Multiply(f.velocity, dt)),
       rotation := f.rotation + f.rotationSpeed * dt,
       life := f.life - dt,
       velocity := Multiply(Vector2(f.velocity.x, f.velocity.y + Gravity * dt), Drag))
  }

  /** One fragment update takes exactly `dt` off the life, leaves `maxLife`,
      colour and spin alone, moves by the velocity from before the update, and
      damps the horizontal velocity by 0.98 while gravity adds `50 * dt` to the
      vertical one before the damping. */
  lemma FragmentStepEffect(f: FragmentState, dt: real)
    ensures FragmentStep(f, dt).life == f.life - dt
    ensures FragmentStep(f, dt).maxLife == f.maxLife && FragmentStep(f, dt).color == f.color
    ensures FragmentStep(f, dt).rotationSpeed == f.rotationSpeed
    ensures FragmentStep(f, dt).position == Vector2(f.position.x + f.velocity.x * dt, f.position.y + f.velocity.y * dt)
    ensures FragmentStep(f, dt).velocity.x == 0.98 * f.velocity.x
    ensures FragmentStep(f, dt).velocity.y == 0.98 * f.velocity.y + 49.0 * dt
  {
  }

  /** A whole list of fragments, each updated once. */
  function StepAll(fs: seq<FragmentState>, dt: real): (r: seq<FragmentState>)
    ensures |r| == |fs|
    ensures forall k :: 0 <= k < |fs| ==> r[k] == FragmentStep(fs[k], dt)
    decreases |fs|
  {
    if |fs| == 0 then [] else StepAll(fs[..|fs| - 1], dt) + [FragmentStep(fs[|fs| - 1], dt)]
  }

  /** `filter(fragment => fragment.life > 0)` on fragment values. */
  function Alive(fs: seq<FragmentState>): (r: seq<FragmentState>)
    ensures |r| <= |fs|
    ensures forall k :: 0 <= k < |r| ==> r[k].life > 0.0
    decreases |fs|
  {
    if |fs| == 0 then []
    else Alive(fs[..|fs| - 1]) + (if fs[|fs| - 1].life > 0.0 then [fs[|fs| - 1]] else [])
  }

  /** The fragments `Alive` keeps are exactly those of the list with life
      left: no survivor is dropped and nothing else is kept. */
  lemma {:induction false} AliveKeepsExactlyLiving(fs: seq<FragmentState>, f: FragmentState)
    ensures f in Alive(fs) <==> f in fs && f.life > 0.0
    decreases |fs|
  {
    if |fs| > 0 {
      AliveKeepsExactlyLiving(fs[..|fs| - 1], f);
      assert fs == fs[..|fs| - 1] + [fs[|fs| - 1]];
    }
  }

  class Fragment {
    var position: Vector2
    var velocity: Vector2
    var color: string
    var life: real
    var maxLife: real
    var rotation: real
    var rotationSpeed: real

    function State(): FragmentState
      reads this
    {
      FragmentState(position, velocity, color, life, maxLife, rotation, rotationSpeed)
    }

    constructor (x: real, y: real, vx: real, vy: real, color: string, life: real, spin: Roll)
      ensures State() == FragmentSpawned(x, y, vx, vy, color, life, spin)
    {
      position := Vector2(x, y);
      velocity := Vector2(vx, vy);
      this.color := color;
      this.life := life;
      maxLife := life;
      rotation := 0.0;
      rotationSpeed := (spin - 0.5) * 10.0;
    }

    /** `update(deltaTime)`. */
    method Update(dt: real)
      modifies this
      ensures State() == FragmentStep(old(State()), dt)
    {
      position := Add(position, Multiply(velocity, dt));
      rotation := rotation + rotationSpeed * dt;
      life := life - dt;
      velocity := velocity.(y := velocity.y + Gravity * dt);
      velocity := Multiply(velocity, Drag);
    }
  }

  /** The values of a list of fragment objects, in order. */
  function States(fs: seq<Fragment>): (r: seq<FragmentState>)
    reads set f | f in fs
    ensures |r| == |fs|
    ensures forall k :: 0 <= k < |fs| ==> r[k] == fs[k].State()
    decreases |fs|
  {
    if |fs| == 0 then [] else States(fs[..|fs| - 1]) + [fs[|fs| - 1].State()]
  }

  /** A list of fragment objects whose values are, one by one, `states`. */
  lemma StatesMatch(fs: seq<Fragment>, states: seq<FragmentState>)
    requires |fs| == |states| && forall m :: 0 <= m < |fs| ==> fs[m].State() == states[m]
    ensures States(fs) == states
  {
  }

  predicate Distinct(fs: seq<Fragment>)
  {
    forall a, b :: 0 <= a < b < |fs| ==> fs[a] != fs[b]
  }

  // ---------------------------------------------------------------- the mask

  /** The index of the alpha byte of pixel `(px, py)` in a canvas `w` pixels
      wide: `(py * w + px) * 4 + 3`. */
  function AlphaIndex(w: nat, px: int, py: int): int
  {
    (py * w + px) * 4 + 3
  }

  predicate InCanvas(w: nat, h: nat, px: int, py: int)
  {
    0 <= px < w && 0 <= py < h
  }

  lemma MultiplyAtLeast(a: int, w: int)
    requires a >= 1 && w >= 0
    ensures a * w >= w
  {
  }

  /** Every pixel of the canvas has its alpha byte inside the mask. */
  lemma AlphaIndexBounds(w: nat, h: nat, px: int, py: int)
    requires InCanvas(w, h, px, py)
    ensures 0 <= AlphaIndex(w, px, py) < 4 * w * h
  {
    MultiplyAtLeast(h - py, w);
    assert (h - py) * w == h * w - py * w;
    assert py * w >= 0 by {
      NonNegativeIntProduct(py, w);
    }
  }

  /** ... and that byte is the fourth of its group of four. */
  lemma AlphaIndexRange(w: nat, h: nat, px: int, py: int)
    requires InCanvas(w, h, px, py)
    ensures 0 <= AlphaIndex(w, px, py) < 4 * w * h
    ensures AlphaIndex(w, px, py) % 4 == 3
  {
    AlphaIndexBounds(w, h, px, py);
  }

  lemma NonNegativeIntProduct(a: int, b: int)
    requires a >= 0 && b >= 0
    ensures a * b >= 0
  {
  }

  /** Two pixels of the canvas share an alpha byte only if they are the same
      pixel. */
  lemma AlphaIndexInjective(w: nat, h: nat, px: int, py: int, qx: int, qy: int)
    requires InCanvas(w, h, px, py) && InCanvas(w, h, qx, qy)
    requires AlphaIndex(w, px, py) == AlphaIndex(w, qx, qy)
    ensures px == qx && py == qy
  {
    assert py * w + px == qy * w + qx;
    assert (py - qy) * w == qx - px;
    if py > qy {
      MultiplyAtLeast(py - qy, w);
    } else if qy > py {
      MultiplyAtLeast(qy - py, w);
    }
  }

  /** The alpha byte of pixel `(px, py)`: `data[(py * w + px) * 4 + 3]`. */
  function Alpha(s: seq<byte>, w: nat, h: nat, px: int, py: int): byte
    requires |s| == 4 * w * h && InCanvas(w, h, px, py)
  {
    AlphaIndexBounds(w, h, px, py);
    s[AlphaIndex(w, px, py)]
  }

  /** The number of opaque pixels (alpha byte above zero) among the first `n`
      pixels of a mask. */
  function OpaqueIn(s: seq<byte>, n: nat): (c: nat)
    requires 4 * n <= |s|
    ensures c <= n
    decreases n
  {
    if n == 0 then 0 else OpaqueIn(s, n - 1) + (if s[4 * (n - 1) + 3] > 0 then 1 else 0)
  }

  /** `getIntactPixels()` as a function of the mask bytes: the opaque pixels
      among all `|s| / 4` pixels. */
  function Intact(s: seq<byte>): (c: nat)
    ensures c <= |s| / 4
  {
    OpaqueIn(s, |s| / 4)
  }

  /** A mask obtained from another by clearing some alpha bytes never has more
      opaque pixels. */
  lemma {:induction false} OpaqueInMonotone(s: seq<byte>, t: seq<byte>, n: nat)
    requires 4 * n <= |s| == |t|
    requires forall k :: 0 <= k < |s| ==> t[k] == s[k] || (k % 4 == 3 && t[k] == 0)
    ensures OpaqueIn(t, n) <= OpaqueIn(s, n)
    decreases n
  {
    if n > 0 {
      OpaqueInMonotone(s, t, n - 1);
    }
  }

  /** Clearing alpha bytes, which is all an impact does to the mask, never
      raises the intact-pixel count. */
  lemma ClearingNeverRestores(s: seq<byte>, t: seq<byte>)
    requires |s| == |t|
    requires forall k :: 0 <= k < |s| ==> t[k] == s[k] || (k % 4 == 3 && t[k] == 0)
    ensures Intact(t) <= Intact(s)
  {
    OpaqueInMonotone(s, t, |s| / 4);
  }

  // ---------------------------------------------------------------- impacts

  /** Where an impact lands in canvas coordinates (`localX`, `localY`) and the
      radius of the damage, `Math.min(impactForce / 5, 30)`. */
  datatype Impact = Impact(localX: real, localY: real, radius: real)

  function ImpactOf(point: Vector2, position: Vector2, w: nat, h: nat, force: real): (g: Impact)
    ensures g.radius <= MaxRadius && (g.radius == MaxRadius || g.radius == force / 5.0)
    ensures g.localX - w as real / 2.0 == point.x - position.x
    ensures g.localY - h as real / 2.0 == point.y - position.y
  {
    Impact(point.x - position.x + w as real / 2.0, point.y - position.y + h as real / 2.0, Min(force / 5.0, MaxRadius))
  }

  /** The number of passes of each loop `for (d = -radius; d <= radius; d++)`. */
  function Passes(g: Impact): nat
  {
    Samples(2.0 * g.radius)
  }

  /** The loop variable on pass `i`: `-radius + i`. */
  function Offset(g: Impact, i: int): real
  {
    -g.radius + i as real
  }

  /** Pass `i` runs exactly when its offset has not passed the radius. */
  lemma PassesOffset(g: Impact, i: nat)
    ensures i < Passes(g) <==> Offset(g, i) <= g.radius
  {
  }

  /** The pixel column `Math.floor(localX + dx)` of pass `j`, and the row of pass `i`. */
  function PixelX(g: Impact, j: int): int
  {
    Floor(g.localX + Offset(g, j))
  }

  function PixelY(g: Impact, i: int): int
  {
    Floor(g.localY + Offset(g, i))
  }

  /** The pixel of the first pass, from which the others follow one by one. */
  function BaseX(g: Impact): int
  {
    Floor(g.localX - g.radius)
  }

  function BaseY(g: Impact): int
  {
    Floor(g.localY - g.radius)
  }

  /** Consecutive passes visit consecutive columns (rows): pass `j` is column
      `BaseX + j`, so no pixel is visited twice. */
  lemma PixelShift(g: Impact, j: int)
    ensures PixelX(g, j) == BaseX(g) + j
    ensures PixelY(g, j) == BaseY(g) + j
  {
    FloorUnique(g.localX + Offset(g, j), BaseX(g) + j);
    FloorUnique(g.localY + Offset(g, j), BaseY(g) + j);
  }

  /** `dx * dx + dy * dy` on pass `(i, j)` (row `i`, column `j`). */
  function DistanceSquared(g: Impact, i: int, j: int): real
  {
    Offset(g, j) * Offset(g, j) + Offset(g, i) * Offset(g, i)
  }

  /** `distance <= radius`, compared on squares. */
  predicate InDisc(g: Impact, i: int, j: int)
  {
    DistanceSquared(g, i, j) <= g.radius * g.radius
  }

  /** `Math.random() < destructionProb` with `destructionProb = 1 - (distance /
      radius) * 0.5`, compared on squares: the distance is below the reach
      `2 * radius * (1 - roll)`. */
  predicate Shatters(g: Impact, i: int, j: int, roll: Roll)
  {
    var reach := 2.0 * g.radius * (1.0 - roll);
    DistanceSquared(g, i, j) < reach * reach
  }

  lemma DistanceSquaredIsLength(g: Impact, i: int, j: int)
    ensures DistanceSquared(g, i, j) == LengthSquared(Vector2(Offset(g, j), Offset(g, i)))
  {
  }

  /** The squared disc test is the source's `distance <= radius` for
      `distance = sqrt(dx * dx + dy * dy)`. */
  lemma InDiscMeans(g: Impact, i: int, j: int, distance: real)
    requires g.radius >= 0.0 && IsLength(distance, Vector2(Offset(g, j), Offset(g, i)))
    ensures InDisc(g, i, j) <==> distance <= g.radius
  {
    DistanceSquaredIsLength(g, i, j);
    SquareOrder(distance, g.radius);
  }

  /** The reach test on the numbers themselves is the probability test. */
  lemma ReachOrder(distance: real, radius: real, roll: real)
    requires radius > 0.0
    ensures distance < 2.0 * radius * (1.0 - roll) <==> roll < 1.0 - (distance / radius) * 0.5
  {
    var s := 2.0 * radius;
    QuotientOrder(1.0 - roll, distance, s);
    assert (distance / radius) * 0.5 == distance / s;
    assert (1.0 - roll) * s == 2.0 * radius * (1.0 - roll);
  }

  /** For a positive radius the squared test is the source's probability
      test. */
  lemma ShattersMeans(g: Impact, i: int, j: int, roll: Roll, distance: real)
    requires g.radius > 0.0 && IsLength(distance, Vector2(Offset(g, j), Offset(g, i)))
    ensures Shatters(g, i, j, roll) <==> roll < 1.0 - (distance / g.radius) * 0.5
  {
    DistanceSquaredIsLength(g, i, j);
    var reach := 2.0 * g.radius * (1.0 - roll);
    NonNegativeProduct(2.0 * g.radius, 1.0 - roll);
    SquareOrder(distance, reach);
    ReachOrder(distance, g.radius, roll);
  }

  /** For a zero radius nothing shatters, as the source's `0 / 0` makes the
      probability test compare false. */
  lemma ZeroRadiusShattersNothing(g: Impact, i: int, j: int, roll: Roll)
    requires g.radius == 0.0
    ensures !Shatters(g, i, j, roll)
  {
    DistanceSquaredIsLength(g, i, j);
    var reach := 2.0 * g.radius * (1.0 - roll);
    ZeroProduct(2.0 * g.radius, 1.0 - roll);
    ZeroProduct(reach, reach);
  }

  lemma ZeroProduct(a: real, b: real)
    requires a == 0.0
    ensures a * b == 0.0
  {
  }

  /** Everything the carving loops look at: the mask before the impact, the
      canvas size, the impact, and the `Math.random()` drawn on pass `(i, j)`
      (a pass draws at most once, so indexing the draws by pass loses
      nothing). */
  datatype Carving = Carving(mask0: seq<byte>, w: nat, h: nat, g: Impact, rolls: (int, int) -> Roll)

  predicate WellFormed(c: Carving)
  {
    |c.mask0| == 4 * c.w * c.h
  }

  /** Pass `(i, j)` clears its pixel: inside the disc, inside the canvas,
      opaque before the impact, and the draw falls below the destruction
      probability. */
  predicate VisitClears(c: Carving, i: int, j: int)
    requires WellFormed(c)
  {
    var px := PixelX(c.g, j);
    var py := PixelY(c.g, i);
    InDisc(c.g, i, j) && InCanvas(c.w, c.h, px, py) &&
    Alpha(c.mask0, c.w, c.h, px, py) > 0 &&
    Shatters(c.g, i, j, c.rolls(i, j))
  }

  /** Pixel `(px, py)` is cleared by the impact: it is visited by some pass
      (row `py - BaseY`, column `px - BaseX`) and that pass clears it. */
  predicate PixelCleared(c: Carving, px: int, py: int)
    requires WellFormed(c)
  {
    var i := py - BaseY(c.g);
    var j := px - BaseX(c.g);
    0 <= i < Passes(c.g) && 0 <= j < Passes(c.g) && VisitClears(c, i, j)
  }

  /** Cleared by a pass that comes before pass `(i, j)` in the loops' order. */
  predicate ClearedBefore(c: Carving, px: int, py: int, i: int, j: int)
    requires WellFormed(c)
  {
    PixelCleared(c, px, py) && (py - BaseY(c.g) < i || (py - BaseY(c.g) == i && px - BaseX(c.g) < j))
  }

  /** What a cleared pixel is: inside the canvas, opaque before the impact,
      and within the radius of the impact point. */
  lemma ClearedPixel(c: Carving, px: int, py: int)
    requires WellFormed(c) && PixelCleared(c, px, py)
    ensures InCanvas(c.w, c.h, px, py) && Alpha(c.mask0, c.w, c.h, px, py) > 0
    ensures InDisc(c.g, py - BaseY(c.g), px - BaseX(c.g))
  {
    PixelShift(c.g, px - BaseX(c.g));
    PixelShift(c.g, py - BaseY(c.g));
    AlphaIndexRange(c.w, c.h, px, py);
  }

  /** The pixels cleared in row `i` by the passes before column `j`, in order
      (`destroyedPixels` gets them in this order). */
  function RowHits(c: Carving, i: int, j: nat): seq<(int, int)>
    requires WellFormed(c)
    decreases j
  {
    if j == 0 then []
    else RowHits(c, i, j - 1) + (if VisitClears(c, i, j - 1) then [(PixelX(c.g, j - 1), PixelY(c.g, i))] else [])
  }

  /** The pixels cleared in the rows before `i`, in order. */
  function Hits(c: Carving, i: nat): seq<(int, int)>
    requires WellFormed(c)
    decreases i
  {
    if i == 0 then [] else Hits(c, i - 1) + RowHits(c, i - 1, Passes(c.g))
  }

  lemma {:induction false} RowHitsCleared(c: Carving, i: nat, j: nat)
    requires WellFormed(c) && i < Passes(c.g) && j <= Passes(c.g)
    ensures forall q :: q in RowHits(c, i, j) ==> ClearedBefore(c, q.0, q.1, i, j)
    decreases j
  {
    if j > 0 {
      RowHitsCleared(c, i, j - 1);
      PixelShift(c.g, j - 1);
      PixelShift(c.g, i);
    }
  }

  /** Every pixel in the list of destroyed pixels was cleared by the impact;
      each comes after the ones before it in row-major order, so none is listed
      twice. */
  lemma {:induction false} HitsCleared(c: Carving, i: nat)
    requires WellFormed(c) && i <= Passes(c.g)
    ensures forall q :: q in Hits(c, i) ==> ClearedBefore(c, q.0, q.1, i, 0)
    decreases i
  {
    if i > 0 {
      HitsCleared(c, i - 1);
      RowHitsCleared(c, i - 1, Passes(c.g));
    }
  }

  /** Conversely, every cleared pixel is in the list. */
  lemma {:induction false} HitsComplete(c: Carving, i: nat, px: int, py: int)
    requires WellFormed(c) && i <= Passes(c.g) && ClearedBefore(c, px, py, i, 0)
    ensures (px, py) in Hits(c, i)
    decreases i
  {
    assert Hits(c, i) == Hits(c, i - 1) + RowHits(c, i - 1, Passes(c.g));
    if py - BaseY(c.g) < i - 1 {
      HitsComplete(c, i - 1, px, py);
    } else {
      RowHitsComplete(c, i - 1, Passes(c.g), px, py);
    }
  }

  lemma {:induction false} RowHitsComplete(c: Carving, i: int, j: nat, px: int, py: int)
    requires WellFormed(c) && ClearedBefore(c, px, py, i + 1, 0) && py - BaseY(c.g) == i
    requires px - BaseX(c.g) < j
    ensures (px, py) in RowHits(c, i, j)
    decreases j
  {
    PixelShift(c.g, px - BaseX(c.g));
    PixelShift(c.g, i);
    if px - BaseX(c.g) < j - 1 {
      RowHitsComplete(c, i, j - 1, px, py);
    }
  }

  /** The mask with the alpha byte of pixel `(px, py)` cleared. */
  function ClearAlpha(s: seq<byte>, w: nat, h: nat, px: int, py: int): (t: seq<byte>)
    requires |s| == 4 * w * h && InCanvas(w, h, px, py)
    ensures |t| == |s|
  {
    AlphaIndexBounds(w, h, px, py);
    s[AlphaIndex(w, px, py) := 0]
  }

  /** Clearing one pixel makes it transparent and leaves the alpha of every
      other pixel as it was. */
  lemma ClearAlphaEffect(s: seq<byte>, w: nat, h: nat, px: int, py: int, qx: int, qy: int)
    requires |s| == 4 * w * h && InCanvas(w, h, px, py) && InCanvas(w, h, qx, qy)
    ensures Alpha(ClearAlpha(s, w, h, px, py), w, h, qx, qy) == if qx == px && qy == py then 0 else Alpha(s, w, h, qx, qy)
  {
    AlphaIndexBounds(w, h, qx, qy);
    if qx != px || qy != py {
      if AlphaIndex(w, px, py) == AlphaIndex(w, qx, qy) {
        AlphaIndexInjective(w, h, px, py, qx, qy);
      }
    }
  }

  /** `s` is the mask once the passes before `(i, j)` have run: the pixels
      they cleared are transparent and every other pixel still has the alpha
      it had before the impact. */
  ghost predicate CarvedUpTo(c: Carving, s: seq<byte>, i: int, j: int)
    requires WellFormed(c)
  {
    |s| == |c.mask0| &&
    forall px, py | InCanvas(c.w, c.h, px, py) ::
      Alpha(s, c.w, c.h, px, py) == if ClearedBefore(c, px, py, i, j) then 0 else Alpha(c.mask0, c.w, c.h, px, py)
  }

  /** `t` differs from `s` only in alpha bytes that it sets to zero. */
  predicate OnlyCleared(s: seq<byte>, t: seq<byte>)
  {
    |t| == |s| && forall k :: 0 <= k < |t| ==> t[k] == s[k] || (k % 4 == 3 && t[k] == 0)
  }

  lemma OnlyClearedStep(s0: seq<byte>, s: seq<byte>, w: nat, h: nat, px: int, py: int)
    requires |s| == 4 * w * h && InCanvas(w, h, px, py) && OnlyCleared(s0, s)
    ensures OnlyCleared(s0, ClearAlpha(s, w, h, px, py))
  {
    AlphaIndexRange(w, h, px, py);
  }

  /** Before any pass, the mask is the mask from before the impact. */
  lemma CarvedStart(c: Carving)
    requires WellFormed(c)
    ensures CarvedUpTo(c, c.mask0, 0, 0)
  {
    forall px, py | InCanvas(c.w, c.h, px, py)
      ensures !ClearedBefore(c, px, py, 0, 0)
    {
    }
  }

  /** The pixel pass `(i, j)` visits has not been touched by an earlier pass. */
  lemma VisitedIntact(c: Carving, s: seq<byte>, i: int, j: int)
    requires WellFormed(c) && CarvedUpTo(c, s, i, j)
    requires InCanvas(c.w, c.h, PixelX(c.g, j), PixelY(c.g, i))
    ensures Alpha(s, c.w, c.h, PixelX(c.g, j), PixelY(c.g, i)) == Alpha(c.mask0, c.w, c.h, PixelX(c.g, j), PixelY(c.g, i))
  {
    PixelShift(c.g, j);
    PixelShift(c.g, i);
    assert !ClearedBefore(c, PixelX(c.g, j), PixelY(c.g, i), i, j);
  }

  /** Pass `(i, j)` decides pixel `(px, py)` exactly when it visits it; every
      other pixel keeps the status it had before the pass. */
  lemma ClearedBeforeNext(c: Carving, px: int, py: int, i: int, j: int)
    requires WellFormed(c)
    ensures px == PixelX(c.g, j) && py == PixelY(c.g, i) && 0 <= i < Passes(c.g) && 0 <= j < Passes(c.g) ==>
              (ClearedBefore(c, px, py, i, j + 1) <==> VisitClears(c, i, j))
    ensures (px != PixelX(c.g, j) || py != PixelY(c.g, i)) ==>
              ClearedBefore(c, px, py, i, j + 1) == ClearedBefore(c, px, py, i, j)
  {
    PixelShift(c.g, j);
    PixelShift(c.g, i);
  }

  /** One pixel of `CarveStep`. */
  lemma CarveStepPixel(c: Carving, s: seq<byte>, i: int, j: int, t: seq<byte>, px: int, py: int)
    requires WellFormed(c) && CarvedUpTo(c, s, i, j) && InCanvas(c.w, c.h, px, py)
    requires 0 <= i < Passes(c.g) && 0 <= j < Passes(c.g)
    requires VisitClears(c, i, j) ==> t == ClearAlpha(s, c.w, c.h, PixelX(c.g, j), PixelY(c.g, i))
    requires !VisitClears(c, i, j) ==> t == s
    ensures |t| == |s|
    ensures Alpha(t, c.w, c.h, px, py) == if ClearedBefore(c, px, py, i, j + 1) then 0 else Alpha(c.mask0, c.w, c.h, px, py)
  {
    ClearedBeforeNext(c, px, py, i, j);
    if VisitClears(c, i, j) {
      ClearAlphaEffect(s, c.w, c.h, PixelX(c.g, j), PixelY(c.g, i), px, py);
      if px == PixelX(c.g, j) && py == PixelY(c.g, i) {
      } else {
        assert Alpha(s, c.w, c.h, px, py) == if ClearedBefore(c, px, py, i, j) then 0 else Alpha(c.mask0, c.w, c.h, px, py);
      }
    } else {
      if px == PixelX(c.g, j) && py == PixelY(c.g, i) {
        VisitedIntact(c, s, i, j);
      } else {
        assert Alpha(s, c.w, c.h, px, py) == if ClearedBefore(c, px, py, i, j) then 0 else Alpha(c.mask0, c.w, c.h, px, py);
      }
    }
  }

  /** One pass of the inner loop: pass `(i, j)` clears its pixel exactly when
      `VisitClears` holds, and then the mask is carved up to `(i, j + 1)`. */
  lemma CarveStep(c: Carving, s: seq<byte>, i: int, j: int, t: seq<byte>)
    requires WellFormed(c) && CarvedUpTo(c, s, i, j)
    requires 0 <= i < Passes(c.g) && 0 <= j < Passes(c.g)
    requires VisitClears(c, i, j) ==> t == ClearAlpha(s, c.w, c.h, PixelX(c.g, j), PixelY(c.g, i))
    requires !VisitClears(c, i, j) ==> t == s
    ensures CarvedUpTo(c, t, i, j + 1)
  {
    forall px, py | InCanvas(c.w, c.h, px, py)
      ensures Alpha(t, c.w, c.h, px, py) == if ClearedBefore(c, px, py, i, j + 1) then 0 else Alpha(c.mask0, c.w, c.h, px, py)
    {
      CarveStepPixel(c, s, i, j, t, px, py);
    }
  }

  /** A row is complete once all its passes have run. */
  lemma CarveRowDone(c: Carving, s: seq<byte>, i: int)
    requires WellFormed(c) && CarvedUpTo(c, s, i, Passes(c.g))
    ensures CarvedUpTo(c, s, i + 1, 0)
  {
    forall px, py | InCanvas(c.w, c.h, px, py)
      ensures ClearedBefore(c, px, py, i, Passes(c.g)) == ClearedBefore(c, px, py, i + 1, 0)
    {
    }
  }

  /** Once every row has run, a pixel is transparent if the impact cleared it
      and keeps its alpha otherwise. */
  lemma CarveDone(c: Carving, s: seq<byte>)
    requires WellFormed(c) && CarvedUpTo(c, s, Passes(c.g), 0)
    ensures Carved(c, s)
  {
    forall px, py | InCanvas(c.w, c.h, px, py)
      ensures ClearedBefore(c, px, py, Passes(c.g), 0) == PixelCleared(c, px, py)
    {
    }
  }

  /** `s` is the mask after the impact: exactly the pixels the impact clears
      are transparent and every other pixel keeps its alpha. */
  ghost predicate Carved(c: Carving, s: seq<byte>)
    requires WellFormed(c)
  {
    |s| == |c.mask0| &&
    forall px, py | InCanvas(c.w, c.h, px, py) ::
      Alpha(s, c.w, c.h, px, py) == if PixelCleared(c, px, py) then 0 else Alpha(c.mask0, c.w, c.h, px, py)
  }

  // ---------------------------------------------------------------- shards

  /** The `Math.random()` draws for one destroyed pixel, in call order: the
      10% test, then the two velocity components, the life, and the spin the
      fragment constructor draws. */
  datatype ShardRoll = ShardRoll(chance: Roll, vx: Roll, vy: Roll, life: Roll, spin: Roll)

  /** The fragment thrown off by destroyed pixel `p`: it starts at the pixel's
      world position (the canvas is centred on the structure), with a velocity
      in [-100, 100) on each axis and a life in [1, 3). */
  function Shard(position: Vector2, w: nat, h: nat, color: string, p: (int, int), r: ShardRoll): (f: FragmentState)
    ensures f.position.x - position.x + w as real / 2.0 == p.0 as real
    ensures f.position.y - position.y + h as real / 2.0 == p.1 as real
    ensures -100.0 <= f.velocity.x < 100.0 && -100.0 <= f.velocity.y < 100.0
    ensures 1.0 <= f.life < 3.0 && f.maxLife == f.life && f.color == color
  {
    FragmentSpawned(position.x + p.0 as real - w as real / 2.0, position.y + p.1 as real - h as real / 2.0,
                    (r.vx - 0.5) * 200.0, (r.vy - 0.5) * 200.0, color, r.life * 2.0 + 1.0, r.spin)
  }

  /** The fragments `penetrate` creates for the destroyed pixels `ps`, in
      order: one for each pixel whose 10% test succeeds. */
  function Shards(ps: seq<(int, int)>, position: Vector2, w: nat, h: nat, color: string, rolls: int -> ShardRoll): (r: seq<FragmentState>)
    ensures |r| <= |ps|
    ensures forall m :: 0 <= m < |r| ==> 1.0 <= r[m].life < 3.0 && r[m].color == color
    decreases |ps|
  {
    if |ps| == 0 then []
    else
      var n := |ps| - 1;
      Shards(ps[..n], position, w, h, color, rolls) +
      (if rolls(n).chance < FragmentChance then [Shard(position, w, h, color, ps[n], rolls(n))] else [])
  }

  /** `f` is the fragment of one of the pixels `ps` whose 10% test succeeded. */
  ghost predicate ShardOfSome(f: FragmentState, ps: seq<(int, int)>, position: Vector2, w: nat, h: nat, color: string,
                              rolls: int -> ShardRoll)
  {
    exists k :: 0 <= k < |ps| && rolls(k).chance < FragmentChance && f == Shard(position, w, h, color, ps[k], rolls(k))
  }

  /** Every fragment comes from a destroyed pixel whose 10% test succeeded;
      when every test succeeds, each destroyed pixel has its fragment, and
      when none does there is none. */
  lemma {:induction false} ShardsFromPixels(ps: seq<(int, int)>, position: Vector2, w: nat, h: nat, color: string, rolls: int -> ShardRoll)
    ensures forall m :: 0 <= m < |Shards(ps, position, w, h, color, rolls)| ==>
              ShardOfSome(Shards(ps, position, w, h, color, rolls)[m], ps, position, w, h, color, rolls)
    ensures (forall k :: 0 <= k < |ps| ==> rolls(k).chance < FragmentChance) ==>
              |Shards(ps, position, w, h, color, rolls)| == |ps|
    ensures (forall k :: 0 <= k < |ps| ==> rolls(k).chance >= FragmentChance) ==>
              Shards(ps, position, w, h, color, rolls) == []
    decreases |ps|
  {
    if |ps| > 0 {
      var n := |ps| - 1;
      ShardsFromPixels(ps[..n], position, w, h, color, rolls);
      var r := Shards(ps, position, w, h, color, rolls);
      var r0 := Shards(ps[..n], position, w, h, color, rolls);
      forall m | 0 <= m < |r|
        ensures ShardOfSome(r[m], ps, position, w, h, color, rolls)
      {
        if m < |r0| {
          assert r[m] == r0[m];
          assert ShardOfSome(r0[m], ps[..n], position, w, h, color, rolls);
          var k :| 0 <= k < |ps[..n]| && rolls(k).chance < FragmentChance &&
                   r0[m] == Shard(position, w, h, color, ps[..n][k], rolls(k));
          assert ps[..n][k] == ps[k];
        } else {
          assert rolls(n).chance < FragmentChance && r[m] == Shard(position, w, h, color, ps[n], rolls(n));
        }
      }
    }
  }

  // ---------------------------------------------------------------- explosion

  const Palette := ["#ff3300", "#ff6600", "#ffaa00", "#ffff00", "#ffffff"]

  /** `Math.floor(Math.random() * colors.length)`: always a valid index. */
  function PaletteIndex(r: Roll): (k: nat)
    ensures k < |Palette|
  {
    Floor(r * 5.0)
  }

  /** The draws of one explosion particle. `heading` is the unit vector
      `(cos(angle), sin(angle))` of its jittered angle, trigonometry being
      outside the model. */
  datatype BurstRoll = BurstRoll(heading: Vector2, speed: Roll, life: Roll, color: Roll)

  /** One explosion particle: from the centre, at `speed` in [300, 900) along
      its heading, with a life in [3, 7) and a colour of the fire palette. */
  function BurstParticle(position: Vector2, b: BurstRoll): Particles.ParticleState
  {
    var speed := b.speed * 600.0 + 300.0;
    Particles.Spawned(position.x, position.y, b.heading.x * speed, b.heading.y * speed,
                      b.life * 4.0 + 3.0, Palette[PaletteIndex(b.color)])
  }

  /** Each explosion particle starts at the centre, moves along its heading
      at a speed in [300, 900), lives for 3 to 7 seconds and has a fire
      colour. */
  lemma BurstParticleBounds(position: Vector2, b: BurstRoll)
    ensures BurstParticle(position, b).position == position
    ensures 3.0 <= BurstParticle(position, b).life < 7.0
    ensures BurstParticle(position, b).maxLife == BurstParticle(position, b).life
    ensures BurstParticle(position, b).color in Palette
    ensures exists speed :: 300.0 <= speed < 900.0 && BurstParticle(position, b).velocity == Multiply(b.heading, speed)
  {
    var speed := b.speed * 600.0 + 300.0;
    assert BurstParticle(position, b).velocity == Multiply(b.heading, speed);
  }

  /** The first `n` explosion particles. */
  function BurstParticles(position: Vector2, bursts: int -> BurstRoll, n: nat): seq<Particles.ParticleState>
  {
    seq(n, k => BurstParticle(position, bursts(k)))
  }

  /** The draws of one explosion fragment: its direction (from a random angle),
      its distance from the centre, two velocity jitters, its life and its
      spin. */
  datatype DebrisRoll = DebrisRoll(heading: Vector2, distance: Roll, vx: Roll, vy: Roll, life: Roll, spin: Roll)

  /** One explosion fragment: placed along its heading at up to `size` from
      the centre, flying outward at 300 along it with a jitter in [-50, 50)
      on each axis, with a life in [2, 5). */
  function Debris(position: Vector2, size: real, color: string, d: DebrisRoll): FragmentState
  {
    var at := Add(position, Multiply(d.heading, d.distance * size));
    FragmentSpawned(at.x, at.y,
                    d.heading.x * 300.0 + (d.vx - 0.5) * 100.0, d.heading.y * 300.0 + (d.vy - 0.5) * 100.0,
                    color, d.life * 3.0 + 2.0, d.spin)
  }

  /** Each explosion fragment starts on its heading at most `size` from the
      centre, flies outward at 300 along the heading give or take 50 on each
      axis, lives for 2 to 5 seconds, and has the structure's colour. */
  lemma DebrisBounds(position: Vector2, size: real, color: string, d: DebrisRoll)
    ensures size >= 0.0 ==> exists t :: 0.0 <= t <= size && Debris(position, size, color, d).position == Add(position, Multiply(d.heading, t))
    ensures -50.0 <= Debris(position, size, color, d).velocity.x - 300.0 * d.heading.x < 50.0
    ensures -50.0 <= Debris(position, size, color, d).velocity.y - 300.0 * d.heading.y < 50.0
    ensures 2.0 <= Debris(position, size, color, d).life < 5.0
    ensures Debris(position, size, color, d).maxLife == Debris(position, size, color, d).life
    ensures Debris(position, size, color, d).color == color
  {
    DebrisAt(position, size, color, d);
    FractionOf(d.distance, size);
  }

  lemma DebrisAt(position: Vector2, size: real, color: string, d: DebrisRoll)
    ensures Debris(position, size, color, d).position == Add(position, Multiply(d.heading, d.distance * size))
  {
  }

  lemma FractionOf(r: Roll, size: real)
    ensures size >= 0.0 ==> 0.0 <= r * size <= size
  {
    if size >= 0.0 {
      NonNegativeProduct(r, size);
      NonNegativeProduct(1.0 - r, size);
    }
  }

  /** The first `n` explosion fragments. */
  function DebrisAll(position: Vector2, size: real, color: string, rolls: int -> DebrisRoll, n: nat): seq<FragmentState>
  {
    seq(n, k => Debris(position, size, color, rolls(k)))
  }

  /** `Math.min(size * 2, maxCanvasSize)` stored as a canvas side, which drops
      the fraction. */
  function CanvasSide(size: real): (n: nat)
    requires size >= 0.0
    ensures n <= MaxCanvasSize
    ensures n as real <= 2.0 * size
    ensures n == MaxCanvasSize || 2.0 * size < n as real + 1.0
  {
    var t := Min(size * 2.0, MaxCanvasSize as real);
    FloorMonotone(0.0, t);
    FloorUnique(0.0, 0);
    FloorMonotone(t, MaxCanvasSize as real);
    FloorUnique(MaxCanvasSize as real, MaxCanvasSize);
    Floor(t)
  }

  /** The carving an impact at `point` with `force` makes in mask `mask0`. */
  function ImpactCarving(mask0: seq<byte>, w: nat, h: nat, point: Vector2, position: Vector2, force: real,
                         rolls: (int, int) -> Roll): Carving
  {
    Carving(mask0, w, h, ImpactOf(point, position, w, h, force), rolls)
  }

  predicate Damaged(old0: seq<byte>, s: seq<byte>, w: nat, h: nat)
  {
    |old0| == 4 * w * h && |s| == |old0|
  }

  class Megastructure {
    var position: Vector2
    var velocity: Vector2
    var size: real
    var color: string
    var kind: string
    /** The canvas size; the canvas is never resized. */
    const width: nat
    const height: nat
    /** `imageData.data`, the RGBA bytes of the canvas. */
    const mask: array<byte>
    var isDestroyed: bool
    var fragments: seq<Fragment>
    var lastDamageTime: real

    /** The `SpaceObject` part. */
    function Body(): SpaceObjects.ObjectState
      reads this
    {
      SpaceObjects.ObjectState(position, velocity, size, color, kind)
    }

    predicate Valid()
      reads this
    {
      mask.Length == 4 * width * height && width <= MaxCanvasSize && height <= MaxCanvasSize &&
      Distinct(fragments)
    }

    /** `new Megastructure(x, y, vx, vy, size, color, type)`; `pixels` is the
        `ImageData` of the shape drawn on the canvas. */
    constructor (x: real, y: real, vx: real, vy: real, size: real, color: string, kind: string, pixels: seq<byte>)
      requires size >= 0.0
      requires |pixels| == 4 * CanvasSide(size) * CanvasSide(size)
      ensures Body() == SpaceObjects.ObjectState(Vector2(x, y), Vector2(vx, vy), size, color, kind)
      ensures width == CanvasSide(size) && height == CanvasSide(size)
      ensures fresh(mask) && mask[..] == pixels
      ensures !isDestroyed && fragments == [] && lastDamageTime == 0.0
      ensures Valid()
    {
      position := Vector2(x, y);
      velocity := Vector2(vx, vy);
      this.size := size;
      this.color := color;
      this.kind := kind;
      var side := CanvasSide(size);
      width := side;
      height := side;
      mask := new byte[|pixels|](k requires 0 <= k < |pixels| => pixels[k]);
      isDestroyed := false;
      fragments := [];
      lastDamageTime := 0.0;
    }

    /** The tests of one pass `(i, j)` of the loops of `penetrate` (offsets
        `dx`, `dy`): inside the disc, inside the canvas, still opaque, and the
        roll shatters it. `hit` says whether all four hold. */
    method PassClears(g: Impact, rolls: (int, int) -> Roll, i: nat, j: nat, dx: real, dy: real, ghost mask0: seq<byte>)
      returns (hit: bool, px: int, py: int)
      requires mask.Length == 4 * width * height && |mask0| == mask.Length
      requires i < Passes(g) && j < Passes(g) && dx == Offset(g, j) && dy == Offset(g, i)
      requires CarvedUpTo(Carving(mask0, width, height, g, rolls), mask[..], i, j)
      ensures px == PixelX(g, j) && py == PixelY(g, i)
      ensures hit == VisitClears(Carving(mask0, width, height, g, rolls), i, j)
      ensures hit ==> InCanvas(width, height, px, py)
    {
      ghost var c := Carving(mask0, width, height, g, rolls);
      hit := false;
      var r := g.radius;
      px := Floor(g.localX + dx);
      py := Floor(g.localY + dy);
      var d2 := dx * dx + dy * dy;
      if d2 <= r * r {
        if 0 <= px < width && 0 <= py < height {
          AlphaIndexBounds(width, height, px, py);
          VisitedIntact(c, mask[..], i, j);
          var index := (py * width + px) * 4;
          if mask[index + 3] > 0 {
            var roll := rolls(i, j);
            var reach := 2.0 * r * (1.0 - roll);
            hit := d2 < reach * reach;
          }
        }
      }
    }

    /** One pass `(i, j)` of the loops of `penetrate`: the pixel it visits is
        cleared exactly when the pass clears it, and `hit` says whether it
        was. */
    method CarvePass(g: Impact, rolls: (int, int) -> Roll, i: nat, j: nat, dx: real, dy: real, ghost mask0: seq<byte>)
      returns (hit: bool, pixel: (int, int))
      requires mask.Length == 4 * width * height && |mask0| == mask.Length
      requires i < Passes(g) && j < Passes(g) && dx == Offset(g, j) && dy == Offset(g, i)
      requires CarvedUpTo(Carving(mask0, width, height, g, rolls), mask[..], i, j)
      requires OnlyCleared(mask0, mask[..])
      modifies mask
      ensures CarvedUpTo(Carving(mask0, width, height, g, rolls), mask[..], i, j + 1)
      ensures OnlyCleared(mask0, mask[..])
      ensures hit == VisitClears(Carving(mask0, width, height, g, rolls), i, j)
      ensures pixel == (PixelX(g, j), PixelY(g, i))
    {
      ghost var c := Carving(mask0, width, height, g, rolls);
      ghost var before := mask[..];
      var px, py;
      hit, px, py := PassClears(g, rolls, i, j, dx, dy, mask0);
      pixel := (px, py);
      if hit {
        AlphaIndexBounds(width, height, px, py);
        mask[(py * width + px) * 4 + 3] := 0;
        assert mask[..] == ClearAlpha(before, width, height, px, py);
        OnlyClearedStep(mask0, before, width, height, px, py);
      }
      CarveStep(c, before, i, j, mask[..]);
    }

    /** The inner loop of `penetrate` for row `i` (`dy` its offset): clears
        the pixels the impact destroys in this row and returns them in order. */
    method CarveRow(g: Impact, rolls: (int, int) -> Roll, i: nat, dy: real, ghost mask0: seq<byte>)
      returns (row: seq<(int, int)>)
      requires mask.Length == 4 * width * height && |mask0| == mask.Length
      requires i < Passes(g) && dy == Offset(g, i)
      requires CarvedUpTo(Carving(mask0, width, height, g, rolls), mask[..], i, 0)
      requires OnlyCleared(mask0, mask[..])
      modifies mask
      ensures CarvedUpTo(Carving(mask0, width, height, g, rolls), mask[..], i + 1, 0)
      ensures OnlyCleared(mask0, mask[..])
      ensures row == RowHits(Carving(mask0, width, height, g, rolls), i, Passes(g))
    {
      ghost var c := Carving(mask0, width, height, g, rolls);
      var r := g.radius;
      var dx := -r;
      var j := 0;
      row := [];
      while dx <= r
        invariant 0 <= j <= Passes(g) && dx == Offset(g, j)
        invariant CarvedUpTo(c, mask[..], i, j)
        invariant OnlyCleared(mask0, mask[..])
        invariant row == RowHits(c, i, j)
        decreases Passes(g) - j
      {
        PassesOffset(g, j);
        var hit, pixel := CarvePass(g, rolls, i, j, dx, dy, mask0);
        if hit {
          row := row + [pixel];
        }
        dx := dx + 1.0;
        j := j + 1;
      }
      PassesOffset(g, j);
      CarveRowDone(c, mask[..], i);
    }
  
    /** Both loops of `penetrate`: the impact clears exactly the pixels
        `PixelCleared` names, touches no other byte, and returns the
        destroyed pixels in row-major order. */
    method Carve(g: Impact, rolls: (int, int) -> Roll) returns (destroyed: seq<(int, int)>)
      requires mask.Length == 4 * width * height
      modifies mask
      ensures Carved(Carving(old(mask[..]), width, height, g, rolls), mask[..])
      ensures OnlyCleared(old(mask[..]), mask[..])
      ensures destroyed == Hits(Carving(old(mask[..]), width, height, g, rolls), Passes(g))
    {
      ghost var c := Carving(mask[..], width, height, g, rolls);
      CarvedStart(c);
      var r := g.radius;
      var dy := -r;
      var i := 0;
      destroyed := [];
      while dy <= r
        invariant 0 <= i <= Passes(g) && dy == Offset(g, i)
        invariant CarvedUpTo(c, mask[..], i, 0)
        invariant OnlyCleared(c.mask0, mask[..])
        invariant destroyed == Hits(c, i)
        decreases Passes(g) - i
      {
        PassesOffset(g, i);
        var row := CarveRow(g, rolls, i, dy, c.mask0);
        destroyed := destroyed + row;
        dy := dy + 1.0;
        i := i + 1;
      }
      PassesOffset(g, i);
      CarveDone(c, mask[..]);
    }

    /** The `destroyedPixels.forEach` loop: appends the fragments `Shards`
        describes, as new objects, and changes nothing else. */
    method Shatter(destroyed: seq<(int, int)>, rolls: int -> ShardRoll)
      requires Distinct(fragments)
      modifies this
      ensures Distinct(fragments)
      ensures |fragments| >= |old(fragments)| && fragments[..|old(fragments)|] == old(fragments)
      ensures forall k :: |old(fragments)| <= k < |fragments| ==> fresh(fragments[k])
      ensures States(fragments[|old(fragments)|..]) == Shards(destroyed, position, width, height, color, rolls)
      ensures position == old(position) && velocity == old(velocity) && size == old(size)
      ensures color == old(color) && kind == old(kind)
      ensures isDestroyed == old(isDestroyed) && lastDamageTime == old(lastDamageTime)
    {
      ghost var n0 := |fragments|;
      var k := 0;
      ghost var made: seq<FragmentState> := [];
      while k < |destroyed|
        invariant 0 <= k <= |destroyed|
        invariant Distinct(fragments)
        invariant |fragments| >= n0 && fragments[..n0] == old(fragments)
        invariant forall m :: n0 <= m < |fragments| ==> fresh(fragments[m])
        invariant made == Shards(destroyed[..k], position, width, height, color, rolls)
        invariant |fragments| - n0 == |made|
        invariant forall m :: n0 <= m < |fragments| ==> fragments[m].State() == made[m - n0]
        invariant position == old(position) && velocity == old(velocity) && size == old(size)
        invariant color == old(color) && kind == old(kind)
        invariant isDestroyed == old(isDestroyed) && lastDamageTime == old(lastDamageTime)
      {
        assert destroyed[..k + 1][..k] == destroyed[..k];
        ThrowShard(destroyed[k], rolls(k));
        if rolls(k).chance < FragmentChance {
          made := made + [Shard(position, width, height, color, destroyed[k], rolls(k))];
        }
        k := k + 1;
      }
      assert destroyed[..k] == destroyed;
      StatesMatch(fragments[n0..], made);
    }

    /** One pass of the `destroyedPixels.forEach` loop. */
    method ThrowShard(pixel: (int, int), roll: ShardRoll)
      requires Distinct(fragments)
      modifies this
      ensures Distinct(fragments)
      ensures roll.chance < FragmentChance ==>
                |fragments| == |old(fragments)| + 1 && fragments[..|old(fragments)|] == old(fragments) &&
                fresh(fragments[|old(fragments)|]) &&
                fragments[|old(fragments)|].State() == Shard(position, width, height, color, pixel, roll)
      ensures roll.chance >= FragmentChance ==> fragments == old(fragments)
      ensures position == old(position) && velocity == old(velocity) && size == old(size)
      ensures color == old(color) && kind == old(kind)
      ensures isDestroyed == old(isDestroyed) && lastDamageTime == old(lastDamageTime)
    {
      if roll.chance < FragmentChance {
        var worldX := position.x + pixel.0 as real - width as real / 2.0;
        var worldY := position.y + pixel.1 as real - height as real / 2.0;
        AddFragment(worldX, worldY, (roll.vx - 0.5) * 200.0, (roll.vy - 0.5) * 200.0, roll.life * 2.0 + 1.0, roll.spin);
      }
    }

    /** `this.fragments.push(new MegastructureFragment(x, y, vx, vy, this.color, life))`. */
    method AddFragment(x: real, y: real, vx: real, vy: real, life: real, spin: Roll)
      requires Distinct(fragments)
      modifies this
      ensures Distinct(fragments)
      ensures |fragments| == |old(fragments)| + 1 && fragments[..|old(fragments)|] == old(fragments)
      ensures fresh(fragments[|old(fragments)|])
      ensures fragments[|old(fragments)|].State() == FragmentSpawned(x, y, vx, vy, color, life, spin)
      ensures position == old(position) && velocity == old(velocity) && size == old(size)
      ensures color == old(color) && kind == old(kind)
      ensures isDestroyed == old(isDestroyed) && lastDamageTime == old(lastDamageTime)
    {
      var f := new Fragment(x, y, vx, vy, color, life, spin);
      fragments := fragments + [f];
    }

    /** `getIntactPixels()`: counts the alpha bytes above zero, every fourth
        byte from index 3. */
    method IntactPixels() returns (count: nat)
      ensures count == Intact(mask[..])
    {
      count := 0;
      var i := 3;
      ghost var p := 0;
      while i < mask.Length
        invariant i == 4 * p + 3 && 0 <= p <= mask.Length / 4
        invariant count == OpaqueIn(mask[..], p)
        decreases mask.Length - i
      {
        if mask[i] > 0 {
          count := count + 1;
        }
        i := i + 4;
        p := p + 1;
      }
    }

    /** `penetrate(impactPoint, impactForce, currentTime)`. While destroyed or
        within the cooldown it does nothing. Otherwise it records the time,
        clears the pixels the impact destroys (and no other byte), appends a
        fragment for each destroyed pixel whose 10% test succeeds, and marks
        the structure destroyed once fewer than 30% of its pixels are
        intact. */
    method Penetrate(impactPoint: Vector2, impactForce: real, currentTime: real,
                     rolls: (int, int) -> Roll, shardRolls: int -> ShardRoll)
      requires Valid()
      modifies this, mask
      ensures Valid()
      ensures old(isDestroyed) || currentTime - old(lastDamageTime) < DamageCooldown ==>
                unchanged(this) && unchanged(mask)
      ensures !(old(isDestroyed) || currentTime - old(lastDamageTime) < DamageCooldown) ==>
                lastDamageTime == currentTime &&
                Body() == old(Body()) &&
                Carved(ImpactCarving(old(mask[..]), width, height, impactPoint, position, impactForce, rolls), mask[..]) &&
                OnlyCleared(old(mask[..]), mask[..]) &&
                |fragments| >= |old(fragments)| && fragments[..|old(fragments)|] == old(fragments) &&
                (forall k :: |old(fragments)| <= k < |fragments| ==> fresh(fragments[k])) &&
                States(fragments[|old(fragments)|..]) ==
                  Shards(Hits(ImpactCarving(old(mask[..]), width, height, impactPoint, position, impactForce, rolls),
                              Passes(ImpactOf(impactPoint, position, width, height, impactForce))),
                         position, width, height, color, shardRolls) &&
                (isDestroyed <==> (Intact(mask[..]) as real) < (width * height) as real * DestroyedFraction)
    {
      if isDestroyed || currentTime - lastDamageTime < DamageCooldown {
        return;
      }
      lastDamageTime := currentTime;
      var g := ImpactOf(impactPoint, position, width, height, impactForce);
      var destroyed := Carve(g, rolls);
      Shatter(destroyed, shardRolls);
      ghost var added := fragments[|old(fragments)|..];
      ghost var shards := States(added);
      var count := IntactPixels();
      if (count as real) < (width * height) as real * DestroyedFraction {
        isDestroyed := true;
      }
      StatesMatch(added, shards);
    }

    /** `explode(game)` with `game.particles` passed in as `particles`. A
        destroyed structure does nothing. Otherwise it is destroyed, the
        returned list has `min(size, 500)` (rounded up) explosion particles
        appended, and 20 explosion fragments are appended to `fragments`. */
    method Explode(particles: seq<Particles.Particle>, bursts: int -> BurstRoll, debris: int -> DebrisRoll)
      returns (result: seq<Particles.Particle>)
      requires Valid()
      modifies this
      ensures Valid()
      ensures old(isDestroyed) ==> unchanged(this) && result == particles
      ensures !old(isDestroyed) ==> isDestroyed && Body() == old(Body()) && lastDamageTime == old(lastDamageTime)
      ensures !old(isDestroyed) ==>
                |result| == |particles| + Iterations(Min(size, MaxBurstParticles)) &&
                result[..|particles|] == particles &&
                (forall k :: |particles| <= k < |result| ==> fresh(result[k]))
      ensures !old(isDestroyed) ==>
                Particles.States(result[|particles|..]) ==
                  BurstParticles(position, bursts, Iterations(Min(size, MaxBurstParticles)))
      ensures !old(isDestroyed) ==>
                |fragments| == |old(fragments)| + BurstFragments &&
                fragments[..|old(fragments)|] == old(fragments) &&
                (forall k :: |old(fragments)| <= k < |fragments| ==> fresh(fragments[k]))
      ensures !old(isDestroyed) ==>
                States(fragments[|old(fragments)|..]) == DebrisAll(position, size, color, debris, BurstFragments)
    {
      result := particles;
      if !isDestroyed {
        result := Destroy(particles, bursts, debris);
      }
    }

    /** `explode` on a structure not yet destroyed. */
    method Destroy(particles: seq<Particles.Particle>, bursts: int -> BurstRoll, debris: int -> DebrisRoll)
      returns (result: seq<Particles.Particle>)
      requires Valid()
      modifies this
      ensures Valid()
      ensures isDestroyed && Body() == old(Body()) && lastDamageTime == old(lastDamageTime)
      ensures |result| == |particles| + Iterations(Min(size, MaxBurstParticles))
      ensures result[..|particles|] == particles
      ensures forall k :: |particles| <= k < |result| ==> fresh(result[k])
      ensures Particles.States(result[|particles|..]) == BurstParticles(position, bursts, Iterations(Min(size, MaxBurstParticles)))
      ensures |fragments| == |old(fragments)| + BurstFragments
      ensures fragments[..|old(fragments)|] == old(fragments)
      ensures forall k :: |old(fragments)| <= k < |fragments| ==> fresh(fragments[k])
      ensures States(fragments[|old(fragments)|..]) == DebrisAll(position, size, color, debris, BurstFragments)
    {
      isDestroyed := true;
      result := SpawnBurst(particles, bursts);
      ghost var burst := result[|particles|..];
      ghost var burstStates := Particles.States(burst);
      ThrowDebris(debris);
      Particles.StatesMatch(burst, burstStates);
    }

    /** The particle loop of `explode`: `min(size, 500)` passes (the loop
        bound is a number, so a fractional bound takes one pass more), each
        appending a new explosion particle. */
    method SpawnBurst(particles: seq<Particles.Particle>, bursts: int -> BurstRoll)
      returns (result: seq<Particles.Particle>)
      ensures |result| == |particles| + Iterations(Min(size, MaxBurstParticles))
      ensures result[..|particles|] == particles
      ensures forall k :: |particles| <= k < |result| ==> fresh(result[k])
      ensures Particles.States(result[|particles|..]) == BurstParticles(position, bursts, Iterations(Min(size, MaxBurstParticles)))
    {
      var explosionX := position.x;
      var explosionY := position.y;
      var particleCount := Min(size, MaxBurstParticles);
      result := particles;
      var i := 0;
      while (i as real) < particleCount
        invariant 0 <= i <= Iterations(particleCount)
        invariant |result| == |particles| + i && result[..|particles|] == particles
        invariant forall k :: |particles| <= k < |result| ==> fresh(result[k])
        invariant forall k :: |particles| <= k < |result| ==> result[k].State() == BurstParticle(position, bursts(k - |particles|))
        decreases Iterations(particleCount) - i
      {
        var b := bursts(i);
        var speed := b.speed * 600.0 + 300.0;
        var vx := b.heading.x * speed;
        var vy := b.heading.y * speed;
        var life := b.life * 4.0 + 3.0;
        var color := Palette[PaletteIndex(b.color)];
        var p := new Particles.Particle(explosionX, explosionY, vx, vy, life, color);
        result := result + [p];
        i := i + 1;
      }
      Particles.StatesMatch(result[|particles|..], BurstParticles(position, bursts, i));
    }

    /** The fragment loop of `explode`: 20 new explosion fragments appended. */
    method ThrowDebris(debris: int -> DebrisRoll)
      requires Distinct(fragments)
      modifies this
      ensures Distinct(fragments)
      ensures |fragments| == |old(fragments)| + BurstFragments && fragments[..|old(fragments)|] == old(fragments)
      ensures forall k :: |old(fragments)| <= k < |fragments| ==> fresh(fragments[k])
      ensures States(fragments[|old(fragments)|..]) == DebrisAll(position, size, color, debris, BurstFragments)
      ensures position == old(position) && velocity == old(velocity) && size == old(size)
      ensures color == old(color) && kind == old(kind)
      ensures isDestroyed == old(isDestroyed) && lastDamageTime == old(lastDamageTime)
    {
      ghost var n0 := |fragments|;
      var explosionX := position.x;
      var explosionY := position.y;
      var k := 0;
      while k < BurstFragments
        invariant 0 <= k <= BurstFragments
        invariant Distinct(fragments)
        invariant |fragments| == n0 + k && fragments[..n0] == old(fragments)
        invariant forall m :: n0 <= m < |fragments| ==> fresh(fragments[m])
        invariant forall m :: n0 <= m < |fragments| ==> fragments[m].State() == Debris(position, size, color, debris(m - n0))
        invariant position == old(position) && velocity == old(velocity) && size == old(size)
        invariant color == old(color) && kind == old(kind)
        invariant isDestroyed == old(isDestroyed) && lastDamageTime == old(lastDamageTime)
      {
        var d := debris(k);
        var distance := d.distance * size;
        AddFragment(explosionX + d.heading.x * distance, explosionY + d.heading.y * distance,
                    d.heading.x * 300.0 + (d.vx - 0.5) * 100.0, d.heading.y * 300.0 + (d.vy - 0.5) * 100.0,
                    d.life * 3.0 + 2.0, d.spin);
        k := k + 1;
      }
      StatesMatch(fragments[n0..], DebrisAll(position, size, color, debris, BurstFragments));
    }

    /** `update(deltaTime)`: the body moves, the damage clock advances by
        `deltaTime`, every fragment is updated once, and the fragments without
        life left are dropped, keeping the order of the rest. */
    method Update(dt: real)
      requires Valid()
      modifies this, set f | f in fragments
      ensures Valid()
      ensures Body() == SpaceObjects.Step(old(Body()), dt)
      ensures lastDamageTime == old(lastDamageTime) + dt && isDestroyed == old(isDestroyed)
      ensures States(fragments) == Alive(StepAll(old(States(fragments)), dt))
      ensures forall f :: f in fragments ==> f in old(fragments)
    {
      ghost var before := States(fragments);
      position := Add(position, Multiply(velocity, dt));
      lastDamageTime := lastDamageTime + dt;
      ghost var body, clock, destroyed := Body(), lastDamageTime, isDestroyed;
      assert States(fragments) == before;
      UpdateFragments(dt);
      assert Body() == body && lastDamageTime == clock && isDestroyed == destroyed;
      ghost var stepped := States(fragments);
      assert stepped == StepAll(before, dt);
      KeepLiving();
      assert Body() == body && lastDamageTime == clock && isDestroyed == destroyed;
      assert States(fragments) == Alive(stepped);
    }

    /** `fragments.forEach(fragment => fragment.update(deltaTime))`. */
    method UpdateFragments(dt: real)
      requires Distinct(fragments)
      modifies set f | f in fragments
      ensures States(fragments) == StepAll(old(States(fragments)), dt)
    {
      ghost var before := States(fragments);
      var k := 0;
      while k < |fragments|
        invariant 0 <= k <= |fragments|
        invariant forall m :: 0 <= m < k ==> fragments[m].State() == FragmentStep(before[m], dt)
        invariant forall m :: k <= m < |fragments| ==> fragments[m].State() == before[m]
      {
        fragments[k].Update(dt);
        k := k + 1;
      }
    }

    /** `fragments = fragments.filter(fragment => fragment.life > 0)`. */
    method KeepLiving()
      requires Distinct(fragments)
      modifies this`fragments
      ensures Distinct(fragments)
      ensures States(fragments) == Alive(old(States(fragments)))
      ensures forall f :: f in fragments ==> f in old(fragments)
    {
      ghost var before := States(fragments);
      var kept := Living(fragments);
      assert States(kept) == Alive(before);
      fragments := kept;
    }
  }

  /** The filter itself: the fragments with life left, in order. */
  method Living(fs: seq<Fragment>) returns (kept: seq<Fragment>)
    requires Distinct(fs)
    ensures Distinct(kept)
    ensures forall f :: f in kept ==> f in fs
    ensures States(kept) == Alive(States(fs))
  {
    ghost var all := States(fs);
    kept := [];
    var k := 0;
    while k < |fs|
      invariant 0 <= k <= |fs|
      invariant Distinct(kept)
      invariant forall a :: 0 <= a < |kept| ==> kept[a] in fs[..k]
      invariant |kept| == |Alive(all[..k])|
      invariant forall a :: 0 <= a < |kept| ==> kept[a].State() == Alive(all[..k])[a]
    {
      var f := fs[k];
      assert all[..k + 1][..k] == all[..k];
      assert all[..k + 1][k] == f.State();
      if f.life > 0.0 {
        kept := kept + [f];
      }
      k := k + 1;
    }
    assert all[..k] == all;
    StatesMatch(kept, Alive(all));
  }
}
