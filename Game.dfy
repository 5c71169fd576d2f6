/** The simulation itself (`Game`): the ship, the drifting objects, the
    particles and the scan markers; the camera that follows the ship; the
    10 km regions that are filled with asteroids (and now and then a
    starship) as the camera approaches them, with the spawn area kept empty;
    collisions while the ship is in droplet mode; and the frame loop. */
module Games {
  import opened JsMath
  import opened Vectors
  import Particles
  import SpaceObjects
  import Ships
  import Indicators

  type ObjectState = SpaceObjects.ObjectState
  type ParticleState = Particles.ParticleState
  type DirectionIndicator = Indicators.DirectionIndicator

  /** A region of the world, by the key `generateObjectsInRegion` stores: the
      pair of integers of the `"x,y"` string. */
  type Region = (int, int)

  const Origin: Region := (0, 0)
  const RegionSize := 10000.0
  const SpawnRadius := 2000.0
  const ScanRadius := 10000.0
  const ScanMinimum := 50.0
  const LerpFactor := 0.05
  const StarshipChance := 0.05
  const TrailChance := 0.1

  // ---------------------------------------------------------------------
  // Square roots

  /** `Math.sqrt` is an input of the operations that need it; the lemmas
      assume only that it returns the non-negative square root. */
  ghost predicate IsSqrt(sqrt: real -> real)
  {
    forall t :: 0.0 <= t ==> 0.0 <= sqrt(t) && sqrt(t) * sqrt(t) == t
  }

  /** `Math.sqrt(dx * dx + dy * dy)` with `dx, dy` the offset of `a` from `b`. */
  function Distance(a: Vector2, b: Vector2, sqrt: real -> real): real
  {
    sqrt(LengthSquared(Sub(a, b)))
  }

  lemma DistanceIsLength(a: Vector2, b: Vector2, sqrt: real -> real)
    requires IsSqrt(sqrt)
    ensures IsLength(Distance(a, b, sqrt), Sub(a, b))
  {
    var t := LengthSquared(Sub(a, b));
    assert 0.0 <= sqrt(t) && sqrt(t) * sqrt(t) == t;
  }

  // ---------------------------------------------------------------------
  // Regions and what is generated in them

  /** The key `generateObjectsInRegion` files a region under. */
  function KeyOf(centreX: real, centreY: real, width: real, height: real): Region
    requires width != 0.0 && height != 0.0
  {
    (Floor(centreX / width), Floor(centreY / height))
  }

  /** The centre `generateNearbyRegions` computes for a region. */
  function Centre(r: Region): Vector2
  {
    Vector2(r.0 as real * RegionSize, r.1 as real * RegionSize)
  }

  /** A region's centre is filed under that region's own key. */
  lemma CentreKey(r: Region)
    ensures KeyOf(Centre(r).x, Centre(r).y, RegionSize, RegionSize) == r
  {
    FloorUnique(Centre(r).x / RegionSize, r.0);
    FloorUnique(Centre(r).y / RegionSize, r.1);
  }

  /** The random draws of one `generateObjectsInRegion` that creates bodies:
      one for each coordinate, velocity component and size of a body. */
  datatype BodyRoll = BodyRoll(x: Roll, y: Roll, vx: Roll, vy: Roll, size: Roll)

  /** All random draws of one region: the asteroid count, the bodies of the
      asteroids in order, the starship chance and the starship's body. */
  datatype RegionRolls = RegionRolls(count: Roll, asteroids: int -> BodyRoll, starship: Roll, ship: BodyRoll)

  /** `Math.floor(Math.random() * 5) + 3`. */
  function AsteroidCount(r: Roll): (n: nat)
    ensures 3 <= n <= 7
  {
    Floor(r * 5.0) + 3
  }

  /** `center + Math.random() * extent - extent / 2`. */
  function Scatter(centre: real, extent: real, r: Roll): real
  {
    centre + r * extent - extent / 2.0
  }

  /** A scattered coordinate lies in the region: within half the extent of
      the centre, the upper edge excluded. */
  lemma ScatterBounds(centre: real, extent: real, r: Roll)
    requires extent > 0.0
    ensures centre - extent / 2.0 <= Scatter(centre, extent, r) < centre + extent / 2.0
  {
    assert 0.0 <= r * extent < extent by {
      NonNegativeProduct(r, extent);
      PositiveProduct(1.0 - r, extent);
    }
  }

  function Asteroid(centreX: real, centreY: real, width: real, height: real, b: BodyRoll): ObjectState
  {
    SpaceObjects.ObjectState(
      Vector2(Scatter(centreX, width, b.x), Scatter(centreY, height, b.y)),
      Vector2((b.vx - 0.5) * 20.0, (b.vy - 0.5) * 20.0),
      b.size * 50.0 + 10.0, "#444444", "asteroid")
  }

  function Starship(centreX: real, centreY: real, width: real, height: real, b: BodyRoll): ObjectState
  {
    SpaceObjects.ObjectState(
      Vector2(Scatter(centreX, width, b.x), Scatter(centreY, height, b.y)),
      Vector2((b.vx - 0.5) * 50.0, (b.vy - 0.5) * 50.0),
      b.size * 500.0 + 500.0, "#ff0000", "starship")
  }

  /** The bodies one `generateObjectsInRegion` appends, in order, when the
      region is new: the asteroids, then a starship with a 5% chance. */
  function RegionBodies(centreX: real, centreY: real, width: real, height: real, rolls: RegionRolls): seq<ObjectState>
  {
    seq(AsteroidCount(rolls.count), i => Asteroid(centreX, centreY, width, height, rolls.asteroids(i))) +
    (if rolls.starship < StarshipChance then [Starship(centreX, centreY, width, height, rolls.ship)] else [])
  }

  /** The body is inside the region around the centre. */
  predicate InRegion(o: ObjectState, centreX: real, centreY: real, width: real, height: real)
  {
    centreX - width / 2.0 <= o.position.x < centreX + width / 2.0 &&
    centreY - height / 2.0 <= o.position.y < centreY + height / 2.0
  }

  /** What a new region holds: 3 to 7 asteroids of size 10 to 60 and speed
      below 10 on each axis, then at most one starship of size 500 to 1000
      (exactly when the chance roll is under 5%), all inside the region. */
  lemma RegionBodiesShape(centreX: real, centreY: real, width: real, height: real, rolls: RegionRolls)
    requires width > 0.0 && height > 0.0
    ensures var b := RegionBodies(centreX, centreY, width, height, rolls);
      var n := AsteroidCount(rolls.count);
      3 <= n <= 7 && |b| == n + (if rolls.starship < StarshipChance then 1 else 0) &&
      (forall k :: 0 <= k < n ==>
         b[k].kind == "asteroid" && b[k].color == "#444444" && 10.0 <= b[k].size < 60.0 &&
         -10.0 <= b[k].velocity.x < 10.0 && -10.0 <= b[k].velocity.y < 10.0) &&
      (forall k :: n <= k < |b| ==>
         b[k].kind == "starship" && b[k].color == "#ff0000" && 500.0 <= b[k].size < 1000.0) &&
      (forall k :: 0 <= k < |b| ==> InRegion(b[k], centreX, centreY, width, height))
  {
    var b := RegionBodies(centreX, centreY, width, height, rolls);
    var n := AsteroidCount(rolls.count);
    forall k | 0 <= k < |b|
      ensures InRegion(b[k], centreX, centreY, width, height)
      ensures k < n ==> b[k] == Asteroid(centreX, centreY, width, height, rolls.asteroids(k))
      ensures n <= k ==> b[k] == Starship(centreX, centreY, width, height, rolls.ship)
    {
      var r := if k < n then rolls.asteroids(k) else rolls.ship;
      assert b[k].position == Vector2(Scatter(centreX, width, r.x), Scatter(centreY, height, r.y));
      ScatterBounds(centreX, width, r.x);
      ScatterBounds(centreY, height, r.y);
    }
  }

  /** The 5 x 5 block of regions `generateNearbyRegions` visits around the
      camera's region, in the order of its two loops (`dx` outer, `dy`
      inner). */
  function Window(c: Region): (w: seq<Region>)
    ensures |w| == 25
  {
    seq(25, k => (c.0 + k / 5 - 2, c.1 + k % 5 - 2))
  }

  /** The block holds exactly the regions at most two steps from the centre
      region on each axis. */
  lemma WindowCovers(c: Region, r: Region)
    ensures r in Window(c) <==> -2 <= r.0 - c.0 <= 2 && -2 <= r.1 - c.1 <= 2
  {
    if -2 <= r.0 - c.0 <= 2 && -2 <= r.1 - c.1 <= 2 {
      var k := (r.0 - c.0 + 2) * 5 + (r.1 - c.1 + 2);
      assert k / 5 == r.0 - c.0 + 2 && k % 5 == r.1 - c.1 + 2;
      assert Window(c)[k] == r;
    }
  }

  /** Where the loops' `(dx, dy)` sits in the block. */
  lemma WindowAt(c: Region, dx: int, dy: int, idx: int)
    requires -2 <= dx <= 2 && -2 <= dy <= 2 && idx == (dx + 2) * 5 + dy + 2
    ensures 0 <= idx < 25 && Window(c)[idx] == (c.0 + dx, c.1 + dy)
  {
    assert idx / 5 == dx + 2 && idx % 5 == dy + 2;
  }

  /** The test a generation loop uses to keep the spawn area empty:
      `generateNearbyRegions` skips a region whose centre is less than 2 km
      from the origin, `generateInitialObjects` the region `(0, 0)`. */
  datatype SpawnGuard = CentreWithin(sqrt: real -> real) | OriginRegion

  predicate Skips(g: SpawnGuard, r: Region)
  {
    match g
    case CentreWithin(sqrt) => NearSpawn(r, sqrt)
    case OriginRegion => r == Origin
  }

  /** `Math.sqrt(centerX * centerX + centerY * centerY) < 2000`. */
  predicate NearSpawn(r: Region, sqrt: real -> real)
  {
    sqrt(CentreSquared(r)) < SpawnRadius
  }

  /** `centerX * centerX + centerY * centerY`. */
  function CentreSquared(r: Region): real
  {
    Centre(r).x * Centre(r).x + Centre(r).y * Centre(r).y
  }

  /** Region centres are 10 km apart, so the 2 km guard skips the origin's
      region and no other: both guards agree. */
  lemma GuardsAgree(sqrt: real -> real, r: Region)
    requires IsSqrt(sqrt)
    ensures Skips(CentreWithin(sqrt), r) <==> Skips(OriginRegion, r)
  {
    var c := Centre(r);
    var t := CentreSquared(r);
    var d := sqrt(t);
    SelfProduct(c.x, c.x);
    SelfProduct(c.y, c.y);
    assert 0.0 <= d && d * d == t;
    if r == Origin {
      assert t == 0.0;
      SelfProduct(d, d);
    } else {
      var m := if r.0 != 0 then c.x else c.y;
      assert RegionSize <= Abs(m);
      SquareOrder(RegionSize, Abs(m));
      assert Abs(m) * Abs(m) == m * m;
      assert d * d >= RegionSize * RegionSize;
      assert SpawnRadius * SpawnRadius < RegionSize * RegionSize;
      assert SpawnRadius * SpawnRadius < d * d;
      SquareOrder(SpawnRadius, d);
      assert !(d < SpawnRadius);
      assert !NearSpawn(r, sqrt);
    }
  }

  /** Where region generation stands: the regions recorded and the bodies
      appended so far. */
  datatype Generation = Generation(done: set<Region>, bodies: seq<ObjectState>)

  /** The generation loops on values: the regions visited in `keys` order,
      each one not skipped and not generated before is added to the set and
      its bodies are appended, the random draws of a region being indexed by
      its key. */
  function Populate(regions: set<Region>, keys: seq<Region>, rolls: Region -> RegionRolls, guard: SpawnGuard): Generation
    decreases |keys|
  {
    if |keys| == 0 then Generation(regions, [])
    else Advance(Populate(regions, keys[..|keys| - 1], rolls, guard), keys[|keys| - 1], rolls, guard)
  }

  /** One pass of a generation loop's inner body. */
  function Advance(g: Generation, k: Region, rolls: Region -> RegionRolls, guard: SpawnGuard): Generation
  {
    if Skips(guard, k) then g else Visit(g, k, rolls(k))
  }

  /** One `generateObjectsInRegion` at a region's centre, on values. */
  function Visit(g: Generation, k: Region, rolls: RegionRolls): Generation
  {
    if k in g.done then g
    else Generation(g.done + {k}, g.bodies + RegionBodies(Centre(k).x, Centre(k).y, RegionSize, RegionSize, rolls))
  }

  /** One more region visited: `Populate` is a left fold of `Advance`. */
  lemma PopulateStep(regions: set<Region>, keys: seq<Region>, i: nat, rolls: Region -> RegionRolls, guard: SpawnGuard)
    requires i < |keys|
    ensures Populate(regions, keys[..i + 1], rolls, guard) ==
            Advance(Populate(regions, keys[..i], rolls, guard), keys[i], rolls, guard)
  {
    assert keys[..i + 1][..i] == keys[..i];
  }

  /** One pass of either inner loop: the one at `(dx, dy)` of the block
      around `c`, at position `idx`. */
  lemma WindowStep(regions: set<Region>, c: Region, dx: int, dy: int, idx: int, rolls: Region -> RegionRolls, guard: SpawnGuard)
    requires -2 <= dx <= 2 && -2 <= dy <= 2 && idx == (dx + 2) * 5 + dy + 2
    ensures 0 <= idx < 25
    ensures Populate(regions, Window(c)[..idx + 1], rolls, guard) ==
            Advance(Populate(regions, Window(c)[..idx], rolls, guard), (c.0 + dx, c.1 + dy), rolls, guard)
  {
    WindowAt(c, dx, dy, idx);
    PopulateStep(regions, Window(c), idx, rolls, guard);
  }

  /** The same around the origin. */
  lemma OriginWindowStep(regions: set<Region>, dx: int, dy: int, idx: int, rolls: Region -> RegionRolls, guard: SpawnGuard)
    requires -2 <= dx <= 2 && -2 <= dy <= 2 && idx == (dx + 2) * 5 + dy + 2
    ensures 0 <= idx < 25
    ensures Populate(regions, Window(Origin)[..idx + 1], rolls, guard) ==
            Advance(Populate(regions, Window(Origin)[..idx], rolls, guard), (dx, dy), rolls, guard)
  {
    WindowStep(regions, Origin, dx, dy, idx, rolls, guard);
  }

  /** The regions recorded are the old ones and every visited region the
      guard does not skip. */
  lemma {:induction false} PopulateRegions(regions: set<Region>, keys: seq<Region>, rolls: Region -> RegionRolls, guard: SpawnGuard)
    ensures Populate(regions, keys, rolls, guard).done == regions + set k | k in keys && !Skips(guard, k)
    decreases |keys|
  {
    if |keys| > 0 {
      var front := keys[..|keys| - 1];
      PopulateRegions(regions, front, rolls, guard);
      assert keys == front + [keys[|keys| - 1]];
      assert (set k | k in keys && !Skips(guard, k)) ==
             (set k | k in front && !Skips(guard, k)) + (if Skips(guard, keys[|keys| - 1]) then {} else {keys[|keys| - 1]});
    }
  }

  /** Visiting regions that are all skipped or generated already changes
      nothing: a second pass over the same block generates nothing. */
  lemma {:induction false} PopulateCovered(regions: set<Region>, keys: seq<Region>, rolls: Region -> RegionRolls, guard: SpawnGuard)
    requires forall k :: k in keys ==> Skips(guard, k) || k in regions
    ensures Populate(regions, keys, rolls, guard) == Generation(regions, [])
    decreases |keys|
  {
    if |keys| > 0 {
      PopulateCovered(regions, keys[..|keys| - 1], rolls, guard);
      assert keys[|keys| - 1] in keys;
    }
  }

  lemma PopulateIdempotent(regions: set<Region>, keys: seq<Region>, rolls: Region -> RegionRolls, guard: SpawnGuard)
    ensures var done := Populate(regions, keys, rolls, guard).done;
      Populate(done, keys, rolls, guard) == Generation(done, [])
  {
    PopulateRegions(regions, keys, rolls, guard);
    PopulateCovered(Populate(regions, keys, rolls, guard).done, keys, rolls, guard);
  }

  /** Every newly recorded region contributes 3 to 8 bodies. */
  lemma {:induction false} PopulateCount(regions: set<Region>, keys: seq<Region>, rolls: Region -> RegionRolls, guard: SpawnGuard)
    ensures var g := Populate(regions, keys, rolls, guard);
      regions <= g.done && 3 * |g.done - regions| <= |g.bodies| <= 8 * |g.done - regions|
    decreases |keys|
  {
    if |keys| > 0 {
      PopulateCount(regions, keys[..|keys| - 1], rolls, guard);
      var g := Populate(regions, keys[..|keys| - 1], rolls, guard);
      var k := keys[|keys| - 1];
      if !Skips(guard, k) && k !in g.done {
        assert (g.done + {k}) - regions == (g.done - regions) + {k};
        var c := Centre(k);
        RegionBodiesShape(c.x, c.y, RegionSize, RegionSize, rolls(k));
      }
    }
  }

  /** The two guards give the same generation. */
  lemma {:induction false} PopulateGuards(regions: set<Region>, keys: seq<Region>, rolls: Region -> RegionRolls, sqrt: real -> real)
    requires IsSqrt(sqrt)
    ensures Populate(regions, keys, rolls, CentreWithin(sqrt)) == Populate(regions, keys, rolls, OriginRegion)
    decreases |keys|
  {
    if |keys| > 0 {
      PopulateGuards(regions, keys[..|keys| - 1], rolls, sqrt);
      GuardsAgree(sqrt, keys[|keys| - 1]);
    }
  }

  /** What the game starts with: every region of the 5 x 5 block around the
      origin except the origin's own is recorded, with 3 to 8 bodies each,
      and the spawn region is not. */
  lemma InitialWorld(rolls: Region -> RegionRolls)
    ensures var g := Populate({}, Window(Origin), rolls, OriginRegion);
      (forall r :: r in g.done <==> r != Origin && -2 <= r.0 <= 2 && -2 <= r.1 <= 2) &&
      3 * |g.done| <= |g.bodies| <= 8 * |g.done|
  {
    PopulateRegions({}, Window(Origin), rolls, OriginRegion);
    PopulateCount({}, Window(Origin), rolls, OriginRegion);
    var done := Populate({}, Window(Origin), rolls, OriginRegion).done;
    forall r
      ensures r in done <==> r != Origin && -2 <= r.0 <= 2 && -2 <= r.1 <= 2
    {
      WindowCovers(Origin, r);
    }
    assert done - {} == done;
  }

  /** The camera never brings the spawn region into the recorded set. */
  lemma OriginNeverGenerated(regions: set<Region>, keys: seq<Region>, rolls: Region -> RegionRolls, guard: SpawnGuard)
    requires Skips(guard, Origin)
    ensures Origin in Populate(regions, keys, rolls, guard).done <==> Origin in regions
  {
    PopulateRegions(regions, keys, rolls, guard);
  }

  /** The region of the camera, `Math.floor(camera / regionSize)` per axis. */
  function CameraRegion(camera: Vector2): Region
  {
    (Floor(camera.x / RegionSize), Floor(camera.y / RegionSize))
  }

  // ---------------------------------------------------------------------
  // The camera

  /** The camera moves 5% of the way to the ship each frame, per axis. */
  function Follow(camera: Vector2, target: Vector2): Vector2
  {
    Vector2(camera.x + (target.x - camera.x) * LerpFactor, camera.y + (target.y - camera.y) * LerpFactor)
  }

  /** One axis of `Follow`: the gap left is 95% of the gap before. */
  lemma FollowAxis(c: real, t: real)
    ensures t - (c + (t - c) * LerpFactor) == (t - c) * (1.0 - LerpFactor)
  {
  }

  /** Each frame the offset from the camera to the ship shrinks to 95% of
      itself, in direction unchanged, so the camera stays put exactly when it
      is already on the ship and otherwise strictly closes in. */
  lemma FollowClosesGap(camera: Vector2, target: Vector2)
    ensures Sub(target, Follow(camera, target)) == Multiply(Sub(target, camera), 1.0 - LerpFactor)
    ensures LengthSquared(Sub(target, Follow(camera, target))) ==
            (1.0 - LerpFactor) * (1.0 - LerpFactor) * LengthSquared(Sub(target, camera))
    ensures Follow(camera, target) == camera <==> camera == target
  {
    FollowAxis(camera.x, target.x);
    FollowAxis(camera.y, target.y);
    var d := Sub(target, camera);
    assert Sub(target, Follow(camera, target)) == Multiply(d, 0.95);
    ScaledSum(d.x, d.y, 0.95);
    FollowStill(camera.x, target.x);
    FollowStill(camera.y, target.y);
  }

  /** One axis of `Follow` stays put exactly when it is already on target. */
  lemma FollowStill(c: real, t: real)
    ensures c + (t - c) * LerpFactor == c <==> c == t
  {
    if c + (t - c) * LerpFactor == c {
      assert (t - c) * LerpFactor == 0.0;
    }
  }

  lemma ScaledSum(a: real, b: real, k: real)
    ensures a * k * (a * k) + b * k * (b * k) == k * k * (a * a + b * b)
  {
    Scaled(a, k);
    Scaled(b, k);
  }

  lemma Scaled(a: real, k: real)
    ensures a * k * (a * k) == k * k * (a * a)
  {
  }

  // ---------------------------------------------------------------------
  // Scanning

  /** The band of distances the scanner marks: within 10 km, but not closer
      than 50 m. */
  predicate InScan(distance: real)
  {
    distance <= ScanRadius && distance > ScanMinimum
  }

  /** The marker `updateNavigation` creates for object `o`. */
  function Indicator(o: ObjectState, ship: Vector2, sqrt: real -> real): DirectionIndicator
  {
    Indicators.DirectionIndicator(o.position, o.kind, Distance(o.position, ship, sqrt))
  }

  /** The markers `updateNavigation` puts in the list, in object order. */
  function Indicate(os: seq<ObjectState>, ship: Vector2, sqrt: real -> real): (r: seq<DirectionIndicator>)
    ensures |r| <= |os|
    ensures forall k :: 0 <= k < |r| ==> InScan(r[k].distance)
    decreases |os|
  {
    if |os| == 0 then []
    else
      var o := os[|os| - 1];
      Indicate(os[..|os| - 1], ship, sqrt) +
      (if InScan(Distance(o.position, ship, sqrt)) then [Indicator(o, ship, sqrt)] else [])
  }

  /** The list holds a marker for every object in the scan band and nothing
      else. */
  lemma {:induction false} IndicateExactly(os: seq<ObjectState>, ship: Vector2, sqrt: real -> real, d: DirectionIndicator)
    ensures d in Indicate(os, ship, sqrt) <==>
              exists o :: o in os && InScan(Distance(o.position, ship, sqrt)) && d == Indicator(o, ship, sqrt)
    decreases |os|
  {
    if |os| > 0 {
      var front := os[..|os| - 1];
      IndicateExactly(front, ship, sqrt, d);
      assert os == front + [os[|os| - 1]];
    }
  }

  /** With a true square root the band is a band of squared distances: more
      than 50 * 50 and at most 10000 * 10000. */
  lemma ScanBand(a: Vector2, ship: Vector2, sqrt: real -> real)
    requires IsSqrt(sqrt)
    ensures InScan(Distance(a, ship, sqrt)) <==>
              ScanMinimum * ScanMinimum < LengthSquared(Sub(a, ship)) <= ScanRadius * ScanRadius
  {
    var d := Distance(a, ship, sqrt);
    DistanceIsLength(a, ship, sqrt);
    SquareOrder(d, ScanRadius);
    SquareOrder(ScanMinimum, d);
  }

  // ---------------------------------------------------------------------
  // Collisions and explosions

  /** The three draws of one explosion particle: speed, life and colour. */
  datatype SparkRoll = SparkRoll(speed: Roll, life: Roll, color: Roll)

  /** The draws of one `createExplosion`: one `SparkRoll` per particle, by
      index, and the two draws of the screen shake. */
  datatype ExplosionRolls = ExplosionRolls(sparks: int -> SparkRoll, shakeX: Roll, shakeY: Roll)

  const Pi := 3.141592653589793
  const MaxSparks := 50.0

  /** `particleCount`, the loop bound of `createExplosion`: a tenth of the
      size, at most 50. It need not be an integer. */
  function SparkBound(size: real): (b: real)
    ensures b <= MaxSparks
  {
    Min(size / 10.0, MaxSparks)
  }

  /** The number of particles an explosion emits. */
  function SparkCount(size: real): nat
  {
    Iterations(SparkBound(size))
  }

  /** An explosion emits at most 50 particles, at least one for any positive
      size, and at least a tenth of the size when that is below 50. */
  lemma SparkCountBounds(size: real)
    ensures SparkCount(size) <= 50
    ensures size > 0.0 ==> SparkCount(size) >= 1
    ensures size <= 500.0 ==> size / 10.0 <= SparkCount(size) as real
    ensures size <= 0.0 ==> SparkCount(size) == 0
  {
  }

  /** Particle `i` of an explosion at `(x, y)` with loop bound `bound`:
      heading `trig(2 * pi * i / bound)`, the cosine and sine of its angle,
      and a speed, a life and one of two oranges drawn at random. */
  function Spark(x: real, y: real, i: nat, bound: real, trig: real -> Vector2, r: SparkRoll): ParticleState
    requires bound > 0.0
  {
    var heading := trig(Pi * 2.0 * i as real / bound);
    var speed := r.speed * 200.0 + 100.0;
    Particles.Spawned(x, y, heading.x * speed, heading.y * speed, r.life * 1.0 + 0.5,
                      if r.color > 0.5 then "#ff6600" else "#ffaa00")
  }

  /** The particles of `createExplosion(x, y, size)`, in push order. */
  function Explosion(x: real, y: real, size: real, trig: real -> Vector2, sparks: int -> SparkRoll): seq<ParticleState>
  {
    var n := SparkCount(size);
    seq(n, i requires 0 <= i < n => Spark(x, y, i, SparkBound(size), trig, sparks(i)))
  }

  /** `trig` returns points of the unit circle, as cosine and sine do. */
  ghost predicate IsUnitCircle(trig: real -> Vector2)
  {
    forall a :: LengthSquared(trig(a)) == 1.0
  }

  /** Every explosion particle starts at the wreck, with a life between 0.5
      and 1.5 s that is also its full life, in one of the two oranges; its
      speed is between 100 and 300, so with a true cosine and sine its
      velocity has that length. */
  lemma ExplosionShape(x: real, y: real, size: real, trig: real -> Vector2, sparks: int -> SparkRoll)
    ensures var e := Explosion(x, y, size, trig, sparks);
      |e| == SparkCount(size) &&
      forall k :: 0 <= k < |e| ==>
        e[k].position == Vector2(x, y) && 0.5 <= e[k].life < 1.5 && e[k].maxLife == e[k].life &&
        (e[k].color == "#ff6600" || e[k].color == "#ffaa00") &&
        (IsUnitCircle(trig) ==>
           var speed := sparks(k).speed * 200.0 + 100.0;
           100.0 <= speed < 300.0 && LengthSquared(e[k].velocity) == speed * speed)
  {
    var e := Explosion(x, y, size, trig, sparks);
    forall k | 0 <= k < |e|
      ensures e[k].position == Vector2(x, y) && 0.5 <= e[k].life < 1.5 && e[k].maxLife == e[k].life
      ensures e[k].color == "#ff6600" || e[k].color == "#ffaa00"
      ensures IsUnitCircle(trig) ==>
                var speed := sparks(k).speed * 200.0 + 100.0;
                100.0 <= speed < 300.0 && LengthSquared(e[k].velocity) == speed * speed
    {
      var bound := SparkBound(size);
      var h := trig(Pi * 2.0 * k as real / bound);
      var speed := sparks(k).speed * 200.0 + 100.0;
      assert e[k] == Spark(x, y, k, bound, trig, sparks(k));
      assert LengthSquared(e[k].velocity) == speed * speed * LengthSquared(h) by {
        assert h.x * speed * (h.x * speed) == speed * speed * (h.x * h.x);
        assert h.y * speed * (h.y * speed) == speed * speed * (h.y * h.y);
      }
    }
  }

  /** The screen shake: each camera coordinate moves by less than 10 either way. */
  function Shake(camera: Vector2, e: ExplosionRolls): (c: Vector2)
    ensures -10.0 <= c.x - camera.x < 10.0 && -10.0 <= c.y - camera.y < 10.0
  {
    Vector2(camera.x + (e.shakeX - 0.5) * 20.0, camera.y + (e.shakeY - 0.5) * 20.0)
  }

  /** The collision test: the distance is below the sum of the two sizes. */
  predicate Hits(o: ObjectState, ship: Vector2, shipSize: real, sqrt: real -> real)
  {
    Distance(o.position, ship, sqrt) < o.size + shipSize
  }

  /** With a true square root, an object hits exactly when the sizes add up
      to something positive whose square exceeds the squared distance. */
  lemma HitsGeometry(o: ObjectState, ship: Vector2, shipSize: real, sqrt: real -> real)
    requires IsSqrt(sqrt)
    ensures Hits(o, ship, shipSize, sqrt) <==>
              o.size + shipSize > 0.0 &&
              LengthSquared(Sub(o.position, ship)) < (o.size + shipSize) * (o.size + shipSize)
  {
    var d := Distance(o.position, ship, sqrt);
    DistanceIsLength(o.position, ship, sqrt);
    if o.size + shipSize > 0.0 {
      SquareOrder(d, o.size + shipSize);
    }
  }

  /** The outcome of the collision filter: the objects kept, the explosion
      particles pushed, and the camera after the shakes. */
  datatype Collision = Collision(survivors: seq<ObjectState>, sparks: seq<ParticleState>, camera: Vector2)

  /** The droplet-mode filter over `os`, object `k` exploding with the draws
      `rolls(k)`. */
  function Collide(os: seq<ObjectState>, ship: Vector2, shipSize: real, camera: Vector2, sqrt: real -> real,
                   trig: real -> Vector2, rolls: int -> ExplosionRolls): Collision
    decreases |os|
  {
    if |os| == 0 then Collision([], [], camera)
    else
      var c := Collide(os[..|os| - 1], ship, shipSize, camera, sqrt, trig, rolls);
      var o := os[|os| - 1];
      var e := rolls(|os| - 1);
      if Hits(o, ship, shipSize, sqrt) then
        Collision(c.survivors, c.sparks + Explosion(o.position.x, o.position.y, o.size, trig, e.sparks), Shake(c.camera, e))
      else Collision(c.survivors + [o], c.sparks, c.camera)
  }

  /** The filter keeps exactly the objects that do not hit the ship. */
  lemma {:induction false} CollideSurvivors(os: seq<ObjectState>, ship: Vector2, shipSize: real, camera: Vector2,
                                            sqrt: real -> real, trig: real -> Vector2, rolls: int -> ExplosionRolls,
                                            o: ObjectState)
    ensures var c := Collide(os, ship, shipSize, camera, sqrt, trig, rolls);
      |c.survivors| <= |os| && (o in c.survivors <==> o in os && !Hits(o, ship, shipSize, sqrt))
    decreases |os|
  {
    if |os| > 0 {
      var front := os[..|os| - 1];
      CollideSurvivors(front, ship, shipSize, camera, sqrt, trig, rolls, o);
      assert os == front + [os[|os| - 1]];
    }
  }

  /** When nothing hits, nothing explodes: every object is kept, in order,
      no particle is emitted and the camera does not shake. */
  lemma {:induction false} CollideQuiet(os: seq<ObjectState>, ship: Vector2, shipSize: real, camera: Vector2,
                                        sqrt: real -> real, trig: real -> Vector2, rolls: int -> ExplosionRolls)
    requires forall k :: 0 <= k < |os| ==> !Hits(os[k], ship, shipSize, sqrt)
    ensures Collide(os, ship, shipSize, camera, sqrt, trig, rolls) == Collision(os, [], camera)
    decreases |os|
  {
    if |os| > 0 {
      var front := os[..|os| - 1];
      CollideQuiet(front, ship, shipSize, camera, sqrt, trig, rolls);
      assert front + [os[|os| - 1]] == os;
    }
  }

  /** Particle `p` starts where one of the objects `os` that hit the ship
      was. */
  ghost predicate AtWreck(p: ParticleState, os: seq<ObjectState>, ship: Vector2, shipSize: real, sqrt: real -> real)
  {
    exists o :: o in os && Hits(o, ship, shipSize, sqrt) && p.position == o.position
  }

  /** Every explosion particle starts at the position of an object that hit
      the ship. */
  lemma {:induction false} SparksAtWrecks(os: seq<ObjectState>, ship: Vector2, shipSize: real, camera: Vector2,
                                          sqrt: real -> real, trig: real -> Vector2, rolls: int -> ExplosionRolls)
    ensures var c := Collide(os, ship, shipSize, camera, sqrt, trig, rolls);
      forall p :: p in c.sparks ==> AtWreck(p, os, ship, shipSize, sqrt)
    decreases |os|
  {
    if |os| > 0 {
      var front := os[..|os| - 1];
      SparksAtWrecks(front, ship, shipSize, camera, sqrt, trig, rolls);
      var o := os[|os| - 1];
      var c := Collide(front, ship, shipSize, camera, sqrt, trig, rolls);
      forall p | p in c.sparks
        ensures AtWreck(p, os, ship, shipSize, sqrt)
      {
        assert AtWreck(p, front, ship, shipSize, sqrt);
        var q :| q in front && Hits(q, ship, shipSize, sqrt) && p.position == q.position;
        assert q in os;
      }
      if Hits(o, ship, shipSize, sqrt) {
        var e := rolls(|os| - 1);
        var x := Explosion(o.position.x, o.position.y, o.size, trig, e.sparks);
        ExplosionShape(o.position.x, o.position.y, o.size, trig, e.sparks);
        forall p | p in x
          ensures AtWreck(p, os, ship, shipSize, sqrt)
        {
          var k :| 0 <= k < |x| && x[k] == p;
          assert o in os;
        }
      }
    }
  }

  // ---------------------------------------------------------------------
  // The engine trail

  /** The five draws of the trail: whether a particle is emitted (10%), its
      offset from the ship and its velocity. */
  datatype TrailRoll = TrailRoll(chance: Roll, dx: Roll, dy: Roll, vx: Roll, vy: Roll)

  /** The particles the trail step pushes: none, or one white particle of
      life 2 near the ship. */
  function Trail(ship: Vector2, r: TrailRoll): seq<ParticleState>
  {
    if r.chance < TrailChance then
      [Particles.Spawned(ship.x + (r.dx - 0.5) * 20.0, ship.y + (r.dy - 0.5) * 20.0,
                         (r.vx - 0.5) * 100.0, (r.vy - 0.5) * 100.0, 2.0, "#ffffff")]
    else []
  }

  /** A trail particle appears exactly when the draw is below 0.1; it is
      white, lives 2 s, starts less than 10 from the ship on each axis and
      moves slower than 50 on each axis. */
  lemma TrailShape(ship: Vector2, r: TrailRoll)
    ensures |Trail(ship, r)| == (if r.chance < TrailChance then 1 else 0)
    ensures forall p :: p in Trail(ship, r) ==>
              p.life == p.maxLife == 2.0 && p.color == "#ffffff" &&
              Abs(p.position.x - ship.x) <= 10.0 && Abs(p.position.y - ship.y) <= 10.0 &&
              Abs(p.velocity.x) <= 50.0 && Abs(p.velocity.y) <= 50.0
  {
  }

  /** One more object seen by the scan loop. */
  lemma IndicateStep(os: seq<ObjectState>, i: nat, ship: Vector2, sqrt: real -> real)
    requires i < |os|
    ensures Indicate(os[..i + 1], ship, sqrt) ==
            Indicate(os[..i], ship, sqrt) +
            (if InScan(Distance(os[i].position, ship, sqrt)) then [Indicator(os[i], ship, sqrt)] else [])
  {
    assert os[..i + 1][..i] == os[..i];
  }

  /** One more object seen by the collision filter. */
  lemma CollideStep(os: seq<ObjectState>, i: nat, ship: Vector2, shipSize: real, camera: Vector2, sqrt: real -> real,
                    trig: real -> Vector2, rolls: int -> ExplosionRolls)
    requires i < |os|
    ensures var c := Collide(os[..i], ship, shipSize, camera, sqrt, trig, rolls);
      Collide(os[..i + 1], ship, shipSize, camera, sqrt, trig, rolls) ==
      if Hits(os[i], ship, shipSize, sqrt) then
        Collision(c.survivors, c.sparks + Explosion(os[i].position.x, os[i].position.y, os[i].size, trig, rolls(i).sparks),
                  Shake(c.camera, rolls(i)))
      else Collision(c.survivors + [os[i]], c.sparks, c.camera)
  {
    assert os[..i + 1][..i] == os[..i];
  }

  /** One more particle seen by the expiry filter. */
  lemma AliveStep(ps: seq<ParticleState>, i: nat)
    requires i < |ps|
    ensures Particles.Alive(ps[..i + 1]) == Particles.Alive(ps[..i]) + (if ps[i].life > 0.0 then [ps[i]] else [])
  {
    assert ps[..i + 1][..i] == ps[..i];
  }

  // ---------------------------------------------------------------------
  // One frame

  /** The draws of one `update`: the regions it may generate, the explosions
      of the objects it may destroy (by index), and the trail. */
  datatype FrameRolls = FrameRolls(regions: Region -> RegionRolls, collisions: int -> ExplosionRolls, trail: TrailRoll)

  /** Everything `update` reads or writes, as values. */
  datatype World = World(ship: Ships.ShipState, camera: Vector2, regions: set<Region>,
                         objects: seq<ObjectState>, particles: seq<ParticleState>,
                         indicators: seq<DirectionIndicator>)

  /** The ship part of `update`: the key force goes in once through
      `applyForce` and once more inside `Ship.update`, and the speed cap sees
      the true length of the accelerated velocity. */
  function Steer(s: Ships.ShipState, dt: real, keys: Ships.Keys, sqrt: real -> real): Ships.ShipState
    requires Ships.SpeedMatchesMode(s)
  {
    var pushed := s.(acceleration := Add(s.acceleration, Ships.KeyForce(keys)));
    Ships.Step(pushed, dt, keys, sqrt(LengthSquared(Ships.Accelerated(pushed, dt, keys))))
  }

  /** The ship controls and the camera of `update(deltaTime)`: the ship is
      steered, then the camera moves toward it. */
  function Pilot(w: World, dt: real, keys: Ships.Keys, sqrt: real -> real): World
    requires Ships.SpeedMatchesMode(w.ship)
  {
    var s := Steer(w.ship, dt, keys, sqrt);
    w.(ship := s, camera := Follow(w.camera, s.position))
  }

  /** The regions around the camera are generated, then the scan markers
      are rebuilt from the objects (before the collisions) while Space is
      held, and cleared otherwise. */
  function Explore(w: World, keys: Ships.Keys, rolls: FrameRolls, sqrt: real -> real): World
  {
    var g := Populate(w.regions, Window(CameraRegion(w.camera)), rolls.regions, CentreWithin(sqrt));
    var objects := w.objects + g.bodies;
    w.(regions := g.done, objects := objects,
       indicators := if Ships.Held(keys, "Space") then Indicate(objects, w.ship.position, sqrt) else [])
  }

  /** In droplet mode, the objects touching the ship explode. */
  function Wreck(w: World, rolls: FrameRolls, sqrt: real -> real, trig: real -> Vector2): World
  {
    var c := if w.ship.isDropletMode then Collide(w.objects, w.ship.position, w.ship.size, w.camera, sqrt, trig, rolls.collisions)
             else Collision(w.objects, [], w.camera);
    w.(camera := c.camera, objects := c.survivors, particles := w.particles + c.sparks)
  }

  /** The objects move, the trail may gain a particle, and the particles
      move and expire. */
  function Age(w: World, dt: real, rolls: FrameRolls): World
  {
    w.(objects := SpaceObjects.StepAll(w.objects, dt),
       particles := Particles.Alive(Particles.StepAll(w.particles + Trail(w.ship.position, rolls.trail), dt)))
  }

  /** One `update(deltaTime)`, in its order. */
  function Frame(w: World, dt: real, keys: Ships.Keys, rolls: FrameRolls, sqrt: real -> real, trig: real -> Vector2): World
    requires Ships.SpeedMatchesMode(w.ship)
  {
    Age(Wreck(Explore(Pilot(w, dt, keys, sqrt), keys, rolls, sqrt), rolls, sqrt, trig), dt, rolls)
  }

  /** What one frame keeps: the ship's mode invariants; only living
      particles; markers only in the scan band and only while Space is held;
      a region set that only grows and never takes in the spawn region; the
      5 x 5 block around the camera's region generated, the spawn region
      aside; and, outside droplet mode, every object kept in order and
      stepped once, with a camera that only follows the ship. */
  lemma FrameInvariants(w: World, dt: real, keys: Ships.Keys, rolls: FrameRolls, sqrt: real -> real, trig: real -> Vector2)
    requires Ships.SpeedMatchesMode(w.ship) && Ships.TimerMatchesMode(w.ship) && IsSqrt(sqrt)
    ensures var r := Frame(w, dt, keys, rolls, sqrt, trig);
      Ships.SpeedMatchesMode(r.ship) && Ships.TimerMatchesMode(r.ship) &&
      (forall k :: 0 <= k < |r.particles| ==> r.particles[k].life > 0.0) &&
      (forall k :: 0 <= k < |r.indicators| ==> InScan(r.indicators[k].distance)) &&
      (!Ships.Held(keys, "Space") ==> r.indicators == []) &&
      w.regions <= r.regions && (Origin in r.regions <==> Origin in w.regions) &&
      (forall q: Region :: q != Origin && q in Window(CameraRegion(Follow(w.camera, r.ship.position))) ==> q in r.regions) &&
      (!r.ship.isDropletMode ==>
         |r.objects| >= |w.objects| && r.objects[..|w.objects|] == SpaceObjects.StepAll(w.objects, dt) &&
         r.camera == Follow(w.camera, r.ship.position))
  {
    var pushed := w.ship.(acceleration := Add(w.ship.acceleration, Ships.KeyForce(keys)));
    var speed := sqrt(LengthSquared(Ships.Accelerated(pushed, dt, keys)));
    Ships.StepKeepsSpeedMatchesMode(pushed, dt, keys, speed);
    Ships.StepKeepsTimerMatchesMode(pushed, dt, keys, speed);
    var s := Steer(w.ship, dt, keys, sqrt);
    var camera := Follow(w.camera, s.position);
    var keysSeen := Window(CameraRegion(camera));
    var guard := CentreWithin(sqrt);
    PopulateRegions(w.regions, keysSeen, rolls.regions, guard);
    GuardsAgree(sqrt, Origin);
    forall q: Region | q != Origin && q in keysSeen
      ensures !Skips(guard, q)
    {
      GuardsAgree(sqrt, q);
    }
  }

  /** The elements of `s` at the positions `from`, in that order: what a
      filter loop has kept. */
  function Pick<T>(s: seq<T>, from: seq<int>): (r: seq<T>)
    requires forall a :: 0 <= a < |from| ==> 0 <= from[a] < |s|
    ensures |r| == |from| && forall a :: 0 <= a < |from| ==> r[a] == s[from[a]]
  {
    seq(|from|, a requires 0 <= a < |from| => s[from[a]])
  }

  /** Positions strictly increasing and all below `i`. */
  predicate Increasing(from: seq<int>, i: int)
  {
    (forall a :: 0 <= a < |from| ==> 0 <= from[a] < i) &&
    (forall a, b :: 0 <= a < b < |from| ==> from[a] < from[b])
  }

  /** Keeping one more position. */
  lemma PickStep<T>(s: seq<T>, from: seq<int>, i: int)
    requires Increasing(from, i) && 0 <= i < |s|
    ensures Increasing(from + [i], i + 1) && Increasing(from, i + 1)
    ensures Pick(s, from + [i]) == Pick(s, from) + [s[i]]
  {
  }

  /** What a filter keeps of a list without repeats has no repeats. */
  lemma PickDistinct<T>(s: seq<T>, from: seq<int>)
    requires Increasing(from, |s|)
    requires forall a, b :: 0 <= a < b < |s| ==> s[a] != s[b]
    ensures var r := Pick(s, from); forall a, b :: 0 <= a < b < |r| ==> r[a] != r[b]
  {
  }

  /** Pushing element `i` after the first `i`. */
  lemma Extend<T>(base: seq<T>, s: seq<T>, i: nat)
    requires i < |s|
    ensures base + s[..i] + [s[i]] == base + s[..i + 1]
  {
  }

  lemma Associative<T>(a: seq<T>, b: seq<T>, c: seq<T>)
    ensures a + b + c == a + (b + c)
  {
  }

  /** After `i` passes of the particle filter: the first `i` particles have
      taken their step from the values `before`, the others still hold them. */
  ghost predicate Aged(all: seq<Particles.Particle>, i: int, dt: real, before: seq<ParticleState>)
    reads set p | p in all
  {
    0 <= i <= |all| && |before| == |all| &&
    (forall m :: 0 <= m < i ==> all[m].State() == Particles.Step(before[m], dt)) &&
    (forall m :: i <= m < |all| ==> all[m].State() == before[m])
  }

  /** `p.update(deltaTime)` inside the particle filter, for particle `i`. */
  method AgeAt(all: seq<Particles.Particle>, i: nat, dt: real, ghost before: seq<ParticleState>)
    requires Particles.Distinct(all) && i < |all| && Aged(all, i, dt, before)
    modifies all[i]
    ensures Aged(all, i + 1, dt, before)
  {
    all[i].Update(dt);
  }

  /** The pass of `this.particles.filter(p => { p.update(deltaTime); return
      p.life > 0; })` over the list `all`: every particle moves and ages, and
      those with no life left are not kept. */
  method FilterParticles(all: seq<Particles.Particle>, dt: real) returns (kept: seq<Particles.Particle>)
    requires Particles.Distinct(all)
    modifies set p | p in all
    ensures Particles.Distinct(kept)
    ensures Particles.States(kept) == Particles.Alive(Particles.StepAll(old(Particles.States(all)), dt))
  {
    ghost var before := Particles.States(all);
    ghost var stepped := Particles.StepAll(before, dt);
    kept := [];
    ghost var from: seq<int> := [];
    var i := 0;
    while i < |all|
      invariant 0 <= i <= |all| && Aged(all, i, dt, before)
      invariant Increasing(from, i) && kept == Pick(all, from)
      invariant Particles.Alive(stepped[..i]) == Pick(stepped, from)
    {
      var p := all[i];
      AgeAt(all, i, dt, before);
      AliveStep(stepped, i);
      PickStep(all, from, i);
      PickStep(stepped, from, i);
      if p.life > 0.0 {
        kept := kept + [p];
        from := from + [i];
      }
      i := i + 1;
    }
    PickDistinct(all, from);
    assert stepped[..i] == stepped;
    Particles.StatesMatch(kept, Pick(stepped, from));
  }

  /** The loop of `updateNavigation` over the objects `objs`, with the ship
      at `ship`: one marker pushed for each object in the scan band. */
  method Markers(objs: seq<SpaceObjects.SpaceObject>, ship: Vector2, sqrt: real -> real)
    returns (markers: seq<DirectionIndicator>)
    ensures markers == Indicate(SpaceObjects.States(objs), ship, sqrt)
  {
    ghost var states := SpaceObjects.States(objs);
    markers := [];
    var i := 0;
    while i < |objs|
      invariant 0 <= i <= |objs|
      invariant markers == Indicate(states[..i], ship, sqrt)
    {
      var obj := objs[i];
      assert states[i].position == obj.position && states[i].kind == obj.kind;
      var distance := Distance(obj.position, ship, sqrt);
      IndicateStep(states, i, ship, sqrt);
      if distance <= ScanRadius && distance > ScanMinimum {
        markers := markers + [Indicators.DirectionIndicator(obj.position, obj.kind, distance)];
      }
      i := i + 1;
    }
    assert states[..i] == states;
  }

  class Game {
    const ship: Ships.Ship
    var objects: seq<SpaceObjects.SpaceObject>
    var particles: seq<Particles.Particle>
    var indicators: seq<DirectionIndicator>
    var keys: Ships.Keys
    var lastTime: real
    var camera: Vector2
    var generatedRegions: set<Region>

    /** The ship keeps its mode invariants, and no object or particle is
        listed twice (each is updated once per frame). */
    ghost predicate Valid()
      reads this, ship
    {
      ship.Valid() && SpaceObjects.Distinct(objects) && Particles.Distinct(particles)
    }

    /** The fields region generation leaves alone. */
    ghost function Scene(): (seq<Particles.Particle>, seq<DirectionIndicator>, Ships.Keys, real, Vector2)
      reads this
    {
      (particles, indicators, keys, lastTime, camera)
    }

    /** The fields the particle updates leave alone. */
    ghost function Stage(): (seq<SpaceObjects.SpaceObject>, set<Region>, seq<DirectionIndicator>, Vector2)
      reads this`objects, this`generatedRegions, this`indicators, this`camera
    {
      (objects, generatedRegions, indicators, camera)
    }

    /** One `this.objects.push(new SpaceObject(...))`. */
    method AddObject(x: real, y: real, vx: real, vy: real, size: real, color: string, kind: string)
      requires SpaceObjects.Distinct(objects)
      modifies this
      ensures SpaceObjects.Distinct(objects)
      ensures |objects| == |old(objects)| + 1 && objects[..|old(objects)|] == old(objects)
      ensures fresh(objects[|old(objects)|])
      ensures objects[|old(objects)|].State() == SpaceObjects.ObjectState(Vector2(x, y), Vector2(vx, vy), size, color, kind)
      ensures Scene() == old(Scene()) && generatedRegions == old(generatedRegions)
    {
      var o := new SpaceObjects.SpaceObject(x, y, vx, vy, size, color, kind);
      objects := objects + [o];
    }

    /** `generateObjectsInRegion(centerX, centerY, width, height)`: a region
        already recorded is left alone; otherwise its key is recorded and its
        bodies are appended as new objects. */
    method GenerateObjectsInRegion(centreX: real, centreY: real, width: real, height: real, rolls: RegionRolls)
      requires width != 0.0 && height != 0.0
      requires SpaceObjects.Distinct(objects)
      modifies this
      ensures SpaceObjects.Distinct(objects)
      ensures KeyOf(centreX, centreY, width, height) in old(generatedRegions) ==>
                generatedRegions == old(generatedRegions) && objects == old(objects)
      ensures KeyOf(centreX, centreY, width, height) !in old(generatedRegions) ==>
                generatedRegions == old(generatedRegions) + {KeyOf(centreX, centreY, width, height)} &&
                |objects| == |old(objects)| + |RegionBodies(centreX, centreY, width, height, rolls)|
      ensures objects[..|old(objects)|] == old(objects)
      ensures forall m :: |old(objects)| <= m < |objects| ==>
                fresh(objects[m]) && objects[m].State() == RegionBodies(centreX, centreY, width, height, rolls)[m - |old(objects)|]
      ensures Scene() == old(Scene())
    {
      var key := KeyOf(centreX, centreY, width, height);
      if key in generatedRegions {
        return;
      }
      generatedRegions := generatedRegions + {key};
      ghost var n0 := |objects|;
      var asteroidCount := AsteroidCount(rolls.count);
      var i := 0;
      while i < asteroidCount
        invariant 0 <= i <= asteroidCount
        invariant SpaceObjects.Distinct(objects)
        invariant |objects| == n0 + i && objects[..n0] == old(objects)
        invariant forall m :: n0 <= m < |objects| ==>
                    fresh(objects[m]) && objects[m].State() == Asteroid(centreX, centreY, width, height, rolls.asteroids(m - n0))
        invariant generatedRegions == old(generatedRegions) + {key}
        invariant Scene() == old(Scene())
      {
        var b := rolls.asteroids(i);
        AddObject(Scatter(centreX, width, b.x), Scatter(centreY, height, b.y), (b.vx - 0.5) * 20.0, (b.vy - 0.5) * 20.0,
                  b.size * 50.0 + 10.0, "#444444", "asteroid");
        i := i + 1;
      }
      if rolls.starship < StarshipChance {
        var b := rolls.ship;
        AddObject(Scatter(centreX, width, b.x), Scatter(centreY, height, b.y), (b.vx - 0.5) * 50.0, (b.vy - 0.5) * 50.0,
                  b.size * 500.0 + 500.0, "#ff0000", "starship");
      }
    }

    /** `new Game()` with its `init()`, up to the first frame: the ship at the
        origin, the camera on it, no keys held, empty lists, then
        `generateInitialObjects()`. */
    constructor (rolls: Region -> RegionRolls)
      ensures Valid() && fresh(ship)
      ensures ship.State() == Ships.Spawned(0.0, 0.0)
      ensures camera == Zero && particles == [] && indicators == [] && keys == map[] && lastTime == 0.0
      ensures generatedRegions == Populate({}, Window(Origin), rolls, OriginRegion).done
      ensures forall o :: o in objects ==> fresh(o)
      ensures SpaceObjects.States(objects) == Populate({}, Window(Origin), rolls, OriginRegion).bodies
    {
      ship := new Ships.Ship(0.0, 0.0);
      camera := Zero;
      objects := [];
      particles := [];
      indicators := [];
      keys := map[];
      lastTime := 0.0;
      generatedRegions := {};
      new;
      ghost var g := Populate({}, Window(Origin), rolls, OriginRegion);
      ghost var scene := Scene();
      ghost var s0 := ship.State();
      assert s0 == Ships.Spawned(0.0, 0.0);
      GenerateInitialObjects(rolls);
      assert ship.State() == s0;
      assert Scene() == scene;
      assert Reached(0, g);
      SpaceObjects.StatesMatch(objects, g.bodies);
    }

    /** The region set is `g.done`, and the objects from index `n0` on have,
        in order, the values `g.bodies`. */
    ghost predicate Reached(n0: nat, g: Generation)
      reads this, set o | o in objects
    {
      generatedRegions == g.done && |objects| == n0 + |g.bodies| &&
      forall m :: n0 <= m < |objects| ==> objects[m].State() == g.bodies[m - n0]
    }

    /** The object list only grew, by new objects, and nothing but the
        objects and the region set changed. */
    twostate predicate Grew()
      reads this
    {
      |old(objects)| <= |objects| && (forall m :: 0 <= m < |old(objects)| ==> objects[m] == old(objects)[m]) &&
      (forall m :: |old(objects)| <= m < |objects| ==> fresh(objects[m])) &&
      Scene() == old(Scene())
    }

    /** `generateObjectsInRegion` at the centre of region `r`, as both loops
        call it: one `Visit`. */
    method VisitRegion(r: Region, rolls: RegionRolls, ghost n0: nat, ghost g: Generation)
      requires SpaceObjects.Distinct(objects) && n0 <= |objects| && Reached(n0, g)
      modifies this
      ensures SpaceObjects.Distinct(objects) && Reached(n0, Visit(g, r, rolls)) && Grew()
    {
      var c := Centre(r);
      CentreKey(r);
      GenerateObjectsInRegion(c.x, c.y, RegionSize, RegionSize, rolls);
    }

    /** The body of the inner loop of `generateInitialObjects()`: region
        `(dx, dy)`, unless it is the origin's. */
    method InitialCell(dx: int, dy: int, rolls: Region -> RegionRolls, ghost n0: nat, ghost g: Generation)
      requires SpaceObjects.Distinct(objects) && n0 <= |objects| && Reached(n0, g)
      modifies this
      ensures SpaceObjects.Distinct(objects) && Reached(n0, Advance(g, (dx, dy), rolls, OriginRegion)) && Grew()
    {
      if dx == 0 && dy == 0 {
        return;
      }
      VisitRegion((dx, dy), rolls((dx, dy)), n0, g);
    }

    /** The body of the inner loop of `generateNearbyRegions()`: region
        `(regionX, regionY)`, unless its centre is within 2 km of the origin. */
    method NearbyCell(regionX: int, regionY: int, rolls: Region -> RegionRolls, sqrt: real -> real, ghost n0: nat, ghost g: Generation)
      requires SpaceObjects.Distinct(objects) && n0 <= |objects| && Reached(n0, g)
      modifies this
      ensures SpaceObjects.Distinct(objects) && Reached(n0, Advance(g, (regionX, regionY), rolls, CentreWithin(sqrt))) && Grew()
    {
      var centerX := regionX as real * RegionSize;
      var centerY := regionY as real * RegionSize;
      assert centerX * centerX + centerY * centerY == CentreSquared((regionX, regionY));
      var distanceFromSpawn := sqrt(centerX * centerX + centerY * centerY);
      if distanceFromSpawn < SpawnRadius {
        return;
      }
      VisitRegion((regionX, regionY), rolls((regionX, regionY)), n0, g);
    }

    /** The inner loop of `generateInitialObjects()`, for one `dx`; `lo` is
        the position of `(dx, -2)` in the block. */
    method InitialColumn(dx: int, rolls: Region -> RegionRolls, ghost start: set<Region>, ghost lo: nat, ghost n0: nat)
      requires -2 <= dx <= 2 && lo == (dx + 2) * 5
      requires SpaceObjects.Distinct(objects) && n0 <= |objects|
      requires Reached(n0, Populate(start, Window(Origin)[..lo], rolls, OriginRegion))
      modifies this
      ensures SpaceObjects.Distinct(objects) && Grew()
      ensures Reached(n0, Populate(start, Window(Origin)[..lo + 5], rolls, OriginRegion))
    {
      ghost var w := Window(Origin);
      ghost var idx := lo;
      ghost var h := Populate(start, w[..lo], rolls, OriginRegion);
      var dy := -2;
      while dy <= 2
        invariant -2 <= dy <= 3 && idx == lo + dy + 2
        invariant SpaceObjects.Distinct(objects) && n0 <= |objects| && Reached(n0, h) && Grew()
        invariant h == Populate(start, w[..idx], rolls, OriginRegion)
      {
        OriginWindowStep(start, dx, dy, idx, rolls, OriginRegion);
        InitialCell(dx, dy, rolls, n0, h);
        h := Advance(h, (dx, dy), rolls, OriginRegion);
        idx := idx + 1;
        dy := dy + 1;
      }
      assert idx == lo + 5;
      assert h == Populate(start, Window(Origin)[..lo + 5], rolls, OriginRegion);
    }

    /** `generateInitialObjects()`: the 5 x 5 block around the origin, the
        origin's region skipped. */
    method GenerateInitialObjects(rolls: Region -> RegionRolls)
      requires SpaceObjects.Distinct(objects)
      modifies this
      ensures SpaceObjects.Distinct(objects) && Grew()
      ensures Reached(|old(objects)|, Populate(old(generatedRegions), Window(Origin), rolls, OriginRegion))
    {
      ghost var w := Window(Origin);
      ghost var lo := 0;
      var dx := -2;
      while dx <= 2
        invariant -2 <= dx <= 3 && lo == (dx + 2) * 5
        invariant SpaceObjects.Distinct(objects) && |old(objects)| <= |objects| && Grew()
        invariant Reached(|old(objects)|, Populate(old(generatedRegions), w[..lo], rolls, OriginRegion))
      {
        InitialColumn(dx, rolls, old(generatedRegions), lo, |old(objects)|);
        lo := lo + 5;
        dx := dx + 1;
      }
      assert w[..lo] == w;
    }

    /** One pass of the inner loop of `generateNearbyRegions()`: region
        `(c.0 + dx, c.1 + dy)`, at position `idx` of the block. */
    method NearbyStep(c: Region, dx: int, dy: int, rolls: Region -> RegionRolls, sqrt: real -> real,
                      ghost start: set<Region>, ghost idx: nat, ghost n0: nat, ghost h: Generation)
      returns (ghost next: Generation)
      requires -2 <= dx <= 2 && -2 <= dy <= 2 && idx == (dx + 2) * 5 + dy + 2
      requires SpaceObjects.Distinct(objects) && n0 <= |objects| && Reached(n0, h)
      requires h == Populate(start, Window(c)[..idx], rolls, CentreWithin(sqrt))
      modifies this
      ensures SpaceObjects.Distinct(objects) && Reached(n0, next) && Grew()
      ensures next == Populate(start, Window(c)[..idx + 1], rolls, CentreWithin(sqrt))
    {
      var regionX := c.0 + dx;
      var regionY := c.1 + dy;
      WindowStep(start, c, dx, dy, idx, rolls, CentreWithin(sqrt));
      NearbyCell(regionX, regionY, rolls, sqrt, n0, h);
      next := Advance(h, (regionX, regionY), rolls, CentreWithin(sqrt));
    }

    /** The inner loop of `generateNearbyRegions()`, for one `dx`. */
    method NearbyColumn(c: Region, dx: int, rolls: Region -> RegionRolls, sqrt: real -> real,
                        ghost start: set<Region>, ghost lo: nat, ghost n0: nat)
      requires -2 <= dx <= 2 && lo == (dx + 2) * 5
      requires SpaceObjects.Distinct(objects) && n0 <= |objects|
      requires Reached(n0, Populate(start, Window(c)[..lo], rolls, CentreWithin(sqrt)))
      modifies this
      ensures SpaceObjects.Distinct(objects) && Grew()
      ensures Reached(n0, Populate(start, Window(c)[..lo + 5], rolls, CentreWithin(sqrt)))
    {
      ghost var idx := lo;
      ghost var h := Populate(start, Window(c)[..lo], rolls, CentreWithin(sqrt));
      var dy := -2;
      while dy <= 2
        invariant -2 <= dy <= 3 && idx == lo + dy + 2
        invariant SpaceObjects.Distinct(objects) && n0 <= |objects| && Reached(n0, h) && Grew()
        invariant h == Populate(start, Window(c)[..idx], rolls, CentreWithin(sqrt))
      {
        h := NearbyStep(c, dx, dy, rolls, sqrt, start, idx, n0, h);
        idx := idx + 1;
        dy := dy + 1;
      }
      assert idx == lo + 5;
      assert h == Populate(start, Window(c)[..lo + 5], rolls, CentreWithin(sqrt));
    }

    /** `generateNearbyRegions()`: the 5 x 5 block around the camera's region,
        skipping each region whose centre is closer than 2 km to the origin. */
    method GenerateNearbyRegions(rolls: Region -> RegionRolls, sqrt: real -> real)
      requires SpaceObjects.Distinct(objects)
      modifies this
      ensures SpaceObjects.Distinct(objects) && Scene() == old(Scene())
      ensures forall o :: o in objects ==> o in old(objects) || fresh(o)
      ensures var g := Populate(old(generatedRegions), Window(CameraRegion(camera)), rolls, CentreWithin(sqrt));
        generatedRegions == g.done && SpaceObjects.States(objects) == old(SpaceObjects.States(objects)) + g.bodies
    {
      ghost var before := SpaceObjects.States(objects);
      var cameraRegionX := Floor(camera.x / RegionSize);
      var cameraRegionY := Floor(camera.y / RegionSize);
      var c := (cameraRegionX, cameraRegionY);
      ghost var w := Window(c);
      ghost var lo := 0;
      var dx := -2;
      while dx <= 2
        invariant -2 <= dx <= 3 && lo == (dx + 2) * 5
        invariant SpaceObjects.Distinct(objects) && |old(objects)| <= |objects| && Grew()
        invariant Reached(|old(objects)|, Populate(old(generatedRegions), w[..lo], rolls, CentreWithin(sqrt)))
      {
        NearbyColumn(c, dx, rolls, sqrt, old(generatedRegions), lo, |old(objects)|);
        lo := lo + 5;
        dx := dx + 1;
      }
      assert w[..lo] == w;
      ghost var g := Populate(old(generatedRegions), w, rolls, CentreWithin(sqrt));
      assert forall m :: 0 <= m < |before| ==> objects[m].State() == before[m];
      SpaceObjects.StatesMatch(objects, before + g.bodies);
    }

    /** Everything `update` reads or writes, as values. */
    ghost function Snapshot(): World
      reads this`camera, this`generatedRegions, this`objects, this`particles, this`indicators, ship
      reads set o | o in objects, set p | p in particles
    {
      World(ship.State(), camera, generatedRegions, SpaceObjects.States(objects), Particles.States(particles), indicators)
    }

    /** `updateNavigation()`: a fresh list with a marker for each object in
        the scan band, in object order. */
    method UpdateNavigation(sqrt: real -> real)
      modifies this`indicators
      ensures indicators == Indicate(SpaceObjects.States(objects), ship.position, sqrt)
    {
      indicators := Markers(objects, ship.position, sqrt);
    }

    /** The particle values are the old ones, unchanged and in order,
        followed by `added`. */
    twostate predicate Pushed(added: seq<ParticleState>)
      reads this`particles, set p | p in particles
    {
      Particles.States(particles) == old(Particles.States(particles)) + added
    }

    /** Every particle listed now was listed before or is new. */
    twostate predicate Born()
      reads this`particles
    {
      forall p :: p in particles ==> p in old(particles) || fresh(p)
    }

    /** One `this.particles.push(new Particle(...))`. */
    method AddParticle(x: real, y: real, vx: real, vy: real, life: real, color: string)
      requires Particles.Distinct(particles)
      modifies this`particles
      ensures Particles.Distinct(particles) && Pushed([Particles.Spawned(x, y, vx, vy, life, color)]) && Born()
    {
      var p := new Particles.Particle(x, y, vx, vy, life, color);
      particles := particles + [p];
      assert particles[..|particles| - 1] == old(particles);
    }

    /** One pass of the loop of `createExplosion`: particle `i` of `bound`. */
    method EmitSpark(x: real, y: real, i: nat, bound: real, trig: real -> Vector2, r: SparkRoll)
      requires Particles.Distinct(particles) && bound > 0.0
      modifies this`particles
      ensures Particles.Distinct(particles) && Pushed([Spark(x, y, i, bound, trig, r)]) && Born()
    {
      var angle := Pi * 2.0 * i as real / bound;
      var speed := r.speed * 200.0 + 100.0;
      var vx := trig(angle).x * speed;
      var vy := trig(angle).y * speed;
      var life := r.life * 1.0 + 0.5;
      var color := if r.color > 0.5 then "#ff6600" else "#ffaa00";
      assert Particles.Spawned(x, y, vx, vy, life, color) == Spark(x, y, i, bound, trig, r);
      AddParticle(x, y, vx, vy, life, color);
    }

    /** `createExplosion(x, y, size)`: the explosion's particles pushed in
        order, then the camera shaken. */
    method CreateExplosion(x: real, y: real, size: real, trig: real -> Vector2, e: ExplosionRolls)
      requires Particles.Distinct(particles)
      modifies this`particles, this`camera
      ensures Particles.Distinct(particles) && Pushed(Explosion(x, y, size, trig, e.sparks)) && Born()
      ensures camera == Shake(old(camera), e)
    {
      EmitSparks(x, y, size, trig, e.sparks);
      ShakeCamera(e);
    }

    /** The two `this.camera.x += ...` / `this.camera.y += ...` lines. */
    method ShakeCamera(e: ExplosionRolls)
      modifies this`camera
      ensures camera == Shake(old(camera), e)
    {
      camera := Vector2(camera.x + (e.shakeX - 0.5) * 20.0, camera.y);
      camera := Vector2(camera.x, camera.y + (e.shakeY - 0.5) * 20.0);
    }

    /** The particle loop of `createExplosion`: `particleCount` is a tenth of
        the size, at most 50, and the loop runs while `i < particleCount`. */
    method EmitSparks(x: real, y: real, size: real, trig: real -> Vector2, rolls: int -> SparkRoll)
      requires Particles.Distinct(particles)
      modifies this`particles
      ensures Particles.Distinct(particles) && Pushed(Explosion(x, y, size, trig, rolls)) && Born()
    {
      var particleCount := Min(size / 10.0, MaxSparks);
      ghost var n := SparkCount(size);
      ghost var sparks := Explosion(x, y, size, trig, rolls);
      ghost var base := Particles.States(particles);
      var i := 0;
      while i as real < particleCount
        invariant 0 <= i <= n && Particles.Distinct(particles) && Particles.States(particles) == base + sparks[..i]
        invariant Born()
        decreases n - i
      {
        EmitSpark(x, y, i, particleCount, trig, rolls(i));
        Extend(base, sparks, i);
        i := i + 1;
      }
      assert sparks[..i] == sparks;
    }

    /** The callback of the droplet-mode filter for object `obj`, the `i`th,
        whose value is `o`: an object that touches the ship explodes and is
        dropped. `base + sparks` are the particle values before the call. */
    method CollideOne(obj: SpaceObjects.SpaceObject, i: int, sqrt: real -> real, trig: real -> Vector2,
                      rolls: int -> ExplosionRolls, ghost o: ObjectState, ghost base: seq<ParticleState>,
                      ghost sparks: seq<ParticleState>)
      returns (keep: bool)
      requires obj.State() == o && Particles.Distinct(particles) && Particles.States(particles) == base + sparks
      modifies this`particles, this`camera
      ensures Particles.Distinct(particles) && Born()
      ensures keep <==> !Hits(o, ship.position, ship.size, sqrt)
      ensures keep ==> particles == old(particles) && Particles.States(particles) == base + sparks && camera == old(camera)
      ensures !keep ==> Particles.States(particles) == base + (sparks + Explosion(o.position.x, o.position.y, o.size, trig, rolls(i).sparks)) &&
                        camera == Shake(old(camera), rolls(i))
    {
      var distance := Distance(obj.position, ship.position, sqrt);
      var minDistance := obj.size + ship.size;
      if distance < minDistance {
        CreateExplosion(obj.position.x, obj.position.y, obj.size, trig, rolls(i));
        Associative(base, sparks, Explosion(o.position.x, o.position.y, o.size, trig, rolls(i).sparks));
        return false;
      }
      return true;
    }

    /** The loop of the droplet-mode filter over the objects, whose values
        are `states`: it returns the survivors, picked from `objects` at the
        increasing indices `from`, and pushes the sparks onto the particle
        values `base`. */
    method CollisionPass(sqrt: real -> real, trig: real -> Vector2, rolls: int -> ExplosionRolls,
                         ghost states: seq<ObjectState>, ghost base: seq<ParticleState>)
      returns (kept: seq<SpaceObjects.SpaceObject>, ghost from: seq<int>)
      requires states == SpaceObjects.States(objects)
      requires Particles.Distinct(particles) && Particles.States(particles) == base
      modifies this`particles, this`camera
      ensures Particles.Distinct(particles) && Born()
      ensures var c := Collide(states, ship.position, ship.size, old(camera), sqrt, trig, rolls);
        Increasing(from, |objects|) && kept == Pick(objects, from) && c.survivors == Pick(states, from) &&
        Particles.States(particles) == base + c.sparks && camera == c.camera
    {
      ghost var col := Collision([], [], camera);
      kept := [];
      from := [];
      var i := 0;
      while i < |objects|
        invariant 0 <= i <= |objects| && Particles.Distinct(particles)
        invariant col == Collide(states[..i], ship.position, ship.size, old(camera), sqrt, trig, rolls)
        invariant Increasing(from, i) && kept == Pick(objects, from) && col.survivors == Pick(states, from)
        invariant Particles.States(particles) == base + col.sparks && camera == col.camera
        invariant Born()
      {
        var obj := objects[i];
        CollideStep(states, i, ship.position, ship.size, old(camera), sqrt, trig, rolls);
        PickStep(objects, from, i);
        PickStep(states, from, i);
        var keep := CollideOne(obj, i, sqrt, trig, rolls, states[i], base, col.sparks);
        if keep {
          kept := kept + [obj];
          from := from + [i];
          col := Collision(col.survivors + [states[i]], col.sparks, col.camera);
        } else {
          col := Collision(col.survivors, col.sparks + Explosion(states[i].position.x, states[i].position.y, states[i].size, trig, rolls(i).sparks),
                           Shake(col.camera, rolls(i)));
        }
        i := i + 1;
      }
      assert states[..i] == states;
    }

    /** The droplet-mode filter of `update`: every object that touches the
        ship explodes and leaves the list; the others stay, in order. */
    method CollideObjects(sqrt: real -> real, trig: real -> Vector2, rolls: int -> ExplosionRolls)
      requires SpaceObjects.Distinct(objects) && Particles.Distinct(particles)
      modifies this`objects, this`particles, this`camera
      ensures SpaceObjects.Distinct(objects) && Particles.Distinct(particles)
      ensures forall o :: o in objects ==> o in old(objects)
      ensures var c := Collide(old(SpaceObjects.States(objects)), ship.position, ship.size, old(camera), sqrt, trig, rolls);
        SpaceObjects.States(objects) == c.survivors && Pushed(c.sparks) && camera == c.camera
      ensures Born()
    {
      ghost var states := SpaceObjects.States(objects);
      ghost var c := Collide(states, ship.position, ship.size, camera, sqrt, trig, rolls);
      var kept, from := CollisionPass(sqrt, trig, rolls, states, Particles.States(particles));
      PickDistinct(objects, from);
      SpaceObjects.StatesMatch(kept, c.survivors);
      ghost var ps := Particles.States(particles);
      objects := kept;
      assert SpaceObjects.States(objects) == c.survivors;
      assert Particles.States(particles) == ps;
    }

    /** `this.objects.forEach(obj => obj.update(deltaTime))`. */
    method UpdateObjects(dt: real)
      requires SpaceObjects.Distinct(objects)
      modifies set o | o in objects
      ensures SpaceObjects.States(objects) == SpaceObjects.StepAll(old(SpaceObjects.States(objects)), dt)
    {
      ghost var states := SpaceObjects.States(objects);
      for i := 0 to |objects|
        invariant forall m :: 0 <= m < i ==> objects[m].State() == SpaceObjects.Step(states[m], dt)
        invariant forall m :: i <= m < |objects| ==> objects[m].State() == states[m]
      {
        objects[i].Update(dt);
      }
      SpaceObjects.StatesMatch(objects, SpaceObjects.StepAll(states, dt));
    }

    /** The trail step of `update`: with a draw below 0.1, one white particle
        near the ship. */
    method EmitTrail(r: TrailRoll)
      requires Particles.Distinct(particles)
      modifies this`particles
      ensures Particles.Distinct(particles) && Pushed(Trail(ship.position, r)) && Born()
    {
      if r.chance < TrailChance {
        AddParticle(ship.position.x + (r.dx - 0.5) * 20.0, ship.position.y + (r.dy - 0.5) * 20.0,
                    (r.vx - 0.5) * 100.0, (r.vy - 0.5) * 100.0, 2.0, "#ffffff");
      }
    }

    /** `this.particles = this.particles.filter(p => { p.update(deltaTime);
        return p.life > 0; })`: every particle moves and ages, and those with
        no life left leave the list. */
    method UpdateParticles(dt: real)
      requires Particles.Distinct(particles)
      modifies this`particles, set p | p in particles
      ensures Particles.Distinct(particles) && Stage() == old(Stage())
      ensures Particles.States(particles) == Particles.Alive(Particles.StepAll(old(Particles.States(particles)), dt))
      ensures SpaceObjects.States(objects) == old(SpaceObjects.States(objects)) && ship.State() == old(ship.State())
    {
      ghost var os := SpaceObjects.States(objects);
      ghost var ss := ship.State();
      var kept := FilterParticles(particles, dt);
      assert SpaceObjects.States(objects) == os;
      assert ship.State() == ss;
      particles := kept;
      assert SpaceObjects.States(objects) == os;
      assert ship.State() == ss;
    }

    /** The ship controls of `update`: the key force through `applyForce`,
        then `Ship.update`, whose speed cap is given the true length of the
        accelerated velocity. */
    method SteerShip(dt: real, sqrt: real -> real)
      requires ship.Valid() && IsSqrt(sqrt)
      modifies ship
      ensures ship.Valid() && ship.State() == Steer(old(ship.State()), dt, keys, sqrt)
    {
      ship.ApplyForce(Ships.KeyForce(keys));
      var v := Ships.Accelerated(ship.State(), dt, keys);
      var speed := sqrt(LengthSquared(v));
      ship.Update(dt, keys, speed);
    }

    /** The ship controls and the camera of `update`, as `Pilot` describes
        them. */
    method PilotPhase(dt: real, sqrt: real -> real)
      requires Valid() && IsSqrt(sqrt)
      modifies this`camera, ship
      ensures Valid() && Snapshot() == Pilot(old(Snapshot()), dt, keys, sqrt)
    {
      ghost var w := Snapshot();
      SteerShip(dt, sqrt);
      camera := Follow(camera, ship.position);
      assert SpaceObjects.States(objects) == w.objects && Particles.States(particles) == w.particles;
    }

    /** The scanning step of `update`: markers while Space is held, none
        otherwise. */
    method Scan(sqrt: real -> real)
      modifies this`indicators
      ensures indicators == if Ships.Held(keys, "Space") then Indicate(SpaceObjects.States(objects), ship.position, sqrt) else []
    {
      if Ships.Held(keys, "Space") {
        UpdateNavigation(sqrt);
      } else {
        indicators := [];
      }
    }

    /** The region streaming of `update`: the regions around the camera are
        generated and nothing else changes. */
    method StreamPhase(sqrt: real -> real, rolls: FrameRolls)
      requires Valid()
      modifies this
      ensures Valid() && keys == old(keys) && lastTime == old(lastTime) && particles == old(particles)
      ensures forall o :: o in objects ==> o in old(objects) || fresh(o)
      ensures var w := old(Snapshot());
        var g := Populate(w.regions, Window(CameraRegion(w.camera)), rolls.regions, CentreWithin(sqrt));
        Snapshot() == w.(regions := g.done, objects := w.objects + g.bodies)
    {
      ghost var w := Snapshot();
      ghost var ps := Particles.States(particles);
      assert w.particles == ps && w.objects == SpaceObjects.States(objects);
      GenerateNearbyRegions(rolls.regions, sqrt);
      assert Particles.States(particles) == ps;
    }

    /** The scanning step of `update` on the whole state: only the markers
        change. */
    method ScanPhase(sqrt: real -> real)
      requires Valid()
      modifies this`indicators
      ensures Valid()
      ensures var w := old(Snapshot());
        Snapshot() == w.(indicators := if Ships.Held(keys, "Space") then Indicate(w.objects, w.ship.position, sqrt) else [])
    {
      ghost var w := Snapshot();
      assert w.objects == SpaceObjects.States(objects) && w.ship.position == ship.position;
      Scan(sqrt);
      assert SpaceObjects.States(objects) == w.objects;
    }

    /** Region generation and scanning in `update`, as `Explore` describes
        them. */
    method ExplorePhase(sqrt: real -> real, rolls: FrameRolls)
      requires Valid()
      modifies this
      ensures Valid() && keys == old(keys) && lastTime == old(lastTime) && particles == old(particles)
      ensures forall o :: o in objects ==> o in old(objects) || fresh(o)
      ensures Snapshot() == Explore(old(Snapshot()), keys, rolls, sqrt)
    {
      StreamPhase(sqrt, rolls);
      ScanPhase(sqrt);
    }

    /** The droplet-mode collisions of `update`, as `Wreck` describes them. */
    method WreckPhase(sqrt: real -> real, trig: real -> Vector2, rolls: FrameRolls)
      requires Valid()
      modifies this`objects, this`particles, this`camera
      ensures Valid() && Born() && Snapshot() == Wreck(old(Snapshot()), rolls, sqrt, trig)
      ensures forall o :: o in objects ==> o in old(objects)
    {
      ghost var w := Snapshot();
      if ship.isDropletMode {
        CollideObjects(sqrt, trig, rolls.collisions);
      }
    }

    /** The objects' motion in `update` on the whole state: every object
        takes one step and nothing else changes. */
    method MovePhase(dt: real)
      requires Valid()
      modifies set o | o in objects
      ensures Valid() && Snapshot() == old(Snapshot()).(objects := SpaceObjects.StepAll(old(Snapshot()).objects, dt))
      ensures keys == old(keys) && lastTime == old(lastTime)
    {
      ghost var w := Snapshot();
      assert w.objects == SpaceObjects.States(objects) && w.particles == Particles.States(particles);
      UpdateObjects(dt);
      assert Particles.States(particles) == w.particles && ship.State() == w.ship;
    }

    /** The trail in `update` on the whole state: only the particle list
        changes, by the trail's particles. */
    method TrailPhase(r: TrailRoll)
      requires Valid()
      modifies this`particles
      ensures Valid() && Born()
      ensures keys == old(keys) && lastTime == old(lastTime)
      ensures Snapshot() == old(Snapshot()).(particles := old(Snapshot()).particles + Trail(old(Snapshot()).ship.position, r))
    {
      ghost var w := Snapshot();
      assert w.objects == SpaceObjects.States(objects) && w.particles == Particles.States(particles);
      EmitTrail(r);
      assert SpaceObjects.States(objects) == w.objects && ship.State() == w.ship;
    }

    /** The particle update in `update` on the whole state: the particles
        move, age and expire, and nothing else changes. */
    method ParticlePhase(dt: real)
      requires Valid()
      modifies this`particles, set p | p in particles
      ensures Valid() && Snapshot() == old(Snapshot()).(particles := Particles.Alive(Particles.StepAll(old(Snapshot()).particles, dt)))
      ensures keys == old(keys) && lastTime == old(lastTime)
    {
      ghost var w := Snapshot();
      assert w.objects == SpaceObjects.States(objects) && w.particles == Particles.States(particles);
      UpdateParticles(dt);
      assert SpaceObjects.States(objects) == w.objects && ship.State() == w.ship;
    }

    /** Object motion, the trail and the particles of `update`, as `Age`
        describes them. */
    method AgePhase(dt: real, rolls: FrameRolls)
      requires Valid()
      modifies this`particles, set o | o in objects, set p | p in particles
      ensures Valid() && Snapshot() == Age(old(Snapshot()), dt, rolls)
      ensures keys == old(keys) && lastTime == old(lastTime)
    {
      MovePhase(dt);
      TrailPhase(rolls.trail);
      ParticlePhase(dt);
    }

    /** `update(deltaTime)`: the whole frame, as `Frame` describes it on
        values; the ship's mode invariants and the distinctness of the lists
        are kept. */
    method Update(dt: real, sqrt: real -> real, trig: real -> Vector2, rolls: FrameRolls)
      requires Valid() && IsSqrt(sqrt)
      modifies this, ship, set o | o in objects, set p | p in particles
      ensures Valid() && Snapshot() == Frame(old(Snapshot()), dt, keys, rolls, sqrt, trig)
      ensures keys == old(keys) && lastTime == old(lastTime)
    {
      PilotPhase(dt, sqrt);
      ExplorePhase(sqrt, rolls);
      WreckPhase(sqrt, trig, rolls);
      AgePhase(dt, rolls);
    }

    /** `gameLoop(currentTime)` without the drawing and the next frame
        request: the time step is the elapsed time in seconds. */
    method Tick(currentTime: real, sqrt: real -> real, trig: real -> Vector2, rolls: FrameRolls) returns (dt: real)
      requires Valid() && IsSqrt(sqrt)
      modifies this, ship, set o | o in objects, set p | p in particles
      ensures dt == (currentTime - old(lastTime)) / 1000.0
      ensures Valid() && lastTime == currentTime && keys == old(keys)
      ensures Snapshot() == Frame(old(Snapshot()), dt, keys, rolls, sqrt, trig)
    {
      dt := (currentTime - lastTime) / 1000.0;
      SetClock(currentTime);
      Update(dt, sqrt, trig, rolls);
    }

    /** `this.lastTime = currentTime`. */
    method SetClock(t: real)
      modifies this`lastTime
      ensures lastTime == t && Snapshot() == old(Snapshot())
    {
      lastTime := t;
    }

    /** The `keydown` listener. */
    method KeyDown(code: string)
      modifies this`keys
      ensures keys == old(keys)[code := true]
    {
      keys := keys[code := true];
    }

    /** The `keyup` listener. */
    method KeyUp(code: string)
      modifies this`keys
      ensures keys == old(keys)[code := false]
    {
      keys := keys[code := false];
    }
  }
}
