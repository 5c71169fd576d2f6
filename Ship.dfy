/** The player's ship (`Ship`): thrust from the arrow/WASD keys, a speed cap,
    damping, and the "droplet mode" that Shift switches on for half a second
    and that raises the speed cap. */
module Ships {
  import opened JsMath
  import opened Vectors

  /** The `keys` table: key code to pressed state. A code that was never
      pressed is missing, which reads as `undefined`, that is false. */
  type Keys = map<string, bool>

  predicate Held(keys: Keys, code: string)
  {
    code in keys && keys[code]
  }

  const NormalSpeed := 500.0
  const DropletSpeed := 2000.0
  const DropletDuration := 0.5
  const Thrust := 300.0
  const Damping := 0.99
  const ShipSize := 100.0

  /** Everything `Ship` stores, as a value. */
  datatype ShipState = ShipState(
    position: Vector2,
    velocity: Vector2,
    acceleration: Vector2,
    size: real,
    maxSpeed: real,
    isDropletMode: bool,
    dropletTimer: real)

  /** What `new Ship(x, y)` stores. */
  function Spawned(x: real, y: real): ShipState
  {
    ShipState(Vector2(x, y), Zero, Zero, ShipSize, NormalSpeed, false, 0.0)
  }

  /** The speed cap is the one of the current mode. */
  predicate SpeedMatchesMode(s: ShipState)
  {
    s.maxSpeed == if s.isDropletMode then DropletSpeed else NormalSpeed
  }

  /** Droplet mode is on exactly while the timer is running. */
  predicate TimerMatchesMode(s: ShipState)
  {
    s.isDropletMode <==> s.dropletTimer > 0.0
  }

  predicate ShiftHeld(keys: Keys)
  {
    Held(keys, "ShiftLeft") || Held(keys, "ShiftRight")
  }

  /** The force the four thrust keys ask for; the same code appears in
      `Ship.update` and in `Game.update`. Screen `y` grows downward, so
      "up" is a negative `y`. */
  function KeyForce(keys: Keys): Vector2
  {
    var up := if Held(keys, "ArrowUp") || Held(keys, "KeyW") then -Thrust else 0.0;
    var down := if Held(keys, "ArrowDown") || Held(keys, "KeyS") then Thrust else 0.0;
    var left := if Held(keys, "ArrowLeft") || Held(keys, "KeyA") then -Thrust else 0.0;
    var right := if Held(keys, "ArrowRight") || Held(keys, "KeyD") then Thrust else 0.0;
    Vector2(left + right, up + down)
  }

  /** Each component of the key force is -300, 0 or 300: it is 0 when both
      or neither of two opposite keys are held, and otherwise points toward
      the held one. */
  lemma KeyForceComponents(keys: Keys)
    ensures var f := KeyForce(keys);
      var up := Held(keys, "ArrowUp") || Held(keys, "KeyW");
      var down := Held(keys, "ArrowDown") || Held(keys, "KeyS");
      var left := Held(keys, "ArrowLeft") || Held(keys, "KeyA");
      var right := Held(keys, "ArrowRight") || Held(keys, "KeyD");
      (f.y == 0.0 <==> up == down) && (f.y == -300.0 <==> up && !down) && (f.y == 300.0 <==> down && !up) &&
      (f.x == 0.0 <==> left == right) && (f.x == -300.0 <==> left && !right) && (f.x == 300.0 <==> right && !left)
  {
  }

  /** The droplet part of `update`: Shift restarts the timer at 0.5 s with the
      raised cap, then a running timer counts down and, once it is used up,
      drops the ship back to the normal cap. */
  function DropletStep(s: ShipState, dt: real, keys: Keys): ShipState
  {
    var armed := if ShiftHeld(keys) then s.(isDropletMode := true, dropletTimer := DropletDuration, maxSpeed := DropletSpeed) else s;
    if armed.dropletTimer > 0.0 then
      var t := armed.dropletTimer - dt;
      if t <= 0.0 then armed.(dropletTimer := t, isDropletMode := false, maxSpeed := NormalSpeed)
      else armed.(dropletTimer := t)
    else armed
  }

  /** The velocity after the acceleration step, before the cap: the
      acceleration used already holds the key force of this update. */
  function Accelerated(s: ShipState, dt: real, keys: Keys): Vector2
  {
    Add(s.velocity, Multiply(Add(s.acceleration, KeyForce(keys)), dt))
  }

  /** The speed cap. `speed` is `velocity.length()`, which is an input of the
      model and not computed (there is no square root here). */
  function Capped(v: Vector2, maxSpeed: real, speed: real): Vector2
    requires maxSpeed >= 0.0
  {
    if speed > maxSpeed then Multiply(v, maxSpeed / speed) else v
  }

  lemma CappedFast(v: Vector2, maxSpeed: real, speed: real)
    requires maxSpeed >= 0.0 && speed > maxSpeed
    ensures speed > 0.0
    ensures Capped(v, maxSpeed, speed) == Multiply(v, maxSpeed / speed)
  {
  }

  /** `update(deltaTime, keys)` as a function of the old state. */
  function Step(s: ShipState, dt: real, keys: Keys, speed: real): ShipState
    requires SpeedMatchesMode(s)
  {
    var d := DropletStep(s, dt, keys);
    var v := Multiply(Capped(Accelerated(s, dt, keys), d.maxSpeed, speed), Damping);
    d.(velocity := v, position := Add(s.position, Multiply(v, dt)), acceleration := Zero)
  }

  /** A new ship satisfies both mode invariants. */
  lemma SpawnedValid(x: real, y: real)
    ensures SpeedMatchesMode(Spawned(x, y)) && TimerMatchesMode(Spawned(x, y))
    ensures !Spawned(x, y).isDropletMode
  {
  }

  /** Every `update` keeps the speed cap equal to the one of the mode. */
  lemma StepKeepsSpeedMatchesMode(s: ShipState, dt: real, keys: Keys, speed: real)
    requires SpeedMatchesMode(s)
    ensures SpeedMatchesMode(Step(s, dt, keys, speed))
  {
  }

  /** Every `update` keeps droplet mode on exactly while the timer runs. This
      holds for any time step, negative ones included. */
  lemma StepKeepsTimerMatchesMode(s: ShipState, dt: real, keys: Keys, speed: real)
    requires SpeedMatchesMode(s) && TimerMatchesMode(s)
    ensures TimerMatchesMode(Step(s, dt, keys, speed))
  {
  }

  /** With Shift held and a step shorter than half a second, the ship ends
      the update in droplet mode with `0.5 - dt` seconds left and the raised
      cap. */
  lemma ShiftArmsDroplet(s: ShipState, dt: real, keys: Keys, speed: real)
    requires SpeedMatchesMode(s) && ShiftHeld(keys) && 0.0 <= dt < DropletDuration
    ensures Step(s, dt, keys, speed).isDropletMode
    ensures Step(s, dt, keys, speed).dropletTimer == DropletDuration - dt
    ensures Step(s, dt, keys, speed).maxSpeed == DropletSpeed
  {
  }

  /** Without Shift, a running timer that the step uses up switches droplet
      mode off and restores the normal cap. */
  lemma DropletExpires(s: ShipState, dt: real, keys: Keys, speed: real)
    requires SpeedMatchesMode(s) && !ShiftHeld(keys) && 0.0 < s.dropletTimer <= dt
    ensures !Step(s, dt, keys, speed).isDropletMode
    ensures Step(s, dt, keys, speed).maxSpeed == NormalSpeed
  {
  }

  /** Every update leaves the acceleration at zero. */
  lemma StepResetsAcceleration(s: ShipState, dt: real, keys: Keys, speed: real)
    requires SpeedMatchesMode(s)
    ensures Step(s, dt, keys, speed).acceleration == Zero
  {
  }

  /** Scaling a vector by `k` scales its squared length by `k * k`. */
  lemma LengthSquaredMultiply(v: Vector2, k: real)
    ensures LengthSquared(Multiply(v, k)) == k * k * LengthSquared(v)
  {
    var a, b := v.x * k, v.y * k;
    assert a * a == k * k * (v.x * v.x);
    assert b * b == k * k * (v.y * v.y);
  }

  /** After the cap, a velocity that was too fast has exactly the cap as its
      length: the factor `maxSpeed / speed` cancels the old length. */
  lemma CapExact(v: Vector2, maxSpeed: real, speed: real)
    requires maxSpeed >= 0.0 && IsLength(speed, v) && speed > maxSpeed
    ensures LengthSquared(Capped(v, maxSpeed, speed)) == maxSpeed * maxSpeed
  {
    var k := maxSpeed / speed;
    LengthSquaredMultiply(v, k);
    assert k * speed == maxSpeed;
    assert k * k * (speed * speed) == (k * speed) * (k * speed);
  }

  /** The velocity an update leaves is 0.99 times the capped one: so its
      length is exactly `0.99 * maxSpeed` if the cap cut in, and `0.99` times
      the accelerated speed otherwise; either way at most `0.99 * maxSpeed`. */
  lemma StepSpeedBound(s: ShipState, dt: real, keys: Keys, speed: real)
    requires SpeedMatchesMode(s) && IsLength(speed, Accelerated(s, dt, keys))
    ensures var r := Step(s, dt, keys, speed);
      var m := r.maxSpeed;
      (speed > m ==> LengthSquared(r.velocity) == (Damping * m) * (Damping * m)) &&
      (speed <= m ==> LengthSquared(r.velocity) == (Damping * speed) * (Damping * speed)) &&
      LengthSquared(r.velocity) <= (Damping * m) * (Damping * m)
  {
    var m := DropletStep(s, dt, keys).maxSpeed;
    var v := Accelerated(s, dt, keys);
    var c := Capped(v, m, speed);
    LengthSquaredMultiply(c, Damping);
    if speed > m {
      CapExact(v, m, speed);
      assert Damping * Damping * (m * m) == (Damping * m) * (Damping * m);
    } else {
      assert Damping * Damping * (speed * speed) == (Damping * speed) * (Damping * speed);
      SquareStrictOrEqual(Damping * speed, Damping * m);
    }
  }

  lemma SquareStrictOrEqual(a: real, b: real)
    requires 0.0 <= a <= b
    ensures a * a <= b * b
  {
    if a < b {
      SquareStrict(a, b);
    }
  }

  class Ship {
    var position: Vector2
    var velocity: Vector2
    var acceleration: Vector2
    var size: real
    var maxSpeed: real
    var isDropletMode: bool
    var dropletTimer: real

    function State(): ShipState
      reads this
    {
      ShipState(position, velocity, acceleration, size, maxSpeed, isDropletMode, dropletTimer)
    }

    /** Both mode invariants: they hold for a new ship and `Update` keeps them. */
    predicate Valid()
      reads this
    {
      SpeedMatchesMode(State()) && TimerMatchesMode(State())
    }

    /** `new Ship(x, y)`. */
    constructor (x: real, y: real)
      ensures State() == Spawned(x, y) && Valid()
    {
      position := Vector2(x, y);
      velocity := Zero;
      acceleration := Zero;
      size := ShipSize;
      maxSpeed := NormalSpeed;
      isDropletMode := false;
      dropletTimer := 0.0;
    }

    /** `applyForce(force)`: only the acceleration changes, by `force`. */
    method ApplyForce(force: Vector2)
      modifies this
      ensures State() == old(State()).(acceleration := Add(old(acceleration), force))
    {
      acceleration := Add(acceleration, force);
    }

    /** The integration half of `update`, once the key force is in the
        acceleration: velocity step, speed cap, damping, position step and
        acceleration reset. */
    method Integrate(dt: real, speed: real)
      requires maxSpeed >= 0.0
      modifies this
      ensures size == old(size) && maxSpeed == old(maxSpeed)
      ensures isDropletMode == old(isDropletMode) && dropletTimer == old(dropletTimer)
      ensures velocity == Multiply(Capped(Add(old(velocity), Multiply(old(acceleration), dt)), maxSpeed, speed), Damping)
      ensures position == Add(old(position), Multiply(velocity, dt))
      ensures acceleration == Zero
    {
      velocity := Add(velocity, Multiply(acceleration, dt));
      ghost var a := velocity;
      if speed > maxSpeed {
        CappedFast(a, maxSpeed, speed);
        velocity := Multiply(velocity, maxSpeed / speed);
      }
      assert velocity == Capped(a, maxSpeed, speed);
      velocity := Multiply(velocity, Damping);
      position := Add(position, Multiply(velocity, dt));
      acceleration := Zero;
    }

    /** The droplet half of `update`: Shift arms the timer, a running timer
        counts down and switches the mode off when it is used up. */
    method TickDroplet(dt: real, keys: Keys)
      modifies this
      ensures State() == DropletStep(old(State()), dt, keys)
    {
      if Held(keys, "ShiftLeft") || Held(keys, "ShiftRight") {
        isDropletMode := true;
        dropletTimer := DropletDuration;
        maxSpeed := DropletSpeed;
      }
      if dropletTimer > 0.0 {
        dropletTimer := dropletTimer - dt;
        if dropletTimer <= 0.0 {
          isDropletMode := false;
          maxSpeed := NormalSpeed;
        }
      }
    }

    /** `update(deltaTime, keys)`; `speed` is what `velocity.length()` returns
        after the acceleration step. */
    method Update(dt: real, keys: Keys, speed: real)
      requires Valid() && IsLength(speed, Accelerated(State(), dt, keys))
      modifies this
      ensures State() == Step(old(State()), dt, keys, speed)
      ensures Valid()
    {
      ghost var s := State();
      StepKeepsSpeedMatchesMode(s, dt, keys, speed);
      StepKeepsTimerMatchesMode(s, dt, keys, speed);
      TickDroplet(dt, keys);
      ghost var d := State();
      assert d == DropletStep(s, dt, keys) && d.maxSpeed >= 0.0;
      ApplyForce(KeyForce(keys));
      assert acceleration == Add(s.acceleration, KeyForce(keys));
      Integrate(dt, speed);
      assert velocity == Multiply(Capped(Accelerated(s, dt, keys), d.maxSpeed, speed), Damping);
    }
  }
}
