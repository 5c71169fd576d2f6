/** A short-lived visual particle (`Particle`): it drifts with a constant
    velocity and its remaining life counts down with the elapsed time. */
module Particles {
  import opened Vectors

  /** Everything `Particle` stores, as a value. */
  datatype ParticleState = ParticleState(
    position: Vector2,
    velocity: Vector2,
    life: real,
    maxLife: real,
    color: string)

  /** What `new Particle(x, y, vx, vy, life, color)` stores: `maxLife` is the
      initial `life`. */
  function Spawned(x: real, y: real, vx: real, vy: real, life: real, color: string): (s: ParticleState)
    ensures s.life == s.maxLife == life
  {
    ParticleState(Vector2(x, y), Vector2(vx, vy), life, life, color)
  }

  /** `update(deltaTime)`: one linear move and one life countdown. */
  function Step(s: ParticleState, dt: real): ParticleState
  {
    s.(position := Add(s.position, Multiply(s.velocity, dt)), life := s.life - dt)
  }

  /** A run of `update` calls with the given time steps, in order. */
  function Run(s: ParticleState, dts: seq<real>): ParticleState
    decreases |dts|
  {
    if |dts| == 0 then s else Run(Step(s, dts[0]), dts[1..])
  }

  function Sum(dts: seq<real>): real
    decreases |dts|
  {
    if |dts| == 0 then 0.0 else dts[0] + Sum(dts[1..])
  }

  predicate NonNegative(dts: seq<real>)
  {
    forall i :: 0 <= i < |dts| ==> dts[i] >= 0.0
  }

  lemma {:induction false} SumNonNegative(dts: seq<real>)
    requires NonNegative(dts)
    ensures Sum(dts) >= 0.0
    decreases |dts|
  {
    if |dts| > 0 {
      assert NonNegative(dts[1..]) by {
        forall i | 0 <= i < |dts[1..]|
          ensures dts[1..][i] >= 0.0
        {
          assert dts[1..][i] == dts[i + 1];
        }
      }
      SumNonNegative(dts[1..]);
    }
  }

  /** One `update` moves the position by velocity times `dt`, subtracts
      exactly `dt` from `life`, and leaves velocity, `maxLife` and color as
      they were. */
  lemma StepEffect(s: ParticleState, dt: real)
    ensures Step(s, dt).position == Vector2(s.position.x + s.velocity.x * dt, s.position.y + s.velocity.y * dt)
    ensures Step(s, dt).life == s.life - dt
    ensures Step(s, dt).velocity == s.velocity
    ensures Step(s, dt).maxLife == s.maxLife && Step(s, dt).color == s.color
  {
  }

  /** Over any run, `life` drops by exactly the total elapsed time while
      `maxLife`, velocity and color never change. */
  lemma {:induction false} RunEffect(s: ParticleState, dts: seq<real>)
    ensures Run(s, dts).life == s.life - Sum(dts)
    ensures Run(s, dts).maxLife == s.maxLife
    ensures Run(s, dts).velocity == s.velocity && Run(s, dts).color == s.color
    decreases |dts|
  {
    if |dts| > 0 {
      RunEffect(Step(s, dts[0]), dts[1..]);
    }
  }

  /** A particle spawned with life `L` has no life left once the elapsed
      time adds up to `L` or more (whatever the sign of the single steps). */
  lemma ExpiresAfterLifetime(x: real, y: real, vx: real, vy: real, life: real, color: string, dts: seq<real>)
    requires Sum(dts) >= life
    ensures Run(Spawned(x, y, vx, vy, life, color), dts).life <= 0.0
  {
    RunEffect(Spawned(x, y, vx, vy, life, color), dts);
  }

  /** `life / maxLife`, the opacity `draw` uses. */
  function FadeRatio(s: ParticleState): real
    requires s.maxLife != 0.0
  {
    s.life / s.maxLife
  }

  /** After any run of non-negative steps from a freshly spawned particle with
      positive life, the fade ratio is at most 1, and it is positive while
      life remains. */
  lemma FadeRatioBounds(x: real, y: real, vx: real, vy: real, life: real, color: string, dts: seq<real>)
    requires life > 0.0 && NonNegative(dts)
    ensures Run(Spawned(x, y, vx, vy, life, color), dts).maxLife == life
    ensures FadeRatio(Run(Spawned(x, y, vx, vy, life, color), dts)) <= 1.0
    ensures Run(Spawned(x, y, vx, vy, life, color), dts).life > 0.0 ==>
              FadeRatio(Run(Spawned(x, y, vx, vy, life, color), dts)) > 0.0
  {
    var s := Spawned(x, y, vx, vy, life, color);
    RunEffect(s, dts);
    SumNonNegative(dts);
    var r := Run(s, dts);
    RatioBounds(r.life, life);
  }

  lemma RatioBounds(a: real, m: real)
    requires m > 0.0 && a <= m
    ensures a / m <= 1.0
    ensures a > 0.0 ==> a / m > 0.0
  {
    var q := a / m;
    assert q * m == a;
    if q > 1.0 {
      assert (q - 1.0) * m > 0.0;
    }
  }

  class Particle {
    var position: Vector2
    var velocity: Vector2
    var life: real
    var maxLife: real
    var color: string

    function State(): ParticleState
      reads this
    {
      ParticleState(position, velocity, life, maxLife, color)
    }

    constructor (x: real, y: real, vx: real, vy: real, life: real, color: string)
      ensures State() == Spawned(x, y, vx, vy, life, color)
    {
      position := Vector2(x, y);
      velocity := Vector2(vx, vy);
      this.life := life;
      maxLife := life;
      this.color := color;
    }

    /** `update(deltaTime)`. */
    method Update(dt: real)
      modifies this
      ensures State() == Step(old(State()), dt)
    {
      position := Add(position, Multiply(velocity, dt));
      life := life - dt;
    }
  }

  /** The values of a list of particle objects, in order. */
  function States(ps: seq<Particle>): (r: seq<ParticleState>)
    reads set p | p in ps
    ensures |r| == |ps|
    ensures forall k :: 0 <= k < |ps| ==> r[k] == ps[k].State()
    decreases |ps|
  {
    if |ps| == 0 then [] else States(ps[..|ps| - 1]) + [ps[|ps| - 1].State()]
  }

  /** A list of particle objects whose values are, one by one, `states`. */
  lemma StatesMatch(ps: seq<Particle>, states: seq<ParticleState>)
    requires |ps| == |states| && forall m :: 0 <= m < |ps| ==> ps[m].State() == states[m]
    ensures States(ps) == states
  {
  }

  /** Every particle stepped once, on values. */
  function StepAll(ps: seq<ParticleState>, dt: real): seq<ParticleState>
  {
    seq(|ps|, k requires 0 <= k < |ps| => Step(ps[k], dt))
  }

  /** `filter(p => p.life > 0)` on values. */
  function Alive(ps: seq<ParticleState>): (r: seq<ParticleState>)
    ensures |r| <= |ps|
    ensures forall k :: 0 <= k < |r| ==> r[k].life > 0.0
    decreases |ps|
  {
    if |ps| == 0 then []
    else Alive(ps[..|ps| - 1]) + (if ps[|ps| - 1].life > 0.0 then [ps[|ps| - 1]] else [])
  }

  /** The particles `Alive` keeps are exactly those with life left. */
  lemma {:induction false} AliveKeepsExactlyLiving(ps: seq<ParticleState>, p: ParticleState)
    ensures p in Alive(ps) <==> p in ps && p.life > 0.0
    decreases |ps|
  {
    if |ps| > 0 {
      AliveKeepsExactlyLiving(ps[..|ps| - 1], p);
      assert ps == ps[..|ps| - 1] + [ps[|ps| - 1]];
    }
  }

  predicate Distinct(ps: seq<Particle>)
  {
    forall a, b :: 0 <= a < b < |ps| ==> ps[a] != ps[b]
  }
}
