/** A drifting body of the world (`SpaceObject`): an asteroid or a starship
    that moves with constant velocity. */
module SpaceObjects {
  import opened Vectors

  /** Everything `SpaceObject` stores, as a value; `kind` is the `type`
      string (`"asteroid"`, `"starship"`, ...). */
  datatype ObjectState = ObjectState(
    position: Vector2,
    velocity: Vector2,
    size: real,
    color: string,
    kind: string)

  /** `update(deltaTime)`: one linear move. */
  function Step(s: ObjectState, dt: real): ObjectState
  {
    s.(position := Add(s.position, Multiply(s.velocity, dt)))
  }

  /** One `update` moves the position by velocity times `dt` and changes
      nothing else. */
  lemma StepEffect(s: ObjectState, dt: real)
    ensures Step(s, dt).position == Vector2(s.position.x + s.velocity.x * dt, s.position.y + s.velocity.y * dt)
    ensures Step(s, dt).velocity == s.velocity && Step(s, dt).size == s.size
    ensures Step(s, dt).color == s.color && Step(s, dt).kind == s.kind
  {
  }

  /** `update(0)` changes nothing. */
  lemma StepZero(s: ObjectState)
    ensures Step(s, 0.0) == s
  {
  }

  /** In exact arithmetic, `update(a)` then `update(b)` is `update(a + b)`. */
  lemma StepAdditive(s: ObjectState, a: real, b: real)
    ensures Step(Step(s, a), b) == Step(s, a + b)
  {
    var v := s.velocity;
    assert v.x * a + v.x * b == v.x * (a + b);
    assert v.y * a + v.y * b == v.y * (a + b);
  }

  class SpaceObject {
    var position: Vector2
    var velocity: Vector2
    var size: real
    var color: string
    var kind: string

    function State(): ObjectState
      reads this
    {
      ObjectState(position, velocity, size, color, kind)
    }

    /** `new SpaceObject(x, y, vx, vy, size, color, type)`. */
    constructor (x: real, y: real, vx: real, vy: real, size: real, color: string, kind: string)
      ensures State() == ObjectState(Vector2(x, y), Vector2(vx, vy), size, color, kind)
    {
      position := Vector2(x, y);
      velocity := Vector2(vx, vy);
      this.size := size;
      this.color := color;
      this.kind := kind;
    }

    /** `update(deltaTime)`. */
    method Update(dt: real)
      modifies this
      ensures State() == Step(old(State()), dt)
    {
      position := Add(position, Multiply(velocity, dt));
    }
  }

  /** The values of a list of object references, in order. */
  function States(os: seq<SpaceObject>): (r: seq<ObjectState>)
    reads set o | o in os
    ensures |r| == |os|
    ensures forall k :: 0 <= k < |os| ==> r[k] == os[k].State()
    decreases |os|
  {
    if |os| == 0 then [] else States(os[..|os| - 1]) + [os[|os| - 1].State()]
  }

  /** A list of object references whose values are, one by one, `states`. */
  lemma StatesMatch(os: seq<SpaceObject>, states: seq<ObjectState>)
    requires |os| == |states| && forall m :: 0 <= m < |os| ==> os[m].State() == states[m]
    ensures States(os) == states
  {
  }

  /** `objects.forEach(obj => obj.update(deltaTime))` on values. */
  function StepAll(os: seq<ObjectState>, dt: real): seq<ObjectState>
  {
    seq(|os|, k requires 0 <= k < |os| => Step(os[k], dt))
  }

  predicate Distinct(os: seq<SpaceObject>)
  {
    forall a, b :: 0 <= a < b < |os| ==> os[a] != os[b]
  }
}
