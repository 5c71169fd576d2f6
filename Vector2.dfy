/** The floating-point 2D vector of the simulation (`Vector2`), as an exact
    real value. Every operation builds a new vector; none mutates one. */
module Vectors {
  import opened JsMath

  datatype Vector2 = Vector2(x: real, y: real)

  /** `new Vector2()`: both coordinates default to zero. */
  const Zero := Vector2(0.0, 0.0)

  /** `add`: componentwise sum. */
  function Add(a: Vector2, b: Vector2): Vector2
  {
    Vector2(a.x + b.x, a.y + b.y)
  }

  /** `multiply`: both components times the scalar. */
  function Multiply(v: Vector2, scalar: real): Vector2
  {
    Vector2(v.x * scalar, v.y * scalar)
  }

  /** `a - b`, written out where the simulation subtracts coordinates by hand. */
  function Sub(a: Vector2, b: Vector2): Vector2
  {
    Vector2(a.x - b.x, a.y - b.y)
  }

  lemma AddCommutative(a: Vector2, b: Vector2)
    ensures Add(a, b) == Add(b, a)
  {
  }

  lemma AddAssociative(a: Vector2, b: Vector2, c: Vector2)
    ensures Add(Add(a, b), c) == Add(a, Add(b, c))
  {
  }

  lemma AddZero(a: Vector2)
    ensures Add(a, Zero) == a && Add(Zero, a) == a
  {
  }

  lemma MultiplyOne(a: Vector2)
    ensures Multiply(a, 1.0) == a
  {
  }

  lemma MultiplyDistributes(a: Vector2, b: Vector2, s: real)
    ensures Multiply(Add(a, b), s) == Add(Multiply(a, s), Multiply(b, s))
  {
  }

  /** A real number times itself is never negative, and is positive unless
      the number is zero. The two factors are separate parameters (equal by
      the precondition) so that the solver multiplies two distinct terms. */
  lemma SelfProduct(p: real, q: real)
    requires p == q
    ensures p * q >= 0.0
    ensures p != 0.0 ==> p * q > 0.0
  {
    if p > 0.0 {
      assert p * q > 0.0;
    } else if p < 0.0 {
      assert p * q > 0.0;
    }
  }

  /** The sum of two such products is non-negative, and positive unless both
      numbers are zero. */
  lemma SelfProductSum(p: real, q: real, r: real, s: real)
    requires p == q && r == s
    ensures p * q + r * s >= 0.0
    ensures p != 0.0 || r != 0.0 ==> p * q + r * s > 0.0
  {
    SelfProduct(p, q);
    SelfProduct(r, s);
  }

  /** The dot product, used here only for a vector with itself. */
  function Dot(a: Vector2, b: Vector2): real
  {
    a.x * b.x + a.y * b.y
  }

  /** The dot product of a vector with itself is non-negative, and positive
      unless the vector is zero. */
  lemma SelfDot(a: Vector2, b: Vector2)
    requires a == b
    ensures Dot(a, b) >= 0.0
    ensures a != Zero ==> Dot(a, b) > 0.0
  {
    SelfProductSum(a.x, b.x, a.y, b.y);
  }

  /** The square of `length()`: `length()` is `Math.sqrt` of this value, so
      it is never negative and vanishes exactly on the zero vector. */
  function LengthSquared(v: Vector2): (r: real)
    ensures r >= 0.0
    ensures r == 0.0 <==> v == Zero
  {
    SelfDot(v, v);
    v.x * v.x + v.y * v.y
  }

  /** `len` is what `length()` returns for `v`: the non-negative square root
      of the squared length. */
  ghost predicate IsLength(len: real, v: Vector2)
  {
    0.0 <= len && len * len == LengthSquared(v)
  }

  /** Between non-negative reals, squaring is strictly increasing. */
  lemma SquareStrict(a: real, b: real)
    requires 0.0 <= a < b
    ensures a * a < b * b
  {
    var p, q, r := a * a, a * b, b * b;
    assert p <= q;
    assert q < r;
  }

  /** The length, when it exists, is unique: `length()` is a function of the
      squared length. */
  lemma LengthUnique(a: real, b: real, v: Vector2)
    requires IsLength(a, v) && IsLength(b, v)
    ensures a == b
  {
    if a < b {
      SquareStrict(a, b);
    } else if b < a {
      SquareStrict(b, a);
    }
  }

  /** Between non-negative reals, comparing squares is comparing the numbers. */
  lemma SquareOrder(a: real, b: real)
    requires a >= 0.0 && b >= 0.0
    ensures a <= b <==> a * a <= b * b
    ensures a < b <==> a * a < b * b
  {
    if a < b {
      SquareStrict(a, b);
    } else if b < a {
      SquareStrict(b, a);
    }
  }

  /** One axis of `normalize(scale)`: `Math.round(t / scale) * scale`. */
  function Snap(t: real, scale: real): real
    requires scale != 0.0
  {
    Round(t / scale) as real * scale
  }

  /** `q` is an integer. */
  predicate IsInteger(q: real)
  {
    Floor(q) as real == q
  }

  function Abs(t: real): (r: real)
    ensures r >= 0.0 && (r == t || r == -t)
  {
    if t < 0.0 then -t else t
  }

  /** Dividing `k * s` by `s` gives `k` back. */
  lemma DivideMultiple(k: real, s: real)
    requires s != 0.0
    ensures k * s / s == k
  {
  }

  /** A quotient times its divisor is the dividend. */
  lemma MultiplyQuotient(t: real, s: real)
    requires s != 0.0
    ensures t / s * s == t
  {
  }

  lemma Distribute(a: real, b: real, s: real)
    ensures b * s - a * s == (b - a) * s
  {
  }

  lemma PositiveProduct(a: real, b: real)
    requires a > 0.0 && b > 0.0
    ensures a * b > 0.0
  {
  }

  lemma NonNegativeProduct(a: real, b: real)
    requires a >= 0.0 && b >= 0.0
    ensures a * b >= 0.0
  {
    if a > 0.0 && b > 0.0 {
      PositiveProduct(a, b);
    }
  }

  /** A factor of at most one half in magnitude moves by at most half of
      `|s|` once multiplied by `s`. */
  lemma HalfScale(e: real, s: real)
    requires -0.5 <= e <= 0.5
    ensures -Abs(s) / 2.0 <= e * s <= Abs(s) / 2.0
  {
    var d := Abs(s);
    NonNegativeProduct(e + 0.5, d);
    NonNegativeProduct(0.5 - e, d);
    Distribute(-0.5, e, d);
    Distribute(e, 0.5, d);
    if s < 0.0 {
      assert e * s == -(e * d);
    }
  }

  /** Snapping lands on an integer multiple of `scale`: the quotient is the
      rounded one. */
  lemma SnapMultiple(t: real, scale: real)
    requires scale != 0.0
    ensures Snap(t, scale) / scale == Round(t / scale) as real
    ensures IsInteger(Snap(t, scale) / scale)
  {
    DivideMultiple(Round(t / scale) as real, scale);
  }

  /** Snapping a snapped coordinate again changes nothing. */
  lemma SnapIdempotent(t: real, scale: real)
    requires scale != 0.0
    ensures Snap(Snap(t, scale), scale) == Snap(t, scale)
  {
    SnapMultiple(t, scale);
    RoundInteger(Round(t / scale));
  }

  /** Snapping moves a coordinate by at most half a scale. */
  lemma SnapClose(t: real, scale: real)
    requires scale != 0.0
    ensures Abs(Snap(t, scale) - t) <= Abs(scale) / 2.0
  {
    MultiplyQuotient(t, scale);
    Distribute(t / scale, Round(t / scale) as real, scale);
    HalfScale(Round(t / scale) as real - t / scale, scale);
  }

  /** `normalize(scale)`: each coordinate rounded to the nearest multiple of
      `scale`. A zero scale divides by zero and is not modelled. */
  function Normalize(v: Vector2, scale: real): Vector2
    requires scale != 0.0
  {
    Vector2(Snap(v.x, scale), Snap(v.y, scale))
  }

  /** Every component of `normalize(scale)` is an integer multiple of `scale`
      and lies within half a scale of the original component. */
  lemma NormalizeSnaps(v: Vector2, scale: real)
    requires scale != 0.0
    ensures IsInteger(Normalize(v, scale).x / scale)
    ensures IsInteger(Normalize(v, scale).y / scale)
    ensures Abs(Normalize(v, scale).x - v.x) <= Abs(scale) / 2.0
    ensures Abs(Normalize(v, scale).y - v.y) <= Abs(scale) / 2.0
  {
    SnapMultiple(v.x, scale);
    SnapMultiple(v.y, scale);
    SnapClose(v.x, scale);
    SnapClose(v.y, scale);
  }

  /** Normalizing twice with the same scale is the same as normalizing once. */
  lemma NormalizeIdempotent(v: Vector2, scale: real)
    requires scale != 0.0
    ensures Normalize(Normalize(v, scale), scale) == Normalize(v, scale)
  {
    SnapIdempotent(v.x, scale);
    SnapIdempotent(v.y, scale);
  }

  /** `getRegionKey(regionSize)`: the floor of each coordinate divided by the
      region size, as a pair of integers rather than the `"x,y"` string. */
  function RegionKey(v: Vector2, regionSize: real): (int, int)
    requires regionSize != 0.0
  {
    (Floor(v.x / regionSize), Floor(v.y / regionSize))
  }

  /** With a positive size, a coordinate falls in band `k` exactly when it lies
      in `[k * size, (k + 1) * size)`. */
  lemma {:induction false} BandOf(t: real, size: real, k: int)
    requires size > 0.0
    ensures Floor(t / size) == k <==> k as real * size <= t < (k + 1) as real * size
  {
    FloorUnique(t / size, k);
    QuotientOrder(k as real, t, size);
    QuotientOrder((k + 1) as real, t, size);
  }

  /** Comparing a quotient by a positive divisor is comparing after multiplying. */
  lemma QuotientOrder(a: real, t: real, s: real)
    requires s > 0.0
    ensures a <= t / s <==> a * s <= t
    ensures t / s < a <==> t < a * s
  {
    MultiplyQuotient(t, s);
    ScaleOrder(a, t / s, s);
    ScaleOrder(t / s, a, s);
  }

  /** Multiplying by a positive number keeps the order of two reals, both ways. */
  lemma ScaleOrder(a: real, b: real, s: real)
    requires s > 0.0
    ensures a <= b <==> a * s <= b * s
    ensures a < b <==> a * s < b * s
  {
    Distribute(a, b, s);
    if a < b {
      PositiveProduct(b - a, s);
    } else if b < a {
      PositiveProduct(a - b, s);
      Distribute(b, a, s);
    }
  }

  /** `getRegionKey(s)` with `s > 0` puts `v` in region `(kx, ky)` exactly when
      `kx * s <= v.x < (kx + 1) * s` and likewise for `y`. */
  lemma RegionKeyBands(v: Vector2, size: real, kx: int, ky: int)
    requires size > 0.0
    ensures RegionKey(v, size) == (kx, ky) <==>
              kx as real * size <= v.x < (kx + 1) as real * size &&
              ky as real * size <= v.y < (ky + 1) as real * size
  {
    BandOf(v.x, size, kx);
    BandOf(v.y, size, ky);
  }
}
