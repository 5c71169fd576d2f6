/** The exact integer vector of the simulation (`BigVector2`, two BigInt
    coordinates). Every operation builds a new vector. */
module BigVectors {
  import opened JsMath
  import Vectors

  datatype BigVector2 = BigVector2(x: int, y: int)

  /** `new BigVector2()`: both coordinates default to `0n`. */
  const Zero := BigVector2(0, 0)

  /** `new BigVector2(x, y)` with two numbers: each is passed through
      `Math.round` before it becomes a BigInt. (A BigInt argument is stored as
      it is, which is the datatype constructor itself.) */
  function FromNumbers(x: real, y: real): (b: BigVector2)
    ensures x - 0.5 < b.x as real <= x + 0.5
    ensures y - 0.5 < b.y as real <= y + 0.5
  {
    BigVector2(Round(x), Round(y))
  }

  /** Rounding sends a half upward: `k + 0.5` rounds to `k + 1` and `k - 0.5`
      rounds to `k`, for every integer `k` (negative ones included). */
  lemma {:induction false} RoundHalfUp(k: int)
    ensures Round(k as real + 0.5) == k + 1
    ensures Round(k as real - 0.5) == k
  {
    FloorUnique(k as real + 1.0, k + 1);
    FloorUnique(k as real, k);
  }

  /** A number argument that is already an integer is stored unchanged. */
  lemma FromIntegerNumbers(kx: int, ky: int)
    ensures FromNumbers(kx as real, ky as real) == BigVector2(kx, ky)
  {
    RoundInteger(kx);
    RoundInteger(ky);
  }

  /** `add`: exact componentwise sum. */
  function Add(a: BigVector2, b: BigVector2): BigVector2
  {
    BigVector2(a.x + b.x, a.y + b.y)
  }

  lemma AddCommutative(a: BigVector2, b: BigVector2)
    ensures Add(a, b) == Add(b, a)
  {
  }

  lemma AddAssociative(a: BigVector2, b: BigVector2, c: BigVector2)
    ensures Add(Add(a, b), c) == Add(a, Add(b, c))
  {
  }

  lemma AddZero(a: BigVector2)
    ensures Add(a, Zero) == a && Add(Zero, a) == a
  {
  }

  /** `multiply` with a BigInt scalar: exact componentwise product. */
  function Multiply(v: BigVector2, s: int): BigVector2
  {
    BigVector2(v.x * s, v.y * s)
  }

  /** `multiply` with a number scalar: the scalar is first rounded with
      `Math.round`, so the product stays an integer vector. */
  function MultiplyNumber(v: BigVector2, scalar: real): (r: BigVector2)
    ensures forall k: int :: k as real - 0.5 <= scalar < k as real + 0.5 ==> r == Multiply(v, k)
  {
    var n := Round(scalar);
    assert forall k: int :: k as real - 0.5 <= scalar < k as real + 0.5 ==> Multiply(v, k) == Multiply(v, n) by {
      forall k: int | k as real - 0.5 <= scalar < k as real + 0.5
        ensures Multiply(v, k) == Multiply(v, n)
      {
        FloorUnique(scalar + 0.5, k);
      }
    }
    Multiply(v, n)
  }

  /** A number scalar in `[k - 0.5, k + 0.5)` multiplies like the BigInt `k`. */
  lemma MultiplyNumberNear(v: BigVector2, scalar: real, k: int)
    requires k as real - 0.5 <= scalar < k as real + 0.5
    ensures MultiplyNumber(v, scalar) == Multiply(v, k)
  {
    FloorUnique(scalar + 0.5, k);
  }

  lemma MultiplyOne(v: BigVector2)
    ensures Multiply(v, 1) == v && MultiplyNumber(v, 1.0) == v
  {
    RoundInteger(1);
  }

  lemma MultiplyDistributes(a: BigVector2, b: BigVector2, s: int)
    ensures Multiply(Add(a, b), s) == Add(Multiply(a, s), Multiply(b, s))
  {
  }

  /** `toVector2`: each BigInt coordinate converted with `Number(...)`. */
  function ToVector2(b: BigVector2): Vectors.Vector2
  {
    Vectors.Vector2(b.x as real, b.y as real)
  }

  /** `BigVector2.fromVector2`: each coordinate rounded with `Math.round`. */
  function FromVector2(v: Vectors.Vector2): (b: BigVector2)
    ensures b == FromNumbers(v.x, v.y)
  {
    BigVector2(Round(v.x), Round(v.y))
  }

  /** Converting to a `Vector2` and back returns the same integer vector. */
  lemma FromToVector2(b: BigVector2)
    ensures FromVector2(ToVector2(b)) == b
  {
    RoundInteger(b.x);
    RoundInteger(b.y);
  }

  /** The square of `length()`, computed on the coordinates converted to
      numbers; it is never negative and is zero only for the zero vector. */
  function LengthSquared(b: BigVector2): (r: real)
    ensures r >= 0.0
    ensures r == 0.0 <==> b == Zero
  {
    var v := ToVector2(b);
    assert v == Vectors.Zero <==> b == Zero by {
      if v == Vectors.Zero {
        assert b.x == 0 && b.y == 0;
      }
    }
    Vectors.LengthSquared(v)
  }

  function Abs(n: int): (r: nat)
    ensures r == n || r == -n
  {
    if n < 0 then -n else n
  }

  /** BigInt `/`: division that truncates toward zero (Dafny's own `/` on
      `int` is Euclidean). */
  function TruncDiv(a: int, b: int): int
    requires b != 0
  {
    var q := Abs(a) / Abs(b);
    if (a < 0) == (b < 0) then q else -q
  }

  /** Truncating division leaves a remainder `a - q * b` smaller than the
      divisor in magnitude and never of the sign opposite to the dividend:
      the quotient is rounded toward zero. */
  lemma TruncDivRemainder(a: int, b: int)
    requires b != 0
    ensures Abs(a - TruncDiv(a, b) * b) < Abs(b)
    ensures a >= 0 ==> a - TruncDiv(a, b) * b >= 0
    ensures a <= 0 ==> a - TruncDiv(a, b) * b <= 0
  {
    var q, r := Abs(a) / Abs(b), Abs(a) % Abs(b);
    assert Abs(a) == q * Abs(b) + r && 0 <= r < Abs(b);
    if (a < 0) == (b < 0) {
      assert TruncDiv(a, b) * b == q * b;
      if a < 0 {
        assert a - q * b == -r;
      } else {
        assert a - q * b == r;
      }
    } else {
      assert TruncDiv(a, b) * b == -(q * b);
      if a < 0 {
        assert a + q * b == -r;
      } else {
        assert a + q * b == r;
      }
    }
  }

  /** For a non-negative dividend and a positive divisor, truncating and
      flooring division agree. */
  lemma TruncDivNonNegative(a: int, b: int)
    requires a >= 0 && b > 0
    ensures TruncDiv(a, b) == a / b
    ensures TruncDiv(a, b) == Floor(a as real / b as real)
  {
    FloorDivision(a, b);
  }

  /** On integers, flooring the real quotient is Euclidean division by a
      positive divisor. */
  lemma FloorDivision(a: int, b: int)
    requires b > 0
    ensures Floor(a as real / b as real) == a / b
  {
    var q, r := a / b, a % b;
    assert a == q * b + r && 0 <= r < b;
    var t := a as real / b as real;
    assert t * b as real == a as real;
    assert (q * b) as real == q as real * b as real;
    Vectors.QuotientOrder(q as real, a as real, b as real);
    Vectors.QuotientOrder((q + 1) as real, a as real, b as real);
    assert ((q + 1) * b) as real == (q + 1) as real * b as real;
    FloorUnique(t, q);
  }

  /** The outcome of `getRegionKey`: a key, or the `RangeError` a zero BigInt
      divisor throws. */
  datatype KeyResult = Key(kx: int, ky: int) | DivisionByZero

  /** `getRegionKey(regionSize)`: each coordinate divided by the region size
      with truncating BigInt division (default size `10000n`). */
  function RegionKey(b: BigVector2, regionSize: int): (r: KeyResult)
    ensures r == DivisionByZero <==> regionSize == 0
  {
    if regionSize == 0 then DivisionByZero
    else Key(TruncDiv(b.x, regionSize), TruncDiv(b.y, regionSize))
  }

  const DefaultRegionSize := 10000

  /** For coordinates that are not negative, the BigInt region key is the
      same as the floating-point one computed from the converted vector. */
  lemma RegionKeyAgreesNonNegative(b: BigVector2, size: int)
    requires b.x >= 0 && b.y >= 0 && size > 0
    ensures RegionKey(b, size) == Key(Floor(b.x as real / size as real), Floor(b.y as real / size as real))
    ensures RegionKey(b, size) == Key(Vectors.RegionKey(ToVector2(b), size as real).0,
                                      Vectors.RegionKey(ToVector2(b), size as real).1)
  {
    TruncDivNonNegative(b.x, size);
    TruncDivNonNegative(b.y, size);
  }

  /** For negative coordinates the two keys differ: `(-1, -1)` lies in BigInt
      region `(0, 0)` but in floating-point region `(-1, -1)`. */
  lemma RegionKeyTruncatesNegative()
    ensures RegionKey(BigVector2(-1, -1), DefaultRegionSize) == Key(0, 0)
    ensures Vectors.RegionKey(ToVector2(BigVector2(-1, -1)), DefaultRegionSize as real) == (-1, -1)
  {
    FloorUnique(-1.0 / 10000.0, -1);
  }
}
