/** The few pieces of JavaScript's `Math` and of its numeric loops that the
    simulation relies on, stated over exact reals. */
module JsMath {

  /** A value returned by `Math.random()`: a real in [0, 1). Every random draw
      of the simulation is an input of this type. */
  type Roll = r: real | 0.0 <= r < 1.0

  /** `Math.min` on two numbers. */
  function Min(a: real, b: real): (m: real)
    ensures m <= a && m <= b
    ensures m == a || m == b
  {
    if a <= b then a else b
  }

  /** `Math.floor`: the largest integer not above `t`. */
  function Floor(t: real): (k: int)
    ensures k as real <= t < k as real + 1.0
  {
    t.Floor
  }

  /** `Math.floor(t)` is the one integer `k` with `k <= t < k + 1`. */
  lemma FloorUnique(t: real, k: int)
    ensures Floor(t) == k <==> k as real <= t < k as real + 1.0
  {
  }

  /** `Math.floor` is monotone. */
  lemma FloorMonotone(a: real, b: real)
    requires a <= b
    ensures Floor(a) <= Floor(b)
  {
  }

  /** `Math.round`: the integer nearest to `t`, a half rounded toward +infinity. */
  function Round(t: real): (k: int)
    ensures t - 0.5 < k as real <= t + 0.5
  {
    Floor(t + 0.5)
  }

  /** Rounding an integer gives it back. */
  lemma RoundInteger(k: int)
    ensures Round(k as real) == k
  {
  }

  /** The number of passes of `for (let i = 0; i < bound; i++)`: it is the least
      natural number not below `bound`, that is the ceiling of a positive bound. */
  function Iterations(bound: real): (n: nat)
    ensures bound <= n as real
    ensures n == 0 || (n - 1) as real < bound
  {
    if bound <= 0.0 then 0 else -Floor(-bound)
  }

  /** The number of passes of `for (let d = -r; d <= r; d++)`, counted by the
      offset `i = d + r`: the naturals `i` with `i <= span` where `span = 2r`. */
  function Samples(span: real): (n: nat)
    ensures n == 0 <==> span < 0.0
    ensures n > 0 ==> (n - 1) as real <= span < n as real
  {
    if span < 0.0 then 0 else Floor(span) + 1
  }
}
