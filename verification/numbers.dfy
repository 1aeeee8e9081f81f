/** Exact arithmetic standing in for the JavaScript number operations the
    amortization engine uses: `Math.max(0, x)`, `Math.round(x * 100) / 100`
    and the power operator `**`. Numbers are modelled as exact reals. */
module Numbers {

  /** `Math.max(0, x)`. */
  function Max0(x: real): (r: real)
    ensures r >= 0.0 && r >= x
    ensures r == x || r == 0.0
  {
    if x > 0.0 then x else 0.0
  }

  /** A whole number of cents. */
  predicate IsCents(x: real) {
    (x * 100.0).Floor as real == x * 100.0
  }

  /** `Math.round(x * 100) / 100`: `Math.round` rounds half-way cases towards
      positive infinity, which is `Floor(y + 1/2)`. The result is the whole
      number of cents nearest to `x`, ties going up. */
  function Round2(x: real): (r: real)
    ensures IsCents(r)
    ensures r - 0.005 <= x < r + 0.005
  {
    var k := (x * 100.0 + 0.5).Floor;
    assert (k as real * 100.0 / 100.0).Floor == k;
    k as real / 100.0
  }

  /** The nearest-cent characterisation of `Round2` determines it: any whole
      number of cents within half a cent (ties up) of `x` is `Round2(x)`. */
  lemma Round2Unique(x: real, c: real)
    requires IsCents(c)
    requires c - 0.005 <= x < c + 0.005
    ensures Round2(x) == c
  {
    var r := Round2(x);
    var a := (c * 100.0).Floor;
    var b := (r * 100.0).Floor;
    assert a as real == c * 100.0;
    assert b as real == r * 100.0;
    assert (a - b) as real < 1.0 && (b - a) as real < 1.0;
  }

  /** A whole number of hundredths is a whole number of cents, and
      rounding leaves it alone. */
  lemma Round2OfHundredths(k: int)
    ensures IsCents(k as real / 100.0) && Round2(k as real / 100.0) == k as real / 100.0
  {
    var c := k as real / 100.0;
    assert c * 100.0 == k as real;
    Round2OfCents(c);
  }

  /** Rounding a whole number of cents changes nothing. */
  lemma Round2OfCents(c: real)
    requires IsCents(c)
    ensures Round2(c) == c
  {
    Round2Unique(c, c);
  }

  /** Rounding to cents preserves order. */
  lemma Round2Monotonic(x: real, y: real)
    requires x <= y
    ensures Round2(x) <= Round2(y)
  {
    var a, b := (x * 100.0 + 0.5).Floor, (y * 100.0 + 0.5).Floor;
    assert a as real <= x * 100.0 + 0.5 <= y * 100.0 + 0.5 < (b + 1) as real;
    assert a <= b;
    assert Round2(x) == a as real / 100.0 && Round2(y) == b as real / 100.0;
  }

  /** Rounding a non-negative amount never yields a negative amount. */
  lemma Round2NonNegative(x: real)
    requires x >= 0.0
    ensures Round2(x) >= 0.0
  {
    var r := Round2(x);
    var a := (r * 100.0).Floor;
    assert a as real == r * 100.0;
    assert a > -1;
  }

  /** `x ** n` for a natural exponent. */
  function Pow(x: real, n: nat): (r: real)
    ensures x > 0.0 ==> r > 0.0
  {
    if n == 0 then 1.0 else x * Pow(x, n - 1)
  }

  /** A base of at least one keeps every power at least one. */
  lemma {:induction false} PowAtLeastOne(x: real, n: nat)
    requires x >= 1.0
    ensures Pow(x, n) >= 1.0
  {
    if n > 0 {
      PowAtLeastOne(x, n - 1);
      assert x * Pow(x, n - 1) >= 1.0 * Pow(x, n - 1);
    }
  }

  /** A base above one raised to a positive power stays above one; this is
      what keeps the payment formula's denominator away from zero. */
  lemma {:induction false} PowAboveOne(x: real, n: nat)
    requires x > 1.0 && n >= 1
    ensures Pow(x, n) > 1.0
  {
    PowAtLeastOne(x, n - 1);
    assert x * Pow(x, n - 1) > 1.0 * Pow(x, n - 1);
  }
}
