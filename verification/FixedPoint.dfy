/** The fixed-point arithmetic of the resampler: 32-bit words, 16-bit samples, rounding shifts. */
module FixedPoint {
  const NP: nat := 15
  const NPC: nat := 256
  const NLPSCL: nat := 13

  /** One sample period and one filter period, in fixed point: `1 << NP`. */
  const ONE: nat := 0x8000
  const A_ONE: nat := 128
  const WORDS: int := 0x1_0000_0000
  const HALF_WORDS: int := 0x8000_0000

  type Hword = x: int | -0x8000 <= x < 0x8000

  type Word = x: int | -0x8000_0000 <= x < 0x8000_0000

  /** Signed 32-bit arithmetic wraps around. */
  function Wrap(x: int): Word {
    (x + HALF_WORDS) % WORDS - HALF_WORDS
  }

  lemma WrapIsIdentity(x: int)
    requires -HALF_WORDS <= x < HALF_WORDS
    ensures Wrap(x) == x
  {
  }

  lemma WrapOfWrap(x: int, y: int)
    ensures Wrap(Wrap(x) + y) == Wrap(x + y)
  {
    var k := (x + HALF_WORDS) / WORDS;
    assert Wrap(x) == x - k * WORDS;
    ModShift(x + y + HALF_WORDS, k);
  }

  lemma ModShift(n: int, k: int)
    ensures (n - k * WORDS) % WORDS == n % WORDS
  {
    var q := n / WORDS;
    assert n - k * WORDS == (q - k) * WORDS + n % WORDS;
  }

  function Power(n: nat): (r: nat)
    ensures r > 0
  {
    if n == 0 then 1 else 2 * Power(n - 1)
  }

  /** A right shift of a signed number rounds down. */
  function Shift(t: int, n: nat): int {
    t / Power(n)
  }

  // ----- Rounding

  /** The filter loops round by testing the highest bit that the shift drops. */
  predicate RoundingBit(t: int) {
    t / 0x2000 % 2 == 1
  }

  function BitRounded(t: int): int {
    (if RoundingBit(t) then t + 0x2000 else t) / 0x4000
  }

  /** That is rounding to nearest, ties upwards, for every sign. */
  lemma BitRoundedIsNearest(t: int)
    ensures BitRounded(t) == (t + 0x2000) / 0x4000
  {
    var q, r := t / 0x4000, t % 0x4000;
    assert t == q * 0x4000 + r;
    assert t / 0x2000 == 2 * q + r / 0x2000;
  }

  /** A product of a coefficient and a sample, rounded, is at most twice the coefficient. */
  lemma RoundedProductBound(c: int, x: Hword)
    ensures -2 * Abs(c) <= BitRounded(c * x) <= 2 * Abs(c)
    ensures -0x8000 * Abs(c) <= c * x <= 0x8000 * Abs(c)
  {
    BitRoundedIsNearest(c * x);
    ProductBound(c, x);
  }

  lemma ProductBound(c: int, x: Hword)
    ensures -0x8000 * Abs(c) <= c * x <= 0x8000 * Abs(c)
  {
    if c >= 0 {
      assert c * x <= c * 0x8000 && c * x >= c * -0x8000;
    } else {
      assert c * x <= -c * 0x8000 && c * x >= -c * -0x8000;
    }
  }

  function Abs(c: int): (r: nat)
    ensures r == c || r == -c
  {
    if c >= 0 then c else -c
  }

  // ----- From words to samples

  function Clamp(v: int): Hword {
    if v > 0x7fff then 0x7fff else if v < -0x8000 then -0x8000 else v
  }

  /** Half of the unit that the shift by `scl` drops. */
  function HalfUnit(scl: nat): nat {
    if scl == 0 then 0 else Power(scl - 1)
  }

  function WordToHword(v: Word, scl: nat): Hword
    requires scl > 0
  {
    Clamp(Shift(Wrap(v + HalfUnit(scl)), scl))
  }

  /** Rounding to nearest with saturation. */
  function Saturated(v: int, scl: nat): Hword
    requires scl > 0
  {
    Clamp((v + HalfUnit(scl)) / Power(scl))
  }

  /** No other sample is nearer to the exact quotient. */
  lemma SaturatedIsNearest(v: int, scl: nat, y: Hword)
    requires 0 < scl <= 16
    ensures Abs(Saturated(v, scl) * Power(scl) - v) <= Abs(y * Power(scl) - v)
  {
    hide Power, HalfUnit, Clamp, Abs;
    PowerBound(scl);
    ClampedNearest(v, HalfUnit(scl), y);
  }

  lemma ClampedNearest(v: int, half: nat, y: Hword)
    requires half > 0
    ensures Abs(Clamp((v + half) / (2 * half)) * (2 * half) - v) <= Abs(y * (2 * half) - v)
  {
    var p, w := 2 * half, (v + half) / (2 * half);
    assert v + half == w * p + (v + half) % p;
    if y > Clamp(w) {
      ProductAtLeast(y - Clamp(w), 1, p);
      if w < Clamp(w) {
        ProductAtLeast(Clamp(w) - w, 1, p);
      }
    } else if y < Clamp(w) {
      ProductAtLeast(Clamp(w) - y, 1, p);
      if w > Clamp(w) {
        ProductAtLeast(w - Clamp(w), 1, p);
      }
    }
    Differences(y, Clamp(w), w, p);
  }

  lemma ProductAtLeast(a: int, b: int, p: nat)
    requires a >= b
    ensures a * p >= b * p
  {
  }

  lemma Differences(a: int, b: int, c: int, p: int)
    ensures (a - b) * p == a * p - b * p && (b - a) * p == b * p - a * p
    ensures (b - c) * p == b * p - c * p && (c - b) * p == c * p - b * p
  {
  }

  /** The conversion rounds and saturates exactly when adding half a unit does not wrap. */
  lemma WordToHwordSaturates(v: Word, scl: nat)
    requires 0 < scl <= 16
    ensures v + HalfUnit(scl) < HALF_WORDS ==> WordToHword(v, scl) == Saturated(v, scl)
    ensures v + HalfUnit(scl) >= HALF_WORDS ==> WordToHword(v, scl) < 0 < Saturated(v, scl)
  {
    PowerBound(scl);
    var h, p := HalfUnit(scl), Power(scl);
    if v + h < HALF_WORDS {
      WrapIsIdentity(v + h);
    } else {
      assert Wrap(v + h) == v + h - WORDS;
      DividedSign(v + h - WORDS, p);
      DividedSign(v + h, p);
    }
  }

  lemma PowerBound(scl: nat)
    requires 0 < scl <= 16
    ensures 0 < HalfUnit(scl) <= 0x8000 && Power(scl) == 2 * HalfUnit(scl)
  {
    if scl > 1 {
      PowerBound(scl - 1);
      BoundStep(scl);
    }
  }

  lemma {:induction false} BoundStep(scl: nat)
    requires 1 < scl <= 16
    ensures Power(scl - 1) <= 0x8000
    decreases scl
  {
    PowerMonotone(scl - 1, 15);
    PowerOf15();
  }

  lemma PowerMonotone(a: nat, b: nat)
    requires a <= b
    ensures Power(a) <= Power(b)
    decreases b - a
  {
    if a < b {
      PowerMonotone(a, b - 1);
    }
  }

  lemma PowerOf15()
    ensures Power(13) == 0x2000 && Power(14) == 0x4000 && Power(15) == 0x8000
  {
    assert Power(5) == 32;
    assert Power(10) == 32 * Power(5);
    assert Power(13) == 8 * Power(10);
  }

  lemma DividedSign(n: int, p: nat)
    requires p > 0
    ensures n < 0 ==> n / p < 0
    ensures n >= p ==> n / p > 0
  {
  }
}
