/** Sampling rate conversion: the time steps, the read window, and the three conversion loops. */
module Resampler {
  import opened FixedPoint
  import opened PolyphaseFilter
  import opened Convolution

  // ----- Steps and counts

  /** The step through the input, rounded to fixed point. */
  function TimeStep(pFactor: real): (r: nat)
    requires pFactor > 0.0
    ensures r as real <= ONE as real / pFactor + 0.5 < r as real + 1.0
  {
    (ONE as real / pFactor + 0.5).Floor
  }

  function MinReal(a: real, b: real): real {
    if a < b then a else b
  }

  /** The step through the impulse response, rounded to fixed point. */
  function FilterStep(pFactor: real): (r: nat)
    requires pFactor > 0.0
    ensures r as real <= MinReal(ONE as real, pFactor * ONE as real) + 0.5 < r as real + 1.0
  {
    (MinReal(NPC as real, pFactor * NPC as real) * A_ONE as real + 0.5).Floor
  }

  function OutputCount(nx: nat, pFactor: real): (r: nat)
    requires pFactor > 0.0
    ensures r as real <= nx as real * pFactor + 0.5 < r as real + 1.0
  {
    ScaledNotNegative(nx, pFactor);
    (nx as real * pFactor + 0.5).Floor
  }

  lemma ScaledNotNegative(nx: nat, pFactor: real)
    requires pFactor > 0.0
    ensures nx as real * pFactor >= 0.0
  {
  }

  /** Raising the rate uses the whole impulse response. */
  lemma FilterStepUp(pFactor: real)
    requires pFactor >= 1.0
    ensures FilterStep(pFactor) == ONE
  {
    assert pFactor * ONE as real >= ONE as real;
  }

  /** The block is short enough for the rounding of the time step not to matter. */
  ghost predicate StepsHold(pFactor: real, nx: nat) {
    pFactor > 0.0 && nx < 0x1_0000 && nx as real * pFactor * pFactor <= ONE as real
  }

  /** No output sample is taken at or beyond the end of the input, so that the 32-bit time does not
      wrap either. */
  lemma TimeStaysInside(pFactor: real, nx: nat, n: nat)
    requires StepsHold(pFactor, nx) && n < OutputCount(nx, pFactor)
    ensures n * TimeStep(pFactor) < nx * ONE < HALF_WORDS
    ensures n * TimeStep(pFactor) / ONE < nx
  {
    hide Times;
    var x, dt := nx as real, TimeStep(pFactor) as real;
    CountBound(nx, pFactor, n);
    TimesMonotone(n as real, Times(x, pFactor) - 0.5, dt, ONE as real / pFactor + 0.5);
    StepsProduct(x, pFactor);
    TimesAsReal(n, TimeStep(pFactor), nx);
  }

  lemma CountBound(nx: nat, pFactor: real, n: nat)
    requires pFactor > 0.0 && n < OutputCount(nx, pFactor)
    ensures n as real <= Times(nx as real, pFactor) - 0.5
  {
  }

  lemma TimesAsReal(a: nat, b: nat, c: nat)
    requires Times(a as real, b as real) < c as real * ONE as real
    ensures a * b < c * ONE
  {
    assert (a * b) as real == a as real * b as real && (c * ONE) as real == c as real * ONE as real;
  }

  lemma StepsProduct(x: real, p: real)
    requires p > 0.0 && x * p * p <= ONE as real
    ensures Times(Times(x, p) - 0.5, ONE as real / p + 0.5) < x * ONE as real
  {
    var a, b := x * p, ONE as real / p;
    assert (a - 0.5) * (b + 0.5) == a * b + 0.5 * a - 0.5 * b - 0.25;
    Cancel(x, p, ONE as real);
    HalfBound(x, p);
  }

  /** Multiplication as a named function. */
  function Times(a: real, b: real): real {
    a * b
  }

  lemma TimesMonotone(a: real, b: real, c: real, d: real)
    requires 0.0 <= a <= b && 0.0 <= c <= d
    ensures Times(a, c) <= Times(b, d)
  {
    ProductMonotone(a, b, c, d);
  }

  lemma ProductMonotone(a: real, b: real, c: real, d: real)
    requires 0.0 <= a <= b && 0.0 <= c <= d
    ensures a * c <= b * d
  {
    assert a * c <= b * c && b * c <= b * d;
  }

  lemma Cancel(x: real, p: real, c: real)
    requires p > 0.0
    ensures x * p * (c / p) == x * c
  {
    assert p * (c / p) == c;
    assert x * p * (c / p) == x * (p * (c / p));
  }

  lemma HalfBound(x: real, p: real)
    requires p > 0.0 && x * p * p <= ONE as real
    ensures x * p <= ONE as real / p
  {
    assert (x * p) * p / p == x * p;
  }

  // ----- The read window

  /** The wings of the library's filters span 6 and 32 filter periods. */
  const LARGE_PERIODS: nat := 32

  /** The margin the library asks for on either side of the input, for a filter whose wing spans the
      given number of filter periods (its multiplier is one more than twice that). */
  function XOff(periods: nat, pFactor: real): (r: nat)
    requires pFactor > 0.0
    ensures r as real <= (periods + 1) as real * MaxReal(1.0, 1.0 / pFactor) < r as real + 1.0
  {
    MarginNotNegative(periods, pFactor);
    ((periods + 1) as real * MaxReal(1.0, 1.0 / pFactor)).Floor
  }

  function MaxReal(a: real, b: real): real {
    if a > b then a else b
  }

  lemma MarginNotNegative(periods: nat, pFactor: real)
    requires pFactor > 0.0
    ensures (periods + 1) as real * MaxReal(1.0, 1.0 / pFactor) >= 0.0
  {
  }

  predicate Spans(f: Filter, periods: nat) {
    ValidFilter(f) && |f.imp| <= periods * NPC && 0 < periods <= LARGE_PERIODS
  }

  /** Raising the rate, a wing has at most one tap for each period. */
  lemma UpTaps(periods: nat, pFactor: real, j: nat)
    requires pFactor >= 1.0 && j * ONE < periods * ONE
    ensures j + 1 <= XOff(periods, pFactor)
  {
    assert (periods + 1) as real * 1.0 <= (periods + 1) as real * MaxReal(1.0, 1.0 / pFactor);
  }

  /** Lowering it down to a sixteenth, the rounding of the filter step does not lead beyond the
      margin either. */
  lemma DownTaps(periods: nat, pFactor: real, j: nat)
    requires 0.0625 <= pFactor < 1.0 && 0 < periods <= LARGE_PERIODS
    requires j * FilterStep(pFactor) < periods * ONE
    ensures j + 1 <= XOff(periods, pFactor)
  {
    hide FilterStep, XOff, MaxReal;
    var n, m := (j + 1) as real, (periods + 1) as real;
    if j > periods {
      StepAtLeast(pFactor, j, periods);
      ManyTaps(pFactor, m, j as real, n);
    } else {
      ProductMonotone(n, m, pFactor, 1.0);
    }
    Divided(n, pFactor, m);
    BelowXOff(periods, pFactor, j + 1);
  }

  /** With more taps than periods, the rounding error over all of them stays below the distance that
      the margin leaves. */
  lemma ManyTaps(p: real, m: real, j: real, n: real)
    requires 0.0625 <= p < 1.0 && 2.0 <= m <= 33.0 && m <= j && n == j + 1.0
    requires Times(j, p) < m - 1.0 + j / 65536.0
    ensures Times(n, p) <= m
  {
    hide Times;
    TimesMonotone(m, j, p, p);
    TimesMonotone(j, j, 0.0625, p);
    TimesMonotone(m, m, 0.99, if p > 0.99 then p else 0.99);
    TimesConstants(j, m);
    FewTaps(p, m, j, Times(j, p), Times(m, p));
    TimesNext(j, p);
  }

  lemma TimesConstants(j: real, m: real)
    ensures Times(j, 0.0625) == j * 0.0625 && Times(m, 0.99) == m * 0.99
  {
  }

  lemma TimesNext(j: real, p: real)
    ensures Times(j + 1.0, p) == Times(j, p) + p
  {
  }

  lemma FewTaps(p: real, m: real, j: real, jp: real, mp: real)
    requires p < 1.0 && 2.0 <= m <= 33.0
    requires mp <= jp && j * 0.0625 <= jp && jp < m - 1.0 + j / 65536.0 && (p > 0.99 ==> m * 0.99 <= mp)
    ensures jp + p <= m
  {
  }

  lemma BelowXOff(periods: nat, pFactor: real, n: nat)
    requires pFactor > 0.0 && n as real <= (periods + 1) as real * MaxReal(1.0, 1.0 / pFactor)
    ensures n <= XOff(periods, pFactor)
  {
    hide MaxReal;
  }

  lemma StepAtLeast(p: real, j: nat, periods: nat)
    requires 0.0 < p < 1.0 && 0 < j && j * FilterStep(p) < periods * ONE
    ensures j as real * p < (periods + 1) as real - 1.0 + j as real / 65536.0
  {
    var h, jr := FilterStep(p) as real, j as real;
    assert h > p * 32768.0 - 0.5 by { FilterStepAtLeast(p); }
    Scaled(jr, p * 32768.0 - 0.5, h);
    Distribute(jr, p);
    ProductAsReal(j, FilterStep(p), periods);
  }

  lemma FilterStepAtLeast(p: real)
    requires 0.0 < p < 1.0
    ensures FilterStep(p) as real > p * 32768.0 - 0.5
  {
  }

  lemma Distribute(j: real, p: real)
    ensures j * (p * 32768.0 - 0.5) == j * p * 32768.0 - j * 0.5
  {
  }

  lemma ProductAsReal(a: nat, b: nat, periods: nat)
    requires a * b < periods * ONE
    ensures a as real * b as real < periods as real * 32768.0
  {
    assert (a * b) as real == a as real * b as real;
    assert (periods * ONE) as real == periods as real * 32768.0;
  }

  lemma Scaled(a: real, b: real, c: real)
    requires a >= 0.0 && b <= c
    ensures a * b <= a * c
  {
  }

  lemma Divided(a: real, p: real, b: real)
    requires 0.0 < p < 1.0 && 0.0 <= a && a * p <= b
    ensures a <= b * MaxReal(1.0, 1.0 / p)
  {
    assert a * p / p == a;
    assert b * (1.0 / p) == b / p;
    QuotientMonotone(a * p, b, p);
    ReciprocalAbove(p);
  }

  lemma QuotientMonotone(a: real, b: real, p: real)
    requires p > 0.0 && a <= b
    ensures a / p <= b / p
  {
  }

  lemma ReciprocalAbove(p: real)
    requires 0.0 < p < 1.0
    ensures 1.0 / p > 1.0
  {
    assert 1.0 / p * p == 1.0;
  }

  // ----- Output samples

  /** The converted sample at a time, in 32-bit arithmetic. */
  function Sample(f: Filter, interp: bool, lpScl: nat, x: Signal, time: nat, dhb: nat): Hword
    requires ValidFilter(f) && dhb > 0
  {
    var v := Wrap(FilterSum(f, interp, x, time / ONE, time % ONE, false, dhb)
                  + FilterSum(f, interp, x, time / ONE + 1, Complement(time % ONE), true, dhb));
    WordToHword(Wrap(v / 4 * lpScl), NLPSCL)
  }

  /** The same with the fast loop. */
  function FastSample(f: Filter, interp: bool, lpScl: nat, x: Signal, time: nat): Hword
    requires ValidFilter(f)
  {
    var v := Wrap(FastSum(f, interp, x, time / ONE, time % ONE, false)
                  + FastSum(f, interp, x, time / ONE + 1, Complement(time % ONE), true));
    WordToHword(Wrap(v / 4 * lpScl), NLPSCL)
  }

  /** It depends only on the exact sums of the two wings. */
  lemma SampleIsConvolved(f: Filter, interp: bool, lpScl: nat, x: Signal, time: nat, dhb: nat)
    requires ValidFilter(f) && dhb > 0
    ensures Sample(f, interp, lpScl, x, time, dhb)
            == WordToHword(Wrap(Wrap(Left(f, interp, x, time, dhb) + Right(f, interp, x, time, dhb)) / 4 * lpScl), NLPSCL)
  {
    hide WingTotal, Wing, Wrap, WordToHword;
    var at, ph := time / ONE, time % ONE;
    WingIsTotal(f, interp, x, at, -1, Start(ph, dhb, false), dhb, End(f, false), 0);
    WingIsTotal(f, interp, x, at + 1, 1, Start(Complement(ph), dhb, true), dhb, End(f, true), 0);
    var l, r := Left(f, interp, x, time, dhb), Right(f, interp, x, time, dhb);
    WrapOfWrap(l, Wrap(r));
    WrapOfWrap(r, l);
  }

  /** What both wings can add up to. */
  function Gain(f: Filter, interp: bool, time: nat, dhb: nat): nat
    requires ValidFilter(f) && dhb > 0
  {
    WingGain(f, interp, Start(time % ONE, dhb, false), dhb, End(f, false))
    + WingGain(f, interp, Start(Complement(time % ONE), dhb, true), dhb, End(f, true))
  }

  function MaxNat(a: nat, b: nat): nat {
    if a > b then a else b
  }

  /** If the gain leaves room, no operation overflows for any samples, and the output is the scaled
      convolution, rounded to nearest and saturated. */
  lemma SampleDoesNotOverflow(f: Filter, interp: bool, lpScl: nat, x: Signal, time: nat, dhb: nat)
    requires ValidFilter(f) && dhb > 0
    requires (Gain(f, interp, time, dhb) + 1) * MaxNat(lpScl, 4) <= WORDS - 0x4000
    ensures var ph := time % ONE;
            && WingFits(f, interp, x, time / ONE, -1, Start(ph, dhb, false), dhb, End(f, false), 0)
            && WingFits(f, interp, x, time / ONE + 1, 1, Start(Complement(ph), dhb, true), dhb, End(f, true), 0)
    ensures var v := Left(f, interp, x, time, dhb) + Right(f, interp, x, time, dhb);
            && FitsWord(v) && FitsWord(v / 4 * lpScl) && FitsWord(v / 4 * lpScl + HalfUnit(NLPSCL))
            && Sample(f, interp, lpScl, x, time, dhb) == Saturated(v / 4 * lpScl, NLPSCL)
  {
    hide WingTotal, WingGain, WingFits, Wrap, WordToHword, Saturated;
    var at, ph := time / ONE, time % ONE;
    GainBound(Gain(f, interp, time, dhb), lpScl);
    WingDoesNotOverflow(f, interp, x, at, -1, Start(ph, dhb, false), dhb, End(f, false), 0);
    WingDoesNotOverflow(f, interp, x, at + 1, 1, Start(Complement(ph), dhb, true), dhb, End(f, true), 0);
    var v := Left(f, interp, x, time, dhb) + Right(f, interp, x, time, dhb);
    ScaledFits(v, Gain(f, interp, time, dhb), lpScl);
    SampleIsConvolved(f, interp, lpScl, x, time, dhb);
    WrapIsIdentity(v);
    WrapIsIdentity(v / 4 * lpScl);
    WordToHwordSaturates(v / 4 * lpScl, NLPSCL);
  }

  lemma GainBound(gain: nat, lpScl: nat)
    requires (gain + 1) * MaxNat(lpScl, 4) <= WORDS - 0x4000
    ensures 2 * gain < HALF_WORDS && (gain + 1) * lpScl <= WORDS - 0x4000
  {
    assert (gain + 1) * 4 <= (gain + 1) * MaxNat(lpScl, 4);
    assert (gain + 1) * lpScl <= (gain + 1) * MaxNat(lpScl, 4);
  }

  lemma ScaledFits(v: int, gain: nat, lpScl: nat)
    requires Abs(v) <= 2 * gain && 2 * gain < HALF_WORDS && (gain + 1) * lpScl <= WORDS - 0x4000
    ensures FitsWord(v) && FitsWord(v / 4 * lpScl) && FitsWord(v / 4 * lpScl + HalfUnit(NLPSCL))
    ensures HalfUnit(NLPSCL) == 0x1000
  {
    assert HalfUnit(NLPSCL) == 0x1000 by { PowerOf12(); }
    var w := v / 4;
    assert -(gain + 1) <= 2 * w <= gain + 1;
    ScaledBound(2 * w, gain + 1, lpScl);
    assert 2 * w * lpScl == 2 * (w * lpScl);
  }

  lemma ScaledBound(a: int, b: int, c: nat)
    requires -b <= a <= b
    ensures -(b * c) <= a * c <= b * c
  {
  }

  lemma PowerOf12()
    ensures Power(12) == 0x1000
  {
    PowerOf15();
  }

  // ----- The conversion loops

  /** The output for a block of input. */
  function Converted(f: Filter, interp: bool, lpScl: nat, x: Signal, dtb: nat, dhb: nat, count: nat): (r: seq<Hword>)
    requires ValidFilter(f) && dhb > 0
    ensures |r| == count
  {
    seq(count, n requires 0 <= n < count => Sample(f, interp, lpScl, x, n * dtb, dhb))
  }

  /** The output of the fast conversion. */
  function FastConverted(f: Filter, interp: bool, lpScl: nat, x: Signal, dtb: nat, count: nat): (r: seq<Hword>)
    requires ValidFilter(f)
    ensures |r| == count
  {
    seq(count, n requires 0 <= n < count => FastSample(f, interp, lpScl, x, n * dtb))
  }

  /** For raising the rate, the fast conversion and the general one give the same output, whatever the
      tables and the samples. */
  lemma FastConversionIsGeneral(
    f: Filter, interp: bool, lpScl: nat, x: Signal, pFactor: real, count: nat)
    requires ValidFilter(f) && pFactor >= 1.0
    ensures FilterStep(pFactor) > 0
    ensures FastConverted(f, interp, lpScl, x, TimeStep(pFactor), count)
            == Converted(f, interp, lpScl, x, TimeStep(pFactor), FilterStep(pFactor), count)
  {
    hide FastSum, FilterSum, FilterStep, TimeStep, Wrap, WordToHword;
    FilterStepUp(pFactor);
    forall n | 0 <= n < count
      ensures FastSample(f, interp, lpScl, x, n * TimeStep(pFactor))
              == Sample(f, interp, lpScl, x, n * TimeStep(pFactor), ONE)
    {
      var time := n * TimeStep(pFactor);
      FastSumIsFilterSum(f, interp, x, time / ONE, time % ONE, false);
      FastSumIsFilterSum(f, interp, x, time / ONE + 1, Complement(time % ONE), true);
    }
  }

  /** Input with the margin before and after it, and room for the output. */
  predicate BuffersFit(
    xs: array<Hword>, offset: nat, ys: array<Hword>, pFactor: real, nx: nat, periods: nat)
    requires pFactor > 0.0
  {
    && xs != ys && OutputCount(nx, pFactor) <= ys.Length
    && XOff(periods, pFactor) <= offset && offset + nx + XOff(periods, pFactor) <= xs.Length
  }

  /** A wing that starts within the input stays within the margins. */
  lemma ReadsInside(
    f: Filter, periods: nat, pFactor: real, at: int, right: bool, ph: nat, nx: nat, offset: nat, length: nat)
    requires Spans(f, periods) && pFactor >= 0.0625 && ph < ONE
    requires if right then 1 <= at <= nx else 0 <= at < nx
    requires XOff(periods, pFactor) <= offset && offset + nx + XOff(periods, pFactor) <= length
    ensures FilterStep(pFactor) > 0
    ensures WingInside(f, at, right, Start(ph, FilterStep(pFactor), right), FilterStep(pFactor), offset, length)
  {
    hide FilterStep, XOff;
    FilterStepRange(pFactor);
    var dhb := FilterStep(pFactor);
    var start := Start(ph, dhb, right);
    forall j: nat | Tap(start, dhb, j) / A_ONE < End(f, right)
      ensures 0 <= offset + at + Direction(right) * j < length
    {
      TapBound(f, periods, right, start, dhb, j);
      if pFactor >= 1.0 {
        FilterStepUp(pFactor);
        UpTaps(periods, pFactor, j);
      } else {
        DownTaps(periods, pFactor, j);
      }
    }
  }

  lemma FilterStepRange(pFactor: real)
    requires pFactor >= 0.0625
    ensures 0 < FilterStep(pFactor) <= ONE
  {
  }

  lemma TapBound(f: Filter, periods: nat, right: bool, start: nat, step: nat, j: nat)
    requires Spans(f, periods) && Tap(start, step, j) / A_ONE < End(f, right)
    ensures j * step < periods * ONE
  {
    assert Tap(start, step, j) < |f.imp| * A_ONE;
    assert |f.imp| * A_ONE <= periods * NPC * A_ONE;
  }

  /** One output sample by the fast loop. */
  method UpSample(xs: array<Hword>, offset: nat, f: Filter, interp: bool, lpScl: nat, time: nat) returns (y: Hword)
    requires ValidFilter(f)
    requires WingInside(f, time / ONE, false, Start(time % ONE, ONE, false), ONE, offset, xs.Length)
    requires WingInside(f, time / ONE + 1, true, Start(Complement(time % ONE), ONE, true), ONE, offset, xs.Length)
    ensures y == FastSample(f, interp, lpScl, SignalOf(xs[..], offset), time)
  {
    hide Wing, WordToHword, Wrap, WingInside, Start, SignalOf, FastSum;
    var xp := time / ONE;
    var v := FilterUp(f, interp, xs, offset, xp, time % ONE, false);
    var w := FilterUp(f, interp, xs, offset, xp + 1, Complement(time % ONE), true);
    v := Wrap(v + w);
    v := v / 4;
    v := Wrap(v * lpScl);
    y := WordToHword(v, NLPSCL);
  }

  /** One output sample by the general loop. */
  method UDSample(xs: array<Hword>, offset: nat, f: Filter, interp: bool, lpScl: nat, time: nat, dhb: nat)
    returns (y: Hword)
    requires ValidFilter(f) && 0 < dhb <= ONE
    requires WingInside(f, time / ONE, false, Start(time % ONE, dhb, false), dhb, offset, xs.Length)
    requires WingInside(f, time / ONE + 1, true, Start(Complement(time % ONE), dhb, true), dhb, offset, xs.Length)
    ensures y == Sample(f, interp, lpScl, SignalOf(xs[..], offset), time, dhb)
  {
    hide Wing, WordToHword, Wrap, WingInside, Start, SignalOf, FilterSum;
    var xp := time / ONE;
    var v := FilterUD(f, interp, xs, offset, xp, time % ONE, false, dhb);
    var w := FilterUD(f, interp, xs, offset, xp + 1, Complement(time % ONE), true, dhb);
    v := Wrap(v + w);
    v := v / 4;
    v := Wrap(v * lpScl);
    y := WordToHword(v, NLPSCL);
  }

  /** At every step of a conversion both wings read within the margins. */
  lemma StepReadsInside(
    f: Filter, periods: nat, pFactor: real, nx: nat, n: nat, offset: nat, length: nat)
    requires Spans(f, periods) && pFactor >= 0.0625 && StepsHold(pFactor, nx) && n < OutputCount(nx, pFactor)
    requires XOff(periods, pFactor) <= offset && offset + nx + XOff(periods, pFactor) <= length
    ensures var time, dhb := n * TimeStep(pFactor), FilterStep(pFactor);
            && time < HALF_WORDS && 0 < dhb <= ONE
            && WingInside(f, time / ONE, false, Start(time % ONE, dhb, false), dhb, offset, length)
            && WingInside(f, time / ONE + 1, true, Start(Complement(time % ONE), dhb, true), dhb, offset, length)
  {
    hide XOff, TimeStep, FilterStep, WingInside, Start, OutputCount, StepsHold;
    TimeStaysInside(pFactor, nx, n);
    FilterStepRange(pFactor);
    var time := n * TimeStep(pFactor);
    ReadsInside(f, periods, pFactor, time / ONE, false, time % ONE, nx, offset, length);
    ReadsInside(f, periods, pFactor, time / ONE + 1, true, Complement(time % ONE), nx, offset, length);
  }

  /** The 32-bit time after `n` steps. */
  lemma TimeAfter(pFactor: real, nx: nat, n: nat, time: nat)
    requires StepsHold(pFactor, nx) && n + 1 < OutputCount(nx, pFactor) && time == n * TimeStep(pFactor)
    ensures (time + TimeStep(pFactor)) % WORDS == (n + 1) * TimeStep(pFactor)
  {
    hide StepsHold, OutputCount, TimeStep;
    TimeStaysInside(pFactor, nx, n + 1);
    assert (n + 1) * TimeStep(pFactor) == time + TimeStep(pFactor);
  }

  lemma ConvertedIs(
    ys: seq<Hword>, f: Filter, interp: bool, lpScl: nat, x: Signal, dtb: nat, dhb: nat, count: nat)
    requires ValidFilter(f) && dhb > 0 && |ys| == count
    requires forall k :: 0 <= k < count ==> ys[k] == Sample(f, interp, lpScl, x, k * dtb, dhb)
    ensures ys == Converted(f, interp, lpScl, x, dtb, dhb, count)
  {
    hide Sample;
  }

  lemma FastConvertedIs(ys: seq<Hword>, f: Filter, interp: bool, lpScl: nat, x: Signal, dtb: nat, count: nat)
    requires ValidFilter(f) && |ys| == count
    requires forall k :: 0 <= k < count ==> ys[k] == FastSample(f, interp, lpScl, x, k * dtb)
    ensures ys == FastConverted(f, interp, lpScl, x, dtb, count)
  {
    hide FastSample;
  }

  lemma BuffersFitIs(
    xs: array<Hword>, offset: nat, ys: array<Hword>, pFactor: real, nx: nat, periods: nat, f: Filter)
    requires pFactor > 0.0 && BuffersFit(xs, offset, ys, pFactor, nx, periods) && Spans(f, periods)
    ensures xs != ys && OutputCount(nx, pFactor) <= ys.Length && ValidFilter(f)
    ensures XOff(periods, pFactor) <= offset && offset + nx + XOff(periods, pFactor) <= xs.Length
    ensures WORDS > 0 && ONE > 0
  {
    hide XOff, OutputCount;
  }

  /** Raising the rate, with the fast filter loop. */
  method SrcUp(
    xs: array<Hword>, offset: nat, ys: array<Hword>, pFactor: real, nx: nat, lpScl: nat,
    f: Filter, interp: bool, ghost periods: nat)
    returns (written: nat)
    requires pFactor >= 1.0 && StepsHold(pFactor, nx) && Spans(f, periods)
    requires BuffersFit(xs, offset, ys, pFactor, nx, periods)
    modifies ys
    ensures written == OutputCount(nx, pFactor) <= ys.Length
    ensures ys[..written] == FastConverted(f, interp, lpScl, SignalOf(xs[..], offset), TimeStep(pFactor), written)
    ensures forall k :: written <= k < ys.Length ==> ys[k] == old(ys[k])
  {
    hide *;
    ghost var x := SignalOf(xs[..], offset);
    BuffersFitIs(xs, offset, ys, pFactor, nx, periods, f);
    FilterStepUp(pFactor);
    var dtb, count := TimeStep(pFactor), OutputCount(nx, pFactor);
    var time := 0;
    written := 0;
    while written < count
      invariant written <= count && (written < count ==> time == written * dtb)
      invariant SignalOf(xs[..], offset) == x
      invariant forall k :: 0 <= k < written ==> ys[k] == FastSample(f, interp, lpScl, x, k * dtb)
      invariant forall k :: written <= k < ys.Length ==> ys[k] == old(ys[k])
    {
      StepReadsInside(f, periods, pFactor, nx, written, offset, xs.Length);
      ys[written] := UpSample(xs, offset, f, interp, lpScl, time);
      if written + 1 < count {
        TimeAfter(pFactor, nx, written, time);
      }
      time := (time + dtb) % WORDS;
      written := written + 1;
    }
    FastConvertedIs(ys[..written], f, interp, lpScl, x, dtb, written);
  }

  /** Changing the rate either way, with the general filter loop. */
  method SrcUD(
    xs: array<Hword>, offset: nat, ys: array<Hword>, pFactor: real, nx: nat, lpScl: nat,
    f: Filter, interp: bool, ghost periods: nat)
    returns (written: nat)
    requires pFactor >= 0.0625 && StepsHold(pFactor, nx) && Spans(f, periods)
    requires BuffersFit(xs, offset, ys, pFactor, nx, periods)
    modifies ys
    ensures written == OutputCount(nx, pFactor) <= ys.Length && FilterStep(pFactor) > 0
    ensures ys[..written]
            == Converted(f, interp, lpScl, SignalOf(xs[..], offset), TimeStep(pFactor), FilterStep(pFactor), written)
    ensures forall k :: written <= k < ys.Length ==> ys[k] == old(ys[k])
  {
    hide *;
    ghost var x := SignalOf(xs[..], offset);
    BuffersFitIs(xs, offset, ys, pFactor, nx, periods, f);
    FilterStepRange(pFactor);
    var dtb, dhb, count := TimeStep(pFactor), FilterStep(pFactor), OutputCount(nx, pFactor);
    var time := 0;
    written := 0;
    while written < count
      invariant written <= count && (written < count ==> time == written * dtb)
      invariant SignalOf(xs[..], offset) == x
      invariant forall k :: 0 <= k < written ==> ys[k] == Sample(f, interp, lpScl, x, k * dtb, dhb)
      invariant forall k :: written <= k < ys.Length ==> ys[k] == old(ys[k])
    {
      StepReadsInside(f, periods, pFactor, nx, written, offset, xs.Length);
      ys[written] := UDSample(xs, offset, f, interp, lpScl, time, dhb);
      if written + 1 < count {
        TimeAfter(pFactor, nx, written, time);
      }
      time := (time + dtb) % WORDS;
      written := written + 1;
    }
    ConvertedIs(ys[..written], f, interp, lpScl, x, dtb, dhb, written);
  }

  /** The gain factor: that of the filter, reduced with the rate when lowering it. */
  function GainFactor(scale: nat, pFactor: real): (r: nat)
    requires pFactor > 0.0
    ensures pFactor >= 1.0 ==> r == scale
    ensures pFactor < 1.0 ==> r as real <= scale as real * pFactor + 0.5 < r as real + 1.0 && r <= scale
  {
    if pFactor >= 1.0 then scale
    else
      ScaledNotNegative(scale, pFactor);
      assert scale as real * pFactor <= scale as real;
      (scale as real * pFactor + 0.5).Floor
  }

  // ----- Constant samples

  /** What both wings add up, and at how many taps. */
  function Weight(f: Filter, interp: bool, time: nat, dhb: nat): int
    requires ValidFilter(f) && dhb > 0
  {
    WingWeight(f, interp, Start(time % ONE, dhb, false), dhb, End(f, false))
    + WingWeight(f, interp, Start(Complement(time % ONE), dhb, true), dhb, End(f, true))
  }

  function Taps(f: Filter, time: nat, dhb: nat): nat
    requires ValidFilter(f) && dhb > 0
  {
    WingTaps(Start(time % ONE, dhb, false), dhb, End(f, false))
    + WingTaps(Start(Complement(time % ONE), dhb, true), dhb, End(f, true))
  }

  /** What samples of value `c` add up to before any rounding, in units of 2^14. */
  function Weighted(f: Filter, interp: bool, c: int, time: nat, dhb: nat): int
    requires ValidFilter(f) && dhb > 0
  {
    c * Weight(f, interp, time, dhb)
  }

  /** The exact response to samples of value `c`: the filter's gain for the rate, in units of 2^29. */
  function ExactResponse(f: Filter, interp: bool, scale: nat, pFactor: real, c: int, time: nat, dhb: nat): real
    requires ValidFilter(f) && dhb > 0
  {
    Weighted(f, interp, c, time, dhb) as real * (scale as real * MinReal(1.0, pFactor))
  }

  /** What rounding the taps, the sum, the gain factor and the result can change. */
  function RoundingBound(f: Filter, interp: bool, scale: nat, c: int, time: nat, dhb: nat): int
    requires ValidFilter(f) && dhb > 0
  {
    scale * (0x2000 * Taps(f, time, dhb) + 0x1_0000) + 0x1000_0000 + Abs(Weighted(f, interp, c, time, dhb))
  }

  /** The output is the exact response within rounding, unless it is one of the extreme samples. */
  predicate NearResponse(
    f: Filter, interp: bool, scale: nat, pFactor: real, c: int, time: nat, dhb: nat, y: Hword)
    requires ValidFilter(f) && dhb > 0
  {
    var exact, bound := ExactResponse(f, interp, scale, pFactor, c, time, dhb),
                        RoundingBound(f, interp, scale, c, time, dhb) as real;
    && ((y * 0x2000_0000) as real <= exact + bound || y == -0x8000)
    && ((y * 0x2000_0000) as real >= exact - bound || y == 0x7fff)
  }

  /** The quotient of a wing sum, scaled and rounded: `v` stands for the wing sums and `w` for the weighted sample. */
  lemma ScaledSum(v: int, w: int, taps: nat, lp: nat)
    requires Abs(0x4000 * v - w) <= 0x2000 * taps
    ensures var z := (v / 4 * lp + 0x1000) / 0x2000;
            Abs(z * 0x2000_0000 - w * lp) <= lp * (0x2000 * taps + 0x1_0000) + 0x1000_0000
  {
    var q := v / 4;
    assert Abs(0x1_0000 * q - w) <= 0x2000 * taps + 0x1_0000;
    ScaledError(0x1_0000 * q - w, 0x2000 * taps + 0x1_0000, lp);
    assert (0x1_0000 * q - w) * lp == 0x1_0000 * (q * lp) - w * lp;
    RoundedQuotient(q * lp);
  }

  lemma ScaledError(e: int, bound: nat, lp: nat)
    requires Abs(e) <= bound
    ensures Abs(e * lp) <= lp * bound
  {
    ScaledBound(e, bound, lp);
  }

  lemma RoundedQuotient(n: int)
    ensures Abs((n + 0x1000) / 0x2000 * 0x2000_0000 - 0x1_0000 * n) <= 0x1000_0000
  {
  }

  lemma SaturatedIs(v: int)
    ensures var z := (v + 0x1000) / 0x2000;
            Saturated(v, NLPSCL) == if z > 0x7fff then 0x7fff else if z < -0x8000 then -0x8000 else z
  {
    PowerOf12();
    PowerOf15();
  }

  lemma GainIsNear(w: int, scale: nat, pFactor: real)
    requires pFactor > 0.0
    ensures var lp, g := GainFactor(scale, pFactor), scale as real * MinReal(1.0, pFactor);
            lp <= scale && -(Abs(w) as real) <= (w * lp) as real - w as real * g <= Abs(w) as real
  {
    var lp, g := GainFactor(scale, pFactor), scale as real * MinReal(1.0, pFactor);
    assert -0.5 <= lp as real - g <= 0.5;
    assert (w * lp) as real == w as real * lp as real;
    RealError(w as real, Abs(w) as real, lp as real, g);
  }

  lemma RealError(w: real, size: real, a: real, b: real)
    requires w == size || w == -size
    requires size >= 0.0 && -0.5 <= a - b <= 0.5
    ensures -size <= w * a - w * b <= size
  {
    hide Times;
    TimesDifference(w, a, b);
    HalfTimes(size, a - b);
    TimesNegated(size, a - b);
  }

  lemma TimesDifference(w: real, a: real, b: real)
    ensures w * a - w * b == Times(w, a - b)
  {
  }

  lemma HalfTimes(size: real, d: real)
    requires size >= 0.0 && -0.5 <= d <= 0.5
    ensures -size <= Times(size, d) <= size
  {
    Scaled(size, d, 0.5);
    Scaled(size, -0.5, d);
    assert size * d <= size * 0.5 && size * -0.5 <= size * d;
    assert size * 0.5 <= size && -size <= size * -0.5;
  }

  lemma TimesNegated(a: real, b: real)
    ensures Times(-a, b) == -Times(a, b)
  {
  }

  /** All the samples that the two wings read at a time have the value `c`. */
  ghost predicate ReadsOnly(f: Filter, x: Signal, c: Hword, time: nat, dhb: nat)
    requires ValidFilter(f) && dhb > 0
  {
    && (forall j: nat | Tap(Start(time % ONE, dhb, false), dhb, j) / A_ONE < End(f, false) ::
          x(time / ONE - j) == c)
    && (forall j: nat | Tap(Start(Complement(time % ONE), dhb, true), dhb, j) / A_ONE < End(f, true) ::
          x(time / ONE + 1 + j) == c)
  }

  /** An output sample over equal input samples. */
  lemma ConstantIsScaled(
    f: Filter, interp: bool, scale: nat, pFactor: real, x: Signal, c: Hword, time: nat, dhb: nat)
    requires ValidFilter(f) && dhb > 0 && pFactor > 0.0
    requires ReadsOnly(f, x, c, time, dhb)
    requires (Gain(f, interp, time, dhb) + 1) * MaxNat(scale, 4) <= WORDS - 0x4000
    ensures NearResponse(f, interp, scale, pFactor, c, time, dhb,
                         Sample(f, interp, GainFactor(scale, pFactor), x, time, dhb))
  {
    hide *;
    var lp := GainFactor(scale, pFactor);
    GainIsNear(Weighted(f, interp, c, time, dhb), scale, pFactor);
    RoomForLess(Gain(f, interp, time, dhb), lp, scale);
    var z := ConstantResult(f, interp, lp, x, c, time, dhb);
    NearFrom(f, interp, scale, pFactor, c, time, dhb, lp, z, Sample(f, interp, lp, x, time, dhb));
  }

  lemma ConstantResult(f: Filter, interp: bool, lp: nat, x: Signal, c: Hword, time: nat, dhb: nat) returns (z: int)
    requires ValidFilter(f) && dhb > 0
    requires ReadsOnly(f, x, c, time, dhb)
    requires (Gain(f, interp, time, dhb) + 1) * MaxNat(lp, 4) <= WORDS - 0x4000
    ensures Sample(f, interp, lp, x, time, dhb) == if z > 0x7fff then 0x7fff else if z < -0x8000 then -0x8000 else z
    ensures var w, taps := Weighted(f, interp, c, time, dhb), Taps(f, time, dhb);
            Abs(z * 0x2000_0000 - w * lp) <= lp * (0x2000 * taps + 0x1_0000) + 0x1000_0000
  {
    hide *;
    SampleDoesNotOverflow(f, interp, lp, x, time, dhb);
    ConstantSum(f, interp, x, c, time, dhb);
    var v := Left(f, interp, x, time, dhb) + Right(f, interp, x, time, dhb);
    z := (v / 4 * lp + 0x1000) / 0x2000;
    SaturatedIs(v / 4 * lp);
    ScaledSum(v, Weighted(f, interp, c, time, dhb), Taps(f, time, dhb), lp);
  }

  lemma RoomForLess(gain: nat, lp: nat, scale: nat)
    requires lp <= scale && (gain + 1) * MaxNat(scale, 4) <= WORDS - 0x4000
    ensures (gain + 1) * MaxNat(lp, 4) <= WORDS - 0x4000
  {
    assert (gain + 1) * MaxNat(lp, 4) <= (gain + 1) * MaxNat(scale, 4);
  }

  lemma ConstantSum(f: Filter, interp: bool, x: Signal, c: Hword, time: nat, dhb: nat)
    requires ValidFilter(f) && dhb > 0
    requires ReadsOnly(f, x, c, time, dhb)
    ensures Abs(0x4000 * (Left(f, interp, x, time, dhb) + Right(f, interp, x, time, dhb))
                - Weighted(f, interp, c, time, dhb))
            <= 0x2000 * Taps(f, time, dhb)
  {
    hide WingTotal, WingWeight, WingTaps, Tap, Start, Abs;
    var a, b := Start(time % ONE, dhb, false), Start(Complement(time % ONE), dhb, true);
    ConstantWing(f, interp, x, c, time / ONE, -1, a, dhb, End(f, false));
    ConstantWing(f, interp, x, c, time / ONE + 1, 1, b, dhb, End(f, true));
    BothBounds(Left(f, interp, x, time, dhb), Right(f, interp, x, time, dhb), c,
               WingWeight(f, interp, a, dhb, End(f, false)), WingWeight(f, interp, b, dhb, End(f, true)),
               WingTaps(a, dhb, End(f, false)), WingTaps(b, dhb, End(f, true)));
  }

  lemma BothBounds(l: int, r: int, c: int, wl: int, wr: int, tl: nat, tr: nat)
    requires Abs(0x4000 * l - c * wl) <= 0x2000 * tl && Abs(0x4000 * r - c * wr) <= 0x2000 * tr
    ensures Abs(0x4000 * (l + r) - c * (wl + wr)) <= 0x2000 * (tl + tr)
  {
    assert c * (wl + wr) == c * wl + c * wr;
  }

  lemma NearFrom(
    f: Filter, interp: bool, scale: nat, pFactor: real, c: int, time: nat, dhb: nat, lp: nat, z: int, y: Hword)
    requires ValidFilter(f) && dhb > 0 && pFactor > 0.0 && lp <= scale
    requires y == if z > 0x7fff then 0x7fff else if z < -0x8000 then -0x8000 else z
    requires var w, taps := Weighted(f, interp, c, time, dhb), Taps(f, time, dhb);
             && Abs(z * 0x2000_0000 - w * lp) <= lp * (0x2000 * taps + 0x1_0000) + 0x1000_0000
             && -(Abs(w) as real) <= (w * lp) as real - w as real * (scale as real * MinReal(1.0, pFactor))
             && (w * lp) as real - w as real * (scale as real * MinReal(1.0, pFactor)) <= Abs(w) as real
    ensures NearResponse(f, interp, scale, pFactor, c, time, dhb, y)
  {
    hide *;
    var w, taps := Weighted(f, interp, c, time, dhb), Taps(f, time, dhb);
    ResponseIs(f, interp, scale, pFactor, c, time, dhb, y);
    MoreScale(lp, scale, 0x2000 * taps + 0x1_0000);
    Collected(z, y, w * lp, scale * (0x2000 * taps + 0x1_0000) + 0x1000_0000, Abs(w),
              ExactResponse(f, interp, scale, pFactor, c, time, dhb));
  }

  lemma ResponseIs(f: Filter, interp: bool, scale: nat, pFactor: real, c: int, time: nat, dhb: nat, y: Hword)
    requires ValidFilter(f) && dhb > 0
    ensures var exact, bound := ExactResponse(f, interp, scale, pFactor, c, time, dhb),
                                RoundingBound(f, interp, scale, c, time, dhb);
            && exact == Weighted(f, interp, c, time, dhb) as real * (scale as real * MinReal(1.0, pFactor))
            && bound == scale * (0x2000 * Taps(f, time, dhb) + 0x1_0000) + 0x1000_0000
                        + Abs(Weighted(f, interp, c, time, dhb))
            && (NearResponse(f, interp, scale, pFactor, c, time, dhb, y)
                <==> && ((y * 0x2000_0000) as real <= exact + bound as real || y == -0x8000)
                     && ((y * 0x2000_0000) as real >= exact - bound as real || y == 0x7fff))
  {
    hide Weighted, Taps, Abs, MinReal;
  }

  lemma MoreScale(lp: nat, scale: nat, n: nat)
    requires lp <= scale
    ensures lp * n <= scale * n
  {
  }

  lemma Collected(z: int, y: Hword, product: int, e1: int, e2: nat, exact: real)
    requires y == if z > 0x7fff then 0x7fff else if z < -0x8000 then -0x8000 else z
    requires Abs(z * 0x2000_0000 - product) <= e1
    requires -(e2 as real) <= product as real - exact <= e2 as real
    ensures (y * 0x2000_0000) as real <= exact + (e1 + e2) as real || y == -0x8000
    ensures (y * 0x2000_0000) as real >= exact - (e1 + e2) as real || y == 0x7fff
  {
  }

  predicate AllEqual(xs: seq<Hword>, c: Hword) {
    forall k | 0 <= k < |xs| :: xs[k] == c
  }

  /** Output `n` over equal samples, if the gain leaves room. */
  predicate ConstantOutput(f: Filter, interp: bool, scale: nat, pFactor: real, c: Hword, n: nat, y: Hword) {
    pFactor > 0.0 && ValidFilter(f) && FilterStep(pFactor) > 0
    && (Gain(f, interp, n * TimeStep(pFactor), FilterStep(pFactor)) + 1) * MaxNat(scale, 4) <= WORDS - 0x4000 ==>
      NearResponse(f, interp, scale, pFactor, c, n * TimeStep(pFactor), FilterStep(pFactor), y)
  }

  lemma OutputAt(
    ys: seq<Hword>, f: Filter, interp: bool, scale: nat, pFactor: real, x: Signal, n: nat)
    requires pFactor > 0.0 && ValidFilter(f) && FilterStep(pFactor) > 0 && n < |ys|
    requires ys == Converted(f, interp, GainFactor(scale, pFactor), x, TimeStep(pFactor), FilterStep(pFactor), |ys|)
    ensures ys[n] == Sample(f, interp, GainFactor(scale, pFactor), x, n * TimeStep(pFactor), FilterStep(pFactor))
  {
    hide Sample, GainFactor, TimeStep, FilterStep;
  }

  lemma ConstantInput(
    xs: seq<Hword>, offset: nat, f: Filter, interp: bool, scale: nat, pFactor: real, c: Hword, n: nat)
    requires pFactor > 0.0 && ValidFilter(f) && FilterStep(pFactor) > 0 && AllEqual(xs, c)
    requires var time, dhb := n * TimeStep(pFactor), FilterStep(pFactor);
             && WingInside(f, time / ONE, false, Start(time % ONE, dhb, false), dhb, offset, |xs|)
             && WingInside(f, time / ONE + 1, true, Start(Complement(time % ONE), dhb, true), dhb, offset, |xs|)
    ensures ConstantOutput(f, interp, scale, pFactor, c, n,
                           Sample(f, interp, GainFactor(scale, pFactor), SignalOf(xs, offset), n * TimeStep(pFactor),
                                  FilterStep(pFactor)))
  {
    hide Sample, GainFactor, TimeStep, FilterStep, NearResponse, Start, Complement, Tap, Gain, MaxNat, End;
    var time, dhb, x := n * TimeStep(pFactor), FilterStep(pFactor), SignalOf(xs, offset);
    if (Gain(f, interp, time, dhb) + 1) * MaxNat(scale, 4) <= WORDS - 0x4000 {
      ReadsConstant(f, xs, offset, c, time / ONE, false, Start(time % ONE, dhb, false), dhb);
      ReadsConstant(f, xs, offset, c, time / ONE + 1, true, Start(Complement(time % ONE), dhb, true), dhb);
      ConstantIsScaled(f, interp, scale, pFactor, x, c, time, dhb);
    }
  }

  lemma ReadsConstant(
    f: Filter, xs: seq<Hword>, offset: nat, c: Hword, at: int, right: bool, position: nat, step: nat)
    requires ValidFilter(f) && AllEqual(xs, c) && WingInside(f, at, right, position, step, offset, |xs|)
    ensures forall j: nat | Tap(position, step, j) / A_ONE < End(f, right) ::
              SignalOf(xs, offset)(if right then at + j else at - j) == c
  {
    hide Tap;
  }

  /** The choice between the two loops does not show in the output. */
  method Resample(
    xs: array<Hword>, offset: nat, ys: array<Hword>, pFactor: real, nx: nat, scale: nat,
    f: Filter, interp: bool, ghost periods: nat)
    returns (written: nat)
    requires pFactor >= 0.0625 && StepsHold(pFactor, nx) && Spans(f, periods)
    requires BuffersFit(xs, offset, ys, pFactor, nx, periods)
    modifies ys
    ensures written == OutputCount(nx, pFactor) <= ys.Length && FilterStep(pFactor) > 0 && ValidFilter(f)
    ensures ys[..written]
            == Converted(f, interp, GainFactor(scale, pFactor), SignalOf(xs[..], offset), TimeStep(pFactor),
                         FilterStep(pFactor), written)
    ensures forall k :: written <= k < ys.Length ==> ys[k] == old(ys[k])
    ensures forall c: Hword, n: nat | AllEqual(xs[..], c) && n < written ::
              ConstantOutput(f, interp, scale, pFactor, c, n, ys[n])
  {
    hide *;
    BuffersFitIs(xs, offset, ys, pFactor, nx, periods, f);
    ghost var x := SignalOf(xs[..], offset);
    if pFactor >= 1.0 {
      written := SrcUp(xs, offset, ys, pFactor, nx, GainFactor(scale, pFactor), f, interp, periods);
      FastConversionIsGeneral(f, interp, GainFactor(scale, pFactor), x, pFactor, written);
    } else {
      written := SrcUD(xs, offset, ys, pFactor, nx, GainFactor(scale, pFactor), f, interp, periods);
    }
    forall c: Hword, n: nat | AllEqual(xs[..], c) && n < written
      ensures ConstantOutput(f, interp, scale, pFactor, c, n, ys[n])
    {
      StepReadsInside(f, periods, pFactor, nx, n, offset, xs.Length);
      OutputAt(ys[..written], f, interp, scale, pFactor, x, n);
      ConstantInput(xs[..], offset, f, interp, scale, pFactor, c, n);
    }
  }
}
