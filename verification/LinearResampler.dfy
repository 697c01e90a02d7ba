/** Sampling rate conversion by linear interpolation. */
module LinearResampler {
  import opened FixedPoint
  import opened PolyphaseFilter
  import opened Convolution
  import opened Resampler

  function Min(a: int, b: int): int {
    if a < b then a else b
  }

  function Max(a: int, b: int): int {
    if a < b then b else a
  }

  /** The value between two samples, in 32-bit arithmetic. */
  function Interpolated(x1: Hword, x2: Hword, fraction: nat): Hword
    requires fraction < ONE
  {
    WordToHword(Wrap(Wrap(x1 * (ONE - fraction)) + Wrap(x2 * fraction)), NP)
  }

  /** Nothing overflows and saturation never applies: the result is the weighted mean, rounded to
      nearest, and so lies between the two samples. */
  lemma InterpolatedIsBetween(x1: Hword, x2: Hword, fraction: nat)
    requires fraction < ONE
    ensures FitsWord(x1 * (ONE - fraction)) && FitsWord(x2 * fraction)
    ensures FitsWord(x1 * (ONE - fraction) + x2 * fraction)
    ensures Interpolated(x1, x2, fraction) == (x1 * (ONE - fraction) + x2 * fraction + ONE / 2) / ONE
    ensures Min(x1, x2) <= Interpolated(x1, x2, fraction) <= Max(x1, x2)
  {
    hide Wrap, WordToHword, Interpolated, Saturated;
    MeanBounds(x1, x2, fraction);
    var v := x1 * (ONE - fraction) + x2 * fraction;
    WrapIsIdentity(x1 * (ONE - fraction));
    WrapIsIdentity(x2 * fraction);
    WrapIsIdentity(v);
    InterpolatedIs(x1, x2, fraction);
    HalfIs();
    WordToHwordSaturates(v, NP);
    SaturatedMean(v, Min(x1, x2), Max(x1, x2));
  }

  lemma InterpolatedIs(x1: Hword, x2: Hword, fraction: nat)
    requires fraction < ONE
    ensures Interpolated(x1, x2, fraction)
            == WordToHword(Wrap(Wrap(x1 * (ONE - fraction)) + Wrap(x2 * fraction)), NP)
  {
  }

  lemma HalfIs()
    ensures HalfUnit(NP) == ONE / 2 && Power(NP) == ONE
  {
    PowerOf15();
  }

  lemma MeanBounds(x1: Hword, x2: Hword, fraction: nat)
    requires fraction < ONE
    ensures -0x4000_0000 <= x1 * (ONE - fraction) <= 0x4000_0000 && -0x4000_0000 <= x2 * fraction <= 0x4000_0000
    ensures Min(x1, x2) * ONE <= x1 * (ONE - fraction) + x2 * fraction <= Max(x1, x2) * ONE
  {
    WeightedMean(Min(x1, x2), x1, x2, Max(x1, x2), ONE - fraction, fraction);
    Weighted(-0x8000, x1, 0x8000, ONE - fraction);
    Weighted(-0x8000, x2, 0x8000, fraction);
  }

  lemma WeightedMean(lo: int, x1: int, x2: int, hi: int, a: nat, b: nat)
    requires lo <= x1 <= hi && lo <= x2 <= hi
    ensures lo * (a + b) <= x1 * a + x2 * b <= hi * (a + b)
  {
    Weighted(lo, x1, hi, a);
    Weighted(lo, x2, hi, b);
    assert lo * a + lo * b == lo * (a + b) && hi * a + hi * b == hi * (a + b);
  }

  lemma Weighted(lo: int, x: int, hi: int, weight: nat)
    requires lo <= x <= hi
    ensures lo * weight <= x * weight <= hi * weight
  {
  }

  lemma SaturatedMean(v: int, lo: Hword, hi: Hword)
    requires lo * ONE <= v <= hi * ONE
    ensures lo <= (v + ONE / 2) / ONE <= hi && Saturated(v, NP) == (v + ONE / 2) / ONE
  {
    HalfIs();
  }

  /** Equal samples and whole positions are reproduced. */
  lemma InterpolatedExactly(x1: Hword, x2: Hword, fraction: nat)
    requires fraction < ONE && (x1 == x2 || fraction == 0)
    ensures Interpolated(x1, x2, fraction) == x1
  {
    hide Interpolated;
    InterpolatedIsBetween(x1, x2, fraction);
    if x1 != x2 {
      assert x1 * (ONE - fraction) + x2 * fraction == x1 * ONE;
    }
  }

  function LinearSample(x: Signal, time: nat): Hword {
    Interpolated(x(time / ONE), x(time / ONE + 1), time % ONE)
  }

  function LinearlyConverted(x: Signal, dtb: nat, count: nat): (r: seq<Hword>)
    ensures |r| == count
  {
    seq(count, n requires 0 <= n < count => LinearSample(x, n * dtb))
  }

  /** The conversion reads one sample past the input: each output takes two neighbours. */
  method SrcLinear(xs: array<Hword>, ys: array<Hword>, pFactor: real, nx: nat) returns (written: nat)
    requires StepsHold(pFactor, nx)
    requires xs != ys && nx < xs.Length && OutputCount(nx, pFactor) <= ys.Length
    modifies ys
    ensures written == OutputCount(nx, pFactor) <= ys.Length
    ensures ys[..written] == LinearlyConverted(SignalOf(xs[..], 0), TimeStep(pFactor), written)
    ensures forall k :: written <= k < ys.Length ==> ys[k] == old(ys[k])
  {
    hide TimeStep, OutputCount, StepsHold, LinearSample, Interpolated, SignalOf, LinearlyConverted;
    ghost var x := SignalOf(xs[..], 0);
    StepsPositive(pFactor, nx);
    var dtb, count := TimeStep(pFactor), OutputCount(nx, pFactor);
    var time := 0;
    written := 0;
    while written < count
      invariant written <= count && (written < count ==> time == written * dtb)
      invariant SignalOf(xs[..], 0) == x
      invariant forall k :: 0 <= k < written ==> ys[k] == LinearSample(x, k * dtb)
      invariant forall k :: written <= k < ys.Length ==> ys[k] == old(ys[k])
    {
      TimeStaysInside(pFactor, nx, written);
      LinearSampleIs(xs[..], time);
      ys[written] := Interpolated(xs[time / ONE], xs[time / ONE + 1], time % ONE);
      if written + 1 < count {
        TimeAfter(pFactor, nx, written, time);
      }
      time := (time + dtb) % WORDS;
      written := written + 1;
    }
    LinearlyConvertedIs(ys[..written], x, dtb, written);
  }

  lemma StepsPositive(pFactor: real, nx: nat)
    requires StepsHold(pFactor, nx)
    ensures pFactor > 0.0
  {
  }

  lemma LinearSampleIs(xs: seq<Hword>, time: nat)
    requires time / ONE + 1 < |xs|
    ensures ONE > 0 && time % ONE < ONE
    ensures LinearSample(SignalOf(xs, 0), time) == Interpolated(xs[time / ONE], xs[time / ONE + 1], time % ONE)
  {
    hide Interpolated;
  }

  lemma LinearlyConvertedIs(ys: seq<Hword>, x: Signal, dtb: nat, count: nat)
    requires |ys| == count && forall k :: 0 <= k < count ==> ys[k] == LinearSample(x, k * dtb)
    ensures ys == LinearlyConverted(x, dtb, count)
  {
    hide LinearSample;
  }

  /** A constant signal stays constant. */
  lemma ConstantSignal(x: Signal, c: Hword, dtb: nat, count: nat)
    requires forall i :: x(i) == c
    ensures forall n :: 0 <= n < count ==> LinearlyConverted(x, dtb, count)[n] == c
  {
    hide Interpolated;
    forall n | 0 <= n < count
      ensures LinearlyConverted(x, dtb, count)[n] == c
    {
      var time := n * dtb;
      InterpolatedExactly(x(time / ONE), x(time / ONE + 1), time % ONE);
    }
  }

  /** At the same rate the conversion is the identity, and keeps the number of samples. */
  lemma SameRate(xs: seq<Hword>, nx: nat)
    requires nx < |xs|
    ensures OutputCount(nx, 1.0) == nx
    ensures LinearlyConverted(SignalOf(xs, 0), TimeStep(1.0), nx) == xs[..nx]
  {
    hide Interpolated;
    assert TimeStep(1.0) == ONE;
    forall n | 0 <= n < nx
      ensures LinearSample(SignalOf(xs, 0), n * ONE) == xs[n]
    {
      WholeTime(n);
      LinearSampleIs(xs, n * ONE);
      InterpolatedExactly(xs[n], xs[n + 1], 0);
    }
  }

  lemma WholeTime(n: nat)
    ensures n * ONE / ONE == n && n * ONE % ONE == 0
  {
  }

  /** Every output lies between two neighbouring inputs. */
  lemma OutputsBetween(x: Signal, dtb: nat, count: nat, n: nat)
    requires n < count
    ensures var i := n * dtb / ONE;
            Min(x(i), x(i + 1)) <= LinearlyConverted(x, dtb, count)[n] <= Max(x(i), x(i + 1))
  {
    hide Interpolated, Min, Max;
    var i := n * dtb / ONE;
    InterpolatedIsBetween(x(i), x(i + 1), n * dtb % ONE);
  }
}
