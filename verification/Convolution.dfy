/** What the wings of the filter compute: the convolution of the samples with the symmetric impulse
    response, with each product rounded. */
module Convolution {
  import opened FixedPoint
  import opened PolyphaseFilter

  // ----- A wing without wrapping

  /** The exact sum of the rounded products. */
  function WingTotal(f: Filter, interp: bool, x: Signal, at: int, inc: int, position: nat, step: nat, end: nat): int
    requires ValidFilter(f) && end <= |f.imp| && step > 0
    decreases end * A_ONE - position
  {
    if position / A_ONE >= end then 0
    else
      BitRounded(Coefficient(f, interp, position) * x(at))
      + WingTotal(f, interp, x, at + inc, inc, position + step, step, end)
  }

  lemma {:induction false} WingIsTotal(
    f: Filter, interp: bool, x: Signal, at: int, inc: int, position: nat, step: nat, end: nat, v: Word)
    requires ValidFilter(f) && end <= |f.imp| && step > 0
    ensures Wing(f, interp, x, at, inc, position, step, end, v)
            == Wrap(v + WingTotal(f, interp, x, at, inc, position, step, end))
    decreases end * A_ONE - position
  {
    hide Product, Wrap, Coefficient, BitRounded;
    WingUnfold(f, interp, x, at, inc, position, step, end, v);
    if position / A_ONE < end {
      var c := Coefficient(f, interp, position);
      CoefficientBound(f, interp, position);
      ProductIsExact(c, x(at));
      WingIsTotal(f, interp, x, at + inc, inc, position + step, step, end, Wrap(v + Product(c, x(at))));
      WrapOfWrap(v + Product(c, x(at)), WingTotal(f, interp, x, at + inc, inc, position + step, step, end));
    } else {
      WrapIsIdentity(v);
    }
  }

  // ----- Room for every intermediate

  /** The sum of the absolute values of the coefficients that a wing reads. */
  function WingGain(f: Filter, interp: bool, position: nat, step: nat, end: nat): nat
    requires ValidFilter(f) && end <= |f.imp| && step > 0
    decreases end * A_ONE - position
  {
    if position / A_ONE >= end then 0
    else Abs(Coefficient(f, interp, position)) + WingGain(f, interp, position + step, step, end)
  }

  /** No operation of the loop leaves the range of words. */
  ghost predicate WingFits(
    f: Filter, interp: bool, x: Signal, at: int, inc: int, position: nat, step: nat, end: nat, v: int)
    requires ValidFilter(f) && end <= |f.imp| && step > 0
    decreases end * A_ONE - position
  {
    && FitsWord(v)
    && (position / A_ONE < end ==>
          var t := Coefficient(f, interp, position) * x(at);
          && FitsWord(Coefficient(f, interp, position)) && FitsWord(t) && FitsWord(t + 0x2000)
          && WingFits(f, interp, x, at + inc, inc, position + step, step, end, v + BitRounded(t)))
  }

  predicate FitsWord(n: int) {
    -HALF_WORDS <= n < HALF_WORDS
  }

  /** The loop does not overflow, for any samples, if there is room for twice the gain; the total is
      then at most twice the gain. */
  lemma {:induction false} WingDoesNotOverflow(
    f: Filter, interp: bool, x: Signal, at: int, inc: int, position: nat, step: nat, end: nat, v: int)
    requires ValidFilter(f) && end <= |f.imp| && step > 0
    requires Abs(v) + 2 * WingGain(f, interp, position, step, end) < HALF_WORDS
    ensures WingFits(f, interp, x, at, inc, position, step, end, v)
    ensures Abs(WingTotal(f, interp, x, at, inc, position, step, end))
            <= 2 * WingGain(f, interp, position, step, end)
    decreases end * A_ONE - position
  {
    hide Coefficient, BitRounded, Product;
    if position / A_ONE < end {
      var c := Coefficient(f, interp, position);
      CoefficientBound(f, interp, position);
      RoundedProductBound(c, x(at));
      WingDoesNotOverflow(f, interp, x, at + inc, inc, position + step, step, end, v + BitRounded(c * x(at)));
    }
  }

  // ----- Both wings around a point in time

  /** The exact sum of the wing over the current sample and those before it. */
  function Left(f: Filter, interp: bool, x: Signal, time: nat, dhb: nat): int
    requires ValidFilter(f) && dhb > 0
  {
    WingTotal(f, interp, x, time / ONE, -1, Start(time % ONE, dhb, false), dhb, End(f, false))
  }

  /** The phase to the next sample: `-time` in the low-order bits. */
  function Complement(ph: nat): (r: nat)
    requires ph < ONE
    ensures r < ONE && (r + ph == ONE || r == ph == 0)
  {
    if ph == 0 then 0 else ONE - ph
  }

  /** The exact sum of the wing over the samples after the current one. */
  function Right(f: Filter, interp: bool, x: Signal, time: nat, dhb: nat): int
    requires ValidFilter(f) && dhb > 0
  {
    WingTotal(f, interp, x, time / ONE + 1, 1, Start(Complement(time % ONE), dhb, true), dhb, End(f, true))
  }

  // ----- The symmetric impulse response

  function Distance(i: int, time: nat): nat {
    Abs(i * ONE - time)
  }

  /** What sample `i` contributes at a time; the last entry of the table serves only samples that
      are not later. */
  function Contribution(f: Filter, interp: bool, x: Signal, time: nat, i: int): int
    requires ValidFilter(f)
  {
    var d := Distance(i, time);
    if d / A_ONE < End(f, i * ONE > time) then BitRounded(Coefficient(f, interp, d) * x(i)) else 0
  }

  function Contributions(f: Filter, interp: bool, x: Signal, time: nat, lo: int, hi: int): int
    requires ValidFilter(f)
    decreases hi - lo
  {
    if lo >= hi then 0
    else Contribution(f, interp, x, time, lo) + Contributions(f, interp, x, time, lo + 1, hi)
  }

  lemma {:induction false} ContributionsSnoc(f: Filter, interp: bool, x: Signal, time: nat, lo: int, hi: int)
    requires ValidFilter(f) && lo <= hi
    ensures Contributions(f, interp, x, time, lo, hi + 1)
            == Contributions(f, interp, x, time, lo, hi) + Contribution(f, interp, x, time, hi)
    decreases hi - lo
  {
    hide Contribution;
    if lo < hi {
      ContributionsSnoc(f, interp, x, time, lo + 1, hi);
    }
  }

  lemma {:induction false} ContributionsSplit(f: Filter, interp: bool, x: Signal, time: nat, lo: int, mid: int, hi: int)
    requires ValidFilter(f) && lo <= mid <= hi
    ensures Contributions(f, interp, x, time, lo, hi)
            == Contributions(f, interp, x, time, lo, mid) + Contributions(f, interp, x, time, mid, hi)
    decreases mid - lo
  {
    hide Contribution;
    if lo < mid {
      ContributionsSplit(f, interp, x, time, lo + 1, mid, hi);
    }
  }

  /** Beyond the end of the table nothing contributes. */
  lemma {:induction false} NothingBeyond(f: Filter, interp: bool, x: Signal, time: nat, lo: int, hi: int)
    requires ValidFilter(f)
    requires forall i | lo <= i < hi :: Distance(i, time) / A_ONE >= End(f, i * ONE > time)
    ensures Contributions(f, interp, x, time, lo, hi) == 0
    decreases hi - lo
  {
    hide BitRounded, Coefficient;
    if lo < hi {
      NothingBeyond(f, interp, x, time, lo + 1, hi);
    }
  }

  lemma {:induction false} LeftIsConvolution(f: Filter, interp: bool, x: Signal, time: nat, at: int, lo: int)
    requires ValidFilter(f) && at * ONE <= time && lo <= at + 1
    requires (time - lo * ONE) / A_ONE >= |f.imp|
    ensures WingTotal(f, interp, x, at, -1, Distance(at, time), ONE, End(f, false))
            == Contributions(f, interp, x, time, lo, at + 1)
    decreases at - lo + 1
  {
    hide BitRounded, Coefficient;
    if Distance(at, time) / A_ONE >= |f.imp| {
      forall i | lo <= i < at + 1
        ensures Distance(i, time) / A_ONE >= End(f, i * ONE > time)
      {
        assert Distance(i, time) >= Distance(at, time);
      }
      NothingBeyond(f, interp, x, time, lo, at + 1);
    } else {
      assert lo <= at;
      assert Distance(at - 1, time) == Distance(at, time) + ONE;
      LeftIsConvolution(f, interp, x, time, at - 1, lo);
      ContributionsSnoc(f, interp, x, time, lo, at);
    }
  }

  lemma {:induction false} RightIsConvolution(f: Filter, interp: bool, x: Signal, time: nat, at: int, hi: int)
    requires ValidFilter(f) && at * ONE > time && at <= hi
    requires (hi * ONE - time) / A_ONE >= |f.imp|
    ensures WingTotal(f, interp, x, at, 1, Distance(at, time), ONE, End(f, true))
            == Contributions(f, interp, x, time, at, hi)
    decreases hi - at
  {
    hide BitRounded, Coefficient;
    if Distance(at, time) / A_ONE >= End(f, true) {
      forall i | at <= i < hi
        ensures Distance(i, time) / A_ONE >= End(f, i * ONE > time)
      {
        assert Distance(i, time) >= Distance(at, time);
      }
      NothingBeyond(f, interp, x, time, at, hi);
    } else {
      assert at < hi;
      assert Distance(at + 1, time) == Distance(at, time) + ONE;
      RightIsConvolution(f, interp, x, time, at + 1, hi);
    }
  }

  /** The two wings together add up every sample within reach once, weighted by the response at its
      distance from the current time. */
  lemma WingsAreConvolution(f: Filter, interp: bool, x: Signal, time: nat, lo: int, hi: int)
    requires ValidFilter(f) && lo <= time / ONE < hi
    requires (time - lo * ONE) / A_ONE >= |f.imp| && (hi * ONE - time) / A_ONE >= |f.imp|
    ensures Left(f, interp, x, time, ONE) + Right(f, interp, x, time, ONE)
            == Contributions(f, interp, x, time, lo, hi)
  {
    hide WingTotal, Contributions;
    var at, ph := time / ONE, time % ONE;
    assert Distance(at, time) == ph == Start(ph, ONE, false);
    assert Distance(at + 1, time) == ONE - ph == Start(Complement(ph), ONE, true);
    LeftIsConvolution(f, interp, x, time, at, lo);
    RightIsConvolution(f, interp, x, time, at + 1, hi);
    ContributionsSplit(f, interp, x, time, lo, at + 1, hi);
  }

  // ----- Constant samples

  /** The sum of the coefficients that a wing reads, and how many they are. */
  function WingWeight(f: Filter, interp: bool, position: nat, step: nat, end: nat): int
    requires ValidFilter(f) && end <= |f.imp| && step > 0
    decreases end * A_ONE - position
  {
    if position / A_ONE >= end then 0
    else Coefficient(f, interp, position) + WingWeight(f, interp, position + step, step, end)
  }

  function WingTaps(position: nat, step: nat, end: nat): nat
    requires step > 0
    decreases end * A_ONE - position
  {
    if position / A_ONE >= end then 0 else 1 + WingTaps(position + step, step, end)
  }

  /** Over equal samples a wing adds up to the sample times the sum of its coefficients, within half a unit for
      each rounding. */
  lemma {:induction false} ConstantWing(
    f: Filter, interp: bool, x: Signal, c: Hword, at: int, inc: int, position: nat, step: nat, end: nat)
    requires ValidFilter(f) && end <= |f.imp| && step > 0
    requires forall j: nat | Tap(position, step, j) / A_ONE < end :: x(at + inc * j) == c
    ensures Abs(0x4000 * WingTotal(f, interp, x, at, inc, position, step, end)
                - c * WingWeight(f, interp, position, step, end))
            <= 0x2000 * WingTaps(position, step, end)
    decreases end * A_ONE - position
  {
    hide Coefficient, BitRounded, Tap;
    TapNext(position, step, 0);
    if position / A_ONE < end {
      var k := Coefficient(f, interp, position);
      forall j: nat | Tap(position + step, step, j) / A_ONE < end
        ensures x(at + inc + inc * j) == c
      {
        LaterTap(position, step, j);
        assert at + inc + inc * j == at + inc * (j + 1);
      }
      assert x(at + inc * 0) == c;
      BitRoundedIsNearest(k * c);
      ConstantWing(f, interp, x, c, at + inc, inc, position + step, step, end);
      Distributed(c, k, WingWeight(f, interp, position + step, step, end));
    }
  }

  lemma LaterTap(position: nat, step: nat, j: nat)
    ensures Tap(position + step, step, j) == Tap(position, step, j + 1)
  {
  }

  lemma Distributed(c: int, a: int, b: int)
    ensures c * (a + b) == a * c + c * b
  {
  }

  // ----- Reversing time at phase zero

  /** The samples in reverse order about sample `at`. */
  function Reversed(x: Signal, at: int): Signal {
    (i: int) => x(2 * at - i)
  }

  lemma {:induction false} WingReversed(
    f: Filter, interp: bool, x: Signal, about: int, at: int, inc: int, position: nat, step: nat, end: nat)
    requires ValidFilter(f) && end <= |f.imp| && step > 0
    ensures WingTotal(f, interp, Reversed(x, about), at, inc, position, step, end)
            == WingTotal(f, interp, x, 2 * about - at, -inc, position, step, end)
    decreases end * A_ONE - position
  {
    hide BitRounded, Coefficient;
    if position / A_ONE < end {
      WingReversed(f, interp, x, about, at + inc, inc, position + step, step, end);
    }
  }

  /** At whole filter periods the dropped last entry matters only if one of them is that entry. */
  lemma {:induction false} LastEntryUnused(f: Filter, interp: bool, x: Signal, at: int, inc: int, position: nat)
    requires ValidFilter(f) && position % ONE == 0 && position > 0
    requires |f.imp| % NPC != 1 || |f.imp| == 1
    ensures WingTotal(f, interp, x, at, inc, position, ONE, |f.imp|)
            == WingTotal(f, interp, x, at, inc, position, ONE, |f.imp| - 1)
    decreases |f.imp| * A_ONE - position
  {
    hide BitRounded, Coefficient;
    assert position / A_ONE % NPC == 0 && position / A_ONE > 0 by { WholePeriods(position); }
    if position / A_ONE < |f.imp| {
      LastEntryUnused(f, interp, x, at + inc, inc, position + ONE);
    }
  }

  lemma WholePeriods(position: nat)
    requires position % ONE == 0
    ensures position / A_ONE == position / ONE * NPC
  {
  }

  /** At phase zero the result does not depend on the direction of time about the current sample,
      unless a whole number of filter periods ends on the last entry of the table. */
  lemma PhaseZeroReversal(f: Filter, interp: bool, x: Signal, at: nat)
    requires ValidFilter(f) && (|f.imp| % NPC != 1 || |f.imp| == 1)
    ensures var y := Reversed(x, at);
            Left(f, interp, y, at * ONE, ONE) + Right(f, interp, y, at * ONE, ONE)
            == Left(f, interp, x, at * ONE, ONE) + Right(f, interp, x, at * ONE, ONE)
  {
    hide BitRounded, Coefficient, WingTotal;
    var y, n := Reversed(x, at), |f.imp|;
    WingTotalUnfold(f, interp, x, at, -1, 0, n);
    WingTotalUnfold(f, interp, y, at, -1, 0, n);
    WingReversed(f, interp, x, at, at - 1, -1, ONE, ONE, n);
    WingReversed(f, interp, x, at, at + 1, 1, ONE, ONE, n - 1);
    LastEntryUnused(f, interp, x, at + 1, 1, ONE);
    LastEntryUnused(f, interp, x, at - 1, -1, ONE);
  }

  lemma WingTotalUnfold(f: Filter, interp: bool, x: Signal, at: int, inc: int, position: nat, end: nat)
    requires ValidFilter(f) && end <= |f.imp|
    ensures WingTotal(f, interp, x, at, inc, position, ONE, end)
            == if position / A_ONE >= end then 0
               else BitRounded(Coefficient(f, interp, position) * x(at))
                    + WingTotal(f, interp, x, at + inc, inc, position + ONE, ONE, end)
  {
    hide BitRounded, Coefficient;
  }

  /** A table of zeros but for its last entry. */
  function Spike(n: nat): (f: Filter)
    requires 0 < n < 0x1_0000
    ensures ValidFilter(f) && |f.imp| == n
  {
    Filter(seq(n, i => if i == n - 1 then 0x4000 else 0), seq(n, i => 0))
  }

  lemma SpikeCoefficient(periods: nat, j: nat)
    requires j <= periods && periods * NPC + 1 < 0x1_0000
    ensures j * ONE / A_ONE == j * NPC
    ensures Coefficient(Spike(periods * NPC + 1), false, j * ONE) == if j == periods then 0x4000 else 0
  {
    assert j * ONE == j * NPC * A_ONE;
  }

  lemma RoundedZero()
    ensures BitRounded(0) == 0
  {
  }

  lemma {:induction false} SpikeWing(periods: nat, x: Signal, at: int, inc: int, j: nat, end: nat)
    requires periods * NPC + 1 < 0x1_0000 && periods * NPC <= end <= periods * NPC + 1
    requires j <= periods
    ensures WingTotal(Spike(periods * NPC + 1), false, x, at, inc, j * ONE, ONE, end)
            == if end == periods * NPC + 1 then BitRounded(0x4000 * x(at + inc * (periods - j))) else 0
    decreases periods - j
  {
    hide WingTotal, Spike, Coefficient, BitRounded;
    var f, position := Spike(periods * NPC + 1), j * ONE;
    SpikeCoefficient(periods, j);
    RoundedZero();
    WingTotalUnfold(f, false, x, at, inc, position, end);
    NextPeriod(at, inc, periods, j);
    if j < periods {
      SpikeWing(periods, x, at + inc, inc, j + 1, end);
    } else {
      WingTotalUnfold(f, false, x, at + inc, inc, position + ONE, end);
    }
  }

  lemma NextPeriod(at: int, inc: int, periods: nat, j: nat)
    requires j <= periods
    ensures at + inc + inc * (periods - (j + 1)) == at + inc * (periods - j)
    ensures j * ONE + ONE == (j + 1) * ONE && (j * ONE + ONE) / A_ONE == j * NPC + NPC
    ensures j < periods ==> j * NPC + NPC <= periods * NPC
  {
    assert inc * (periods - j) == inc + inc * (periods - (j + 1));
    assert j * ONE + ONE == (j * NPC + NPC) * A_ONE;
    if j < periods {
      assert (periods - j) * NPC >= NPC;
    }
  }

  /** In that case it does depend on it: the exception above cannot be dropped. */
  lemma PhaseZeroReversalFails(periods: nat, at: nat)
    requires 0 < periods && periods * NPC + 1 < 0x1_0000
    ensures var f, x := Spike(periods * NPC + 1), (i: int) => if i == at - periods then 1 else 0;
            var y := Reversed(x, at);
            Left(f, false, y, at * ONE, ONE) + Right(f, false, y, at * ONE, ONE)
            != Left(f, false, x, at * ONE, ONE) + Right(f, false, x, at * ONE, ONE)
  {
    hide WingTotal, Spike;
    var n := periods * NPC + 1;
    var x: Signal := (i: int) => if i == at - periods then 1 else 0;
    var y := Reversed(x, at);
    SpikeWing(periods, x, at, -1, 0, n);
    SpikeWing(periods, y, at, -1, 0, n);
    SpikeWing(periods, x, at + 1, 1, 1, n - 1);
    SpikeWing(periods, y, at + 1, 1, 1, n - 1);
  }
}
