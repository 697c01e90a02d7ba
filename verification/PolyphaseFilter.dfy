/** The two filter loops of the resampler: the fast one for raising the rate and the general one.
    A wing of the filter is the sum over the samples on one side of the current time. */
module PolyphaseFilter {
  import opened FixedPoint

  /** One wing of the symmetric impulse response and the differences between its entries. */
  datatype Filter = Filter(imp: seq<Hword>, impD: seq<Hword>)

  predicate ValidFilter(f: Filter) {
    0 < |f.imp| == |f.impD| < 0x1_0000
  }

  type Signal = int -> Hword

  // ----- One tap

  /** The coefficient at a filter position, which has seven fractional bits. */
  function Coefficient(f: Filter, interp: bool, position: nat): int
    requires ValidFilter(f) && position / A_ONE < |f.imp|
  {
    var h := position / A_ONE;
    f.imp[h] + if interp then f.impD[h] * (position % A_ONE) / A_ONE else 0
  }

  /** A sample times a coefficient, rounded, in 32-bit arithmetic. */
  function Product(c: int, x: Hword): Word {
    var t := Wrap(Wrap(c) * x);
    (if RoundingBit(t) then Wrap(t + 0x2000) else t) / 0x4000
  }

  lemma CoefficientBound(f: Filter, interp: bool, position: nat)
    requires ValidFilter(f) && position / A_ONE < |f.imp|
    ensures Abs(Coefficient(f, interp, position)) <= 0xffff
  {
    var h, a := position / A_ONE, position % A_ONE;
    DifferenceBound(f.impD[h], a);
  }

  lemma DifferenceBound(d: Hword, a: nat)
    requires a < A_ONE
    ensures -0x7f00 <= d * a / A_ONE <= 0x7fff
  {
    assert d * a >= -0x8000 * 127 by { MulLower(d, a); }
    assert d * a <= 0x7fff * 127 by { MulUpper(d, a); }
  }

  lemma MulLower(d: int, a: nat)
    requires d >= -0x8000 && a <= 127
    ensures d * a >= -0x8000 * 127
  {
    assert d * a >= -0x8000 * a;
  }

  lemma MulUpper(d: int, a: nat)
    requires d <= 0x7fff && a <= 127
    ensures d * a <= 0x7fff * 127
  {
    assert d * a <= 0x7fff * a;
  }

  /** No step of a tap wraps: the product is the exact one, rounded to nearest. */
  lemma ProductIsExact(c: int, x: Hword)
    requires Abs(c) <= 0xffff
    ensures Product(c, x) == BitRounded(c * x)
    ensures Wrap(c) == c && Wrap(c * x) == c * x && Wrap(c * x + 0x2000) == c * x + 0x2000
  {
    ProductBound(c, x);
    assert -0x8000 * 0xffff <= c * x <= 0x8000 * 0xffff;
    WrapIsIdentity(c);
    WrapIsIdentity(c * x);
    WrapIsIdentity(c * x + 0x2000);
  }

  // ----- A wing

  /** The sum that the general loop adds up from a position on; `step` is the distance between taps. */
  function Wing(f: Filter, interp: bool, x: Signal, at: int, inc: int, position: nat, step: nat, end: nat, v: Word)
    : Word
    requires ValidFilter(f) && end <= |f.imp| && step > 0
    decreases end * A_ONE - position
  {
    if position / A_ONE >= end then v
    else
      Wing(f, interp, x, at + inc, inc, position + step, step, end,
           Wrap(v + Product(Coefficient(f, interp, position), x(at))))
  }

  /** The sum that the fast loop adds up: entry `h` of the table, then every 256th. */
  function FastWing(f: Filter, interp: bool, x: Signal, at: int, inc: int, h: nat, a: nat, end: nat, v: Word): Word
    requires ValidFilter(f) && end <= |f.imp| && a < A_ONE
    decreases end - h
  {
    if h >= end then v
    else
      FastWing(f, interp, x, at + inc, inc, h + NPC, a, end,
               Wrap(v + Product(f.imp[h] + (if interp then f.impD[h] * a / A_ONE else 0), x(at))))
  }

  /** With a step of one filter period the general loop reads the same entries, interpolation
      weights and samples as the fast one. */
  lemma {:induction false} FastWingIsWing(
    f: Filter, interp: bool, x: Signal, at: int, inc: int, position: nat, end: nat, v: Word)
    requires ValidFilter(f) && end <= |f.imp|
    ensures FastWing(f, interp, x, at, inc, position / A_ONE, position % A_ONE, end, v)
            == Wing(f, interp, x, at, inc, position, ONE, end, v)
    decreases end * A_ONE - position
  {
    hide Product;
    var h, a := position / A_ONE, position % A_ONE;
    if h < end {
      assert (position + ONE) / A_ONE == h + NPC && (position + ONE) % A_ONE == a;
      FastWingIsWing(f, interp, x, at + inc, inc, position + ONE, end,
                     Wrap(v + Product(Coefficient(f, interp, position), x(at))));
    }
  }

  /** Where a wing starts: the right one has skipped its first sample if the phase is zero, and drops
      the last entry of the table. */
  function Start(ph: nat, dhb: nat, right: bool): nat {
    ph * dhb / ONE + if right && ph == 0 then dhb else 0
  }

  function End(f: Filter, right: bool): nat
    requires ValidFilter(f)
  {
    if right then |f.imp| - 1 else |f.imp|
  }

  /** The way along the samples. */
  function Direction(right: bool): int {
    if right then 1 else -1
  }

  /** What `FilterUD` returns. */
  function FilterSum(f: Filter, interp: bool, x: Signal, at: int, ph: nat, right: bool, dhb: nat): Word
    requires ValidFilter(f) && ph < ONE && dhb > 0
  {
    Wing(f, interp, x, at, Direction(right), Start(ph, dhb, right), dhb, End(f, right), 0)
  }

  /** What `FilterUp` returns. */
  function FastSum(f: Filter, interp: bool, x: Signal, at: int, ph: nat, right: bool): Word
    requires ValidFilter(f) && ph < ONE
  {
    FastWing(f, interp, x, at, Direction(right), ph / A_ONE + (if right && ph == 0 then NPC else 0), ph % A_ONE,
             End(f, right), 0)
  }

  /** The fast loop computes what the general one does with a step of one filter period. */
  lemma FastSumIsFilterSum(f: Filter, interp: bool, x: Signal, at: int, ph: nat, right: bool)
    requires ValidFilter(f) && ph < ONE
    ensures FastSum(f, interp, x, at, ph, right) == FilterSum(f, interp, x, at, ph, right, ONE)
  {
    hide Wing, FastWing;
    StartIs(ph, right);
    FastWingIsWing(f, interp, x, at, Direction(right), Start(ph, ONE, right), End(f, right), 0);
  }

  // ----- The loops

  function Tap(position: nat, step: nat, j: nat): nat {
    position + j * step
  }

  /** The part of the buffer that a wing may read. */
  ghost predicate WingInside(f: Filter, at: int, right: bool, position: nat, step: nat, offset: int, length: nat)
    requires ValidFilter(f)
  {
    forall j: nat | Tap(position, step, j) / A_ONE < End(f, right) ::
      0 <= offset + at + Direction(right) * j < length
  }

  lemma TapNext(position: nat, step: nat, j: nat)
    ensures Tap(position, step, 0) == position
    ensures Tap(position, step, j + 1) == Tap(position, step, j) + step
  {
  }

  lemma WingUnfold(
    f: Filter, interp: bool, x: Signal, at: int, inc: int, position: nat, step: nat, end: nat, v: Word)
    requires ValidFilter(f) && end <= |f.imp| && step > 0
    ensures Wing(f, interp, x, at, inc, position, step, end, v)
            == if position / A_ONE >= end then v
               else Wing(f, interp, x, at + inc, inc, position + step, step, end,
                         Wrap(v + Product(Coefficient(f, interp, position), x(at))))
  {
    hide Product;
  }

  function SignalOf(xs: seq<Hword>, offset: int): Signal {
    (i: int) => if 0 <= offset + i < |xs| then xs[offset + i] else 0
  }

  lemma StartIs(ph: nat, right: bool)
    requires ph < ONE
    ensures var position := Start(ph, ONE, right);
            && position / A_ONE == ph / A_ONE + (if right && ph == 0 then NPC else 0)
            && position % A_ONE == ph % A_ONE
  {
  }

  lemma TapIndex(position: nat, j: nat)
    ensures Tap(position, ONE, j) / A_ONE == position / A_ONE + NPC * j
  {
    assert Tap(position, ONE, j) == position + A_ONE * (NPC * j);
  }

  lemma FastWingUnfold(f: Filter, interp: bool, x: Signal, at: int, inc: int, h: nat, a: nat, end: nat, v: Word)
    requires ValidFilter(f) && end <= |f.imp| && a < A_ONE
    ensures FastWing(f, interp, x, at, inc, h, a, end, v)
            == if h >= end then v
               else FastWing(f, interp, x, at + inc, inc, h + NPC, a, end,
                             Wrap(v + Product(f.imp[h] + (if interp then f.impD[h] * a / A_ONE else 0), x(at))))
  {
    hide Product;
  }

  /** The fast loop: table positions and the fraction for interpolation are set up once. */
  method FilterUp(f: Filter, interp: bool, xs: array<Hword>, offset: int, at: int, ph: nat, right: bool)
    returns (v: Word)
    requires ValidFilter(f) && ph < ONE
    requires WingInside(f, at, right, Start(ph, ONE, right), ONE, offset, xs.Length)
    ensures v == FastSum(f, interp, SignalOf(xs[..], offset), at, ph, right)
  {
    hide Product, FastWing, Wing, Tap, Wrap, Start;
    ghost var x, start := SignalOf(xs[..], offset), Start(ph, ONE, right);
    v := 0;
    var hp, hdp, a := ph / A_ONE, ph / A_ONE, ph % A_ONE;
    var end := |f.imp|;
    var xp, inc := at, -1;
    if right {
      inc := 1;
      end := end - 1;
      if ph == 0 {
        hp, hdp := hp + NPC, hdp + NPC;
      }
    }
    StartIs(ph, right);
    ghost var j: nat := 0;
    while hp < end
      invariant hdp == hp == start / A_ONE + NPC * j && xp == at + inc * j
      invariant FastWing(f, interp, x, xp, inc, hp, a, end, v) == FastSum(f, interp, x, at, ph, right)
      decreases end - hp
    {
      TapIndex(start, j);
      FastWingUnfold(f, interp, x, xp, inc, hp, a, end, v);
      var t: int := f.imp[hp];
      if interp {
        t := t + f.impD[hdp] * a / A_ONE;
      }
      hdp := hdp + NPC;
      v := Wrap(v + Product(t, xs[offset + xp]));
      hp := hp + NPC;
      xp := xp + inc;
      j := j + 1;
    }
    FastWingUnfold(f, interp, x, xp, inc, hp, a, end, v);
  }

  /** The general loop: position and fraction are taken from `ho` at every step. */
  method FilterUD(f: Filter, interp: bool, xs: array<Hword>, offset: int, at: int, ph: nat, right: bool, dhb: nat)
    returns (v: Word)
    requires ValidFilter(f) && ph < ONE && 0 < dhb <= ONE
    requires WingInside(f, at, right, Start(ph, dhb, right), dhb, offset, xs.Length)
    ensures v == FilterSum(f, interp, SignalOf(xs[..], offset), at, ph, right, dhb)
  {
    hide Product, Wing, Tap, Wrap, Start;
    ghost var x, start := SignalOf(xs[..], offset), Start(ph, dhb, right);
    v := 0;
    var ho := ph * dhb / ONE;
    var end := |f.imp|;
    var xp, inc := at, -1;
    if right {
      inc := 1;
      end := end - 1;
      if ph == 0 {
        ho := ho + dhb;
      }
    }
    ghost var j: nat := 0;
    assert ho == start by { StartUnfold(ph, dhb, right); }
    TapNext(start, dhb, 0);
    while ho / A_ONE < end
      invariant ho == Tap(start, dhb, j) && xp == at + inc * j
      invariant Wing(f, interp, x, xp, inc, ho, dhb, end, v) == FilterSum(f, interp, x, at, ph, right, dhb)
      decreases end * A_ONE - ho
    {
      TapNext(start, dhb, j);
      WingUnfold(f, interp, x, xp, inc, ho, dhb, end, v);
      var t: int := f.imp[ho / A_ONE];
      if interp {
        t := t + f.impD[ho / A_ONE] * (ho % A_ONE) / A_ONE;
      }
      v := Wrap(v + Product(t, xs[offset + xp]));
      ho := ho + dhb;
      xp := xp + inc;
      j := j + 1;
    }
    WingUnfold(f, interp, x, xp, inc, ho, dhb, end, v);
  }

  lemma StartUnfold(ph: nat, dhb: nat, right: bool)
    ensures Start(ph, dhb, right) == ph * dhb / ONE + if right && ph == 0 then dhb else 0
  {
  }
}
