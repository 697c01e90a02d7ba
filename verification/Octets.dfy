/** Octets, exclusive or, and big-endian (network order) integers. */
module Octets {

  type Octet = x: int | 0 <= x < 256

  type Octets = seq<Octet>

  /** Exclusive or of the `width` low-order bits of two numbers. */
  function XorBits(a: nat, b: nat, width: nat): (r: nat)
    ensures r < Pow2(width)
  {
    if width == 0 then 0
    else 2 * XorBits(a / 2, b / 2, width - 1) + (if a % 2 == b % 2 then 0 else 1)
  }

  function Pow2(width: nat): nat {
    if width == 0 then 1 else 2 * Pow2(width - 1)
  }

  lemma {:induction false} XorBitsTwice(a: nat, b: nat, width: nat)
    requires a < Pow2(width)
    ensures XorBits(XorBits(a, b, width), b, width) == a
  {
    if width > 0 {
      XorBitsTwice(a / 2, b / 2, width - 1);
      var low := if a % 2 == b % 2 then 0 else 1;
      assert XorBits(a, b, width) == 2 * XorBits(a / 2, b / 2, width - 1) + low;
      assert XorBits(a, b, width) / 2 == XorBits(a / 2, b / 2, width - 1) && XorBits(a, b, width) % 2 == low;
    }
  }

  function Xor(a: Octet, b: Octet): Octet {
    assert Pow2(8) == 256 by { Pow2Of8(); }
    XorBits(a, b, 8)
  }

  lemma Pow2Of8()
    ensures Pow2(8) == 256
  {
    assert Pow2(4) == 16;
  }

  lemma XorTwice(a: Octet, k: Octet)
    ensures Xor(Xor(a, k), k) == a
  {
    Pow2Of8();
    XorBitsTwice(a, k, 8);
  }

  /** Bit `i` of the binary notation is set. */
  predicate Bit(n: nat, i: nat) {
    if i == 0 then n % 2 == 1 else Bit(n / 2, i - 1)
  }

  lemma {:induction false} XorBitsAt(a: nat, b: nat, width: nat, i: nat)
    requires i < width
    ensures Bit(XorBits(a, b, width), i) <==> Bit(a, i) != Bit(b, i)
  {
    var half, low := XorBits(a / 2, b / 2, width - 1), if a % 2 == b % 2 then 0 else 1;
    assert XorBits(a, b, width) == 2 * half + low;
    if i > 0 {
      XorBitsAt(a / 2, b / 2, width - 1, i - 1);
      assert XorBits(a, b, width) / 2 == half;
    }
  }

  /** A bit of the result is set exactly if it is set in one of the two. */
  lemma XorIsExclusive(a: Octet, b: Octet, i: nat)
    requires i < 8
    ensures Bit(Xor(a, b), i) <==> Bit(a, i) != Bit(b, i)
  {
    hide XorBits, Bit;
    XorBitsAt(a, b, 8, i);
    XorIs(a, b);
  }

  lemma XorIs(a: Octet, b: Octet)
    ensures Xor(a, b) == XorBits(a, b, 8)
  {
  }

  /** Octets under a keystream of zeros stay as they are. */
  lemma XorZero(a: Octet)
    ensures Xor(a, 0) == a
  {
    assert XorBits(0, 0, 8) == 0;
    Pow2Of8();
    XorWithZeros(a, 8);
  }

  lemma {:induction false} XorWithZeros(a: nat, width: nat)
    requires a < Pow2(width)
    ensures XorBits(a, 0, width) == a
  {
    if width > 0 {
      XorWithZeros(a / 2, width - 1);
    }
  }

  /** The octets of `data` combined with the octets `key(at), key(at + 1), ...`. */
  function XorWith(data: Octets, key: nat -> Octet, at: nat): (r: Octets)
    ensures |r| == |data|
    ensures forall i :: 0 <= i < |data| ==> r[i] == Xor(data[i], key(at + i))
  {
    seq(|data|, i requires 0 <= i < |data| => Xor(data[i], key(at + i)))
  }

  lemma XorWithTwice(data: Octets, key: nat -> Octet, at: nat)
    ensures XorWith(XorWith(data, key, at), key, at) == data
  {
    forall i | 0 <= i < |data|
      ensures XorWith(XorWith(data, key, at), key, at)[i] == data[i]
    {
      XorTwice(data[i], key(at + i));
    }
  }

  /** The `width` low-order octets of `n`, most significant first. */
  function BigEndian(n: nat, width: nat): (r: Octets)
    ensures |r| == width
  {
    if width == 0 then [] else BigEndian(n / 256, width - 1) + [n % 256]
  }

  function Value(b: Octets): nat {
    if b == [] then 0 else Value(b[..|b| - 1]) * 256 + b[|b| - 1]
  }

  function Pow256(width: nat): (r: nat)
    ensures r > 0
  {
    if width == 0 then 1 else 256 * Pow256(width - 1)
  }

  lemma {:induction false} ValueOfBigEndian(n: nat, width: nat)
    requires n < Pow256(width)
    ensures Value(BigEndian(n, width)) == n
  {
    if width > 0 {
      ValueOfBigEndian(n / 256, width - 1);
      assert BigEndian(n, width)[..width - 1] == BigEndian(n / 256, width - 1);
    }
  }

  /** Big-endian coding of in-range numbers is injective. */
  lemma BigEndianInjective(m: nat, n: nat, width: nat)
    requires m < Pow256(width) && n < Pow256(width)
    requires BigEndian(m, width) == BigEndian(n, width)
    ensures m == n
  {
    ValueOfBigEndian(m, width);
    ValueOfBigEndian(n, width);
  }

  lemma {:induction false} ValueOfConcat(a: Octets, b: Octets)
    ensures Value(a + b) == Value(a) * Pow256(|b|) + Value(b)
    decreases |b|
  {
    if b == [] {
      assert a + b == a;
    } else {
      var c := b[..|b| - 1];
      ValueOfConcat(a, c);
      assert (a + b)[..|a + b| - 1] == a + c;
      Regroup(Value(a), Pow256(|c|), Value(c), b[|b| - 1]);
    }
  }

  lemma Regroup(a: nat, p: nat, c: nat, low: nat)
    ensures (a * p + c) * 256 + low == a * (256 * p) + (c * 256 + low)
  {
  }

  /** The four leading octets of an eight-octet number are its upper half. */
  lemma BigEndianUpperHalf(n: nat)
    ensures BigEndian(n, 8)[..4] == BigEndian(n / 256 / 256 / 256 / 256, 4)
  {
    var n1, n2, n3 := n / 256, n / 256 / 256, n / 256 / 256 / 256;
    assert BigEndian(n, 8) == BigEndian(n1, 7) + [n % 256];
    assert BigEndian(n1, 7) == BigEndian(n2, 6) + [n1 % 256];
    assert BigEndian(n2, 6) == BigEndian(n3, 5) + [n2 % 256];
    assert BigEndian(n3, 5) == BigEndian(n3 / 256, 4) + [n3 % 256];
  }

  /** The 16-bit and 32-bit fields of a packet, in network order. */
  function U16(b: Octets, at: nat): (r: nat)
    requires at + 2 <= |b|
    ensures r < 0x1_0000
  {
    b[at] as int * 256 + b[at + 1] as int
  }

  function U32(b: Octets, at: nat): (r: nat)
    requires at + 4 <= |b|
    ensures r < 0x1_0000_0000
  {
    U16(b, at) * 0x1_0000 + U16(b, at + 2)
  }

  lemma BigEndianStep(high: nat, low: Octet, width: nat)
    ensures BigEndian(high * 256 + low as int, width + 1) == BigEndian(high, width) + [low]
  {
  }

  /** A 32-bit field holds exactly the big-endian coding of its value. */
  lemma BigEndianOfU32(b: Octets, at: nat)
    requires at + 4 <= |b|
    ensures BigEndian(U32(b, at), 4) == b[at..at + 4]
  {
    hide BigEndian;
    var n1, n2, n3: nat := b[at] as int, b[at] as int * 256 + b[at + 1] as int, U16(b, at) * 256 + b[at + 2] as int;
    BigEndianStep(0, b[at], 0);
    BigEndianStep(n1, b[at + 1], 1);
    BigEndianStep(n2, b[at + 2], 2);
    BigEndianStep(n3, b[at + 3], 3);
    assert U32(b, at) == n3 * 256 + b[at + 3] as int;
    assert BigEndian(0, 0) == [];
  }

  lemma ValueOfFields(b: Octets, at: nat)
    ensures at + 2 <= |b| ==> Value(b[at..at + 2]) == U16(b, at)
    ensures at + 4 <= |b| ==> Value(b[at..at + 4]) == U32(b, at)
  {
    if at + 2 <= |b| {
      ValueOfTwo(b[at], b[at + 1]);
      assert b[at..at + 2] == [b[at], b[at + 1]];
      if at + 4 <= |b| {
        ValueOfTwo(b[at + 2], b[at + 3]);
        assert b[at..at + 4] == [b[at], b[at + 1]] + [b[at + 2], b[at + 3]];
        ValueOfConcat([b[at], b[at + 1]], [b[at + 2], b[at + 3]]);
        assert Pow256(2) == 0x1_0000;
      }
    }
  }

  lemma ValueOfTwo(high: Octet, low: Octet)
    ensures Value([high, low]) == high as int * 256 + low as int
  {
    assert [high][..0] == [] && Value([high]) == high;
    assert [high, low][..1] == [high];
  }
}
