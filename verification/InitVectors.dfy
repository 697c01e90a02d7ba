/** Initialization vectors of the RTP and RTCP ciphers, and the rollover counter octets that
    message authentication covers. */
module InitVectors {
  import opened Octets
  import opened ReplayWindow

  const SALT_LEN: nat := 12

  type Salt = s: Octets | |s| == SALT_LEN witness [0, 0, 0, 0, 0, 0, 0, 0, 0, 0, 0, 0]

  /** Counter mode: the SSRC in octets 4 to 7, the 48-bit index in octets 8 to 13. */
  function IcmIv(ssrc: nat, index: nat): Octets {
    BigEndian(0, 4) + BigEndian(ssrc, 4) + BigEndian(index * SEQ_MAX, 8)
  }

  function PlainIv(index: nat): Octets {
    BigEndian(0, 8) + BigEndian(index, 8)
  }

  /** Section 8.1 of RFC 7714 before salting: SSRC, rollover counter and sequence number. */
  function GcmInput(ssrc: nat, index: nat): (r: Octets)
    ensures |r| == 16
  {
    BigEndian(0, 2) + BigEndian(ssrc, 4) + BigEndian(index / SEQ_MAX, 4) + BigEndian(index % SEQ_MAX, 2)
    + BigEndian(0, 4)
  }

  function GcmIv(salt: Salt, ssrc: nat, index: nat): Octets {
    XorOctets(GcmInput(ssrc, index), salt + BigEndian(0, 4))
  }

  function XorOctets(a: Octets, b: Octets): (r: Octets)
    requires |a| == |b|
    ensures |r| == |a| && forall i :: 0 <= i < |a| ==> r[i] == Xor(a[i], b[i])
  {
    seq(|a|, i requires 0 <= i < |a| => Xor(a[i], b[i]))
  }

  lemma XorOctetsInjective(a: Octets, b: Octets, mask: Octets)
    requires |a| == |b| == |mask| && XorOctets(a, mask) == XorOctets(b, mask)
    ensures a == b
  {
    forall i | 0 <= i < |a|
      ensures a[i] == b[i]
    {
      XorTwice(a[i], mask[i]);
      XorTwice(b[i], mask[i]);
      assert XorOctets(a, mask)[i] == XorOctets(b, mask)[i];
    }
  }

  lemma PowersOf256()
    ensures Pow256(2) == 0x1_0000 && Pow256(4) == UINT32 && Pow256(8) == UINT64
  {
    assert Pow256(4) == 256 * (256 * (256 * 256));
    assert Pow256(8) == 256 * (256 * (256 * (256 * Pow256(4))));
  }

  lemma IcmIvInjective(ssrc1: nat, index1: nat, ssrc2: nat, index2: nat)
    requires ssrc1 < UINT32 && ssrc2 < UINT32 && index1 < INDEX_LIMIT && index2 < INDEX_LIMIT
    requires IcmIv(ssrc1, index1) == IcmIv(ssrc2, index2)
    ensures ssrc1 == ssrc2 && index1 == index2
  {
    hide BigEndian, Pow256;
    PowersOf256();
    var a, b := IcmIv(ssrc1, index1), IcmIv(ssrc2, index2);
    assert a[4..8] == BigEndian(ssrc1, 4) && b[4..8] == BigEndian(ssrc2, 4);
    assert a[8..] == BigEndian(index1 * SEQ_MAX, 8) && b[8..] == BigEndian(index2 * SEQ_MAX, 8);
    BigEndianInjective(ssrc1, ssrc2, 4);
    BigEndianInjective(index1 * SEQ_MAX, index2 * SEQ_MAX, 8);
  }

  // ----- Where the fields stand

  predicate AllZero(b: Octets) {
    forall i | 0 <= i < |b| :: b[i] == 0
  }

  lemma {:induction false} ZeroOctets(width: nat)
    ensures AllZero(BigEndian(0, width)) && Value(BigEndian(0, width)) == 0
  {
    if width > 0 {
      ZeroOctets(width - 1);
      BigEndianStep(0, 0, width - 1);
      ValueOfBigEndian(0, width);
    }
  }

  lemma ShiftedIndex(index: nat)
    ensures BigEndian(index * SEQ_MAX, 8) == BigEndian(index, 6) + [0, 0]
  {
    BigEndianStep(index, 0, 6);
    BigEndianStep(index * 256, 0, 7);
    assert index * SEQ_MAX == index * 256 * 256;
    assert BigEndian(index, 6) + [0] + [0] == BigEndian(index, 6) + [0, 0];
  }

  lemma PowerOf6()
    ensures Pow256(6) == INDEX_LIMIT
  {
    PowersOf256();
    assert Pow256(6) == 256 * (256 * Pow256(4));
  }

  /** The counter mode vector of section 4.1.1 of RFC 3711 without the salt. The last two octets are left
      to the block counter. */
  lemma IcmIvFields(ssrc: nat, index: nat)
    requires ssrc < 0x1_0000_0000 && index < 0x1_0000_0000_0000
    ensures var iv := IcmIv(ssrc, index);
            && |iv| == 16 && AllZero(iv[..4]) && AllZero(iv[14..])
            && Value(iv[4..8]) == ssrc && Value(iv[8..14]) == index
  {
    hide BigEndian, Value, Pow256, AllZero;
    PowersOf256();
    PowerOf6();
    ZeroOctets(4);
    assert AllZero([0, 0]) by { TwoZeros(); }
    ShiftedIndex(index);
    ValueOfBigEndian(ssrc, 4);
    ValueOfBigEndian(index, 6);
    var iv := IcmIv(ssrc, index);
    assert iv[..4] == BigEndian(0, 4) && iv[4..8] == BigEndian(ssrc, 4) && iv[8..14] == BigEndian(index, 6);
    assert iv[14..] == [0, 0];
  }

  lemma TwoZeros()
    ensures AllZero([0, 0]) && Value([0, 0]) == 0
  {
    ValueOfTwo(0, 0);
  }

  lemma IcmIvValue(ssrc: nat, index: nat)
    requires ssrc < 0x1_0000_0000 && index < 0x1_0000_0000_0000
    ensures Value(IcmIv(ssrc, index)) == ssrc * 0x1_0000_0000_0000_0000 + index * 0x1_0000
  {
    hide BigEndian, Value, AllZero;
    PowersOf256();
    ZeroOctets(4);
    ValueOfBigEndian(ssrc, 4);
    ValueOfBigEndian(index * SEQ_MAX, 8);
    ValueOfConcat(BigEndian(0, 4), BigEndian(ssrc, 4));
    ValueOfConcat(BigEndian(0, 4) + BigEndian(ssrc, 4), BigEndian(index * SEQ_MAX, 8));
  }

  /** Blocks of keystream are numbered from the vector on. As long as a packet has at most 2^16 of them, the
      number of a block determines SSRC, packet index and position in the packet. */
  lemma BlocksAreDisjoint(ssrc1: nat, index1: nat, block1: nat, ssrc2: nat, index2: nat, block2: nat)
    requires ssrc1 < UINT32 && ssrc2 < UINT32 && index1 < INDEX_LIMIT && index2 < INDEX_LIMIT
    requires block1 < 0x1_0000 && block2 < 0x1_0000
    requires Value(IcmIv(ssrc1, index1)) + block1 == Value(IcmIv(ssrc2, index2)) + block2
    ensures ssrc1 == ssrc2 && index1 == index2 && block1 == block2
  {
    hide IcmIv, Value;
    IcmIvValue(ssrc1, index1);
    IcmIvValue(ssrc2, index2);
  }

  /** The vector under the null cipher. */
  lemma PlainIvFields(index: nat)
    requires index < 0x1_0000_0000_0000_0000
    ensures |PlainIv(index)| == 16 && AllZero(PlainIv(index)[..8]) && Value(PlainIv(index)[8..]) == index
  {
    hide BigEndian, Value, Pow256, AllZero;
    PowersOf256();
    ZeroOctets(8);
    ValueOfBigEndian(index, 8);
    assert PlainIv(index)[..8] == BigEndian(0, 8) && PlainIv(index)[8..] == BigEndian(index, 8);
  }

  /** The authenticated cipher: zeros, SSRC, rollover counter and sequence number, each octet combined with
      that of the salt. */
  lemma GcmIvFields(salt: Salt, ssrc: nat, index: nat)
    requires ssrc < 0x1_0000_0000 && index < 0x1_0000_0000_0000
    ensures var iv, a := GcmIv(salt, ssrc, index), GcmInput(ssrc, index);
            && |iv| == |a| == 16 && AllZero(iv[12..])
            && (forall i | 0 <= i < 12 :: iv[i] == Xor(a[i], salt[i]))
            && AllZero(a[..2]) && Value(a[2..6]) == ssrc
            && Value(a[6..10]) == index / 0x1_0000 && Value(a[10..12]) == index % 0x1_0000
  {
    hide BigEndian, Value, Pow256, Xor;
    PowersOf256();
    ZeroOctets(2);
    ZeroOctets(4);
    XorZero(0);
    ValueOfBigEndian(ssrc, 4);
    ValueOfBigEndian(index / SEQ_MAX, 4);
    ValueOfBigEndian(index % SEQ_MAX, 2);
    var a := GcmInput(ssrc, index);
    assert a[..2] == BigEndian(0, 2) && a[2..6] == BigEndian(ssrc, 4) && a[12..] == BigEndian(0, 4);
    assert a[6..10] == BigEndian(index / SEQ_MAX, 4) && a[10..12] == BigEndian(index % SEQ_MAX, 2);
    forall i | 12 <= i < 16
      ensures GcmIv(salt, ssrc, index)[i] == 0
    {
      assert a[i] == a[12..][i - 12] == 0 && BigEndian(0, 4)[i - 12] == 0;
    }
  }

  lemma GcmIvInjective(salt: Salt, ssrc1: nat, index1: nat, ssrc2: nat, index2: nat)
    requires ssrc1 < UINT32 && ssrc2 < UINT32 && index1 < INDEX_LIMIT && index2 < INDEX_LIMIT
    requires GcmIv(salt, ssrc1, index1) == GcmIv(salt, ssrc2, index2)
    ensures ssrc1 == ssrc2 && index1 == index2
  {
    hide BigEndian, Pow256;
    PowersOf256();
    var a, b := GcmInput(ssrc1, index1), GcmInput(ssrc2, index2);
    XorOctetsInjective(a, b, salt + BigEndian(0, 4));
    assert a[2..6] == BigEndian(ssrc1, 4) && b[2..6] == BigEndian(ssrc2, 4);
    assert a[6..10] == BigEndian(index1 / SEQ_MAX, 4) && b[6..10] == BigEndian(index2 / SEQ_MAX, 4);
    assert a[10..12] == BigEndian(index1 % SEQ_MAX, 2) && b[10..12] == BigEndian(index2 % SEQ_MAX, 2);
    BigEndianInjective(ssrc1, ssrc2, 4);
    BigEndianInjective(index1 / SEQ_MAX, index2 / SEQ_MAX, 4);
    BigEndianInjective(index1 % SEQ_MAX, index2 % SEQ_MAX, 2);
  }

  /** The first four octets of the shifted index in network order. */
  function RocOctets(index: nat): (r: Octets)
    ensures |r| == 4
  {
    BigEndian(index * SEQ_MAX, 8)[..4]
  }

  /** They determine the rollover counter, so with the sequence number they determine the index. */
  lemma RocOctetsInjective(index1: nat, index2: nat)
    requires index1 < INDEX_LIMIT && index2 < INDEX_LIMIT
    requires RocOctets(index1) == RocOctets(index2)
    ensures index1 / SEQ_MAX == index2 / SEQ_MAX
  {
    hide BigEndian, Pow256;
    PowersOf256();
    BigEndianUpperHalf(index1 * SEQ_MAX);
    BigEndianUpperHalf(index2 * SEQ_MAX);
    ShiftedUpperHalf(index1);
    ShiftedUpperHalf(index2);
    BigEndianInjective(index1 / SEQ_MAX, index2 / SEQ_MAX, 4);
  }

  /** They are the rollover counter in network order. */
  lemma RocOctetsValue(index: nat)
    requires index < 0x1_0000_0000_0000
    ensures Value(RocOctets(index)) == index / 0x1_0000
  {
    hide BigEndian, Value, Pow256;
    PowersOf256();
    BigEndianUpperHalf(index * SEQ_MAX);
    ShiftedUpperHalf(index);
    ValueOfBigEndian(index / SEQ_MAX, 4);
  }

  lemma ShiftedUpperHalf(index: nat)
    ensures index * SEQ_MAX / 256 / 256 / 256 / 256 == index / SEQ_MAX
  {
  }
}
