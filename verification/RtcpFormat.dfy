/** The octets of a protected RTCP packet, from the fields of the packet, the keys and the index (section 3.4 of
    RFC 3711, section 9 of RFC 7714). */
module RtcpFormat {
  import opened Octets
  import opened Crypto
  import opened InitVectors
  import opened RtpPacket
  import opened RtcpPacket
  import opened WireFormat
  import opened ProtectedFormat

  // ----- Packets from fields

  datatype RtcpFields = RtcpFields(
    version: nat, padding: bool, count: nat, kind: nat, length: nat, sender: nat, body: Octets)

  predicate RtcpInRange(h: RtcpFields) {
    && h.version < 4 && h.count < 32 && h.kind < 256 && h.length < 0x1_0000 && h.sender < 0x1_0000_0000
  }

  function RtcpHeader(h: RtcpFields): (r: Octets)
    requires RtcpInRange(h)
    ensures |r| == 8
  {
    [h.version * 64 + Flag(h.padding) * 32 + h.count, h.kind] + BigEndian(h.length, 2) + BigEndian(h.sender, 4)
  }

  function RtcpOctets(h: RtcpFields): Octets
    requires RtcpInRange(h)
  {
    RtcpHeader(h) + h.body
  }

  lemma RtcpFieldsRead(h: RtcpFields)
    requires RtcpInRange(h)
    ensures var p := RtcpOctets(h); |p| >= 8 && RtcpSsrc(p) == h.sender && p[..8] == RtcpHeader(h) && p[8..] == h.body
  {
    hide BigEndian, U32;
    var p := RtcpOctets(h);
    assert p[4..8] == BigEndian(h.sender, 4);
    FieldAt(p, 4, h.sender);
  }

  function RtcpFieldsOf(p: Octets): RtcpFields
    requires |p| >= 8
  {
    RtcpFields(p[0] / 64, p[0] / 32 % 2 == 1, p[0] % 32, p[1], U16(p, 2), U32(p, 4), p[8..])
  }

  lemma LowFive(b: Octet)
    ensures b / 64 < 4 && b % 32 < 32 && b == b / 64 * 64 + (if b / 32 % 2 == 1 then 1 else 0) * 32 + b % 32
  {
  }

  /** Every packet that is long enough is put together in this way. */
  lemma RtcpFieldsAssemble(p: Octets)
    requires |p| >= 8
    ensures RtcpInRange(RtcpFieldsOf(p)) && RtcpOctets(RtcpFieldsOf(p)) == p
  {
    hide BigEndian, U16, U32;
    LowFive(p[0]);
    BigEndianOfU16(p, 2);
    BigEndianOfU32(p, 4);
    assert p == [p[0], p[1]] + p[2..4] + p[4..8] + p[8..];
  }

  // ----- The protected packet

  function SaltedRtcpVector(salt: Salt, ssrc: nat, index: nat): (r: Octets)
    ensures |r| == 16
  {
    var a := BigEndian(0, 2) + BigEndian(ssrc, 4) + BigEndian(0, 2) + BigEndian(index, 4);
    seq<Octet>(16, i requires 0 <= i < 16 => if i < 12 then Xor(a[i], salt[i]) else 0)
  }

  function RtcpVectorFor(k: RtcpKeys, ssrc: nat, index: nat): Octets {
    if k.gcm then SaltedRtcpVector(k.salt, ssrc, index)
    else if k.cipher.algorithm.Icm? then CounterVector(ssrc, index)
    else BigEndian(0, 8) + BigEndian(index, 8)
  }

  function ProtectedRtcp(prim: Primitives, k: RtcpKeys, conf: bool, h: RtcpFields, index: nat): RtcpFields {
    if !conf then h
    else
      var key := Stream(prim, k.cipher, RtcpVectorFor(k, h.sender, index));
      h.(body := seq<Octet>(|h.body|, j requires 0 <= j < |h.body| => Xor(h.body[j], key(j))))
  }

  /** The E bit in front of the 31-bit index. */
  function IndexField(conf: bool, index: nat): Octets {
    BigEndian(Flag(conf) * 0x8000_0000 + index, 4)
  }

  function RtcpTrailers(prim: Primitives, k: RtcpKeys, conf: bool, g: RtcpFields, index: nat, useMki: bool): Octets
    requires RtcpInRange(g)
  {
    var mki, field := if useMki then k.mki else [], IndexField(conf, index);
    if k.gcm then
      var iv := SaltedRtcpVector(k.salt, g.sender, index);
      var aad, text := RtcpHeader(g) + (if conf then [] else g.body) + field, if conf then g.body else [];
      seq<Octet>(k.tagLen, i requires 0 <= i < k.tagLen => prim.aeadTag(k.cipher.key, iv, aad, text, i)) + field + mki
    else
      var covered := RtcpOctets(g) + field;
      field + mki + seq<Octet>(k.tagLen, i requires 0 <= i < k.tagLen => prim.tag(k.authKey, covered, i))
  }

  lemma SaltedRtcpIs(salt: Salt, ssrc: nat, index: nat)
    ensures SaltedRtcpVector(salt, ssrc, index) == XorOctets(GcmRtcpInput(ssrc, index), salt + BigEndian(0, 4))
  {
    hide BigEndian, Xor;
    ZeroOctets(4);
    XorZero(0);
    var a, b := GcmRtcpInput(ssrc, index), salt + BigEndian(0, 4);
    forall i | 0 <= i < 16
      ensures SaltedRtcpVector(salt, ssrc, index)[i] == XorOctets(a, b)[i]
    {
      if i >= 12 {
        assert a[i] == BigEndian(0, 4)[i - 12] == 0 && b[i] == BigEndian(0, 4)[i - 12];
      }
    }
  }

  lemma RtcpVectorIs(k: RtcpKeys, ssrc: nat, index: nat)
    ensures RtcpVectorFor(k, ssrc, index) == RtcpIv(k, ssrc, index)
  {
    hide BigEndian, Xor, XorOctets, SaltedRtcpVector;
    SaltedRtcpIs(k.salt, ssrc, index);
    ShiftedIndex(index);
    assert BigEndian(0, 4) + BigEndian(ssrc, 4) + (BigEndian(index, 6) + [0, 0]) == CounterVector(ssrc, index);
  }

  lemma RtcpEncryptedIs(prim: Primitives, k: RtcpKeys, conf: bool, h: RtcpFields, index: nat)
    requires RtcpInRange(h)
    ensures |RtcpOctets(h)| >= 8 && RtcpInRange(ProtectedRtcp(prim, k, conf, h, index))
    ensures CryptRtcp(prim, k, conf, RtcpOctets(h), index) == RtcpOctets(ProtectedRtcp(prim, k, conf, h, index))
  {
    hide BigEndian, Xor, RtcpVectorFor, RtcpIv, Stream, KeystreamOf, RtcpSsrc;
    RtcpFieldsRead(h);
    RtcpVectorIs(k, h.sender, index);
    StreamIs(prim, k.cipher, RtcpIv(k, h.sender, index));
    assert RtcpHeader(ProtectedRtcp(prim, k, conf, h, index)) == RtcpHeader(h);
  }

  lemma RtcpVectorSalted(k: RtcpKeys, ssrc: nat, index: nat)
    requires k.gcm
    ensures RtcpVectorFor(k, ssrc, index) == SaltedRtcpVector(k.salt, ssrc, index)
  {
  }

  lemma RtcpTrailersAre(prim: Primitives, k: RtcpKeys, conf: bool, g: RtcpFields, index: nat, useMki: bool)
    requires RtcpInRange(g)
    ensures |RtcpOctets(g)| >= 8
    ensures var field, mki := Trailer(conf, index), RtcpMki(k, useMki);
            var tag := RtcpTag(prim, k, conf, RtcpOctets(g), field, index);
            RtcpTrailers(prim, k, conf, g, index, useMki) == if k.gcm then tag + field + mki else field + mki + tag
  {
    hide BigEndian, RtcpSsrc, RtcpIv, SaltedRtcpVector, RtcpVectorFor, RtcpHeader;
    RtcpFieldsRead(g);
    if k.gcm {
      RtcpVectorIs(k, g.sender, index);
      RtcpVectorSalted(k, g.sender, index);
      if !conf {
        assert RtcpHeader(g) + g.body + IndexField(conf, index) == RtcpOctets(g) + Trailer(conf, index);
      } else {
        assert RtcpHeader(g) + [] == RtcpHeader(g);
      }
    }
  }

  /** What protecting makes of a packet: all but the header is encrypted with the service, and E bit, index, key
      identifier and tag follow; with an authenticated cipher the tag comes first. */
  lemma RtcpFormatIs(prim: Primitives, k: RtcpKeys, conf: bool, h: RtcpFields, index: nat, useMki: bool)
    requires RtcpInRange(h)
    ensures |RtcpOctets(h)| >= 8
    ensures var g := ProtectedRtcp(prim, k, conf, h, index);
            && RtcpInRange(g) && RtcpHeader(g) == RtcpHeader(h)
            && SealRtcp(prim, k, conf, RtcpOctets(h), index, useMki)
               == RtcpOctets(g) + RtcpTrailers(prim, k, conf, g, index, useMki)
  {
    hide BigEndian, RtcpSsrc, RtcpIv, Xor, Stream, RtcpTag, IndexField, Trailer, RtcpTrailers, RtcpOctets,
         RtcpVectorFor;
    RtcpEncryptedIs(prim, k, conf, h, index);
    var g := ProtectedRtcp(prim, k, conf, h, index);
    RtcpFieldsRead(h);
    RtcpTrailersAre(prim, k, conf, g, index, useMki);
    if k.gcm {
      assert RtcpOctets(g) + RtcpTag(prim, k, conf, RtcpOctets(g), Trailer(conf, index), index) + Trailer(conf, index)
             + RtcpMki(k, useMki) == RtcpOctets(g) + RtcpTrailers(prim, k, conf, g, index, useMki);
    } else {
      assert RtcpOctets(g) + Trailer(conf, index) + RtcpMki(k, useMki)
             + RtcpTag(prim, k, conf, RtcpOctets(g), Trailer(conf, index), index)
             == RtcpOctets(g) + RtcpTrailers(prim, k, conf, g, index, useMki);
    }
  }
}
