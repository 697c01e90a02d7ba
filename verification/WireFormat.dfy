/** RTP packets put together from their fields, and what protecting makes of them octet by octet (section 5.1
    of RFC 3550, section 3.1 of RFC 3711, RFC 7714). */
module WireFormat {
  import opened Octets
  import opened SrtpStatus
  import opened InitVectors
  import opened RtpPacket

  // ----- Packets from fields

  datatype Extension = Extension(profile: nat, data: Octets)

  datatype Fields = Fields(
    version: nat, padding: bool, sources: seq<nat>, marker: bool, payloadType: nat, sequence: nat,
    timestamp: nat, ssrc: nat, extension: Option<Extension>, payload: Octets)

  predicate InRange(h: Fields) {
    && h.version < 4 && |h.sources| < 16 && h.payloadType < 128
    && h.sequence < 0x1_0000 && h.timestamp < 0x1_0000_0000 && h.ssrc < 0x1_0000_0000
    && (forall i | 0 <= i < |h.sources| :: h.sources[i] < 0x1_0000_0000)
    && (h.extension.Some? ==>
          && h.extension.value.profile < 0x1_0000
          && |h.extension.value.data| % 4 == 0 && |h.extension.value.data| / 4 < 0x1_0000)
  }

  function Flag(b: bool): nat {
    if b then 1 else 0
  }

  function Words(values: seq<nat>): (r: Octets)
    ensures |r| == 4 * |values|
  {
    if values == [] then [] else BigEndian(values[0], 4) + Words(values[1..])
  }

  /** The twelve octets that every packet starts with. */
  function FixedHeader(h: Fields): (r: Octets)
    requires InRange(h)
    ensures |r| == 12
  {
    [h.version * 64 + Flag(h.padding) * 32 + Flag(h.extension.Some?) * 16 + |h.sources|,
     Flag(h.marker) * 128 + h.payloadType]
    + BigEndian(h.sequence, 2) + BigEndian(h.timestamp, 4) + BigEndian(h.ssrc, 4)
  }

  function ExtensionOctets(x: Option<Extension>): Octets {
    if x.None? then []
    else BigEndian(x.value.profile, 2) + BigEndian(|x.value.data| / 4, 2) + x.value.data
  }

  /** All but the payload. */
  function HeaderOctets(h: Fields): Octets
    requires InRange(h)
  {
    FixedHeader(h) + Words(h.sources) + ExtensionOctets(h.extension)
  }

  function Packet(h: Fields): Octets
    requires InRange(h)
  {
    HeaderOctets(h) + h.payload
  }

  // ----- Reading the fields back

  lemma FieldAt(p: Octets, at: nat, n: nat)
    ensures at + 2 <= |p| && p[at..at + 2] == BigEndian(n, 2) && n < 0x1_0000 ==> U16(p, at) == n
    ensures at + 4 <= |p| && p[at..at + 4] == BigEndian(n, 4) && n < 0x1_0000_0000 ==> U32(p, at) == n
  {
    hide BigEndian, Value;
    ValueOfFields(p, at);
    PowersOf256();
    if n < 0x1_0000 {
      ValueOfBigEndian(n, 2);
    }
    if n < 0x1_0000_0000 {
      ValueOfBigEndian(n, 4);
    }
  }

  lemma FixedFields(h: Fields, p: Octets)
    requires InRange(h) && |p| >= 12 && p[..12] == FixedHeader(h)
    ensures CsrcCount(p) == |h.sources| && HasExtension(p) == h.extension.Some?
    ensures Sequence(p) == h.sequence && Ssrc(p) == h.ssrc
  {
    hide BigEndian, U16, U32;
    var r := FixedHeader(h);
    assert p[0] == r[0];
    assert p[2..4] == r[2..4] == BigEndian(h.sequence, 2);
    assert p[8..12] == r[8..12] == BigEndian(h.ssrc, 4);
    FieldAt(p, 2, h.sequence);
    FieldAt(p, 8, h.ssrc);
  }

  /** Every field is read where it was written, and the regions are those of the parts. */
  lemma PacketFields(h: Fields)
    requires InRange(h)
    ensures var p := Packet(h);
            && ValidHeader(p) && Sequence(p) == h.sequence && Ssrc(p) == h.ssrc
            && CsrcEnd(p) == 12 + 4 * |h.sources| && HasExtension(p) == h.extension.Some?
            && EncStart(p) == |HeaderOctets(h)| && p[..EncStart(p)] == HeaderOctets(h) && p[EncStart(p)..] == h.payload
            && (h.extension.Some? ==>
                  && U16(p, CsrcEnd(p)) == h.extension.value.profile
                  && LayoutEnd(p) == CsrcEnd(p) + 4 && p[LayoutEnd(p)..EncStart(p)] == h.extension.value.data)
  {
    hide BigEndian, U16, U32, FixedHeader, Words, Sequence, Ssrc;
    var p, at := Packet(h), 12 + 4 * |h.sources|;
    assert p[..12] == FixedHeader(h);
    FixedFields(h, p);
    if h.extension.Some? {
      var x := h.extension.value;
      assert p[at..at + 2] == BigEndian(x.profile, 2) && p[at + 2..at + 4] == BigEndian(|x.data| / 4, 2);
      FieldAt(p, at, x.profile);
      FieldAt(p, at + 2, |x.data| / 4);
    }
    assert p[|HeaderOctets(h)|..] == h.payload;
  }

  /** Every packet that passes the header check is put together in this way. */
  function FieldsOf(p: Octets): Fields
    requires ValidHeader(p)
  {
    Fields(p[0] / 64, p[0] / 32 % 2 == 1, seq(CsrcCount(p), i requires 0 <= i < CsrcCount(p) => U32(p, 12 + 4 * i)),
           p[1] / 128 == 1, p[1] % 128, U16(p, 2), U32(p, 4), U32(p, 8),
           if HasExtension(p) then Some(Extension(U16(p, CsrcEnd(p)), p[LayoutEnd(p)..EncStart(p)])) else None,
           p[EncStart(p)..])
  }

  lemma BigEndianOfU16(b: Octets, at: nat)
    requires at + 2 <= |b|
    ensures BigEndian(U16(b, at), 2) == b[at..at + 2]
  {
    hide BigEndian;
    BigEndianStep(0, b[at], 0);
    BigEndianStep(b[at] as int, b[at + 1], 1);
    assert BigEndian(0, 0) == [];
  }

  lemma {:induction false} WordsRead(p: Octets, values: seq<nat>, at: nat)
    requires at + 4 * |values| <= |p| && forall i | 0 <= i < |values| :: values[i] == U32(p, at + 4 * i)
    ensures Words(values) == p[at..at + 4 * |values|]
    decreases |values|
  {
    hide BigEndian, U32;
    if values != [] {
      BigEndianOfU32(p, at);
      forall i | 0 <= i < |values| - 1
        ensures values[1..][i] == U32(p, at + 4 + 4 * i)
      {
        assert values[1..][i] == values[i + 1];
      }
      WordsRead(p, values[1..], at + 4);
    }
  }

  lemma BitFields(b: Octet)
    ensures b == b / 64 * 64 + b / 32 % 2 * 32 + b / 16 % 2 * 16 + b % 16
    ensures b / 64 < 4 && b / 32 % 2 < 2 && b / 16 % 2 < 2 && b == b / 128 * 128 + b % 128 && b / 128 < 2
  {
  }

  lemma FieldsInRange(p: Octets)
    requires ValidHeader(p)
    ensures InRange(FieldsOf(p))
  {
    hide U16, U32;
    BitFields(p[0]);
    if HasExtension(p) {
      assert |p[LayoutEnd(p)..EncStart(p)]| == 4 * U16(p, CsrcEnd(p) + 2);
    }
  }

  lemma FirstOctets(p: Octets)
    requires ValidHeader(p)
    ensures InRange(FieldsOf(p)) && FixedHeader(FieldsOf(p)) == p[..12]
  {
    hide BigEndian, U16, U32, InRange;
    FieldsInRange(p);
    BitFields(p[0]);
    BitFields(p[1]);
    BigEndianOfU16(p, 2);
    BigEndianOfU32(p, 4);
    BigEndianOfU32(p, 8);
    assert p[..12] == [p[0], p[1]] + p[2..4] + p[4..8] + p[8..12];
  }

  lemma FieldsAssemble(p: Octets)
    requires ValidHeader(p)
    ensures InRange(FieldsOf(p)) && Packet(FieldsOf(p)) == p
  {
    hide BigEndian, U16, U32, FixedHeader, Words, InRange;
    var h := FieldsOf(p);
    FirstOctets(p);
    WordsRead(p, h.sources, 12);
    assert p[..CsrcEnd(p)] == p[..12] + p[12..CsrcEnd(p)];
    if h.extension.Some? {
      var at := CsrcEnd(p);
      BigEndianOfU16(p, at);
      BigEndianOfU16(p, at + 2);
      assert p[at..EncStart(p)] == p[at..at + 2] + p[at + 2..at + 4] + p[at + 4..EncStart(p)];
    }
    assert p == p[..CsrcEnd(p)] + p[CsrcEnd(p)..EncStart(p)] + p[EncStart(p)..];
  }
}
