/** The octets of a protected RTP packet, from the fields of the packet, the keys and the index (section 3.1
    and 4 of RFC 3711, section 3 of RFC 6904, sections 7 and 8 of RFC 7714). */
module ProtectedFormat {
  import opened Octets
  import opened SrtpStatus
  import opened Crypto
  import opened InitVectors
  import opened RtpPacket
  import opened ExtensionFormats
  import opened WireFormat
  import HeaderExtension

  // ----- Vectors and keystream

  function CounterVector(ssrc: nat, index: nat): Octets {
    BigEndian(0, 4) + BigEndian(ssrc, 4) + BigEndian(index, 6) + [0, 0]
  }

  function SaltedVector(salt: Salt, ssrc: nat, index: nat): (r: Octets)
    ensures |r| == 16
  {
    var a := BigEndian(0, 2) + BigEndian(ssrc, 4) + BigEndian(index / 0x1_0000, 4) + BigEndian(index % 0x1_0000, 2);
    seq<Octet>(16, i requires 0 <= i < 16 => if i < 12 then Xor(a[i], salt[i]) else 0)
  }

  function VectorFor(k: RtpKeys, ssrc: nat, index: nat): Octets {
    match k.cipher.algorithm
    case NullCipher => BigEndian(0, 8) + BigEndian(index, 8)
    case Icm => CounterVector(ssrc, index)
    case Gcm => SaltedVector(k.salt, ssrc, index)
  }

  /** The extension has a counter mode cipher of its own unless the payload is under the null cipher. */
  function ExtensionVectorFor(k: RtpKeys, ssrc: nat, index: nat): Octets {
    if k.cipher.algorithm.NullCipher? then BigEndian(0, 8) + BigEndian(index, 8) else CounterVector(ssrc, index)
  }

  function Stream(prim: Primitives, c: CipherKeys, iv: Octets): nat -> Octet {
    if c.algorithm.NullCipher? then (j: nat) => 0 else (j: nat) => prim.keystream(c.key, iv, j)
  }

  lemma StreamIs(prim: Primitives, c: CipherKeys, iv: Octets)
    ensures forall j: nat :: Stream(prim, c, iv)(j) == KeystreamOf(prim, c, iv)(j)
  {
  }

  lemma VectorsAre(k: RtpKeys, ssrc: nat, index: nat)
    ensures VectorFor(k, ssrc, index) == PayloadIv(k, ssrc, index)
    ensures ExtensionVectorFor(k, ssrc, index) == ExtensionIv(k, ssrc, index)
  {
    hide BigEndian, Xor;
    ShiftedIndex(index);
    assert BigEndian(0, 4) + BigEndian(ssrc, 4) + (BigEndian(index, 6) + [0, 0]) == CounterVector(ssrc, index);
    if k.cipher.algorithm.Gcm? {
      SaltedIs(k.salt, ssrc, index);
    }
  }

  lemma SaltedIs(salt: Salt, ssrc: nat, index: nat)
    ensures SaltedVector(salt, ssrc, index) == GcmIv(salt, ssrc, index)
  {
    hide BigEndian, Xor;
    ZeroOctets(4);
    XorZero(0);
    var a, b := GcmInput(ssrc, index), salt + BigEndian(0, 4);
    forall i | 0 <= i < 16
      ensures SaltedVector(salt, ssrc, index)[i] == GcmIv(salt, ssrc, index)[i]
    {
      if i >= 12 {
        assert a[i] == BigEndian(0, 4)[i - 12] == 0 && b[i] == BigEndian(0, 4)[i - 12];
      }
    }
  }

  // ----- The protected fields

  lemma SameItem(wide: bool, ids: seq<int>, a: nat -> Octet, b: nat -> Octet, x: Item, at: nat)
    requires Writable(wide, x) && forall j: nat :: a(j) == b(j)
    ensures EncryptedItem(wide, ids, a, x, at) == EncryptedItem(wide, ids, b, x, at)
  {
    hide Xor, Writable;
    var h := at + if wide then 2 else 1;
    assert XorWith(x.body, a, h) == XorWith(x.body, b, h);
  }

  lemma {:induction false} SameStreams(
    wide: bool, ids: seq<int>, a: nat -> Octet, b: nat -> Octet, items: seq<Item>, at: nat)
    requires AllWritable(wide, items) && forall j: nat :: a(j) == b(j)
    ensures Encrypted(wide, ids, a, items, at) == Encrypted(wide, ids, b, items, at)
    decreases |items|
  {
    hide EncryptedItem, Writable;
    if items != [] {
      SameItem(wide, ids, a, b, items[0], at);
      SameStreams(wide, ids, a, b, items[1..], at + (if wide then 2 else 1) + |items[0].body|);
    }
  }

  /** The elements of the extension after encryption. */
  function ProtectedItems(wide: bool, ids: seq<int>, key: nat -> Octet, data: Octets): (r: (Octets, Status)) {
    var (items, rest) := Items(wide, data);
    ItemsAssemble(wide, data);
    (Assembled(wide, Encrypted(wide, ids, key, items, 0), rest), EndStatus(wide, rest))
  }

  function ProtectedData(profile: nat, ids: seq<int>, key: nat -> Octet, data: Octets): (r: (Octets, Status)) {
    if profile == 0xbede then ProtectedItems(false, ids, key, data)
    else if profile % 0x2000 == 0x100 then ProtectedItems(true, ids, key, data)
    else (data, ParseErr)
  }

  lemma ProtectedDataIs(profile: nat, ids: seq<int>, a: nat -> Octet, b: nat -> Octet, data: Octets)
    requires profile < 0x1_0000 && forall j: nat :: a(j) == b(j)
    ensures var (out, status) := ProtectedData(profile, ids, a, data);
            HeaderExtension.Process(profile, ids, b, data, 0) == HeaderExtension.Result(out, status)
    ensures |ProtectedData(profile, ids, a, data).0| == |data|
  {
    hide HeaderExtension.Process, Items, Encrypted, Assembled, EndStatus, Ends, Separated, AllWritable;
    if profile == 0xbede || profile % 0x2000 == 0x100 {
      var wide := profile != 0xbede;
      var (items, rest) := Items(wide, data);
      ItemsAssemble(wide, data);
      ProfileDecides(profile, ids, b, items, rest, 0);
      SameStreams(wide, ids, a, b, items, 0);
    } else {
      ProfileDecides(profile, ids, b, [], data, 0);
    }
  }

  /** The extension after encryption, if it has a cipher. */
  function ProtectedExtension(prim: Primitives, k: RtpKeys, ids: seq<int>, h: Fields, index: nat)
    : (r: (Option<Extension>, Status))
  {
    if h.extension.None? || k.xtn.None? then (h.extension, Ok)
    else
      var x := h.extension.value;
      var key := Stream(prim, k.xtn.value, ExtensionVectorFor(k, h.ssrc, index));
      var (data, status) := ProtectedData(x.profile, ids, key, x.data);
      (Some(x.(data := data)), status)
  }

  function ProtectedPayload(prim: Primitives, k: RtpKeys, h: Fields, index: nat): (r: Octets)
    ensures |r| == |h.payload|
  {
    var key := Stream(prim, k.cipher, VectorFor(k, h.ssrc, index));
    seq<Octet>(|h.payload|, j requires 0 <= j < |h.payload| => Xor(h.payload[j], key(j)))
  }

  function ProtectedFields(prim: Primitives, k: RtpKeys, conf: bool, ids: seq<int>, h: Fields, index: nat): Fields {
    if !conf then h
    else
      h.(extension := ProtectedExtension(prim, k, ids, h, index).0, payload := ProtectedPayload(prim, k, h, index))
  }

  lemma ProtectedInRange(prim: Primitives, k: RtpKeys, conf: bool, ids: seq<int>, h: Fields, index: nat)
    requires InRange(h)
    ensures var g := ProtectedFields(prim, k, conf, ids, h, index);
            && InRange(g) && FixedHeader(g) == FixedHeader(h) && |HeaderOctets(g)| == |HeaderOctets(h)|
  {
    hide ProtectedData, ProtectedPayload, Stream, ExtensionVectorFor, BigEndian;
    if conf && h.extension.Some? && k.xtn.Some? {
      var x, key := h.extension.value, Stream(prim, k.xtn.value, ExtensionVectorFor(k, h.ssrc, index));
      ProtectedDataIs(x.profile, ids, key, key, x.data);
    }
  }

  // ----- The protected packet

  /** The key identifier, if the sender writes it, and the tag; an authenticated cipher has them the other
      way round. Message authentication covers the packet and the rollover counter; the authenticated cipher
      covers the header as associated data, and the encrypted payload. */
  function Trailers(
    prim: Primitives, k: RtpKeys, auth: bool, g: Fields, index: nat, useMki: bool): Octets
    requires InRange(g)
  {
    var mki := if useMki then k.mki else [];
    if k.cipher.algorithm.Gcm? then
      var iv := SaltedVector(k.salt, g.ssrc, index);
      var aad := HeaderOctets(g);
      seq<Octet>(k.tagLen, i requires 0 <= i < k.tagLen => prim.aeadTag(k.cipher.key, iv, aad, g.payload, i)) + mki
    else if auth then
      var covered := Packet(g) + BigEndian(index / 0x1_0000, 4);
      mki + seq<Octet>(k.tagLen, i requires 0 <= i < k.tagLen => prim.tag(k.authKey, covered, i))
    else mki
  }

  lemma ExtensionProtected(prim: Primitives, k: RtpKeys, ids: seq<int>, h: Fields, index: nat)
    requires InRange(h)
    ensures var p, (x, status) := Packet(h), ProtectedExtension(prim, k, ids, h, index);
            && ValidHeader(p) && (x.Some? <==> h.extension.Some?)
            && CryptExtension(prim, k, ids, p, index)
               == HeaderExtension.Result(if x.Some? then x.value.data else [], status)
  {
    hide Packet, ValidHeader, EncStart, LayoutEnd, CsrcEnd, HasExtension, Ssrc, Sequence, InRange, ExtensionIv, U16,
         ExtensionVectorFor, ProtectedData, KeystreamOf, Stream, HeaderExtension.Process, HeaderOctets, CsrcCount;
    PacketFields(h);
    HeaderBounds(Packet(h));
    ProfileInRange(h);
    VectorsAre(k, h.ssrc, index);
    if h.extension.None? {
      NoExtensionData(Packet(h));
    }
    if h.extension.Some? && k.xtn.Some? {
      var x, iv := h.extension.value, ExtensionIv(k, h.ssrc, index);
      StreamIs(prim, k.xtn.value, iv);
      ProtectedDataIs(x.profile, ids, Stream(prim, k.xtn.value, iv), KeystreamOf(prim, k.xtn.value, iv), x.data);
    }
  }

  lemma ProfileInRange(h: Fields)
    requires InRange(h)
    ensures h.extension.Some? ==> h.extension.value.profile < 0x1_0000
  {
  }

  lemma NoExtensionData(p: Octets)
    requires ValidHeader(p) && !HasExtension(p)
    ensures p[LayoutEnd(p)..EncStart(p)] == []
  {
  }

  lemma PayloadProtected(prim: Primitives, k: RtpKeys, h: Fields, index: nat)
    requires InRange(h)
    ensures ValidHeader(Packet(h)) && CryptPayload(prim, k, Packet(h), index) == ProtectedPayload(prim, k, h, index)
  {
    hide Packet, ValidHeader, EncStart, LayoutEnd, CsrcEnd, HasExtension, Ssrc, Sequence, InRange, PayloadIv, U16,
         VectorFor, KeystreamOf, Stream, HeaderOctets, Xor;
    PacketFields(h);
    HeaderBounds(Packet(h));
    VectorsAre(k, h.ssrc, index);
    StreamIs(prim, k.cipher, PayloadIv(k, h.ssrc, index));
  }

  /** Packets that differ in extension data and payload only. */
  lemma ReplacedRegions(h: Fields, g: Fields)
    requires InRange(h) && InRange(g) && FixedHeader(g) == FixedHeader(h) && g.sources == h.sources
    requires g.extension.Some? <==> h.extension.Some?
    requires h.extension.Some? ==> g.extension.value.profile == h.extension.value.profile
                                   && |g.extension.value.data| == |h.extension.value.data|
    ensures var p := Packet(h);
            && ValidHeader(p) && LayoutEnd(p) <= |p|
            && Packet(g) == p[..LayoutEnd(p)] + (if h.extension.Some? then g.extension.value.data else []) + g.payload
  {
    hide ValidHeader, CsrcEnd, HasExtension, EncStart, BigEndian, FixedHeader, Words, Ssrc, Sequence, CsrcCount, U16,
         U32, InRange;
    PacketFields(h);
    var p, front := Packet(h), FixedHeader(h) + Words(h.sources);
    assert p[..|front|] == front;
    if h.extension.Some? {
      var x := h.extension.value;
      assert p[..|front| + 4] == front + (BigEndian(x.profile, 2) + BigEndian(|x.data| / 4, 2));
    }
  }

  lemma EncryptedIs(prim: Primitives, k: RtpKeys, conf: bool, ids: seq<int>, h: Fields, index: nat)
    requires InRange(h) && (conf ==> ProtectedExtension(prim, k, ids, h, index).1 == Ok)
    ensures var g := ProtectedFields(prim, k, conf, ids, h, index);
            && ValidHeader(Packet(h)) && InRange(g)
            && Crypt(prim, k, conf, ids, Packet(h), index) == Result(Packet(g), Ok)
  {
    hide ValidHeader, EncStart, LayoutEnd, InRange, CryptExtension, CryptPayload, ProtectedData, ProtectedPayload,
         FixedHeader, Words, HasExtension, CsrcEnd, Packet, HeaderOctets, Stream;
    var p, g := Packet(h), ProtectedFields(prim, k, conf, ids, h, index);
    PacketFields(h);
    ProtectedInRange(prim, k, conf, ids, h, index);
    if conf {
      ExtensionProtected(prim, k, ids, h, index);
      PayloadProtected(prim, k, h, index);
      SameSizes(prim, k, ids, h, index);
      ReplacedRegions(h, g);
    }
  }

  lemma SameSizes(prim: Primitives, k: RtpKeys, ids: seq<int>, h: Fields, index: nat)
    requires InRange(h)
    ensures var x := ProtectedExtension(prim, k, ids, h, index).0;
            && (x.Some? <==> h.extension.Some?)
            && (x.Some? ==> x.value.profile == h.extension.value.profile
                            && |x.value.data| == |h.extension.value.data|)
  {
    hide ProtectedData, Stream, ExtensionVectorFor;
    if h.extension.Some? && k.xtn.Some? {
      var x, key := h.extension.value, Stream(prim, k.xtn.value, ExtensionVectorFor(k, h.ssrc, index));
      ProtectedDataIs(x.profile, ids, key, key, x.data);
    }
  }

  lemma RocField(index: nat)
    ensures RocOctets(index) == BigEndian(index / 0x1_0000, 4)
  {
    hide BigEndian;
    BigEndianUpperHalf(index * 0x1_0000);
    ShiftedUpperHalf(index);
  }

  lemma TrailersAre(prim: Primitives, k: RtpKeys, auth: bool, g: Fields, index: nat, useMki: bool)
    requires InRange(g)
    ensures ValidHeader(Packet(g))
    ensures Trailers(prim, k, auth, g, index, useMki)
            == if k.cipher.algorithm.Gcm? then GcmTag(prim, k, Packet(g), index) + MkiOctets(k, useMki)
               else MkiOctets(k, useMki) + if auth then AuthTag(prim, k, Packet(g), index) else []
  {
    hide ValidHeader, EncStart, InRange, Packet, RocOctets, BigEndian, SaltedVector, Ssrc, Sequence, HeaderOctets;
    PacketFields(g);
    VectorsAre(k, g.ssrc, index);
    RocField(index);
  }

  /** What protecting makes of a packet: the fixed header and the sources stay, the elements of the extension
      and the payload are encrypted with the service, the trailers follow. If the extension cannot be walked
      through, protecting fails. */
  lemma ProtectedFormatIs(
    prim: Primitives, k: RtpKeys, svc: Services, ids: seq<int>, h: Fields, index: nat, useMki: bool)
    requires InRange(h)
    ensures ValidHeader(Packet(h))
    ensures var conf := svc.conf || k.cipher.algorithm.Gcm?;
            var r := Seal(prim, k, svc, ids, Packet(h), index, useMki);
            if conf && ProtectedExtension(prim, k, ids, h, index).1 != Ok then r.status == ParseErr
            else
              var g := ProtectedFields(prim, k, conf, ids, h, index);
              && InRange(g) && FixedHeader(g) == FixedHeader(h) && g.sources == h.sources
              && r == Result(Packet(g) + Trailers(prim, k, svc.auth, g, index, useMki), Ok)
  {
    hide InRange, ValidHeader, Packet, FixedHeader, Crypt, ProtectedExtension, Trailers, GcmTag, AuthTag, MkiOctets,
         HeaderOctets, ProtectedPayload, EncStart;
    var conf := svc.conf || k.cipher.algorithm.Gcm?;
    PacketFields(h);
    if conf && ProtectedExtension(prim, k, ids, h, index).1 != Ok {
      ExtensionFails(prim, k, ids, h, index);
    } else {
      EncryptedIs(prim, k, conf, ids, h, index);
      ProtectedInRange(prim, k, conf, ids, h, index);
      TrailersAre(prim, k, svc.auth, ProtectedFields(prim, k, conf, ids, h, index), index, useMki);
    }
  }

  lemma ExtensionFails(prim: Primitives, k: RtpKeys, ids: seq<int>, h: Fields, index: nat)
    requires InRange(h) && ProtectedExtension(prim, k, ids, h, index).1 != Ok
    ensures ProtectedExtension(prim, k, ids, h, index).1 == ParseErr
    ensures ValidHeader(Packet(h)) && Crypt(prim, k, true, ids, Packet(h), index).status == ParseErr
  {
    hide ValidHeader, EncStart, LayoutEnd, InRange, CryptExtension, CryptPayload, Packet, Stream;
    PacketFields(h);
    ExtensionProtected(prim, k, ids, h, index);
  }
}
