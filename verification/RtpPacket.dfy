/** What protecting and unprotecting does to the octets of one RTP packet, once the session keys
    and the packet index are chosen. */
module RtpPacket {
  import opened Octets
  import opened SrtpStatus
  import opened Crypto
  import opened InitVectors
  import opened ReplayWindow
  import HeaderExtension

  const RTP_HEADER: nat := 12
  const XTN_HEADER: nat := 4

  datatype Services = Services(conf: bool, auth: bool)

  datatype CipherKeys = CipherKeys(algorithm: Algorithm, key: Key)

  /** The key material of one master key, as far as RTP packets are concerned. */
  datatype RtpKeys = RtpKeys(
    cipher: CipherKeys, xtn: Option<CipherKeys>, authKey: Key, tagLen: nat, salt: Salt, mki: Octets)

  // ----- Header layout

  function CsrcCount(pkt: Octets): nat
    requires pkt != []
  {
    pkt[0] % 16
  }

  predicate HasExtension(pkt: Octets)
    requires pkt != []
  {
    pkt[0] / 16 % 2 == 1
  }

  function CsrcEnd(pkt: Octets): nat
    requires pkt != []
  {
    RTP_HEADER + 4 * CsrcCount(pkt)
  }

  predicate ValidHeader(pkt: Octets) {
    && |pkt| >= RTP_HEADER
    && |pkt| >= CsrcEnd(pkt) + (if HasExtension(pkt) then XTN_HEADER else 0)
    && (HasExtension(pkt) ==> |pkt| >= CsrcEnd(pkt) + XTN_HEADER + 4 * U16(pkt, CsrcEnd(pkt) + 2))
  }

  /** Where the payload, and with it the encrypted portion, starts. */
  function EncStart(pkt: Octets): (r: nat)
    requires ValidHeader(pkt)
    ensures RTP_HEADER <= CsrcEnd(pkt) <= r <= |pkt|
    ensures HasExtension(pkt) ==> CsrcEnd(pkt) + XTN_HEADER <= r
  {
    CsrcEnd(pkt) + if HasExtension(pkt) then XTN_HEADER + 4 * U16(pkt, CsrcEnd(pkt) + 2) else 0
  }

  /** The fixed header, the contributing sources and the extension's own header: everything that
      locates the other regions. */
  function LayoutEnd(pkt: Octets): nat
    requires pkt != []
  {
    CsrcEnd(pkt) + if HasExtension(pkt) then XTN_HEADER else 0
  }

  lemma HeaderBounds(pkt: Octets)
    requires ValidHeader(pkt)
    ensures |pkt| >= EncStart(pkt) >= LayoutEnd(pkt) >= CsrcEnd(pkt) >= RTP_HEADER
  {
  }

  function Sequence(pkt: Octets): (r: nat)
    requires |pkt| >= RTP_HEADER
    ensures r < SEQ_MAX
  {
    U16(pkt, 2)
  }

  function Ssrc(pkt: Octets): (r: nat)
    requires |pkt| >= RTP_HEADER
    ensures r < UINT32
  {
    U32(pkt, 8)
  }

  // ----- Encryption, which is its own inverse

  function PayloadIv(k: RtpKeys, ssrc: nat, index: nat): Octets {
    match k.cipher.algorithm
    case NullCipher => PlainIv(index)
    case Icm => IcmIv(ssrc, index)
    case Gcm => GcmIv(k.salt, ssrc, index)
  }

  function ExtensionIv(k: RtpKeys, ssrc: nat, index: nat): Octets {
    if k.cipher.algorithm.NullCipher? then PlainIv(index) else IcmIv(ssrc, index)
  }

  function KeystreamOf(prim: Primitives, c: CipherKeys, iv: Octets): nat -> Octet {
    Keystream(prim, c.algorithm, c.key, iv)
  }

  datatype Result = Result(packet: Octets, status: Status)

  predicate EncryptsExtension(k: RtpKeys, pkt: Octets)
    requires pkt != []
  {
    HasExtension(pkt) && k.xtn.Some?
  }

  /** The processed data of the header extension; empty if there is none. */
  function CryptExtension(prim: Primitives, k: RtpKeys, ids: seq<int>, pkt: Octets, index: nat)
    : (r: HeaderExtension.Result)
    requires ValidHeader(pkt)
    ensures |r.data| == EncStart(pkt) - LayoutEnd(pkt)
  {
    var data := pkt[LayoutEnd(pkt)..EncStart(pkt)];
    if EncryptsExtension(k, pkt) then
      var key := KeystreamOf(prim, k.xtn.value, ExtensionIv(k, Ssrc(pkt), index));
      HeaderExtension.Process(U16(pkt, CsrcEnd(pkt)), ids, key, data, 0)
    else
      HeaderExtension.Result(data, Ok)
  }

  function CryptPayload(prim: Primitives, k: RtpKeys, pkt: Octets, index: nat): (r: Octets)
    requires ValidHeader(pkt)
    ensures |r| == |pkt| - EncStart(pkt)
  {
    XorWith(pkt[EncStart(pkt)..], KeystreamOf(prim, k.cipher, PayloadIv(k, Ssrc(pkt), index)), 0)
  }

  /** Nothing without confidentiality; else the extension, then, if that succeeds, the payload. */
  function Crypt(prim: Primitives, k: RtpKeys, conf: bool, ids: seq<int>, pkt: Octets, index: nat): (r: Result)
    requires ValidHeader(pkt)
    ensures |r.packet| == |pkt|
  {
    if !conf then Result(pkt, Ok)
    else
      var xtn := CryptExtension(prim, k, ids, pkt, index);
      var payload := if xtn.status == Ok then CryptPayload(prim, k, pkt, index) else pkt[EncStart(pkt)..];
      Result(pkt[..LayoutEnd(pkt)] + xtn.data + payload, xtn.status)
  }

  /** `b` starts with the locating fields of `a` and is long enough for its regions. */
  predicate SameHeader(a: Octets, b: Octets) {
    && ValidHeader(a)
    && |b| >= EncStart(a)
    && b[..LayoutEnd(a)] == a[..LayoutEnd(a)]
  }

  /** Then both sides compute the same regions and the same vectors. */
  lemma SameHeaderFields(a: Octets, b: Octets)
    requires SameHeader(a, b)
    ensures ValidHeader(b)
    ensures CsrcEnd(b) == CsrcEnd(a) && HasExtension(b) == HasExtension(a)
    ensures LayoutEnd(b) == LayoutEnd(a) && EncStart(b) == EncStart(a)
    ensures Ssrc(b) == Ssrc(a) && Sequence(b) == Sequence(a)
    ensures HasExtension(a) ==> U16(b, CsrcEnd(a)) == U16(a, CsrcEnd(a))
  {
    forall i | 0 <= i < LayoutEnd(a)
      ensures b[i] == a[i]
    {
      assert b[..LayoutEnd(a)][i] == a[..LayoutEnd(a)][i];
    }
  }

  lemma CryptKeepsHeader(prim: Primitives, k: RtpKeys, conf: bool, ids: seq<int>, pkt: Octets, index: nat)
    requires ValidHeader(pkt)
    ensures SameHeader(pkt, Crypt(prim, k, conf, ids, pkt, index).packet)
  {
    hide CryptExtension, CryptPayload;
  }

  lemma CryptExtensionTwice(prim: Primitives, k: RtpKeys, ids: seq<int>, pkt: Octets, out: Octets, index: nat)
    requires SameHeader(pkt, out) && |out| == |pkt|
    requires var r := CryptExtension(prim, k, ids, pkt, index);
             out[LayoutEnd(pkt)..EncStart(pkt)] == r.data
    ensures ValidHeader(out)
    ensures CryptExtension(prim, k, ids, out, index)
            == HeaderExtension.Result(pkt[LayoutEnd(pkt)..EncStart(pkt)],
                                      CryptExtension(prim, k, ids, pkt, index).status)
  {
    hide HeaderExtension.Process, XorWith, ExtensionIv, KeystreamOf, U16, U32;
    SameHeaderFields(pkt, out);
    if EncryptsExtension(k, pkt) {
      var key := KeystreamOf(prim, k.xtn.value, ExtensionIv(k, Ssrc(pkt), index));
      HeaderExtension.ProcessTwice(U16(pkt, CsrcEnd(pkt)), ids, key, pkt[LayoutEnd(pkt)..EncStart(pkt)], 0);
    }
  }

  lemma CryptPayloadTwice(prim: Primitives, k: RtpKeys, pkt: Octets, out: Octets, index: nat)
    requires SameHeader(pkt, out) && |out| == |pkt|
    requires out[EncStart(pkt)..] == CryptPayload(prim, k, pkt, index)
    ensures ValidHeader(out)
    ensures CryptPayload(prim, k, out, index) == pkt[EncStart(pkt)..]
  {
    hide PayloadIv, KeystreamOf, U16, U32;
    SameHeaderFields(pkt, out);
    XorWithTwice(pkt[EncStart(pkt)..], KeystreamOf(prim, k.cipher, PayloadIv(k, Ssrc(pkt), index)), 0);
  }

  /** Encryption is its own inverse. */
  lemma CryptTwice(prim: Primitives, k: RtpKeys, conf: bool, ids: seq<int>, pkt: Octets, index: nat)
    requires ValidHeader(pkt)
    ensures var r := Crypt(prim, k, conf, ids, pkt, index);
            && ValidHeader(r.packet)
            && Crypt(prim, k, conf, ids, r.packet, index) == Result(pkt, r.status)
  {
    hide CryptExtension, CryptPayload, EncStart, LayoutEnd, ValidHeader;
    CryptKeepsHeader(prim, k, conf, ids, pkt, index);
    var out := Crypt(prim, k, conf, ids, pkt, index).packet;
    SameHeaderFields(pkt, out);
    if conf {
      var xtn := CryptExtension(prim, k, ids, pkt, index);
      var l, e := LayoutEnd(pkt), EncStart(pkt);
      assert out[l..e] == xtn.data;
      CryptExtensionTwice(prim, k, ids, pkt, out, index);
      if xtn.status == Ok {
        assert out[e..] == CryptPayload(prim, k, pkt, index);
        CryptPayloadTwice(prim, k, pkt, out, index);
      } else {
        assert out[e..] == pkt[e..];
      }
      assert pkt == pkt[..l] + pkt[l..e] + pkt[e..];
      assert out[..l] == pkt[..l];
    }
  }

  // ----- Trailers: management key identifier and authentication tag

  function AuthTag(prim: Primitives, k: RtpKeys, body: Octets, index: nat): (r: Octets)
    ensures |r| == k.tagLen
  {
    Tag(prim, k.authKey, body + RocOctets(index), k.tagLen)
  }

  function GcmTag(prim: Primitives, k: RtpKeys, body: Octets, index: nat): (r: Octets)
    requires ValidHeader(body)
    ensures |r| == k.tagLen
  {
    AeadTag(prim, k.cipher.key, PayloadIv(k, Ssrc(body), index), body[..EncStart(body)], body[EncStart(body)..],
            k.tagLen)
  }

  function MkiOctets(k: RtpKeys, useMki: bool): Octets {
    if useMki then k.mki else []
  }

  /** The protected packet: the tag goes last, except in GCM mode, where the identifier does. */
  function Seal(prim: Primitives, k: RtpKeys, svc: Services, ids: seq<int>, pkt: Octets, index: nat, useMki: bool)
    : Result
    requires ValidHeader(pkt)
  {
    var r := Crypt(prim, k, svc.conf || k.cipher.algorithm.Gcm?, ids, pkt, index);
    if r.status != Ok then r
    else if k.cipher.algorithm.Gcm? then
      CryptKeepsHeader(prim, k, true, ids, pkt, index);
      SameHeaderFields(pkt, r.packet);
      Result(r.packet + GcmTag(prim, k, r.packet, index) + MkiOctets(k, useMki), Ok)
    else
      var tag := if svc.auth then AuthTag(prim, k, r.packet, index) else [];
      Result(r.packet + MkiOctets(k, useMki) + tag, Ok)
  }

  /** The verdict of unprotecting up to and including the tag comparison. */
  function Verdict(prim: Primitives, k: RtpKeys, svc: Services, p: Octets, index: nat, mkiSize: nat): Status
    requires ValidHeader(p)
  {
    var size := |p| - k.tagLen - mkiSize;
    if k.cipher.algorithm.Gcm? then
      if EncStart(p) > size then ParseErr
      else
        PrefixKeepsHeader(p, size);
        if GcmTag(prim, k, p[..size], index) == p[size..size + k.tagLen] then Ok else AuthFail
    else if svc.conf && EncStart(p) > size then ParseErr
    else if size < 0 then AuthFail
    else if svc.auth && AuthTag(prim, k, p[..size], index) != p[|p| - k.tagLen..] then AuthFail
    else Ok
  }

  lemma PrefixKeepsHeader(p: Octets, size: nat)
    requires ValidHeader(p) && EncStart(p) <= size <= |p|
    ensures ValidHeader(p[..size]) && EncStart(p[..size]) == EncStart(p) && Ssrc(p[..size]) == Ssrc(p)
    ensures Sequence(p[..size]) == Sequence(p)
  {
    SameHeaderFields(p, p[..size]);
  }

  /** The packet handed back once the verdict is favourable. */
  function Open(prim: Primitives, k: RtpKeys, svc: Services, ids: seq<int>, p: Octets, index: nat, mkiSize: nat)
    : Result
    requires ValidHeader(p) && Verdict(prim, k, svc, p, index, mkiSize) == Ok
  {
    var size := |p| - k.tagLen - mkiSize;
    if !svc.conf && !k.cipher.algorithm.Gcm? then Result(p[..size], Ok)
    else
      PrefixKeepsHeader(p, size);
      Crypt(prim, k, true, ids, p[..size], index)
  }

  lemma PlainVerdict(
    prim: Primitives, k: RtpKeys, svc: Services, body: Octets, mki: Octets, tag: Octets, index: nat)
    requires ValidHeader(body) && !k.cipher.algorithm.Gcm? && |tag| == k.tagLen
    requires svc.auth ==> tag == AuthTag(prim, k, body, index)
    ensures var p := body + mki + tag;
            ValidHeader(p) && Verdict(prim, k, svc, p, index, |mki|) == Ok
  {
    hide ValidHeader, EncStart, AuthTag, LayoutEnd;
    var p := body + mki + tag;
    assert p[..|body|] == body && p[|p| - k.tagLen..] == tag;
    SameHeaderExtended(body, body, p);
    SameHeaderFields(body, p);
  }

  lemma GcmVerdict(
    prim: Primitives, k: RtpKeys, svc: Services, body: Octets, mki: Octets, index: nat)
    requires ValidHeader(body) && k.cipher.algorithm.Gcm?
    ensures var p := body + GcmTag(prim, k, body, index) + mki;
            ValidHeader(p) && Verdict(prim, k, svc, p, index, |mki|) == Ok
  {
    hide ValidHeader, EncStart, GcmTag, LayoutEnd;
    var tag := GcmTag(prim, k, body, index);
    var p := body + tag + mki;
    assert p[..|body|] == body && p[|body|..|body| + k.tagLen] == tag;
    SameHeaderExtended(body, body, p);
    SameHeaderFields(body, p);
  }

  lemma OpenIs(
    prim: Primitives, k: RtpKeys, svc: Services, ids: seq<int>, body: Octets, p: Octets, index: nat, mkiSize: nat)
    requires ValidHeader(p) && Verdict(prim, k, svc, p, index, mkiSize) == Ok
    requires ValidHeader(body) && |p| - k.tagLen - mkiSize == |body| && p[..|body|] == body
    ensures Open(prim, k, svc, ids, p, index, mkiSize)
            == Crypt(prim, k, svc.conf || k.cipher.algorithm.Gcm?, ids, body, index)
  {
    hide ValidHeader, EncStart, CryptExtension, CryptPayload, LayoutEnd, Verdict;
  }

  lemma SealIs(prim: Primitives, k: RtpKeys, svc: Services, ids: seq<int>, pkt: Octets, index: nat, useMki: bool)
    requires ValidHeader(pkt) && Seal(prim, k, svc, ids, pkt, index, useMki).status == Ok
    ensures var body := Crypt(prim, k, svc.conf || k.cipher.algorithm.Gcm?, ids, pkt, index);
            && body.status == Ok && ValidHeader(body.packet)
            && Seal(prim, k, svc, ids, pkt, index, useMki).packet
               == if k.cipher.algorithm.Gcm?
                  then body.packet + GcmTag(prim, k, body.packet, index) + MkiOctets(k, useMki)
                  else body.packet + MkiOctets(k, useMki)
                       + (if svc.auth then AuthTag(prim, k, body.packet, index) else [])
  {
    hide ValidHeader, Crypt, GcmTag, MkiOctets, AuthTag, EncStart;
    var conf := svc.conf || k.cipher.algorithm.Gcm?;
    CryptKeepsHeader(prim, k, conf, ids, pkt, index);
    SameHeaderFields(pkt, Crypt(prim, k, conf, ids, pkt, index).packet);
  }

  /** Unprotecting a protected packet with the same keys and index restores every octet and the
      length. Without the authentication service the tag length has to be zero, because
      unprotecting subtracts it in any case. */
  lemma OpenSealed(
    prim: Primitives, k: RtpKeys, svc: Services, ids: seq<int>, pkt: Octets, index: nat, useMki: bool)
    requires ValidHeader(pkt) && Seal(prim, k, svc, ids, pkt, index, useMki).status == Ok
    requires k.cipher.algorithm.Gcm? || svc.auth || k.tagLen == 0
    ensures var q := Seal(prim, k, svc, ids, pkt, index, useMki).packet;
            && ValidHeader(q) && Ssrc(q) == Ssrc(pkt) && Sequence(q) == Sequence(pkt)
            && Verdict(prim, k, svc, q, index, |MkiOctets(k, useMki)|) == Ok
            && Open(prim, k, svc, ids, q, index, |MkiOctets(k, useMki)|) == Result(pkt, Ok)
  {
    hide *;
    var conf, mki := svc.conf || k.cipher.algorithm.Gcm?, MkiOctets(k, useMki);
    var body := Crypt(prim, k, conf, ids, pkt, index).packet;
    SealIs(prim, k, svc, ids, pkt, index, useMki);
    var q := Seal(prim, k, svc, ids, pkt, index, useMki).packet;
    var tag := if svc.auth then AuthTag(prim, k, body, index) else [];
    if k.cipher.algorithm.Gcm? {
      GcmVerdict(prim, k, svc, body, mki, index);
    } else {
      PlainVerdict(prim, k, svc, body, mki, tag, index);
    }
    assert q[..|body|] == body;
    CryptKeepsHeader(prim, k, conf, ids, pkt, index);
    SameHeaderExtended(pkt, body, q);
    SameHeaderFields(pkt, q);
    OpenIs(prim, k, svc, ids, body, q, index, |mki|);
    CryptTwice(prim, k, conf, ids, pkt, index);
  }

  lemma SameHeaderExtended(a: Octets, b: Octets, c: Octets)
    requires SameHeader(a, b) && |b| <= |c| && c[..|b|] == b
    ensures SameHeader(a, c)
  {
    hide ValidHeader, EncStart;
    assert c[..LayoutEnd(a)] == c[..|b|][..LayoutEnd(a)];
  }
}
