/** Protecting and unprotecting one RTCP packet, given the session keys and the stream's counter or
    replay database (section 3.4 of RFC 3711, section 9 of RFC 7714). */
module RtcpPacket {
  import opened Octets
  import opened SrtpStatus
  import opened Crypto
  import opened InitVectors
  import opened ReplayWindow
  import opened RtcpReplay
  import opened RtpPacket
  import opened SessionKey

  const RTCP_HEADER: nat := 8
  const TRAILER: nat := 4
  const E_BIT: nat := 0x8000_0000

  /** `gcm` says whether the RTP cipher is an authenticated one, which decides for RTCP too. */
  datatype RtcpKeys = RtcpKeys(
    gcm: bool, cipher: CipherKeys, authKey: Key, tagLen: nat, salt: Salt, mki: Octets)

  function RtcpKeysOf(keys: SessionKeys): RtcpKeys {
    RtcpKeys(keys.rtpCipher.algorithm.Gcm?, CipherKeysOf(keys.rtcpCipher), keys.rtcpAuth.key, keys.rtcpAuth.tagLen,
             keys.cSalt, keys.mki)
  }

  function RtcpSsrc(pkt: Octets): nat
    requires |pkt| >= RTCP_HEADER
  {
    U32(pkt, 4)
  }

  // ----- Vectors

  /** Section 9.1 of RFC 7714 before salting: SSRC and SRTCP index. */
  function GcmRtcpInput(ssrc: nat, index: nat): (r: Octets)
    ensures |r| == 16
  {
    BigEndian(0, 2) + BigEndian(ssrc, 4) + BigEndian(0, 2) + BigEndian(index, 4) + BigEndian(0, 4)
  }

  function RtcpIv(k: RtcpKeys, ssrc: nat, index: nat): Octets {
    if k.gcm then XorOctets(GcmRtcpInput(ssrc, index), k.salt + BigEndian(0, 4))
    else if k.cipher.algorithm.Icm? then IcmIv(ssrc, index)
    else PlainIv(index)
  }

  /** Under the ciphers that take the SSRC in, different packets get different vectors. */
  lemma RtcpIvInjective(k: RtcpKeys, ssrc1: nat, index1: nat, ssrc2: nat, index2: nat)
    requires ssrc1 < UINT32 && ssrc2 < UINT32 && index1 <= MAX_RTCP_INDEX && index2 <= MAX_RTCP_INDEX
    requires k.gcm || k.cipher.algorithm.Icm?
    requires RtcpIv(k, ssrc1, index1) == RtcpIv(k, ssrc2, index2)
    ensures ssrc1 == ssrc2 && index1 == index2
  {
    hide BigEndian, Pow256, IcmIv;
    if k.gcm {
      PowersOf256();
      var a, b := GcmRtcpInput(ssrc1, index1), GcmRtcpInput(ssrc2, index2);
      XorOctetsInjective(a, b, k.salt + BigEndian(0, 4));
      assert a[2..6] == BigEndian(ssrc1, 4) && b[2..6] == BigEndian(ssrc2, 4);
      assert a[8..12] == BigEndian(index1, 4) && b[8..12] == BigEndian(index2, 4);
      BigEndianInjective(ssrc1, ssrc2, 4);
      BigEndianInjective(index1, index2, 4);
    } else {
      IcmIvInjective(ssrc1, index1, ssrc2, index2);
    }
  }

  // ----- Encryption

  /** All but the header is encrypted, or nothing. */
  function CryptRtcp(prim: Primitives, k: RtcpKeys, conf: bool, pkt: Octets, index: nat): (r: Octets)
    requires |pkt| >= RTCP_HEADER
    ensures |r| == |pkt| && r[..RTCP_HEADER] == pkt[..RTCP_HEADER]
  {
    if conf then
      pkt[..RTCP_HEADER]
      + XorWith(pkt[RTCP_HEADER..], KeystreamOf(prim, k.cipher, RtcpIv(k, RtcpSsrc(pkt), index)), 0)
    else pkt
  }

  lemma SameRtcpSsrc(a: Octets, b: Octets)
    requires |a| >= RTCP_HEADER && |b| >= RTCP_HEADER && a[..RTCP_HEADER] == b[..RTCP_HEADER]
    ensures RtcpSsrc(a) == RtcpSsrc(b)
  {
    assert forall i :: 0 <= i < RTCP_HEADER ==> a[i] == a[..RTCP_HEADER][i] == b[..RTCP_HEADER][i] == b[i];
  }

  lemma CryptRtcpTwice(prim: Primitives, k: RtcpKeys, conf: bool, pkt: Octets, index: nat)
    requires |pkt| >= RTCP_HEADER
    ensures CryptRtcp(prim, k, conf, CryptRtcp(prim, k, conf, pkt, index), index) == pkt
  {
    hide RtcpIv, KeystreamOf, XorWith, RtcpSsrc;
    var body := CryptRtcp(prim, k, conf, pkt, index);
    SameRtcpSsrc(pkt, body);
    if conf {
      var key := KeystreamOf(prim, k.cipher, RtcpIv(k, RtcpSsrc(pkt), index));
      XorWithTwice(pkt[RTCP_HEADER..], key, 0);
      assert body[RTCP_HEADER..] == XorWith(pkt[RTCP_HEADER..], key, 0);
      assert pkt == pkt[..RTCP_HEADER] + pkt[RTCP_HEADER..];
    }
  }

  // ----- Trailers

  /** The E bit and the 31-bit index. */
  function Trailer(conf: bool, index: nat): (r: Octets)
    ensures |r| == TRAILER
  {
    BigEndian((if conf then E_BIT else 0) + index, 4)
  }

  function EBit(p: Octets, at: nat): bool
    requires at + TRAILER <= |p|
  {
    p[at] / 128 == 1
  }

  function TrailerIndex(p: Octets, at: nat): (r: nat)
    requires at + TRAILER <= |p|
    ensures r <= MAX_RTCP_INDEX
  {
    U32(p, at) % E_BIT
  }

  /** Reading back the trailer gives the E bit and the index. */
  lemma TrailerReadBack(conf: bool, index: nat, p: Octets, at: nat)
    requires index <= MAX_RTCP_INDEX
    requires at + TRAILER <= |p| && p[at..at + TRAILER] == Trailer(conf, index)
    ensures EBit(p, at) == conf && TrailerIndex(p, at) == index
  {
    hide BigEndian, Pow256;
    var n := (if conf then E_BIT else 0) + index;
    PowersOf256();
    BigEndianOfU32(p, at);
    U32Range(p, at);
    BigEndianInjective(n, U32(p, at), 4);
    TopBit(p, at);
  }

  lemma U32Range(p: Octets, at: nat)
    requires at + 4 <= |p|
    ensures U32(p, at) < UINT32
  {
  }

  lemma TopBit(p: Octets, at: nat)
    requires at + 4 <= |p|
    ensures U32(p, at) >= E_BIT <==> p[at] / 128 == 1
  {
  }

  function RtcpMki(k: RtcpKeys, useMki: bool): Octets {
    if useMki then k.mki else []
  }

  /** The tag covers the packet and the trailer. */
  function RtcpTag(prim: Primitives, k: RtcpKeys, conf: bool, body: Octets, trailer: Octets, index: nat): (r: Octets)
    requires |body| >= RTCP_HEADER
    ensures |r| == k.tagLen
  {
    if !k.gcm then Tag(prim, k.authKey, body + trailer, k.tagLen)
    else
      var iv := RtcpIv(k, RtcpSsrc(body), index);
      if conf then
        AeadTag(prim, k.cipher.key, iv, body[..RTCP_HEADER] + trailer, body[RTCP_HEADER..], k.tagLen)
      else
        AeadTag(prim, k.cipher.key, iv, body + trailer, [], k.tagLen)
  }

  /** The protected packet. The tag goes last, except in GCM mode, where it follows the data. */
  function SealRtcp(prim: Primitives, k: RtcpKeys, conf: bool, pkt: Octets, index: nat, useMki: bool): Octets
    requires |pkt| >= RTCP_HEADER
  {
    var body, trailer := CryptRtcp(prim, k, conf, pkt, index), Trailer(conf, index);
    var tag := RtcpTag(prim, k, conf, body, trailer, index);
    if k.gcm then body + tag + trailer + RtcpMki(k, useMki) else body + trailer + RtcpMki(k, useMki) + tag
  }

  datatype RtcpSent = RtcpSent(status: Status, packet: Octets, db: Rdb)

  /** The sender counts up, and stops at the largest 31-bit index. */
  function ProtectRtcp(prim: Primitives, k: RtcpKeys, conf: bool, db: Rdb, pkt: Octets, useMki: bool): RtcpSent {
    if |pkt| < RTCP_HEADER then RtcpSent(BadParam, [], db)
    else
      match IncrementRdb(db)
      case None => RtcpSent(KeyExpired, [], db)
      case Some(next) => RtcpSent(Ok, SealRtcp(prim, k, conf, pkt, next.start, useMki), next)
  }

  // ----- Unprotecting

  /** Where the receiver, counting from the end, finds the trailer and the tag. */
  function TrailerAt(k: RtcpKeys, length: nat, mkiSize: nat): int {
    if k.gcm then length - mkiSize - TRAILER else length - k.tagLen - mkiSize - TRAILER
  }

  function TagAt(k: RtcpKeys, length: nat, mkiSize: nat): int {
    if k.gcm then length - mkiSize - TRAILER - k.tagLen else length - k.tagLen
  }

  function RtcpBodySize(k: RtcpKeys, length: nat, mkiSize: nat): int {
    length - k.tagLen - mkiSize - TRAILER
  }

  /** The receiver's verdict. An authenticated cipher takes the E bit from the packet. */
  function RtcpVerdict(prim: Primitives, k: RtcpKeys, conf: bool, db: Rdb, p: Octets, mkiSize: nat): Status
    requires ValidRdb(db)
  {
    var size := RtcpBodySize(k, |p|, mkiSize);
    if size < RTCP_HEADER then BadParam
    else
      var at, tagAt := TrailerAt(k, |p|, mkiSize), TagAt(k, |p|, mkiSize);
      var index := TrailerIndex(p, at);
      if !k.gcm && EBit(p, at) != conf then CantCheck
      else if CheckRdb(db, index) != Ok then CheckRdb(db, index)
      else if RtcpTag(prim, k, EBit(p, at), p[..size], p[at..at + TRAILER], index) != p[tagAt..tagAt + k.tagLen]
      then AuthFail
      else Ok
  }

  datatype RtcpReceived = RtcpReceived(status: Status, packet: Octets, db: Rdb)

  /** An index the check let through is not below the window. */
  lemma CheckedRdb(db: Rdb, index: nat)
    requires ValidRdb(db) && CheckRdb(db, index) == Ok
    ensures db.start <= index
  {
  }

  function UnprotectRtcp(prim: Primitives, k: RtcpKeys, conf: bool, db: Rdb, p: Octets, mkiSize: nat)
    : (r: RtcpReceived)
    requires ValidRdb(db)
    ensures ValidRdb(r.db)
  {
    var verdict := RtcpVerdict(prim, k, conf, db, p, mkiSize);
    if verdict != Ok then RtcpReceived(verdict, p, db)
    else
      var at := TrailerAt(k, |p|, mkiSize);
      var index := TrailerIndex(p, at);
      CheckedRdb(db, index);
      RtcpReceived(Ok, CryptRtcp(prim, k, EBit(p, at), p[..RtcpBodySize(k, |p|, mkiSize)], index), AddRdb(db, index))
  }

  // ----- Round trip

  /** The trailer and the tag are where the receiver, counting from the other end, looks for them. */
  lemma SealedRtcpLayout(prim: Primitives, k: RtcpKeys, conf: bool, pkt: Octets, index: nat, useMki: bool)
    requires |pkt| >= RTCP_HEADER
    ensures var q, mkiSize := SealRtcp(prim, k, conf, pkt, index, useMki), |RtcpMki(k, useMki)|;
            var body, trailer := CryptRtcp(prim, k, conf, pkt, index), Trailer(conf, index);
            var at, tagAt := TrailerAt(k, |q|, mkiSize), TagAt(k, |q|, mkiSize);
            && RtcpBodySize(k, |q|, mkiSize) == |pkt| && q[..|pkt|] == body
            && |pkt| <= at && at + TRAILER <= |q| && q[at..at + TRAILER] == trailer
            && |pkt| <= tagAt && tagAt + k.tagLen <= |q|
            && q[tagAt..tagAt + k.tagLen] == RtcpTag(prim, k, conf, body, trailer, index)
  {
    hide CryptRtcp, Trailer, RtcpTag, RtcpMki;
  }

  /** For every counter value before the last, and every receiver that has not seen the index,
      unprotecting restores the packet, finds the sender's index and marks it as seen. */
  lemma RtcpRoundTrip(
    prim: Primitives, k: RtcpKeys, conf: bool, sender: Rdb, receiver: Rdb, pkt: Octets, useMki: bool)
    requires |pkt| >= RTCP_HEADER && sender.start < MAX_RTCP_INDEX
    requires ValidRdb(receiver) && CheckRdb(receiver, sender.start + 1) == Ok
    ensures receiver.start <= sender.start + 1
    ensures var sent := ProtectRtcp(prim, k, conf, sender, pkt, useMki);
            && sent.status == Ok && sent.db == sender.(start := sender.start + 1)
            && UnprotectRtcp(prim, k, conf, receiver, sent.packet, |RtcpMki(k, useMki)|)
               == RtcpReceived(Ok, pkt, AddRdb(receiver, sender.start + 1))
  {
    hide CryptRtcp, Trailer, RtcpTag, RtcpMki, EBit, TrailerIndex, SealRtcp, CheckRdb, AddRdb, TrailerAt, TagAt,
         RtcpBodySize;
    CheckedRdb(receiver, sender.start + 1);
    var index, mkiSize := sender.start + 1, |RtcpMki(k, useMki)|;
    var q := SealRtcp(prim, k, conf, pkt, index, useMki);
    SealedRtcpLayout(prim, k, conf, pkt, index, useMki);
    TrailerReadBack(conf, index, q, TrailerAt(k, |q|, mkiSize));
    CryptRtcpTwice(prim, k, conf, pkt, index);
  }

  // ----- Selection by MKI

  /** The search for the identifier goes by the RTP tag length, so outside the authenticated cipher, where
      the identifier goes last, it finds the sender's slot when that is the RTCP tag length too. */
  lemma SealedRtcpSlotIsFound(
    prim: Primitives, table: seq<SessionKeys>, slot: nat, conf: bool, pkt: Octets, index: nat)
    requires slot < |table| && DistinctMkis(RtpKeysOfAll(table))
    requires |pkt| >= RTCP_HEADER && |pkt| >= |table[slot].mki|
    requires RtcpKeysOf(table[slot]).gcm || table[slot].rtcpAuth.tagLen == table[slot].rtpAuth.tagLen
    ensures FindSlot(RtpKeysOfAll(table),
                     SealRtcp(prim, RtcpKeysOf(table[slot]), conf, pkt, index, true), 0)
            == Some(slot)
  {
    hide CryptRtcp, Trailer, RtcpTag, FindSlot, RtpKeysOf;
    var keys, k := RtpKeysOfAll(table), RtcpKeysOf(table[slot]);
    var q := SealRtcp(prim, k, conf, pkt, index, true);
    SlotFields(table, slot);
    assert q[MkiEnd(keys, |q|) - |k.mki|..MkiEnd(keys, |q|)] == k.mki;
    DistinctMkisHeld(keys, slot, q);
  }

  lemma SlotFields(table: seq<SessionKeys>, slot: nat)
    requires slot < |table| && DistinctMkis(RtpKeysOfAll(table))
    ensures var keys := RtpKeysOfAll(table);
            && keys != [] && keys[slot].mki == table[slot].mki != []
            && keys[slot].tagLen == table[slot].rtpAuth.tagLen == keys[0].tagLen
            && keys[slot].cipher.algorithm == table[slot].rtpCipher.algorithm == keys[0].cipher.algorithm
  {
  }
}
