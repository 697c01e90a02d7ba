/** RTCP packets protected and unprotected in place, on the caller's buffer. */
module RtcpInPlace {
  import opened Octets
  import opened SrtpStatus
  import opened Crypto
  import opened RtcpReplay
  import opened RtpPacket
  import opened RtpInPlace
  import opened SessionKey
  import opened RtcpPacket

  lemma RtcpKeyFields(keys: SessionKeys, useMki: bool)
    ensures var k := RtcpKeysOf(keys);
            && k.gcm == keys.rtpCipher.algorithm.Gcm?
            && k.cipher == CipherKeys(keys.rtcpCipher.algorithm, keys.rtcpCipher.key)
            && k.authKey == keys.rtcpAuth.key && k.tagLen == keys.rtcpAuth.tagLen && k.mki == keys.mki
            && RtcpMki(k, useMki) == MkiOctets(RtpKeysOf(keys), useMki)
            && |RtcpMki(k, useMki)| <= |keys.mki|
  {
  }

  /** Runs the cipher over all but the header, if there is to be confidentiality. */
  method CryptRtcpInPlace(
    prim: Primitives, keys: SessionKeys, conf: bool, pkt: array<Octet>, length: nat, index: nat)
    requires RTCP_HEADER <= length <= pkt.Length
    modifies keys.rtcpCipher, pkt
    ensures keys.rtcpCipher.iv == RtcpIv(RtcpKeysOf(keys), RtcpSsrc(old(pkt[..length])), index)
    ensures pkt[..length] == CryptRtcp(prim, RtcpKeysOf(keys), conf, old(pkt[..length]), index)
    ensures forall i :: length <= i < pkt.Length ==> pkt[i] == old(pkt[i])
  {
    hide *;
    ghost var k, p, rest := RtcpKeysOf(keys), pkt[..length], pkt[length..];
    RtcpKeyFields(keys, false);
    var iv := RtcpIv(RtcpKeysOf(keys), RtcpSsrc(pkt[..length]), index);
    keys.rtcpCipher.SetIv(iv);
    CryptRtcpIs(prim, k, conf, p, index);
    if conf {
      RtcpStreamIs(prim, keys);
      keys.rtcpCipher.Encrypt(prim, pkt, RTCP_HEADER, length - RTCP_HEADER);
      CryptedBuffer(p, rest, pkt[..], KeystreamOf(prim, k.cipher, iv));
    }
  }

  lemma RtcpStreamIs(prim: Primitives, keys: SessionKeys)
    ensures RTCP_HEADER == 8
    ensures keys.rtcpCipher.Stream(prim) == KeystreamOf(prim, RtcpKeysOf(keys).cipher, keys.rtcpCipher.iv)
  {
    hide Keystream;
  }

  lemma CryptRtcpIs(prim: Primitives, k: RtcpKeys, conf: bool, p: Octets, index: nat)
    requires |p| >= RTCP_HEADER
    ensures RTCP_HEADER == 8
    ensures CryptRtcp(prim, k, conf, p, index)
            == if conf then p[..8] + XorWith(p[8..], KeystreamOf(prim, k.cipher, RtcpIv(k, RtcpSsrc(p), index)), 0) else p
  {
    hide RtcpIv, RtcpSsrc, XorWith, KeystreamOf;
  }

  lemma CryptedBuffer(p: Octets, rest: Octets, after: Octets, key: nat -> Octet)
    requires 8 <= |p| && |after| == |p| + |rest|
    requires after[..8] == (p + rest)[..8]
    requires after[8..|p|] == XorWith((p + rest)[8..|p|], key, 0)
    requires after[|p|..] == (p + rest)[|p|..]
    ensures after[..|p|] == p[..8] + XorWith(p[8..], key, 0)
    ensures forall i :: |p| <= i < |after| ==> after[i] == rest[i - |p|]
  {
    hide XorWith;
    assert (p + rest)[..8] == p[..8] && (p + rest)[8..|p|] == p[8..] && (p + rest)[|p|..] == rest;
    assert after[..|p|] == after[..8] + after[8..|p|];
    assert forall i :: |p| <= i < |after| ==> after[i] == after[|p|..][i - |p|];
  }

  /** The tag over the packet as it goes out. */
  method ComputeRtcpTag(
    prim: Primitives, keys: SessionKeys, conf: bool, body: Octets, trailer: Octets, ghost index: nat)
    returns (tag: Octets)
    requires |body| >= RTCP_HEADER
    requires keys.rtpCipher.algorithm.Gcm? ==>
               keys.rtcpCipher.iv == RtcpIv(RtcpKeysOf(keys), RtcpSsrc(body), index)
    modifies keys.rtcpAuth
    ensures tag == RtcpTag(prim, RtcpKeysOf(keys), conf, body, trailer, index)
  {
    hide Tag, AeadTag, RtcpIv;
    if !keys.rtpCipher.algorithm.Gcm? {
      keys.rtcpAuth.Start();
      assert [] + (body + trailer) == body + trailer;
      tag := keys.rtcpAuth.Compute(prim, body + trailer);
    } else if conf {
      tag := keys.rtcpCipher.GetTag(prim, body[..RTCP_HEADER] + trailer, body[RTCP_HEADER..], keys.rtcpAuth.tagLen);
    } else {
      tag := keys.rtcpCipher.GetTag(prim, body + trailer, [], keys.rtcpAuth.tagLen);
    }
  }

  /** Writes trailer and identifier where they belong and encrypts the packet before them. */
  method WriteTrailer(
    prim: Primitives, keys: SessionKeys, conf: bool, pkt: array<Octet>, length: nat, at: nat, index: nat, useMki: bool)
    returns (mkiSize: nat)
    requires RTCP_HEADER <= length <= at && at + TRAILER + |keys.mki| <= pkt.Length
    modifies keys.rtcpCipher, pkt
    ensures keys.rtcpCipher.iv == RtcpIv(RtcpKeysOf(keys), RtcpSsrc(old(pkt[..length])), index)
    ensures pkt[..length] == CryptRtcp(prim, RtcpKeysOf(keys), conf, old(pkt[..length]), index)
    ensures var written := Trailer(conf, index) + RtcpMki(RtcpKeysOf(keys), useMki);
            && mkiSize == |RtcpMki(RtcpKeysOf(keys), useMki)| && |written| == TRAILER + mkiSize
            && at + |written| <= pkt.Length && pkt[at..at + |written|] == written
  {
    hide *;
    ghost var p, k := pkt[..length], RtcpKeysOf(keys);
    RtcpKeyFields(keys, useMki);
    SealRtcpIs(prim, k, conf, p, index, useMki);
    var trailer := Trailer(conf, index);
    CopyInto(pkt, at, trailer);
    mkiSize := InjectMki(keys, pkt, at + |trailer|, useMki);
    SamePrefix(p, pkt[..]);
    ghost var written := pkt[..];
    TwoParts(written, at, trailer, RtcpMki(k, useMki));
    CryptRtcpInPlace(prim, keys, conf, pkt, length, index);
    SameAfter(written, pkt[..], length, at, at + |trailer| + mkiSize);
  }

  lemma TwoParts(buffer: Octets, at: nat, a: Octets, b: Octets)
    requires at + |a| + |b| <= |buffer|
    requires forall i :: at <= i < at + |a| ==> buffer[i] == a[i - at]
    requires forall i :: at + |a| <= i < at + |a| + |b| ==> buffer[i] == b[i - at - |a|]
    ensures buffer[at..at + |a| + |b|] == a + b
  {
  }

  lemma SameAfter(before: Octets, after: Octets, length: nat, from: nat, to: nat)
    requires length <= from <= to <= |before| == |after|
    requires forall i :: length <= i < |after| ==> after[i] == before[i]
    ensures after[from..to] == before[from..to]
  {
  }

  /** The tag after the body and before the rest in GCM mode, else last. */
  ghost function Assembled(gcm: bool, body: Octets, rest: Octets, tag: Octets): Octets {
    if gcm then body + tag + rest else body + rest + tag
  }

  /** Computes the tag and puts it in its place; `rest` stands behind the place for it or the body. */
  method AppendRtcpTag(
    prim: Primitives, keys: SessionKeys, conf: bool, pkt: array<Octet>, length: nat, trailer: Octets,
    ghost rest: Octets, restSize: nat, ghost index: nat)
    returns (newLength: nat)
    requires RTCP_HEADER <= length && length + restSize + keys.rtcpAuth.tagLen <= pkt.Length && |rest| == restSize
    requires keys.rtpCipher.algorithm.Gcm? ==>
               keys.rtcpCipher.iv == RtcpIv(RtcpKeysOf(keys), RtcpSsrc(pkt[..length]), index)
    requires var at := if keys.rtpCipher.algorithm.Gcm? then length + keys.rtcpAuth.tagLen else length;
             pkt[at..at + restSize] == rest
    modifies keys.rtcpAuth, pkt
    ensures newLength <= pkt.Length
    ensures var body := old(pkt[..length]);
            pkt[..newLength]
            == Assembled(keys.rtpCipher.algorithm.Gcm?, body, rest,
                         RtcpTag(prim, RtcpKeysOf(keys), conf, body, trailer, index))
  {
    hide *;
    var gcm, tagLen, body := keys.rtpCipher.algorithm.Gcm?, keys.rtcpAuth.tagLen, pkt[..length];
    ghost var before := pkt[..];
    SliceOf(before, body, rest, if gcm then length + tagLen else length);
    var tag := ComputeRtcpTag(prim, keys, conf, body, trailer, index);
    RtcpTagSize(prim, keys, conf, body, trailer, index);
    CopyInto(pkt, if gcm then length else length + restSize, tag);
    newLength := length + restSize + tagLen;
    SealedParts(before, pkt[..], body, rest, tag, gcm);
  }

  lemma SliceOf(buffer: Octets, body: Octets, rest: Octets, at: nat)
    requires at + |rest| <= |buffer| && |body| <= |buffer|
    requires buffer[at..at + |rest|] == rest && buffer[..|body|] == body
    ensures forall i :: 0 <= i < |body| ==> buffer[i] == body[i]
    ensures forall i :: 0 <= i < |rest| ==> buffer[at + i] == rest[i]
  {
    forall i | 0 <= i < |rest|
      ensures buffer[at + i] == rest[i]
    {
      assert buffer[at..at + |rest|][i] == rest[i];
    }
  }

  lemma RtcpTagSize(prim: Primitives, keys: SessionKeys, conf: bool, body: Octets, trailer: Octets, index: nat)
    requires |body| >= RTCP_HEADER
    ensures |RtcpTag(prim, RtcpKeysOf(keys), conf, body, trailer, index)| == keys.rtcpAuth.tagLen
  {
  }

  /** Writing the tag after the body or after the rest completes the packet. */
  lemma SealedParts(before: Octets, after: Octets, body: Octets, rest: Octets, tag: Octets, gcm: bool)
    requires |body| + |rest| + |tag| <= |before| == |after|
    requires forall i :: 0 <= i < |body| ==> before[i] == body[i]
    requires var at := if gcm then |body| + |tag| else |body|;
             forall i :: 0 <= i < |rest| ==> before[at + i] == rest[i]
    requires var tagAt := if gcm then |body| else |body| + |rest|;
             forall i :: 0 <= i < |after| ==>
               after[i] == if tagAt <= i < tagAt + |tag| then tag[i - tagAt] else before[i]
    ensures after[..|body| + |rest| + |tag|] == Assembled(gcm, body, rest, tag)
  {
    var at := if gcm then |body| + |tag| else |body|;
    var expected := Assembled(gcm, body, rest, tag);
    forall i | 0 <= i < |expected|
      ensures after[i] == expected[i]
    {
      if at <= i < at + |rest| {
        assert before[at + (i - at)] == rest[i - at];
      }
    }
  }

  /** Protects the packet at the front of the buffer under the given index. */
  method SealRtcpInPlace(
    prim: Primitives, keys: SessionKeys, conf: bool, pkt: array<Octet>, length: nat, index: nat, useMki: bool)
    returns (newLength: nat)
    requires RTCP_HEADER <= length && length + TRAILER + |keys.mki| + keys.rtcpAuth.tagLen <= pkt.Length
    modifies keys.rtcpCipher, keys.rtcpAuth, pkt
    ensures newLength <= pkt.Length
    ensures pkt[..newLength] == SealRtcp(prim, RtcpKeysOf(keys), conf, old(pkt[..length]), index, useMki)
  {
    hide *;
    ghost var k, p := RtcpKeysOf(keys), pkt[..length];
    RtcpKeyFields(keys, useMki);
    SealRtcpIs(prim, k, conf, p, index, useMki);
    CryptRtcpKeeps(prim, k, conf, p, index);
    var at := if keys.rtpCipher.algorithm.Gcm? then length + keys.rtcpAuth.tagLen else length;
    var mkiSize := WriteTrailer(prim, keys, conf, pkt, length, at, index, useMki);
    ghost var rest := Trailer(conf, index) + RtcpMki(k, useMki);
    newLength := AppendRtcpTag(prim, keys, conf, pkt, length, Trailer(conf, index), rest, TRAILER + mkiSize, index);
  }

  lemma SealRtcpIs(prim: Primitives, k: RtcpKeys, conf: bool, p: Octets, index: nat, useMki: bool)
    requires |p| >= RTCP_HEADER
    ensures TRAILER == 4 && |Trailer(conf, index)| == 4
    ensures var body, trailer := CryptRtcp(prim, k, conf, p, index), Trailer(conf, index);
            && |body| == |p|
            && |RtcpTag(prim, k, conf, body, trailer, index)| == k.tagLen
            && SealRtcp(prim, k, conf, p, index, useMki)
               == Assembled(k.gcm, body, trailer + RtcpMki(k, useMki),
                            RtcpTag(prim, k, conf, body, trailer, index))
  {
    hide CryptRtcp, RtcpTag, RtcpMki, Trailer;
    var body, trailer := CryptRtcp(prim, k, conf, p, index), Trailer(conf, index);
    var tag, mki := RtcpTag(prim, k, conf, body, trailer, index), RtcpMki(k, useMki);
    assert body + tag + trailer + mki == body + tag + (trailer + mki);
    assert body + trailer + mki + tag == body + (trailer + mki) + tag;
  }

  lemma CryptRtcpKeeps(prim: Primitives, k: RtcpKeys, conf: bool, p: Octets, index: nat)
    requires |p| >= RTCP_HEADER
    ensures |CryptRtcp(prim, k, conf, p, index)| == |p|
    ensures RtcpSsrc(CryptRtcp(prim, k, conf, p, index)) == RtcpSsrc(p)
  {
    hide CryptRtcp, RtcpSsrc;
    SameRtcpSsrc(p, CryptRtcp(prim, k, conf, p, index));
  }

  /** Unprotects the packet at the front of the buffer; one that is refused is left as it was. */
  method OpenRtcpInPlace(
    prim: Primitives, keys: SessionKeys, conf: bool, db: Rdb, pkt: array<Octet>, length: nat, mkiSize: nat)
    returns (status: Status, newLength: nat, index: nat)
    requires length <= pkt.Length && ValidRdb(db)
    modifies keys.rtcpCipher, keys.rtcpAuth, pkt
    ensures var r := UnprotectRtcp(prim, RtcpKeysOf(keys), conf, db, old(pkt[..length]), mkiSize);
            && status == r.status
            && (status == Ok ==>
                  && newLength <= pkt.Length && pkt[..newLength] == r.packet
                  && var at := TrailerAt(RtcpKeysOf(keys), length, mkiSize);
                     && 0 <= at && at + TRAILER <= length && db.start <= index <= MAX_RTCP_INDEX
                     && index == TrailerIndex(old(pkt[..length]), at))
            && (status != Ok ==> newLength == length && pkt[..] == old(pkt[..]))
  {
    hide *;
    ghost var k := RtcpKeysOf(keys);
    var p := pkt[..length];
    newLength, index := length, 0;
    RtcpKeyFields(keys, false);
    UnprotectRtcpIs(prim, k, conf, db, p, mkiSize);
    var gcm, tagLen := keys.rtpCipher.algorithm.Gcm?, keys.rtcpAuth.tagLen;
    var size := length - tagLen - mkiSize - TRAILER;
    if size < RTCP_HEADER {
      return BadParam, length, 0;
    }
    var at := if gcm then length - mkiSize - TRAILER else size;
    var tagAt := if gcm then size else length - tagLen;
    var eBit := EBit(p, at);
    if !gcm && eBit != conf {
      return CantCheck, length, 0;
    }
    index := TrailerIndex(p, at);
    status := CheckRdb(db, index);
    if status != Ok {
      return;
    }
    SameRtcpPrefix(p, size);
    var iv := RtcpIv(RtcpKeysOf(keys), RtcpSsrc(p), index);
    keys.rtcpCipher.SetIv(iv);
    var tag := ComputeRtcpTag(prim, keys, eBit, p[..size], p[at..at + TRAILER], index);
    if tag != p[tagAt..tagAt + tagLen] {
      return AuthFail, length, index;
    }
    newLength := size;
    assert pkt[..size] == p[..size];
    CryptRtcpInPlace(prim, keys, eBit, pkt, size, index);
    status := Ok;
  }

  lemma SameRtcpPrefix(p: Octets, size: nat)
    requires RTCP_HEADER <= size <= |p|
    ensures RtcpSsrc(p[..size]) == RtcpSsrc(p)
  {
    hide RtcpSsrc;
    assert p[..size][..RTCP_HEADER] == p[..RTCP_HEADER];
    SameRtcpSsrc(p, p[..size]);
  }

  lemma UnprotectRtcpIs(prim: Primitives, k: RtcpKeys, conf: bool, db: Rdb, p: Octets, mkiSize: nat)
    requires ValidRdb(db)
    ensures TRAILER == 4 && RTCP_HEADER == 8
    ensures var size := |p| - k.tagLen - mkiSize - 4;
            var r := UnprotectRtcp(prim, k, conf, db, p, mkiSize);
            if size < 8 then r == RtcpReceived(BadParam, p, db)
            else
              var at := if k.gcm then |p| - mkiSize - 4 else size;
              var tagAt := if k.gcm then size else |p| - k.tagLen;
              && at == TrailerAt(k, |p|, mkiSize)
              && size <= |p| && at + 4 <= |p| && 0 <= tagAt && tagAt + k.tagLen <= |p|
              && var index := TrailerIndex(p, at);
                 var eBit := EBit(p, at);
                 if !k.gcm && eBit != conf then r == RtcpReceived(CantCheck, p, db)
                 else if CheckRdb(db, index) != Ok then r == RtcpReceived(CheckRdb(db, index), p, db)
                 else
                   && db.start <= index <= MAX_RTCP_INDEX
                   && r == if RtcpTag(prim, k, eBit, p[..size], p[at..at + 4], index) != p[tagAt..tagAt + k.tagLen]
                           then RtcpReceived(AuthFail, p, db)
                           else RtcpReceived(Ok, CryptRtcp(prim, k, eBit, p[..size], index), AddRdb(db, index))
  {
    hide CryptRtcp, RtcpTag, EBit, AddRdb;
  }
}
