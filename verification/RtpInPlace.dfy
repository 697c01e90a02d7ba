/** The packet transformations as the library performs them: in place, on the caller's buffer. */
module RtpInPlace {
  import opened Octets
  import opened SrtpStatus
  import opened Crypto
  import opened InitVectors
  import opened RtpPacket
  import opened SessionKey
  import HeaderExtension

  method CopyInto(pkt: array<Octet>, at: nat, octets: Octets)
    requires at + |octets| <= pkt.Length
    modifies pkt
    ensures forall k :: 0 <= k < pkt.Length ==>
              pkt[k] == if at <= k < at + |octets| then octets[k - at] else old(pkt[k])
  {
    var i := 0;
    while i < |octets|
      invariant i <= |octets|
      invariant forall k :: 0 <= k < pkt.Length ==>
                  pkt[k] == if at <= k < at + i then octets[k - at] else old(pkt[k])
    {
      pkt[at + i] := octets[i];
      i := i + 1;
    }
  }

  predicate DistinctCiphers(keys: SessionKeys) {
    keys.xtnCipher != keys.rtpCipher
  }

  lemma DistinctCiphersIs(keys: SessionKeys)
    requires DistinctCiphers(keys)
    ensures keys.xtnCipher != keys.rtpCipher
  {
  }

  /** The ciphers are set to the vectors of this packet and at the start of their keystreams. */
  ghost predicate VectorsSet(keys: SessionKeys, ssrc: nat, index: nat)
    reads keys.rtpCipher, keys.xtnCipher
  {
    var k := RtpKeysOf(keys);
    && keys.rtpCipher.iv == PayloadIv(k, ssrc, index) && keys.rtpCipher.pos == 0
    && (keys.xtnCipher != null ==> keys.xtnCipher.iv == ExtensionIv(k, ssrc, index) && keys.xtnCipher.pos == 0)
  }

  method SetVectors(keys: SessionKeys, ssrc: nat, index: nat)
    requires DistinctCiphers(keys)
    modifies keys.rtpCipher, keys.xtnCipher
    ensures VectorsSet(keys, ssrc, index)
  {
    hide PayloadIv, ExtensionIv;
    var k := RtpKeysOf(keys);
    keys.rtpCipher.SetIv(PayloadIv(k, ssrc, index));
    if keys.xtnCipher != null {
      keys.xtnCipher.SetIv(ExtensionIv(k, ssrc, index));
    }
  }

  /** Runs the extension cipher over the header extension, if there are both. */
  method CryptExtensionInPlace(
    prim: Primitives, keys: SessionKeys, ids: seq<int>, pkt: array<Octet>, length: nat, index: nat)
    returns (status: Status)
    requires length <= pkt.Length && ValidHeader(pkt[..length]) && DistinctCiphers(keys)
    requires VectorsSet(keys, Ssrc(pkt[..length]), index)
    modifies keys.xtnCipher, pkt
    ensures keys.rtpCipher.iv == old(keys.rtpCipher.iv) && keys.rtpCipher.pos == old(keys.rtpCipher.pos)
    ensures var p := old(pkt[..length]);
            var r := CryptExtension(prim, RtpKeysOf(keys), ids, p, index);
            && status == r.status
            && pkt[LayoutEnd(p)..EncStart(p)] == r.data
            && forall k :: 0 <= k < LayoutEnd(p) || EncStart(p) <= k < pkt.Length ==> pkt[k] == old(pkt[k])
  {
    hide *;
    var p := pkt[..length];
    DistinctCiphersIs(keys);
    CryptExtensionIs(prim, keys, ids, p, index);
    SliceOfPrefix(pkt[..], length, LayoutEnd(p), EncStart(p));
    if HasExtension(p) && keys.xtnCipher != null {
      VectorsSetIs(prim, keys, Ssrc(p), index);
      PrefixFields(p, pkt[..], CsrcEnd(p));
      PrefixFields(p, pkt[..], CsrcEnd(p) + 2);
      status := HeaderExtension.ProcessHeaderEncryption(prim, keys.xtnCipher, ids, pkt, CsrcEnd(p));
    } else {
      status := Ok;
    }
  }

  lemma SliceOfPrefix(buffer: Octets, length: nat, from: nat, to: nat)
    requires from <= to <= length <= |buffer|
    ensures buffer[..length][from..to] == buffer[from..to]
  {
  }

  lemma PrefixFields(p: Octets, buffer: Octets, at: nat)
    requires |p| <= |buffer| && buffer[..|p|] == p && at + 2 <= |p|
    ensures U16(buffer, at) == U16(p, at)
  {
    assert buffer[at] == p[at] && buffer[at + 1] == p[at + 1];
  }

  lemma VectorsSetIs(prim: Primitives, keys: SessionKeys, ssrc: nat, index: nat)
    requires VectorsSet(keys, ssrc, index)
    ensures var k := RtpKeysOf(keys);
            && keys.rtpCipher.pos == 0
            && keys.rtpCipher.iv == PayloadIv(k, ssrc, index)
            && keys.rtpCipher.Stream(prim) == KeystreamOf(prim, k.cipher, PayloadIv(k, ssrc, index))
            && (keys.xtnCipher != null ==>
                  && keys.xtnCipher.pos == 0
                  && k.xtn.Some?
                  && keys.xtnCipher.Stream(prim) == KeystreamOf(prim, k.xtn.value, ExtensionIv(k, ssrc, index)))
  {
    hide PayloadIv, ExtensionIv, Keystream;
  }

  lemma CryptExtensionIs(prim: Primitives, keys: SessionKeys, ids: seq<int>, p: Octets, index: nat)
    requires ValidHeader(p)
    ensures p != [] && |p| >= EncStart(p) >= LayoutEnd(p) >= CsrcEnd(p)
    ensures HasExtension(p) ==>
              && LayoutEnd(p) == CsrcEnd(p) + 4
              && EncStart(p) == CsrcEnd(p) + 4 + 4 * U16(p, CsrcEnd(p) + 2)
    ensures !HasExtension(p) ==> LayoutEnd(p) == EncStart(p)
    ensures var k, data := RtpKeysOf(keys), p[LayoutEnd(p)..EncStart(p)];
            && (keys.xtnCipher != null ==> k.xtn.Some?)
            && CryptExtension(prim, k, ids, p, index)
               == if HasExtension(p) && keys.xtnCipher != null
                  then HeaderExtension.Process(U16(p, CsrcEnd(p)), ids,
                                               KeystreamOf(prim, k.xtn.value, ExtensionIv(k, Ssrc(p), index)), data, 0)
                  else HeaderExtension.Result(data, Ok)
  {
    hide HeaderExtension.Process, ExtensionIv, KeystreamOf, U16, Ssrc;
  }

  lemma PayloadStreamIs(prim: Primitives, keys: SessionKeys)
    ensures keys.rtpCipher.Stream(prim) == KeystreamOf(prim, RtpKeysOf(keys).cipher, keys.rtpCipher.iv)
  {
    hide Keystream;
  }

  method CryptPayloadInPlace(
    prim: Primitives, keys: SessionKeys, pkt: array<Octet>, from: nat, to: nat, ghost ssrc: nat, ghost index: nat)
    requires from <= to <= pkt.Length
    requires keys.rtpCipher.iv == PayloadIv(RtpKeysOf(keys), ssrc, index) && keys.rtpCipher.pos == 0
    modifies keys.rtpCipher, pkt
    ensures keys.rtpCipher.iv == old(keys.rtpCipher.iv)
    ensures var k := RtpKeysOf(keys);
            pkt[from..to] == XorWith(old(pkt[from..to]), KeystreamOf(prim, k.cipher, PayloadIv(k, ssrc, index)), 0)
    ensures pkt[..from] == old(pkt[..from])
    ensures forall i :: to <= i < pkt.Length ==> pkt[i] == old(pkt[i])
  {
    hide *;
    PayloadStreamIs(prim, keys);
    ghost var rest := pkt[to..];
    keys.rtpCipher.Encrypt(prim, pkt, from, to - from);
    assert forall i :: to <= i < pkt.Length ==> pkt[i] == rest[i - to];
  }

  /** Encrypts or decrypts the packet at the front of the buffer. */
  method CryptInPlace(
    prim: Primitives, keys: SessionKeys, conf: bool, ids: seq<int>, pkt: array<Octet>, length: nat, index: nat)
    returns (status: Status)
    requires length <= pkt.Length && ValidHeader(pkt[..length]) && DistinctCiphers(keys)
    requires VectorsSet(keys, Ssrc(pkt[..length]), index)
    modifies keys.rtpCipher, keys.xtnCipher, pkt
    ensures keys.rtpCipher.iv == old(keys.rtpCipher.iv)
    ensures Crypt(prim, RtpKeysOf(keys), conf, ids, old(pkt[..length]), index) == Result(pkt[..length], status)
    ensures forall k :: length <= k < pkt.Length ==> pkt[k] == old(pkt[k])
  {
    hide *;
    HeaderBounds(pkt[..length]);
    ghost var k, p, ssrc := RtpKeysOf(keys), pkt[..length], Ssrc(pkt[..length]);
    VectorsSetIs(prim, keys, ssrc, index);
    CryptIs(prim, k, conf, ids, p, index);
    if !conf {
      return Ok;
    }
    var encStart := EncStart(pkt[..length]);
    status := CryptExtensionInPlace(prim, keys, ids, pkt, length, index);
    ghost var processed := pkt[..];
    if status == Ok {
      CryptPayloadInPlace(prim, keys, pkt, encStart, length, ssrc, index);
    }
    CryptAssembled(prim, k, ids, p, processed, pkt[..], index, status);
  }

  lemma CryptIs(prim: Primitives, k: RtpKeys, conf: bool, ids: seq<int>, p: Octets, index: nat)
    requires ValidHeader(p)
    ensures p != [] && |p| >= EncStart(p) >= LayoutEnd(p)
    ensures !conf ==> Crypt(prim, k, conf, ids, p, index) == Result(p, Ok)
    ensures conf ==>
              var xtn := CryptExtension(prim, k, ids, p, index);
              var payload := if xtn.status == Ok then CryptPayload(prim, k, p, index) else p[EncStart(p)..];
              Crypt(prim, k, conf, ids, p, index) == Result(p[..LayoutEnd(p)] + xtn.data + payload, xtn.status)
    ensures CryptPayload(prim, k, p, index)
            == XorWith(p[EncStart(p)..], KeystreamOf(prim, k.cipher, PayloadIv(k, Ssrc(p), index)), 0)
  {
    hide CryptExtension, PayloadIv, KeystreamOf, Ssrc, XorWith, U16;
  }

  lemma CryptAssembled(
    prim: Primitives, k: RtpKeys, ids: seq<int>, p: Octets, processed: Octets, after: Octets, index: nat, status: Status)
    requires ValidHeader(p) && |p| <= |processed| == |after|
    requires EncStart(p) <= |p|
    requires var r := CryptExtension(prim, k, ids, p, index);
             && status == r.status && LayoutEnd(p) <= EncStart(p)
             && processed[LayoutEnd(p)..EncStart(p)] == r.data
             && forall i :: 0 <= i < LayoutEnd(p) || EncStart(p) <= i < |p| ==> processed[i] == p[i]
    requires status != Ok ==> after == processed
    requires var key := KeystreamOf(prim, k.cipher, PayloadIv(k, Ssrc(p), index));
             status == Ok ==>
               && after[..EncStart(p)] == processed[..EncStart(p)]
               && after[EncStart(p)..|p|] == XorWith(processed[EncStart(p)..|p|], key, 0)
    ensures Crypt(prim, k, true, ids, p, index) == Result(after[..|p|], status)
  {
    hide *;
    CryptIs(prim, k, true, ids, p, index);
    var l, e := LayoutEnd(p), EncStart(p);
    assert processed[..l] == p[..l] && processed[e..|p|] == p[e..];
    assert after[..l] == processed[..l] by { assert after[..e][..l] == processed[..e][..l]; }
    assert after[l..e] == processed[l..e] by { assert after[..e][l..] == processed[..e][l..]; }
    assert after[..|p|] == after[..l] + after[l..e] + after[e..|p|];
  }

  // ----- Sealing

  method InjectMki(keys: SessionKeys, pkt: array<Octet>, at: nat, useMki: bool) returns (size: nat)
    requires at + |keys.mki| <= pkt.Length
    modifies pkt
    ensures size == |MkiOctets(RtpKeysOf(keys), useMki)|
    ensures forall k :: 0 <= k < pkt.Length ==>
              pkt[k] == if at <= k < at + size then MkiOctets(RtpKeysOf(keys), useMki)[k - at] else old(pkt[k])
  {
    size := 0;
    if useMki {
      size := |keys.mki|;
      CopyInto(pkt, at, keys.mki);
    }
  }

  method ComputeTag(prim: Primitives, keys: SessionKeys, body: Octets, index: nat) returns (tag: Octets)
    modifies keys.rtpAuth
    ensures tag == AuthTag(prim, RtpKeysOf(keys), body, index)
  {
    keys.rtpAuth.Start();
    keys.rtpAuth.Update(body);
    assert [] + body == body;
    tag := keys.rtpAuth.Compute(prim, RocOctets(index));
  }

  /** Protects the packet at the front of the buffer: identifier, encryption, tag. */
  method SealPlain(
    prim: Primitives, keys: SessionKeys, svc: Services, ids: seq<int>,
    pkt: array<Octet>, length: nat, index: nat, useMki: bool)
    returns (status: Status, newLength: nat)
    requires length + |keys.mki| + keys.rtpAuth.tagLen <= pkt.Length && ValidHeader(pkt[..length])
    requires DistinctCiphers(keys) && VectorsSet(keys, Ssrc(pkt[..length]), index)
    requires !keys.rtpCipher.algorithm.Gcm?
    modifies keys.rtpCipher, keys.xtnCipher, keys.rtpAuth, pkt
    ensures var r := Seal(prim, RtpKeysOf(keys), svc, ids, old(pkt[..length]), index, useMki);
            status == r.status && (status == Ok ==> newLength <= pkt.Length && pkt[..newLength] == r.packet)
  {
    hide *;
    ghost var k, p := RtpKeysOf(keys), pkt[..length];
    KeyFields(keys, useMki);
    var mkiSize := InjectMki(keys, pkt, length, useMki);
    SamePrefix(p, pkt[..]);
    status := CryptInPlace(prim, keys, svc.conf, ids, pkt, length, index);
    newLength := length + mkiSize;
    SealPlainIs(prim, k, svc, ids, p, index, useMki);
    if status != Ok {
      return;
    }
    ghost var body := pkt[..length];
    if svc.auth {
      var tag := ComputeTag(prim, keys, pkt[..length], index);
      CopyInto(pkt, newLength, tag);
      newLength := newLength + |tag|;
      SealedBuffer(pkt[..], body, MkiOctets(k, useMki), tag);
    } else {
      SealedBuffer(pkt[..], body, MkiOctets(k, useMki), []);
    }
  }

  lemma KeyFields(keys: SessionKeys, useMki: bool)
    ensures var k := RtpKeysOf(keys);
            && k.tagLen == keys.rtpAuth.tagLen
            && k.cipher == CipherKeys(keys.rtpCipher.algorithm, keys.rtpCipher.key)
            && MkiOctets(k, useMki) == if useMki then keys.mki else []
  {
  }

  lemma SamePrefix(p: Octets, buffer: Octets)
    requires |p| <= |buffer| && forall i :: 0 <= i < |p| ==> buffer[i] == p[i]
    ensures buffer[..|p|] == p
  {
  }

  lemma SealedBuffer(buffer: Octets, body: Octets, first: Octets, second: Octets)
    requires |body| + |first| + |second| <= |buffer|
    requires forall i :: 0 <= i < |body| ==> buffer[i] == body[i]
    requires forall i :: |body| <= i < |body| + |first| ==> buffer[i] == first[i - |body|]
    requires forall i :: |body| + |first| <= i < |body| + |first| + |second| ==>
               buffer[i] == second[i - |body| - |first|]
    ensures buffer[..|body| + |first| + |second|] == body + first + second
  {
  }

  lemma SealPlainIs(
    prim: Primitives, k: RtpKeys, svc: Services, ids: seq<int>, p: Octets, index: nat, useMki: bool)
    requires ValidHeader(p) && !k.cipher.algorithm.Gcm?
    ensures var r, body := Seal(prim, k, svc, ids, p, index, useMki), Crypt(prim, k, svc.conf, ids, p, index);
            && r.status == body.status
            && (r.status == Ok ==>
                  r.packet == body.packet + MkiOctets(k, useMki)
                              + (if svc.auth then AuthTag(prim, k, body.packet, index) else []))
  {
    hide Crypt, AuthTag, MkiOctets;
  }

  /** The authenticated cipher: encryption, tag, identifier. */
  method SealGcm(
    prim: Primitives, keys: SessionKeys, svc: Services, ids: seq<int>,
    pkt: array<Octet>, length: nat, index: nat, useMki: bool)
    returns (status: Status, newLength: nat)
    requires length + |keys.mki| + keys.rtpAuth.tagLen <= pkt.Length && ValidHeader(pkt[..length])
    requires DistinctCiphers(keys) && VectorsSet(keys, Ssrc(pkt[..length]), index)
    requires keys.rtpCipher.algorithm.Gcm?
    modifies keys.rtpCipher, keys.xtnCipher, pkt
    ensures var r := Seal(prim, RtpKeysOf(keys), svc, ids, old(pkt[..length]), index, useMki);
            status == r.status && (status == Ok ==> newLength <= pkt.Length && pkt[..newLength] == r.packet)
  {
    hide *;
    HeaderBounds(pkt[..length]);
    VectorsSetIs(prim, keys, Ssrc(pkt[..length]), index);
    ghost var k, p := RtpKeysOf(keys), pkt[..length];
    KeyFields(keys, useMki);
    SealGcmIs(prim, k, svc, ids, p, index, useMki);
    status := CryptInPlace(prim, keys, true, ids, pkt, length, index);
    newLength := length;
    if status != Ok {
      return;
    }
    var body := pkt[..length];
    var tag := keys.rtpCipher.GetTag(prim, body[..EncStart(body)], body[EncStart(body)..], keys.rtpAuth.tagLen);
    newLength := AppendTagAndMki(keys, pkt, length, tag, useMki);
  }

  method AppendTagAndMki(keys: SessionKeys, pkt: array<Octet>, at: nat, tag: Octets, useMki: bool)
    returns (newLength: nat)
    requires at + |tag| + |keys.mki| <= pkt.Length
    modifies pkt
    ensures newLength <= pkt.Length
    ensures pkt[..newLength] == old(pkt[..at]) + tag + MkiOctets(RtpKeysOf(keys), useMki)
  {
    hide *;
    ghost var body, mki := pkt[..at], MkiOctets(RtpKeysOf(keys), useMki);
    KeyFields(keys, useMki);
    CopyInto(pkt, at, tag);
    var mkiSize := InjectMki(keys, pkt, at + |tag|, useMki);
    newLength := at + |tag| + mkiSize;
    SealedBuffer(pkt[..], body, tag, mki);
  }

  lemma SealGcmIs(
    prim: Primitives, k: RtpKeys, svc: Services, ids: seq<int>, p: Octets, index: nat, useMki: bool)
    requires ValidHeader(p) && k.cipher.algorithm.Gcm?
    ensures var r, body := Seal(prim, k, svc, ids, p, index, useMki), Crypt(prim, k, true, ids, p, index);
            && r.status == body.status
            && ValidHeader(body.packet)
            && |body.packet| >= EncStart(body.packet)
            && (r.status == Ok ==>
                  r.packet == body.packet
                              + AeadTag(prim, k.cipher.key, PayloadIv(k, Ssrc(p), index),
                                        body.packet[..EncStart(body.packet)], body.packet[EncStart(body.packet)..],
                                        k.tagLen)
                              + MkiOctets(k, useMki))
  {
    hide Crypt, AeadTag, MkiOctets, PayloadIv, EncStart, ValidHeader;
    CryptKeepsHeader(prim, k, true, ids, p, index);
    SameHeaderFields(p, Crypt(prim, k, true, ids, p, index).packet);
  }

  // ----- Opening

  /** Everything up to and including the tag comparison; the packet is only read. */
  method VerifyPlain(
    prim: Primitives, keys: SessionKeys, svc: Services, pkt: array<Octet>, length: nat, index: nat, mkiSize: nat)
    returns (status: Status)
    requires length <= pkt.Length && ValidHeader(pkt[..length]) && !keys.rtpCipher.algorithm.Gcm?
    modifies keys.rtpAuth
    ensures status == Verdict(prim, RtpKeysOf(keys), svc, pkt[..length], index, mkiSize)
  {
    hide *;
    var p := pkt[..length];
    VerdictPlainIs(prim, keys, svc, p, index, mkiSize);
    var size := length - keys.rtpAuth.tagLen - mkiSize;
    if svc.conf && EncStart(p) > size {
      return ParseErr;
    }
    if size < 0 {
      return AuthFail;
    }
    if svc.auth {
      var tag := ComputeTag(prim, keys, p[..size], index);
      if tag != p[length - keys.rtpAuth.tagLen..] {
        return AuthFail;
      }
    }
    return Ok;
  }

  lemma VerdictPlainIs(
    prim: Primitives, keys: SessionKeys, svc: Services, p: Octets, index: nat, mkiSize: nat)
    requires ValidHeader(p) && !keys.rtpCipher.algorithm.Gcm?
    ensures var k, tagLen := RtpKeysOf(keys), keys.rtpAuth.tagLen;
            var size := |p| - tagLen - mkiSize;
            Verdict(prim, k, svc, p, index, mkiSize)
            == if svc.conf && EncStart(p) > size then ParseErr
               else if size < 0 then AuthFail
               else if svc.auth && AuthTag(prim, k, p[..size], index) != p[|p| - tagLen..] then AuthFail
               else Ok
  {
    hide AuthTag, EncStart, ValidHeader;
  }

  /** The authenticated cipher's tag comparison, after the length check. */
  method VerifyGcm(
    prim: Primitives, keys: SessionKeys, svc: Services, pkt: array<Octet>, length: nat, index: nat, mkiSize: nat)
    returns (status: Status)
    requires length <= pkt.Length && ValidHeader(pkt[..length]) && keys.rtpCipher.algorithm.Gcm?
    requires VectorsSet(keys, Ssrc(pkt[..length]), index)
    requires EncStart(pkt[..length]) <= length - keys.rtpAuth.tagLen - mkiSize
    ensures status == Verdict(prim, RtpKeysOf(keys), svc, pkt[..length], index, mkiSize)
  {
    hide *;
    HeaderBounds(pkt[..length]);
    VectorsSetIs(prim, keys, Ssrc(pkt[..length]), index);
    var p, tagLen := pkt[..length], keys.rtpAuth.tagLen;
    var size := length - tagLen - mkiSize;
    VerdictGcmIs(prim, keys, svc, p, index, mkiSize);
    var tag := keys.rtpCipher.GetTag(prim, p[..EncStart(p)], p[EncStart(p)..size], tagLen);
    status := if tag == p[size..size + tagLen] then Ok else AuthFail;
  }

  lemma VerdictGcmIs(
    prim: Primitives, keys: SessionKeys, svc: Services, p: Octets, index: nat, mkiSize: nat)
    requires ValidHeader(p) && keys.rtpCipher.algorithm.Gcm?
    requires EncStart(p) <= |p| - keys.rtpAuth.tagLen - mkiSize
    ensures var k, tagLen := RtpKeysOf(keys), keys.rtpAuth.tagLen;
            var size := |p| - tagLen - mkiSize;
            Verdict(prim, k, svc, p, index, mkiSize)
            == if AeadTag(prim, keys.rtpCipher.key, PayloadIv(k, Ssrc(p), index), p[..EncStart(p)],
                          p[EncStart(p)..size], tagLen)
                  == p[size..size + tagLen]
               then Ok else AuthFail
  {
    hide AeadTag, ValidHeader, PayloadIv;
    var size := |p| - keys.rtpAuth.tagLen - mkiSize;
    PrefixKeepsHeader(p, size);
    assert p[..size][..EncStart(p)] == p[..EncStart(p)];
    assert p[..size][EncStart(p)..] == p[EncStart(p)..size];
  }

  /** Decrypts a verified packet and drops its trailer. */
  method OpenInPlace(
    prim: Primitives, keys: SessionKeys, svc: Services, ids: seq<int>,
    pkt: array<Octet>, length: nat, index: nat, mkiSize: nat)
    returns (status: Status, newLength: nat)
    requires length <= pkt.Length && ValidHeader(pkt[..length])
    requires DistinctCiphers(keys) && VectorsSet(keys, Ssrc(pkt[..length]), index)
    requires Verdict(prim, RtpKeysOf(keys), svc, pkt[..length], index, mkiSize) == Ok
    modifies keys.rtpCipher, keys.xtnCipher, pkt
    ensures var r := Open(prim, RtpKeysOf(keys), svc, ids, old(pkt[..length]), index, mkiSize);
            status == r.status && (status == Ok ==> newLength <= pkt.Length && pkt[..newLength] == r.packet)
  {
    hide *;
    ghost var p := pkt[..length];
    OpenFits(prim, keys, svc, ids, p, index, mkiSize);
    newLength := length - keys.rtpAuth.tagLen - mkiSize;
    status := Ok;
    assert pkt[..newLength] == p[..newLength];
    if svc.conf || keys.rtpCipher.algorithm.Gcm? {
      status := CryptInPlace(prim, keys, true, ids, pkt, newLength, index);
    }
  }

  lemma OpenFits(
    prim: Primitives, keys: SessionKeys, svc: Services, ids: seq<int>, p: Octets, index: nat, mkiSize: nat)
    requires ValidHeader(p) && Verdict(prim, RtpKeysOf(keys), svc, p, index, mkiSize) == Ok
    ensures var k, size := RtpKeysOf(keys), |p| - keys.rtpAuth.tagLen - mkiSize;
            && 0 <= size <= |p|
            && (svc.conf || keys.rtpCipher.algorithm.Gcm? ==>
                  && ValidHeader(p[..size]) && Ssrc(p[..size]) == Ssrc(p)
                  && Open(prim, k, svc, ids, p, index, mkiSize) == Crypt(prim, k, true, ids, p[..size], index))
            && (!svc.conf && !keys.rtpCipher.algorithm.Gcm? ==>
                  Open(prim, k, svc, ids, p, index, mkiSize) == Result(p[..size], Ok))
  {
    hide Crypt, AuthTag, GcmTag, ValidHeader, EncStart, Ssrc;
    var size := |p| - keys.rtpAuth.tagLen - mkiSize;
    if svc.conf || keys.rtpCipher.algorithm.Gcm? {
      PrefixKeepsHeader(p, size);
    }
  }
}
