/** Session keys as the streams hold them, key usage limits, and selection by management key
    identifier (MKI). */
module SessionKey {
  import opened Octets
  import opened SrtpStatus
  import opened Crypto
  import opened InitVectors
  import opened ReplayWindow
  import opened RtpPacket

  // ----- Key usage limits

  const SOFT_LIMIT: nat := 0x1_0000
  const INITIAL_LIMIT: nat := 0xffff_ffff_ffff

  datatype LimitState = Normal | PastSoftLimit | Expired

  datatype KeyEvent = NormalUse | SoftLimit | HardLimit

  datatype Limit = Limit(numLeft: nat, state: LimitState)

  /** One use of a key. The counter is 64 bits wide and wraps below zero. */
  function Charge(limit: Limit): (r: (Limit, KeyEvent)) {
    var left := (limit.numLeft - 1) % UINT64;
    if left >= SOFT_LIMIT then (Limit(left, limit.state), NormalUse)
    else if left < 1 then (Limit(left, Expired), HardLimit)
    else (Limit(left, if limit.state == Normal then PastSoftLimit else limit.state), SoftLimit)
  }

  class KeyLimit {
    var limit: Limit

    constructor ()
      ensures limit == Limit(INITIAL_LIMIT, Normal)
    {
      limit := Limit(INITIAL_LIMIT, Normal);
    }

    method Update() returns (event: KeyEvent)
      modifies this
      ensures (limit, event) == Charge(old(limit))
    {
      limit := limit.(numLeft := (limit.numLeft - 1) % UINT64);
      if limit.numLeft >= SOFT_LIMIT {
        return NormalUse;
      }
      if limit.state == Normal {
        limit := limit.(state := PastSoftLimit);
      }
      if limit.numLeft < 1 {
        limit := limit.(state := Expired);
        return HardLimit;
      }
      return SoftLimit;
    }
  }

  /** The limit after `n` uses. */
  function AfterUses(limit: Limit, n: nat): Limit {
    if n == 0 then limit else Charge(AfterUses(limit, n - 1)).0
  }

  lemma {:induction false} UsesLeft(limit: Limit, n: nat)
    requires n <= limit.numLeft < UINT64
    ensures AfterUses(limit, n).numLeft == limit.numLeft - n
  {
    if n > 0 {
      UsesLeft(limit, n - 1);
    }
  }

  /** A new key is refused exactly at its last use. The refusal does not last: the counter wraps, and
      the next use is a normal one. */
  lemma KeyExpiresOnSchedule(n: nat)
    requires 0 < n <= 0x1_0000_0000_0000
    ensures Charge(AfterUses(Limit(INITIAL_LIMIT, Normal), n - 1)).1
            == if n <= 0xffff_fffe_ffff then NormalUse
               else if n < 0xffff_ffff_ffff then SoftLimit
               else if n == 0xffff_ffff_ffff then HardLimit
               else NormalUse
  {
    hide AfterUses;
    UsesLeft(Limit(INITIAL_LIMIT, Normal), n - 1);
  }

  // ----- Session keys

  datatype SessionKeys = SessionKeys(
    rtpCipher: Cipher,
    xtnCipher: Cipher?,
    rtpAuth: Auth,
    rtcpCipher: Cipher,
    rtcpAuth: Auth,
    salt: Salt,
    cSalt: Salt,
    mki: Octets,
    limit: KeyLimit)

  function CipherKeysOf(c: Cipher): CipherKeys {
    CipherKeys(c.algorithm, c.key)
  }

  function RtpKeysOf(keys: SessionKeys): RtpKeys {
    RtpKeys(CipherKeysOf(keys.rtpCipher),
            if keys.xtnCipher == null then None else Some(CipherKeysOf(keys.xtnCipher)),
            keys.rtpAuth.key, keys.rtpAuth.tagLen, keys.salt, keys.mki)
  }

  function RtpKeysOfAll(table: seq<SessionKeys>): (r: seq<RtpKeys>)
    ensures |r| == |table| && forall i :: 0 <= i < |table| ==> r[i] == RtpKeysOf(table[i])
  {
    seq(|table|, i requires 0 <= i < |table| => RtpKeysOf(table[i]))
  }

  // ----- Selection by MKI

  const MAX_MKI_LEN: nat := 128

  /** The key slot a sender uses. */
  function SelectedSlot(count: nat, useMki: bool, mkiIndex: nat): (r: nat)
    requires count > 0
    ensures r < count
  {
    if useMki && mkiIndex < count then mkiIndex else 0
  }

  /** Where the identifier ends in a received packet of the given length. */
  function MkiEnd(keys: seq<RtpKeys>, length: nat): int
    requires keys != []
  {
    if keys[0].cipher.algorithm.Gcm? then length else length - keys[0].tagLen
  }

  /** The packet holds the slot's identifier before `end`, with as many octets again before it. */
  predicate HoldsMki(k: RtpKeys, p: Octets, end: int) {
    k.mki != [] && 2 * |k.mki| <= end <= |p| && p[end - |k.mki|..end] == k.mki
  }

  /** The first slot from `from` on whose identifier the packet holds. */
  function FindSlot(keys: seq<RtpKeys>, p: Octets, from: nat): (r: Option<nat>)
    requires keys != [] && from <= |keys|
    ensures r.Some? ==> from <= r.value < |keys| && HoldsMki(keys[r.value], p, MkiEnd(keys, |p|))
                        && forall i :: from <= i < r.value ==> !HoldsMki(keys[i], p, MkiEnd(keys, |p|))
    ensures r.None? ==> forall i :: from <= i < |keys| ==> !HoldsMki(keys[i], p, MkiEnd(keys, |p|))
    decreases |keys| - from
  {
    if from == |keys| then None
    else if HoldsMki(keys[from], p, MkiEnd(keys, |p|)) then Some(from)
    else FindSlot(keys, p, from + 1)
  }

  /** The slot has an identifier that does not fit between the start of the packet and `end`. */
  predicate Overhangs(k: RtpKeys, end: int) {
    0 <= end < |k.mki|
  }

  /** One of the slots tried from `from` on is compared with octets outside the packet. */
  predicate ReadsOutside(keys: seq<RtpKeys>, p: Octets, from: nat)
    requires keys != [] && from <= |keys|
    decreases |keys| - from
  {
    from < |keys|
    && (Overhangs(keys[from], MkiEnd(keys, |p|))
        || (!HoldsMki(keys[from], p, MkiEnd(keys, |p|)) && ReadsOutside(keys, p, from + 1)))
  }

  /** The search as the receiver performs it, in unsigned arithmetic: where an identifier does not fit
      before `end`, the position wraps and passes the test that is to keep it inside. Such a comparison
      reads `outside` the packet; what it finds there is taken to differ from the identifier. */
  method GetSessionKeys(table: seq<SessionKeys>, pkt: array<Octet>, length: nat)
    returns (slot: Option<nat>, outside: bool)
    requires table != [] && length <= pkt.Length && length < UINT32
    requires forall i | 0 <= i < |table| :: |table[i].mki| <= MAX_MKI_LEN
    ensures slot == FindSlot(RtpKeysOfAll(table), pkt[..length], 0)
    ensures outside == ReadsOutside(RtpKeysOfAll(table), pkt[..length], 0)
  {
    hide *;
    ghost var keys := RtpKeysOfAll(table);
    var p := pkt[..length];
    MkiEndIs(table, length);
    outside := false;
    var tagLen := if table[0].rtpCipher.algorithm.Gcm? then 0 else table[0].rtpAuth.tagLen;
    if tagLen > length {
      NoRoomForMki(keys, p, 0);
      return None, false;
    }
    var end := length - tagLen;
    var i := 0;
    while i < |table|
      invariant 0 <= i <= |table|
      invariant FindSlot(keys, p, 0) == FindSlot(keys, p, i)
      invariant ReadsOutside(keys, p, 0) == (outside || ReadsOutside(keys, p, i))
    {
      FindSlotUnfold(table, p, i, end);
      var mki := table[i].mki;
      if |mki| != 0 {
        var start := (end - |mki|) % UINT32;
        StartIs(mki, end, start);
        if start >= |mki| {
          if start + |mki| > length {
            outside := true;
          } else if p[start..start + |mki|] == mki {
            return Some(i), outside;
          }
        }
      }
      i := i + 1;
    }
    NothingTried(keys, p);
    return None, outside;
  }

  /** Where the unsigned position is. */
  lemma StartIs(mki: Octets, end: nat, start: nat)
    requires 0 < |mki| <= MAX_MKI_LEN && end < UINT32 && start == (end - |mki|) % UINT32
    ensures if end < |mki| then start >= |mki| && start + |mki| == end + UINT32 else start == end - |mki|
  {
    if end < |mki| {
      assert start == end - |mki| + UINT32;
    }
  }

  lemma NothingTried(keys: seq<RtpKeys>, p: Octets)
    requires keys != []
    ensures FindSlot(keys, p, |keys|) == None && !ReadsOutside(keys, p, |keys|)
  {
  }

  /** It happens exactly if an identifier that is tried does not fit before the tag. */
  lemma {:induction false} ReadsOutsideIff(keys: seq<RtpKeys>, p: Octets, from: nat)
    requires keys != [] && from <= |keys|
    ensures ReadsOutside(keys, p, from)
            <==> exists i | from <= i < |keys| ::
                   && Overhangs(keys[i], MkiEnd(keys, |p|))
                   && forall j | from <= j < i :: !HoldsMki(keys[j], p, MkiEnd(keys, |p|))
    decreases |keys| - from
  {
    hide HoldsMki, MkiEnd, Overhangs;
    if from < |keys| {
      ReadsOutsideIff(keys, p, from + 1);
      if ReadsOutside(keys, p, from) && !Overhangs(keys[from], MkiEnd(keys, |p|)) {
        var i :| from + 1 <= i < |keys| && Overhangs(keys[i], MkiEnd(keys, |p|))
                 && forall j | from + 1 <= j < i :: !HoldsMki(keys[j], p, MkiEnd(keys, |p|));
        assert forall j | from <= j < i :: !HoldsMki(keys[j], p, MkiEnd(keys, |p|));
      }
    }
  }

  /** With equally long identifiers, exactly if the octets before the tag are fewer than one of them. */
  lemma EqualMkisFitIff(keys: seq<RtpKeys>, p: Octets)
    requires DistinctMkis(keys) && keys != []
    ensures ReadsOutside(keys, p, 0) <==> 0 <= MkiEnd(keys, |p|) < |keys[0].mki|
  {
    hide ReadsOutside, HoldsMki, MkiEnd;
    ReadsOutsideIff(keys, p, 0);
  }

  /** For instance for a packet of 22 octets, a tag of 10 and identifiers of 16. */
  lemma ShortPacketReadsOutside(keys: seq<RtpKeys>, p: Octets)
    requires keys != [] && !keys[0].cipher.algorithm.Gcm? && keys[0].tagLen == 10 && |keys[0].mki| == 16
    requires |p| == 22
    ensures ReadsOutside(keys, p, 0) && !HoldsMki(keys[0], p, MkiEnd(keys, |p|))
  {
  }

  lemma MkiEndIs(table: seq<SessionKeys>, length: nat)
    requires table != []
    ensures MkiEnd(RtpKeysOfAll(table), length)
            == length - if table[0].rtpCipher.algorithm.Gcm? then 0 else table[0].rtpAuth.tagLen
  {
  }

  lemma FindSlotUnfold(table: seq<SessionKeys>, p: Octets, i: nat, end: nat)
    requires i < |table| && end <= |p|
    requires end == MkiEnd(RtpKeysOfAll(table), |p|)
    ensures var keys, mki := RtpKeysOfAll(table), table[i].mki;
            && FindSlot(keys, p, i)
               == (if mki != [] && 2 * |mki| <= end && p[end - |mki|..end] == mki then Some(i)
                   else FindSlot(keys, p, i + 1))
            && ReadsOutside(keys, p, i)
               == (end < |mki|
                   || (!(mki != [] && 2 * |mki| <= end && p[end - |mki|..end] == mki)
                       && ReadsOutside(keys, p, i + 1)))
  {
    hide RtpKeysOfAll, CipherKeysOf;
    assert RtpKeysOfAll(table)[i].mki == table[i].mki;
  }

  lemma {:induction false} NoRoomForMki(keys: seq<RtpKeys>, p: Octets, from: nat)
    requires keys != [] && from <= |keys| && MkiEnd(keys, |p|) < 0
    ensures FindSlot(keys, p, from) == None && !ReadsOutside(keys, p, from)
    decreases |keys| - from
  {
    if from < |keys| {
      NoRoomForMki(keys, p, from + 1);
    }
  }

  /** The slots of one stream: one algorithm and tag length, equally long distinct identifiers. */
  ghost predicate DistinctMkis(keys: seq<RtpKeys>) {
    && (forall i | 0 <= i < |keys| ::
          && keys[i].cipher.algorithm == keys[0].cipher.algorithm
          && keys[i].tagLen == keys[0].tagLen
          && |keys[i].mki| == |keys[0].mki| > 0)
    && (forall i, j | 0 <= i < j < |keys| :: keys[i].mki != keys[j].mki)
  }

  /** The receiver finds the slot the sender used, in either trailer layout. */
  lemma SealedSlotIsFound(
    prim: Primitives, keys: seq<RtpKeys>, slot: nat, svc: Services, ids: seq<int>, pkt: Octets, index: nat)
    requires slot < |keys| && DistinctMkis(keys)
    requires ValidHeader(pkt) && |pkt| >= |keys[0].mki|
    requires keys[0].cipher.algorithm.Gcm? || svc.auth || keys[0].tagLen == 0
    requires Seal(prim, keys[slot], svc, ids, pkt, index, true).status == Ok
    ensures FindSlot(keys, Seal(prim, keys[slot], svc, ids, pkt, index, true).packet, 0) == Some(slot)
  {
    hide *;
    var k := keys[slot];
    var q := Seal(prim, k, svc, ids, pkt, index, true).packet;
    SealIs(prim, k, svc, ids, pkt, index, true);
    var body := Crypt(prim, k, svc.conf || k.cipher.algorithm.Gcm?, ids, pkt, index).packet;
    SealedTrailer(prim, keys, slot, svc, body, index);
    DistinctMkisHeld(keys, slot, q);
  }

  lemma SealedTrailer(
    prim: Primitives, keys: seq<RtpKeys>, slot: nat, svc: Services, body: Octets, index: nat)
    requires slot < |keys| && DistinctMkis(keys) && ValidHeader(body) && |body| >= |keys[0].mki|
    requires keys[0].cipher.algorithm.Gcm? || svc.auth || keys[0].tagLen == 0
    ensures var k := keys[slot];
            var q := if k.cipher.algorithm.Gcm?
                     then body + GcmTag(prim, k, body, index) + MkiOctets(k, true)
                     else body + MkiOctets(k, true) + (if svc.auth then AuthTag(prim, k, body, index) else []);
            HoldsMki(k, q, MkiEnd(keys, |q|))
  {
    hide GcmTag, AuthTag, ValidHeader;
    assert keys[slot].tagLen == keys[0].tagLen;
  }

  lemma DistinctMkisHeld(keys: seq<RtpKeys>, slot: nat, p: Octets)
    requires slot < |keys| && DistinctMkis(keys) && HoldsMki(keys[slot], p, MkiEnd(keys, |p|))
    ensures FindSlot(keys, p, 0) == Some(slot)
  {
    hide FindSlot;
    var found := FindSlot(keys, p, 0);
    assert found.Some?;
  }
}
