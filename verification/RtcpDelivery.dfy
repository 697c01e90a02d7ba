/** That SRTCP packets get through: which key and index a packet is sealed under, and exactly when a receiver with
    the same keys accepts it. */
module RtcpDelivery {
  import opened Octets
  import opened SrtpStatus
  import opened Crypto
  import opened RtcpReplay
  import opened SessionKey
  import opened SessionModel
  import opened RtcpPacket
  import opened RtcpModel
  import opened RtcpRuns
  import opened RtcpRepeats
  import opened SessionRuns
  import RtcpNetwork

  // ----- Sending

  /** The SRTCP counter of a source; a source that is not listed starts with 0. */
  function Counter(s: SessionState, ssrc: nat): nat {
    if Find(s.streams, ssrc) < |s.streams| then s.streams[Find(s.streams, ssrc)].rtcpDb.start else 0
  }

  /** Sending succeeds exactly if the header is complete, there is a stream or a template, and the counter has not
      come to its last value. The packet is sealed under the next value, and under the master key that the
      caller names, or under the first one if the caller names none or one that does not exist. */
  lemma RtcpSealedUnderNamedKey(prim: Primitives, s: SessionState, pkt: Octets, useMki: bool, mkiIndex: nat)
    requires ValidSession(s)
    ensures ProtectRtcpMki(prim, s, pkt, useMki, mkiIndex).status == Ok
            <==> && |pkt| >= 8 && (Find(s.streams, RtcpSsrc(pkt)) < |s.streams| || s.template.Some?)
                 && Counter(s, RtcpSsrc(pkt)) < 0x7fff_ffff
    ensures ProtectRtcpMki(prim, s, pkt, useMki, mkiIndex).status == Ok ==>
              var t, index := ReceiverStream(s, RtcpSsrc(pkt)), Counter(s, RtcpSsrc(pkt)) + 1;
              && t.keys != []
              && ProtectRtcpMki(prim, s, pkt, useMki, mkiIndex).packet
                 == if useMki && mkiIndex < |t.keys|
                    then SealRtcp(prim, RtcpKeysOf(t.keys[mkiIndex]), t.rtcp.conf, pkt, index, true)
                    else SealRtcp(prim, RtcpKeysOf(t.keys[0]), t.rtcp.conf, pkt, index, useMki)
  {
    hide SealRtcp, RtcpKeysOf, RtcpSsrc, ValidSession, ReceiverStream, Find;
    if |pkt| >= RTCP_HEADER && (Find(s.streams, RtcpSsrc(pkt)) < |s.streams| || s.template.Some?) {
      var ssrc := RtcpSsrc(pkt);
      RtcpNetwork.SendingStreamIs(s, ssrc);
      CounterIs(s, ssrc);
      ReceiverStreamValid(s, ssrc);
      WithRtcpStreamKeepsValid(s, ssrc) by { RtcpSsrcRange(pkt); }
    }
  }

  lemma CounterIs(s: SessionState, ssrc: nat)
    ensures Counter(s, ssrc) == BaseDb(s.streams, ssrc).start
  {
    hide Find;
    DbIs(s.streams, ssrc);
  }

  // ----- Receiving

  /** What the receiver needs in order to find the key: the identifier, or else the first key is meant. */
  ghost predicate RtcpKeyIsTold(t: StreamState, slot: nat, pkt: Octets, useMki: bool)
    requires slot < |t.keys|
  {
    if !useMki then slot == 0
    else
      && DistinctMkis(RtpKeysOfAll(t.keys)) && |pkt| >= |t.keys[slot].mki|
      && (RtcpKeysOf(t.keys[slot]).gcm || t.keys[slot].rtcpAuth.tagLen == t.keys[slot].rtpAuth.tagLen)
  }

  function RtcpSealedUnder(prim: Primitives, t: StreamState, slot: nat, pkt: Octets, index: nat, useMki: bool): Octets
    requires slot < |t.keys| && |pkt| >= RTCP_HEADER
  {
    SealRtcp(prim, RtcpKeysOf(t.keys[slot]), t.rtcp.conf, pkt, index, useMki)
  }

  lemma SealedIsGenuine(prim: Primitives, t: StreamState, slot: nat, pkt: Octets, index: nat, useMki: bool)
    requires slot < |t.keys| && |pkt| >= RTCP_HEADER && RtcpKeyIsTold(t, slot, pkt, useMki) && index <= MAX_RTCP_INDEX
    ensures var q := RtcpSealedUnder(prim, t, slot, pkt, index, useMki);
            && |q| >= RTCP_HEADER + TRAILER && RtcpSsrc(q) == RtcpSsrc(pkt)
            && ReceiveSlot(t, q, useMki) == Some(slot)
            && GenuineFor(prim, t, q, useMki) && UseFor(prim, t, q, useMki).index == index
  {
    hide CryptRtcp, Trailer, RtcpTag, EBit, TrailerIndex, SealRtcp, RtcpSsrc, RtcpKeysOf, DistinctMkis, FindSlot,
         RtpKeysOfAll;
    var k, conf := RtcpKeysOf(t.keys[slot]), t.rtcp.conf;
    var q := RtcpSealedUnder(prim, t, slot, pkt, index, useMki);
    var mkiSize := if useMki then |t.keys[slot].mki| else 0;
    SealedRtcpLayout(prim, k, conf, pkt, index, useMki);
    MkiSizeIs(t, slot, useMki);
    TrailerReadBack(conf, index, q, TrailerAt(k, |q|, mkiSize));
    assert q[..RTCP_HEADER] == q[..|pkt|][..RTCP_HEADER];
    SameRtcpSsrc(pkt, q);
    if useMki {
      SealedRtcpSlotIsFound(prim, t.keys, slot, conf, pkt, index);
    }
  }

  lemma MkiSizeIs(t: StreamState, slot: nat, useMki: bool)
    requires slot < |t.keys|
    ensures |RtcpMki(RtcpKeysOf(t.keys[slot]), useMki)| == if useMki then |t.keys[slot].mki| else 0
  {
  }

  /** A sealed packet that reaches a stream with the same keys, listed or to be cloned, is accepted exactly if its
      index is unused and not before the window. Then it is restored and its index recorded for its source;
      otherwise nothing changes. */
  lemma RtcpIsDelivered(
    prim: Primitives, s: SessionState, slot: nat, pkt: Octets, index: nat, useMki: bool, used: set<nat>)
    requires ValidSession(s) && |pkt| >= RTCP_HEADER && index <= 0x7fff_ffff
    requires Find(s.streams, RtcpSsrc(pkt)) < |s.streams| || s.template.Some?
    requires var t := ReceiverStream(s, RtcpSsrc(pkt));
             slot < |t.keys| && RtcpKeyIsTold(t, slot, pkt, useMki) && TracksRdb(t.rtcpDb, used)
    ensures var t := ReceiverStream(s, RtcpSsrc(pkt));
            var r := UnprotectRtcpMki(prim, s, RtcpSealedUnder(prim, t, slot, pkt, index, useMki), useMki);
            && (r.status == Ok <==> index !in used && index >= t.rtcpDb.start)
            && (r.status != Ok ==> r.session == s)
            && (r.status == Ok ==> r.packet == pkt)
            && (r.status == Ok && Find(s.streams, RtcpSsrc(pkt)) < |s.streams| ==>
                  && DbOf(r.session.streams, RtcpSsrc(pkt)).Some?
                  && TracksRdb(DbOf(r.session.streams, RtcpSsrc(pkt)).value, used + {index}))
  {
    hide *;
    var t := ReceiverStream(s, RtcpSsrc(pkt));
    var q := RtcpSealedUnder(prim, t, slot, pkt, index, useMki);
    LastIndexIs();
    SealedIsGenuine(prim, t, slot, pkt, index, useMki);
    AcceptedIff(prim, s, q, useMki);
    TracksIsValid(t.rtcpDb, used);
    CheckRdbIsExact(t.rtcpDb, used, index);
    var r := UnprotectRtcpMki(prim, s, q, useMki);
    if r.status == Ok {
      RtcpNetwork.OpenedAs(prim, s, q, useMki, slot);
      SealedIsRestored(prim, t, slot, pkt, index, useMki);
      ReceiveRtcpDbs(prim, s, q, useMki);
      AddRdbTracks(t.rtcpDb, used, index);
      ChangedDb(s, r.session, RtcpSsrc(pkt), index);
    } else {
      RefusedRtcpChangesNothing(prim, s, q, useMki);
    }
  }

  lemma LastIndexIs()
    ensures MAX_RTCP_INDEX == 0x7fff_ffff
  {
  }

  lemma TracksIsValid(db: Rdb, used: set<nat>)
    requires TracksRdb(db, used)
    ensures ValidRdb(db)
  {
  }

  lemma ChangedDb(s: SessionState, s': SessionState, ssrc: nat, index: nat)
    requires ValidSession(s) && index <= MAX_RTCP_INDEX
    requires var base := BaseDb(s.streams, ssrc);
             ValidRdb(base) && base.start <= index && DbChanges(s.streams, s'.streams, ssrc, AddRdb(base, index))
    requires Find(s.streams, ssrc) < |s.streams| || s.template.Some?
    ensures Find(s.streams, ssrc) < |s.streams| ==>
              && BaseDb(s.streams, ssrc) == ReceiverStream(s, ssrc).rtcpDb
              && DbOf(s'.streams, ssrc) == Some(AddRdb(ReceiverStream(s, ssrc).rtcpDb, index))
  {
    hide AddRdb, Find, ValidRdb;
    DbIs(s.streams, ssrc);
  }

  lemma SealedIsRestored(prim: Primitives, t: StreamState, slot: nat, pkt: Octets, index: nat, useMki: bool)
    requires slot < |t.keys| && |pkt| >= RTCP_HEADER && index <= MAX_RTCP_INDEX && ValidRdb(t.rtcpDb)
    requires var k, mkiSize := RtcpKeysOf(t.keys[slot]), if useMki then |t.keys[slot].mki| else 0;
             UnprotectRtcp(prim, k, t.rtcp.conf, t.rtcpDb, RtcpSealedUnder(prim, t, slot, pkt, index, useMki), mkiSize)
             .status == Ok
    ensures var k, mkiSize := RtcpKeysOf(t.keys[slot]), if useMki then |t.keys[slot].mki| else 0;
            UnprotectRtcp(prim, k, t.rtcp.conf, t.rtcpDb, RtcpSealedUnder(prim, t, slot, pkt, index, useMki), mkiSize)
            .packet == pkt
  {
    hide CryptRtcp, Trailer, RtcpTag, EBit, TrailerIndex, SealRtcp, RtcpKeysOf, AddRdb, CheckRdb, RtcpMki;
    var k, conf := RtcpKeysOf(t.keys[slot]), t.rtcp.conf;
    var q := RtcpSealedUnder(prim, t, slot, pkt, index, useMki);
    SealedRtcpLayout(prim, k, conf, pkt, index, useMki);
    MkiSizeIs(t, slot, useMki);
    TrailerReadBack(conf, index, q, TrailerAt(k, |q|, |RtcpMki(k, useMki)|));
    CryptRtcpTwice(prim, k, conf, pkt, index);
  }
}
