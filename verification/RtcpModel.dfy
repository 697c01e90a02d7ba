/** What protecting and unprotecting an RTCP packet does to the session state. */
module RtcpModel {
  import opened Octets
  import opened SrtpStatus
  import opened Crypto
  import opened ReplayWindow
  import opened RtcpReplay
  import opened SessionKey
  import opened SessionModel
  import opened RtcpPacket

  /** The session with a stream for the SSRC, cloned at the head if need be; None without template. */
  function WithRtcpStream(s: SessionState, ssrc: nat): Option<SessionState> {
    if Find(s.streams, ssrc) < |s.streams| then Some(s)
    else if s.template.Some? then Some(s.(streams := [Clone(s.template.value, ssrc)] + s.streams))
    else None
  }

  lemma WithRtcpStreamKeepsValid(s: SessionState, ssrc: nat)
    requires ValidSession(s) && ssrc < UINT32 && WithRtcpStream(s, ssrc).Some?
    ensures var s' := WithRtcpStream(s, ssrc).value;
            ValidSession(s') && Find(s'.streams, ssrc) < |s'.streams|
  {
    var s' := WithRtcpStream(s, ssrc).value;
    forall i | 0 <= i < |s'.streams|
      ensures ValidStream(s'.streams[i], s'.limits)
    {
      if s' != s {
        assert i > 0 ==> s'.streams[i] == s.streams[i - 1];
      }
    }
  }

  function SendRtcp(prim: Primitives, s: SessionState, at: nat, pkt: Octets, useMki: bool, mkiIndex: nat): Outcome
    requires ValidSession(s) && at < |s.streams|
  {
    var t := Mark(s.streams[at], Sender);
    var k := RtcpKeysOf(t.keys[SelectedSlot(|t.keys|, useMki, mkiIndex)]);
    var sent := ProtectRtcp(prim, k, t.rtcp.conf, t.rtcpDb, pkt, useMki);
    Outcome(WithStream(s, at, t.(rtcpDb := sent.db)), sent.status, sent.packet)
  }

  function ProtectRtcpMki(prim: Primitives, s: SessionState, pkt: Octets, useMki: bool, mkiIndex: nat): Outcome
    requires ValidSession(s)
  {
    if |pkt| < RTCP_HEADER then Outcome(s, BadParam, [])
    else
      match WithRtcpStream(s, RtcpSsrc(pkt))
      case None => Outcome(s, NoCtx, [])
      case Some(s1) =>
        WithRtcpStreamKeepsValid(s, RtcpSsrc(pkt));
        SendRtcp(prim, s1, Find(s1.streams, RtcpSsrc(pkt)), pkt, useMki, mkiIndex)
  }

  /** The state after the packet with this index has been accepted. */
  function CommitRtcp(s: SessionState, ssrc: nat, index: nat): SessionState
    requires Find(s.streams, ssrc) < |s.streams| || s.template.Some?
    requires ValidRdb(ReceiverStream(s, ssrc).rtcpDb) && index <= MAX_RTCP_INDEX
    requires ReceiverStream(s, ssrc).rtcpDb.start <= index
  {
    var at := Find(s.streams, ssrc);
    var t := Mark(ReceiverStream(s, ssrc), Receiver);
    if at < |s.streams| then WithStream(s, at, t.(rtcpDb := AddRdb(t.rtcpDb, index)))
    else
      s.(template := Some(t), streams := [Clone(t, ssrc).(rtcpDb := AddRdb(EmptyRdb(), index))] + s.streams)
  }

  lemma ReceiverStreamValid(s: SessionState, ssrc: nat)
    requires ValidSession(s) && (Find(s.streams, ssrc) < |s.streams| || s.template.Some?)
    ensures ReceiverStream(s, ssrc).keys != [] && ValidRdb(ReceiverStream(s, ssrc).rtcpDb)
  {
    var at := Find(s.streams, ssrc);
    if at < |s.streams| {
      assert ValidStream(s.streams[at], s.limits);
    }
  }

  /** The slot by the identifier in the packet, or the first one. */
  function ReceiveSlot(t: StreamState, p: Octets, useMki: bool): (r: Option<nat>)
    requires t.keys != []
    ensures r.Some? ==> r.value < |t.keys|
  {
    if useMki then FindSlot(RtpKeysOfAll(t.keys), p, 0) else Some(0)
  }

  function UnprotectRtcpMki(prim: Primitives, s: SessionState, p: Octets, useMki: bool): Outcome
    requires ValidSession(s)
  {
    if |p| < RTCP_HEADER + TRAILER then Outcome(s, BadParam, p)
    else
      var ssrc := RtcpSsrc(p);
      if Find(s.streams, ssrc) == |s.streams| && s.template.None? then Outcome(s, NoCtx, p)
      else
        ReceiverStreamValid(s, ssrc);
        var t := ReceiverStream(s, ssrc);
        match ReceiveSlot(t, p, useMki)
        case None => Outcome(s, BadMki, p)
        case Some(slot) => ReceiveRtcp(prim, s, p, slot, if useMki then |t.keys[slot].mki| else 0)
  }

  function ReceiveRtcp(prim: Primitives, s: SessionState, p: Octets, slot: nat, mkiSize: nat): Outcome
    requires |p| >= RTCP_HEADER && (Find(s.streams, RtcpSsrc(p)) < |s.streams| || s.template.Some?)
    requires slot < |ReceiverStream(s, RtcpSsrc(p)).keys| && ValidRdb(ReceiverStream(s, RtcpSsrc(p)).rtcpDb)
  {
    var t := ReceiverStream(s, RtcpSsrc(p));
    var k := RtcpKeysOf(t.keys[slot]);
    var r := UnprotectRtcp(prim, k, t.rtcp.conf, t.rtcpDb, p, mkiSize);
    if r.status != Ok then Outcome(s, r.status, p)
    else
      AcceptedIndex(prim, k, t.rtcp.conf, t.rtcpDb, p, mkiSize);
      Outcome(CommitRtcp(s, RtcpSsrc(p), TrailerIndex(p, TrailerAt(k, |p|, mkiSize))), Ok, r.packet)
  }

  lemma AcceptedIndex(prim: Primitives, k: RtcpKeys, conf: bool, db: Rdb, p: Octets, mkiSize: nat)
    requires ValidRdb(db) && UnprotectRtcp(prim, k, conf, db, p, mkiSize).status == Ok
    ensures var at := TrailerAt(k, |p|, mkiSize);
            && 0 <= at && at + TRAILER <= |p| && db.start <= TrailerIndex(p, at)
            && UnprotectRtcp(prim, k, conf, db, p, mkiSize).db == AddRdb(db, TrailerIndex(p, at))
  {
    hide CryptRtcp, RtcpTag, EBit, TrailerIndex, AddRdb;
  }

  // ----- What RTCP does not disturb

  /** A refused packet leaves everything as it was, with an authenticated cipher too. */
  lemma RefusedRtcpChangesNothing(prim: Primitives, s: SessionState, p: Octets, useMki: bool)
    requires ValidSession(s) && UnprotectRtcpMki(prim, s, p, useMki).status != Ok
    ensures UnprotectRtcpMki(prim, s, p, useMki).session == s
    ensures UnprotectRtcpMki(prim, s, p, useMki).packet == p
  {
    hide UnprotectRtcp, CommitRtcp, ReceiveSlot, RtcpKeysOf;
    if |p| >= RTCP_HEADER + TRAILER && (Find(s.streams, RtcpSsrc(p)) < |s.streams| || s.template.Some?) {
      ReceiverStreamValid(s, RtcpSsrc(p));
    }
  }

  /** `u` is `t` apart from its direction and its RTCP database. */
  predicate SameRtp(t: StreamState, u: StreamState) {
    u == t.(direction := u.direction, rtcpDb := u.rtcpDb) && ValidRdb(u.rtcpDb)
  }

  /** The streams of `s` are in `t` with their keys, RTP databases and pending rollover counters. */
  ghost predicate RtpKept(s: SessionState, t: SessionState) {
    && s.limits == t.limits
    && forall ssrc | Find(s.streams, ssrc) < |s.streams| ::
         && Find(t.streams, ssrc) < |t.streams|
         && var a, b := s.streams[Find(s.streams, ssrc)], t.streams[Find(t.streams, ssrc)];
            a.keys == b.keys && a.db == b.db && a.pendingRoc == b.pendingRoc
  }

  lemma PrependKeepsRtp(s: SessionState, t: StreamState, template: Option<StreamState>)
    requires Find(s.streams, t.ssrc) == |s.streams|
    ensures RtpKept(s, s.(template := template, streams := [t] + s.streams))
  {
    var s' := s.(template := template, streams := [t] + s.streams);
    forall ssrc | Find(s.streams, ssrc) < |s.streams|
      ensures Find(s'.streams, ssrc) == 1 + Find(s.streams, ssrc)
    {
      assert ssrc != t.ssrc && s'.streams[1..] == s.streams;
    }
  }

  lemma ReplaceKeepsRtp(s: SessionState, at: nat, t: StreamState)
    requires at < |s.streams| && t.ssrc == s.streams[at].ssrc
    requires t.keys == s.streams[at].keys && t.db == s.streams[at].db && t.pendingRoc == s.streams[at].pendingRoc
    ensures RtpKept(s, WithStream(s, at, t))
  {
    var s' := WithStream(s, at, t);
    forall ssrc
      ensures Find(s'.streams, ssrc) == Find(s.streams, ssrc)
    {
      SameSsrcsFind(s.streams, s'.streams, ssrc);
    }
  }

  lemma {:induction false} SameSsrcsFind(a: seq<StreamState>, b: seq<StreamState>, ssrc: nat)
    requires |a| == |b| && forall i :: 0 <= i < |a| ==> a[i].ssrc == b[i].ssrc
    ensures Find(a, ssrc) == Find(b, ssrc)
  {
    if a != [] && a[0].ssrc != ssrc {
      SameSsrcsFind(a[1..], b[1..], ssrc);
    }
  }

  lemma KeptTwice(a: SessionState, b: SessionState, c: SessionState)
    requires RtpKept(a, b) && RtpKept(b, c)
    ensures RtpKept(a, c)
  {
  }

  /** Sending RTCP does not disturb the RTP side of any stream. */
  lemma SentRtcpKeepsRtp(prim: Primitives, s: SessionState, pkt: Octets, useMki: bool, mkiIndex: nat)
    requires ValidSession(s)
    ensures RtpKept(s, ProtectRtcpMki(prim, s, pkt, useMki, mkiIndex).session)
  {
    hide RtpKept, ProtectRtcp, RtcpKeysOf, SelectedSlot, ValidSession;
    KeptSelf(s);
    if |pkt| >= RTCP_HEADER && WithRtcpStream(s, RtcpSsrc(pkt)).Some? {
      var ssrc := RtcpSsrc(pkt);
      WithRtcpStreamKeepsValid(s, ssrc);
      var s1 := WithRtcpStream(s, ssrc).value;
      if s1 != s {
        PrependKeepsRtp(s, Clone(s.template.value, ssrc), s.template);
      }
      var r := ProtectRtcpMki(prim, s, pkt, useMki, mkiIndex).session;
      var at := Find(s1.streams, ssrc);
      SendRtcpIs(prim, s1, at, pkt, useMki, mkiIndex);
      ReplaceKeepsRtp(s1, at, r.streams[at]);
      KeptTwice(s, s1, r);
    }
  }

  lemma KeptSelf(s: SessionState)
    ensures RtpKept(s, s)
  {
  }

  lemma SendRtcpIs(prim: Primitives, s: SessionState, at: nat, pkt: Octets, useMki: bool, mkiIndex: nat)
    requires ValidSession(s) && at < |s.streams|
    ensures var r := SendRtcp(prim, s, at, pkt, useMki, mkiIndex).session;
            at < |r.streams| && r == WithStream(s, at, r.streams[at]) && SameRtp(s.streams[at], r.streams[at])
  {
    hide RtcpKeysOf, SelectedSlot, SealRtcp;
    assert ValidStream(s.streams[at], s.limits);
  }

  /** Neither does receiving it. */
  lemma ReceivedRtcpKeepsRtp(prim: Primitives, s: SessionState, p: Octets, useMki: bool)
    requires ValidSession(s)
    ensures RtpKept(s, UnprotectRtcpMki(prim, s, p, useMki).session)
  {
    hide RtpKept, UnprotectRtcp, RtcpKeysOf, ReceiveSlot, CommitRtcp, ValidSession;
    KeptSelf(s);
    if UnprotectRtcpMki(prim, s, p, useMki).status == Ok {
      var ssrc := RtcpSsrc(p);
      ReceiverStreamValid(s, ssrc);
      var t := ReceiverStream(s, ssrc);
      var slot := ReceiveSlot(t, p, useMki).value;
      var k, mkiSize := RtcpKeysOf(t.keys[slot]), if useMki then |t.keys[slot].mki| else 0;
      AcceptedIndex(prim, k, t.rtcp.conf, t.rtcpDb, p, mkiSize);
      CommitRtcpKeepsRtp(s, ssrc, TrailerIndex(p, TrailerAt(k, |p|, mkiSize)));
    }
  }

  lemma CommitRtcpKeepsRtp(s: SessionState, ssrc: nat, index: nat)
    requires Find(s.streams, ssrc) < |s.streams| || s.template.Some?
    requires ValidRdb(ReceiverStream(s, ssrc).rtcpDb) && ReceiverStream(s, ssrc).rtcpDb.start <= index <= MAX_RTCP_INDEX
    ensures RtpKept(s, CommitRtcp(s, ssrc, index))
  {
    hide RtpKept, AddRdb;
    var at := Find(s.streams, ssrc);
    var t := Mark(ReceiverStream(s, ssrc), Receiver);
    if at < |s.streams| {
      ReplaceKeepsRtp(s, at, t.(rtcpDb := AddRdb(t.rtcpDb, index)));
    } else {
      PrependKeepsRtp(s, Clone(t, ssrc).(rtcpDb := AddRdb(EmptyRdb(), index)), Some(t));
    }
  }
}
