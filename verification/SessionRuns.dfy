/** The operations of a session, their runs, and those that leave the packet indices alone. */
module SessionRuns {
  import opened Octets
  import opened SrtpStatus
  import opened Crypto
  import opened ReplayWindow
  import opened RtcpReplay
  import opened SessionKey
  import opened SessionModel
  import opened SessionInvariants
  import opened RtcpPacket
  import opened RtcpModel
  import opened Migration

  datatype Operation =
    | SendRtpPacket(pkt: Octets, useMki: bool, mkiIndex: nat)
    | ReceiveRtpPacket(pkt: Octets, useMki: bool)
    | SendRtcpPacket(pkt: Octets, useMki: bool, mkiIndex: nat)
    | ReceiveRtcpPacket(pkt: Octets, useMki: bool)
    | SetCounter(ssrc: nat, roc: nat)
    | RemoveOne(ssrc: nat)
    | AddOne(stream: StreamState, limits: map<KeyLimit, Limit>)
    | Rekey(auth: Auth, template: StreamState, limits: map<KeyLimit, Limit>)

  /** Live sessions keep to valid states, in which every operation does what its name says. */
  ghost function Perform(prim: Primitives, s: SessionState, op: Operation): Outcome {
    if !ValidSession(s) then Outcome(s, Fail, [])
    else
      match op
      case SendRtpPacket(pkt, useMki, mkiIndex) => Protect(prim, s, pkt, useMki, mkiIndex)
      case ReceiveRtpPacket(pkt, useMki) => Unprotect(prim, s, pkt, useMki)
      case SendRtcpPacket(pkt, useMki, mkiIndex) => ProtectRtcpMki(prim, s, pkt, useMki, mkiIndex)
      case ReceiveRtcpPacket(pkt, useMki) => UnprotectRtcpMki(prim, s, pkt, useMki)
      case SetCounter(ssrc, roc) => SetRoc(s, ssrc, roc % UINT32)
      case RemoveOne(ssrc) => Remove(s, ssrc)
      case AddOne(stream, limits) => Outcome(AddSpecific(s, stream).(limits := s.limits + limits), Ok, [])
      case Rekey(auth, template, limits) =>
        Outcome(SessionState(Migrate(s.streams, auth, template, []), Some(template), s.limits + limits), Ok, [])
  }

  ghost function Apply(prim: Primitives, s: SessionState, op: Operation): SessionState {
    Perform(prim, s, op).session
  }

  ghost function AfterRun(prim: Primitives, s: SessionState, run: seq<Operation>): SessionState
    decreases |run|
  {
    if run == [] then s else AfterRun(prim, Apply(prim, s, run[0]), run[1..])
  }

  /** Streams and keys are neither added nor removed nor replaced, apart from clones of the template. */
  predicate KeepsKeys(op: Operation) {
    !op.RemoveOne? && !op.AddOne? && !op.Rekey?
  }

  /** Neither an RTP packet nor a change of keys. */
  predicate Quiet(op: Operation) {
    op.SendRtcpPacket? || op.ReceiveRtcpPacket? || op.SetCounter?
  }

  ghost predicate Epoch(run: seq<Operation>) {
    forall i | 0 <= i < |run| :: KeepsKeys(run[i])
  }

  lemma EpochStep(run: seq<Operation>)
    requires Epoch(run) && run != []
    ensures KeepsKeys(run[0]) && Epoch(run[1..])
  {
  }

  // ----- Uses of packet indices

  /** A packet index used under a key. */
  datatype IndexUse<K> = IndexUse(keys: K, ssrc: nat, index: nat)

  function Id<K>(u: IndexUse<K>): PacketId {
    PacketId(u.ssrc, u.index)
  }

  /** No pair of SSRC and index occurs twice, or among those used before. */
  ghost predicate Fresh<K>(trace: seq<IndexUse<K>>, used: set<PacketId>) {
    && (forall i | 0 <= i < |trace| :: Id(trace[i]) !in used)
    && (forall i, j | 0 <= i < j < |trace| :: Id(trace[i]) != Id(trace[j]))
  }

  lemma FreshStep<K>(u: IndexUse<K>, rest: seq<IndexUse<K>>, used: set<PacketId>)
    ensures Fresh([u] + rest, used) <==> Id(u) !in used && Fresh(rest, used + {Id(u)})
  {
    var all := [u] + rest;
    assert forall i | 0 <= i < |rest| :: rest[i] == all[i + 1];
    if Id(u) !in used && Fresh(rest, used + {Id(u)}) {
      forall i, j | 0 <= i < j < |all|
        ensures Id(all[i]) != Id(all[j])
      {
        if i > 0 {
          assert Id(rest[i - 1]) != Id(rest[j - 1]);
        }
      }
      forall i | 0 <= i < |all|
        ensures Id(all[i]) !in used
      {
        assert i > 0 ==> Id(rest[i - 1]) !in used + {Id(u)};
      }
    }
    if Fresh(all, used) {
      assert Id(all[0]) !in used;
      forall i | 0 <= i < |rest|
        ensures Id(rest[i]) !in used + {Id(u)}
      {
        assert Id(all[0]) != Id(all[i + 1]) && Id(all[i + 1]) !in used;
      }
      forall i, j | 0 <= i < j < |rest|
        ensures Id(rest[i]) != Id(rest[j])
      {
        assert Id(all[i + 1]) != Id(all[j + 1]);
      }
    }
  }

  lemma NothingUsed<K>(used: set<PacketId>)
    ensures Fresh<K>([], used)
  {
  }

  // ----- What RTCP keeps

  /** RTCP replaces a stream by one with the same RTP side, after inserting a clone if need be. */
  ghost predicate RtcpChange(s: SessionState, s': SessionState, ssrc: nat) {
    || s' == s
    || (&& Find(s.streams, ssrc) < |s.streams| == |s'.streams|
        && var t := s'.streams[Find(s.streams, ssrc)];
           SameRtp(s.streams[Find(s.streams, ssrc)], t) && s' == WithStream(s, Find(s.streams, ssrc), t))
    || (&& Find(s.streams, ssrc) == |s.streams| && s.template.Some? && s'.template.Some? && s'.streams != []
        && var m, t := s'.template.value, s'.streams[0];
           && SameRtp(s.template.value, m) && SameRtp(Clone(m, ssrc), t)
           && s' == s.(template := Some(m), streams := [t] + s.streams))
  }

  lemma RtcpSsrcRange(pkt: Octets)
    requires |pkt| >= RTCP_HEADER
    ensures RtcpSsrc(pkt) < UINT32
  {
  }

  lemma SendRtcpChange(prim: Primitives, s: SessionState, pkt: Octets, useMki: bool, mkiIndex: nat)
    requires ValidSession(s) && |pkt| >= RTCP_HEADER
    ensures RtcpChange(s, ProtectRtcpMki(prim, s, pkt, useMki, mkiIndex).session, RtcpSsrc(pkt))
  {
    hide ProtectRtcp, RtcpKeysOf, SelectedSlot, RtcpSsrc;
    var ssrc := RtcpSsrc(pkt);
    if WithRtcpStream(s, ssrc).Some? {
      var s1 := WithRtcpStream(s, ssrc).value;
      RtcpSsrcRange(pkt);
      WithRtcpStreamKeepsValid(s, ssrc);
      var at := Find(s1.streams, ssrc);
      SendRtcpIs(prim, s1, at, pkt, useMki, mkiIndex);
      var t := SendRtcp(prim, s1, at, pkt, useMki, mkiIndex).session.streams[at];
      if s1 == s {
        assert SameRtp(s.streams[at], t);
      } else {
        assert at == 0 && SameRtp(s.template.value, s.template.value);
        assert s1.streams[0 := t] == [t] + s.streams;
      }
    }
  }

  lemma ReceiveRtcpChange(prim: Primitives, s: SessionState, p: Octets, useMki: bool)
    requires ValidSession(s) && |p| >= RTCP_HEADER
    ensures RtcpChange(s, UnprotectRtcpMki(prim, s, p, useMki).session, RtcpSsrc(p))
  {
    hide UnprotectRtcp, RtcpKeysOf, ReceiveSlot, CommitRtcp, ValidSession, RtcpSsrc;
    if UnprotectRtcpMki(prim, s, p, useMki).status == Ok {
      var ssrc := RtcpSsrc(p);
      ReceiverStreamValid(s, ssrc);
      var t := ReceiverStream(s, ssrc);
      var slot := ReceiveSlot(t, p, useMki).value;
      var k, mkiSize := RtcpKeysOf(t.keys[slot]), if useMki then |t.keys[slot].mki| else 0;
      AcceptedIndex(prim, k, t.rtcp.conf, t.rtcpDb, p, mkiSize);
      CommitRtcpChange(s, ssrc, TrailerIndex(p, TrailerAt(k, |p|, mkiSize)));
    } else {
      RefusedRtcpChangesNothing(prim, s, p, useMki);
    }
  }

  lemma CommitRtcpChange(s: SessionState, ssrc: nat, index: nat)
    requires Find(s.streams, ssrc) < |s.streams| || s.template.Some?
    requires ValidRdb(ReceiverStream(s, ssrc).rtcpDb) && ReceiverStream(s, ssrc).rtcpDb.start <= index <= MAX_RTCP_INDEX
    ensures RtcpChange(s, CommitRtcp(s, ssrc, index), ssrc)
  {
    hide AddRdb;
    var at := Find(s.streams, ssrc);
    var m := Mark(ReceiverStream(s, ssrc), Receiver);
    if at < |s.streams| {
      assert SameRtp(s.streams[at], m.(rtcpDb := AddRdb(m.rtcpDb, index)));
    } else {
      var t := Clone(m, ssrc).(rtcpDb := AddRdb(EmptyRdb(), index));
      assert SameRtp(s.template.value, m) && SameRtp(Clone(m, ssrc), t);
    }
  }

  lemma RtcpChangeGuards(s: SessionState, s': SessionState, used: set<PacketId>, ssrc: nat)
    requires GuardedSession(s, used) && RtcpChange(s, s', ssrc) && ssrc < UINT32
    ensures GuardedSession(s', used)
    ensures NoRepeats(s) ==> NoRepeats(s')
  {
    hide UsedBy, Covers, Listed, UniqueSsrcs, Clone, NoRepeats;
    var at := Find(s.streams, ssrc);
    if s' == s {
    } else if at < |s.streams| {
      KeepGuards(s, used, at, s'.streams[at]);
      SameRepeats(s, s', at);
    } else {
      var m, t := s'.template.value, s'.streams[0];
      FindListed(s.streams, ssrc);
      TemplateGuards(s, used, m);
      var s1 := s.(template := Some(m));
      CloneIsGuarded(m, ssrc, s.limits);
      PrependGuards(s1, used, t);
      PrependedRepeats(s, s', m, t, ssrc);
    }
  }

  lemma SameRepeats(s: SessionState, s': SessionState, at: nat)
    requires at < |s.streams| && |s'.streams| == |s.streams| && SameRtp(s.streams[at], s'.streams[at])
    requires s' == s.(streams := s.streams[at := s'.streams[at]])
    ensures NoRepeats(s) ==> NoRepeats(s')
  {
  }

  lemma PrependedRepeats(s: SessionState, s': SessionState, m: StreamState, t: StreamState, ssrc: nat)
    requires s.template.Some? && SameRtp(s.template.value, m) && SameRtp(Clone(m, ssrc), t)
    requires s' == s.(template := Some(m), streams := [t] + s.streams)
    ensures NoRepeats(s) ==> NoRepeats(s')
  {
    forall i | 0 < i < |s'.streams|
      ensures s'.streams[i] == s.streams[i - 1]
    {
    }
  }

  /** Quiet operations neither use an index nor disturb a guard. */
  lemma QuietGuards(prim: Primitives, s: SessionState, used: set<PacketId>, op: Operation)
    requires GuardedSession(s, used) && Quiet(op)
    ensures GuardedSession(Apply(prim, s, op), used)
    ensures NoRepeats(s) ==> NoRepeats(Apply(prim, s, op))
  {
    hide GuardedSession, NoRepeats, ProtectRtcpMki, UnprotectRtcpMki, RtcpChange, SetRoc, RtcpSsrc, ValidSession;
    GuardedIsValid(s, used);
    match op
    case SendRtcpPacket(pkt, useMki, mkiIndex) =>
      if |pkt| >= RTCP_HEADER {
        SendRtcpChange(prim, s, pkt, useMki, mkiIndex);
        RtcpSsrcRange(pkt);
        RtcpChangeGuards(s, Apply(prim, s, op), used, RtcpSsrc(pkt));
      } else {
        ShortRtcpKeeps(prim, s, pkt, useMki, mkiIndex);
      }
    case ReceiveRtcpPacket(pkt, useMki) =>
      if |pkt| >= RTCP_HEADER {
        ReceiveRtcpChange(prim, s, pkt, useMki);
        RtcpSsrcRange(pkt);
        RtcpChangeGuards(s, Apply(prim, s, op), used, RtcpSsrc(pkt));
      } else {
        ShortRtcpKeeps(prim, s, pkt, useMki, 0);
      }
    case SetCounter(ssrc, roc) =>
      SetRocGuards(s, used, ssrc, roc % UINT32);
  }

  lemma ShortRtcpKeeps(prim: Primitives, s: SessionState, pkt: Octets, useMki: bool, mkiIndex: nat)
    requires ValidSession(s) && |pkt| < RTCP_HEADER
    ensures ProtectRtcpMki(prim, s, pkt, useMki, mkiIndex).session == s
    ensures UnprotectRtcpMki(prim, s, pkt, useMki).session == s
  {
  }
}
