/** When a received SRTCP packet is accepted again: what acceptance depends on, over runs of a session. */
module RtcpRepeats {
  import opened Octets
  import opened SrtpStatus
  import opened Crypto
  import opened ReplayWindow
  import opened RtcpReplay
  import opened RtpPacket
  import opened SessionKey
  import opened SessionModel
  import opened SessionInvariants
  import opened RtcpPacket
  import opened RtcpModel
  import opened SessionRuns
  import opened StreamMap
  import opened NetworkSafety
  import opened RtcpRuns

  // ----- Everything but the replay database

  /** Everything the receiver demands of a packet but that its index is new. */
  predicate GenuineRtcp(prim: Primitives, k: RtcpKeys, conf: bool, p: Octets, mkiSize: nat) {
    && RtcpBodySize(k, |p|, mkiSize) >= RTCP_HEADER
    && var at, tagAt := TrailerAt(k, |p|, mkiSize), TagAt(k, |p|, mkiSize);
       && (k.gcm || EBit(p, at) == conf)
       && RtcpTag(prim, k, EBit(p, at), p[..RtcpBodySize(k, |p|, mkiSize)], p[at..at + TRAILER], TrailerIndex(p, at))
          == p[tagAt..tagAt + k.tagLen]
  }

  lemma UnprotectRtcpIff(prim: Primitives, k: RtcpKeys, conf: bool, db: Rdb, p: Octets, mkiSize: nat)
    requires ValidRdb(db)
    ensures UnprotectRtcp(prim, k, conf, db, p, mkiSize).status == Ok
            <==> GenuineRtcp(prim, k, conf, p, mkiSize)
                 && CheckRdb(db, TrailerIndex(p, TrailerAt(k, |p|, mkiSize))) == Ok
  {
    hide CryptRtcp, RtcpTag, EBit, TrailerIndex, AddRdb;
  }

  /** The same for a stream, which chooses the keys; its database plays no part. */
  predicate GenuineFor(prim: Primitives, t: StreamState, p: Octets, useMki: bool) {
    && |p| >= RTCP_HEADER + TRAILER && t.keys != [] && ReceiveSlot(t, p, useMki).Some?
    && var slot := ReceiveSlot(t, p, useMki).value;
       GenuineRtcp(prim, RtcpKeysOf(t.keys[slot]), t.rtcp.conf, p, if useMki then |t.keys[slot].mki| else 0)
  }

  /** The use of an index that accepting the packet would be. */
  function UseFor(prim: Primitives, t: StreamState, p: Octets, useMki: bool): SrtcpUse
    requires GenuineFor(prim, t, p, useMki)
  {
    var slot := ReceiveSlot(t, p, useMki).value;
    var k, mkiSize := RtcpKeysOf(t.keys[slot]), if useMki then |t.keys[slot].mki| else 0;
    IndexUse(k, RtcpSsrc(p), TrailerIndex(p, TrailerAt(k, |p|, mkiSize)))
  }

  lemma GenuineIgnoresDb(prim: Primitives, t: StreamState, u: StreamState, p: Octets, useMki: bool)
    requires u.keys == t.keys && u.rtcp == t.rtcp
    ensures GenuineFor(prim, u, p, useMki) <==> GenuineFor(prim, t, p, useMki)
    ensures GenuineFor(prim, t, p, useMki) ==> UseFor(prim, u, p, useMki) == UseFor(prim, t, p, useMki)
  {
    hide GenuineRtcp, FindSlot, RtpKeysOfAll, RtcpKeysOf, TrailerIndex, RtcpSsrc;
  }

  /** A packet is accepted if and only if it is genuine for its stream and its index is not refused. */
  lemma AcceptedIff(prim: Primitives, s: SessionState, p: Octets, useMki: bool)
    requires ValidSession(s)
    ensures UnprotectRtcpMki(prim, s, p, useMki).status == Ok
            <==> && |p| >= RTCP_HEADER && (Find(s.streams, RtcpSsrc(p)) < |s.streams| || s.template.Some?)
                 && var t := ReceiverStream(s, RtcpSsrc(p));
                    && ValidRdb(t.rtcpDb) && GenuineFor(prim, t, p, useMki)
                    && CheckRdb(t.rtcpDb, UseFor(prim, t, p, useMki).index) == Ok
    ensures UnprotectRtcpMki(prim, s, p, useMki).status == Ok ==>
              AcceptedUse(prim, s, p, useMki) == UseFor(prim, ReceiverStream(s, RtcpSsrc(p)), p, useMki)
  {
    hide UnprotectRtcp, ReceiveSlot, TrailerIndex, CommitRtcp, RtcpKeysOf,
         GenuineRtcp, CheckRdb, ValidSession, RtcpSsrc, Find, ReceiverStream;
    if |p| >= RTCP_HEADER + TRAILER && (Find(s.streams, RtcpSsrc(p)) < |s.streams| || s.template.Some?) {
      ReceiverStreamValid(s, RtcpSsrc(p));
      var t := ReceiverStream(s, RtcpSsrc(p));
      if ReceiveSlot(t, p, useMki).Some? {
        var slot := ReceiveSlot(t, p, useMki).value;
        UnprotectRtcpIff(prim, RtcpKeysOf(t.keys[slot]), t.rtcp.conf, t.rtcpDb, p,
                         if useMki then |t.keys[slot].mki| else 0);
      }
    }
  }

  /** Once a packet has been accepted, a session that lists its source with the same keys and services
      accepts it if and only if the database does not refuse its index. */
  lemma RtcpAgainIff(prim: Primitives, s: SessionState, s': SessionState, p: Octets, useMki: bool)
    requires ValidSession(s) && ValidSession(s') && UnprotectRtcpMki(prim, s, p, useMki).status == Ok
    requires |p| >= RTCP_HEADER && Find(s'.streams, RtcpSsrc(p)) < |s'.streams|
    requires Find(s.streams, RtcpSsrc(p)) < |s.streams| || s.template.Some?
    requires var t, u := ReceiverStream(s, RtcpSsrc(p)), ReceiverStream(s', RtcpSsrc(p));
             u.keys == t.keys && u.rtcp == t.rtcp
    ensures ValidRdb(ReceiverStream(s', RtcpSsrc(p)).rtcpDb)
    ensures UnprotectRtcpMki(prim, s', p, useMki).status == Ok
            <==> CheckRdb(ReceiverStream(s', RtcpSsrc(p)).rtcpDb, AcceptedUse(prim, s, p, useMki).index) == Ok
    ensures UnprotectRtcpMki(prim, s', p, useMki).status == Ok ==>
              AcceptedUse(prim, s', p, useMki) == AcceptedUse(prim, s, p, useMki)
  {
    hide *;
    ReceiverStreamValid(s', RtcpSsrc(p));
    AcceptedIff(prim, s, p, useMki);
    AcceptedIff(prim, s', p, useMki);
    GenuineIgnoresDb(prim, ReceiverStream(s, RtcpSsrc(p)), ReceiverStream(s', RtcpSsrc(p)), p, useMki);
  }

  // ----- What an epoch keeps

  /** The configurations that occur in a session. */
  ghost function ConfigsOf(s: SessionState): set<Config> {
    (set i, j | 0 <= i < |s.streams| && 0 <= j < |s.streams[i].keys| :: ConfigOf(s.streams[i], j))
    + if s.template.None? then {} else set j | 0 <= j < |s.template.value.keys| :: ConfigOf(s.template.value, j)
  }

  lemma ConfiguredByOwn(s: SessionState)
    ensures Configured(s, ConfigsOf(s))
  {
  }

  lemma ApplyKeepsValid(prim: Primitives, s: SessionState, op: Operation)
    requires ValidSession(s) && KeepsKeys(op)
    ensures ValidSession(Apply(prim, s, op))
  {
    hide ValidSession, Configured, ConfigsOf, Apply;
    ConfiguredByOwn(s);
    ApplyKeepsConfig(prim, s, op, ConfigsOf(s));
  }

  /** Every source listed before is listed after, with the same keys, services and size of the window. */
  ghost predicate StreamsKept(a: map<nat, StreamState>, b: map<nat, StreamState>) {
    forall ssrc | ssrc in a :: ssrc in b && SameConstants(a[ssrc], b[ssrc])
  }

  lemma TouchingKeeps(
    a: map<nat, StreamState>, b: map<nat, StreamState>, ssrc: nat, template: Option<StreamState>)
    requires Touches(a, b, ssrc, template)
    ensures StreamsKept(a, b)
  {
  }

  lemma SettingKeeps(m: map<nat, StreamState>, ssrc: nat, roc: nat)
    ensures StreamsKept(m, m)
    ensures ssrc in m ==> StreamsKept(m, m[ssrc := m[ssrc].(pendingRoc := roc)])
  {
  }

  lemma ApplyKeepsStreams(prim: Primitives, s: SessionState, op: Operation)
    requires ValidSession(s) && UniqueSsrcs(s.streams) && KeepsKeys(op)
    ensures var s' := Apply(prim, s, op);
            && ValidSession(s') && UniqueSsrcs(s'.streams) && StreamsKept(AsMap(s.streams), AsMap(s'.streams))
  {
    hide UniqueSsrcs, AsMap, Protect, Unprotect, ProtectRtcpMki, UnprotectRtcpMki, SetRoc, Touches, StreamsKept,
         ValidSession, ValidHeader, Ssrc, RtcpSsrc;
    var m, after := AsMap(s.streams), AsMap(Apply(prim, s, op).streams);
    ApplyKeepsValid(prim, s, op);
    SettingKeeps(m, 0, 0);
    match op
    case SendRtpPacket(pkt, useMki, mkiIndex) =>
      if ValidHeader(pkt) {
        HeaderBounds(pkt);
        ProtectTouches(prim, s, pkt, useMki, mkiIndex);
        TouchingKeeps(m, after, Ssrc(pkt), s.template);
      } else {
        BadRtpKeeps(prim, s, pkt, useMki, mkiIndex);
      }
    case ReceiveRtpPacket(pkt, useMki) =>
      if ValidHeader(pkt) {
        HeaderBounds(pkt);
        UnprotectTouches(prim, s, pkt, useMki);
        TouchingKeeps(m, after, Ssrc(pkt), s.template);
      } else {
        BadRtpKeeps(prim, s, pkt, useMki, 0);
      }
    case SendRtcpPacket(pkt, useMki, mkiIndex) =>
      if |pkt| >= RTCP_HEADER {
        ProtectRtcpTouches(prim, s, pkt, useMki, mkiIndex);
        TouchingKeeps(m, after, RtcpSsrc(pkt), s.template);
      } else {
        ShortRtcpKeeps(prim, s, pkt, useMki, mkiIndex);
      }
    case ReceiveRtcpPacket(pkt, useMki) =>
      if |pkt| >= RTCP_HEADER {
        UnprotectRtcpTouches(prim, s, pkt, useMki);
        TouchingKeeps(m, after, RtcpSsrc(pkt), s.template);
      } else {
        ShortRtcpKeeps(prim, s, pkt, useMki, 0);
      }
    case SetCounter(ssrc, roc) =>
      SetRocIsUpdate(s, ssrc, roc % UINT32);
      SettingKeeps(m, ssrc, roc % UINT32);
  }

  // ----- Packets that have been accepted

  /** A packet that the session accepts under this source and index, unless its database refuses it. */
  ghost predicate Replayable(prim: Primitives, s: SessionState, u: PacketId, p: Octets, useMki: bool) {
    && u.ssrc in AsMap(s.streams)
    && GenuineFor(prim, AsMap(s.streams)[u.ssrc], p, useMki) && RtcpSsrc(p) == u.ssrc
    && UseFor(prim, AsMap(s.streams)[u.ssrc], p, useMki).index == u.index
  }

  lemma ReplayableStays(
    prim: Primitives, s: SessionState, s': SessionState, u: PacketId, p: Octets, useMki: bool)
    requires Replayable(prim, s, u, p, useMki) && StreamsKept(AsMap(s.streams), AsMap(s'.streams))
    ensures Replayable(prim, s', u, p, useMki)
  {
    hide AsMap, GenuineFor, UseFor, RtcpSsrc;
    GenuineIgnoresDb(prim, AsMap(s.streams)[u.ssrc], AsMap(s'.streams)[u.ssrc], p, useMki);
  }

  /** The session accepts the packet under this source and index. */
  ghost predicate AcceptsAs(prim: Primitives, s: SessionState, p: Octets, useMki: bool, u: PacketId) {
    var accepted := AcceptedBy(prim, s, ReceiveRtcpPacket(p, useMki));
    accepted != [] && accepted == [accepted[0]] && Id(accepted[0]) == u
  }

  lemma AcceptedByIs(prim: Primitives, s: SessionState, p: Octets, useMki: bool)
    requires ValidSession(s)
    ensures UnprotectRtcpMki(prim, s, p, useMki).status == Ok ==>
              && |p| >= RTCP_HEADER
              && AcceptsAs(prim, s, p, useMki, PacketId(RtcpSsrc(p), AcceptedUse(prim, s, p, useMki).index))
    ensures UnprotectRtcpMki(prim, s, p, useMki).status != Ok ==>
              AcceptedBy(prim, s, ReceiveRtcpPacket(p, useMki)) == []
  {
    hide ValidSession, UnprotectRtcpMki, RtcpSsrc, TrailerIndex, ReceiveSlot, RtcpKeysOf, ReceiverStream;
    if UnprotectRtcpMki(prim, s, p, useMki).status == Ok {
      AcceptedChanges(prim, s, p, useMki);
    }
  }

  lemma GenuineLength(prim: Primitives, t: StreamState, p: Octets, useMki: bool)
    requires GenuineFor(prim, t, p, useMki)
    ensures |p| >= RTCP_HEADER
  {
  }

  lemma ReplayableIsAccepted(prim: Primitives, s: SessionState, u: PacketId, p: Octets, useMki: bool)
    requires ValidSession(s) && Replayable(prim, s, u, p, useMki)
    ensures DbOf(s.streams, u.ssrc).Some? && ValidRdb(DbOf(s.streams, u.ssrc).value)
    ensures if Refuses(DbOf(s.streams, u.ssrc).value, u.index)
            then AcceptedBy(prim, s, ReceiveRtcpPacket(p, useMki)) == []
            else AcceptsAs(prim, s, p, useMki, u)
  {
    hide AsMap, GenuineFor, UseFor, RtcpSsrc, ValidSession, UnprotectRtcpMki, CheckRdb,
         AcceptedUse, ValidRdb, AcceptedBy, AcceptsAs;
    FindIsLookup(s.streams, u.ssrc);
    ReceiverStreamValid(s, u.ssrc);
    GenuineLength(prim, AsMap(s.streams)[u.ssrc], p, useMki);
    AcceptedIff(prim, s, p, useMki);
    AcceptedByIs(prim, s, p, useMki);
  }

  /** Accepting a packet makes it one. */
  lemma AcceptedIsReplayable(prim: Primitives, s: SessionState, p: Octets, useMki: bool)
    requires ValidSession(s) && UniqueSsrcs(s.streams) && UnprotectRtcpMki(prim, s, p, useMki).status == Ok
    ensures |p| >= RTCP_HEADER
    ensures Replayable(prim, UnprotectRtcpMki(prim, s, p, useMki).session,
                       PacketId(RtcpSsrc(p), AcceptedUse(prim, s, p, useMki).index), p, useMki)
  {
    hide AsMap, GenuineFor, UseFor, RtcpSsrc, ValidSession, UnprotectRtcpMki, CheckRdb,
         AcceptedUse, ValidRdb, UniqueSsrcs, AddRdb, DbChanges, BaseDb, Touches, ReceiverStream;
    ReceiveRtcpDbs(prim, s, p, useMki);
    AcceptedIff(prim, s, p, useMki);
    var ssrc, s', t := RtcpSsrc(p), UnprotectRtcpMki(prim, s, p, useMki).session, ReceiverStream(s, RtcpSsrc(p));
    UnprotectRtcpTouches(prim, s, p, useMki);
    AcceptedListed(s, s', ssrc, AddRdb(BaseDb(s.streams, ssrc), AcceptedUse(prim, s, p, useMki).index));
    GenuineIgnoresDb(prim, t, AsMap(s'.streams)[ssrc], p, useMki);
  }

  lemma AcceptedListed(s: SessionState, s': SessionState, ssrc: nat, db: Rdb)
    requires Find(s.streams, ssrc) < |s.streams| || s.template.Some?
    requires DbChanges(s.streams, s'.streams, ssrc, db)
    requires Touches(AsMap(s.streams), AsMap(s'.streams), ssrc, s.template)
    ensures ssrc in AsMap(s'.streams)
    ensures var t, u := ReceiverStream(s, ssrc), AsMap(s'.streams)[ssrc]; u.keys == t.keys && u.rtcp == t.rtcp
  {
    hide AsMap, Find;
    FindIsLookup(s.streams, ssrc);
    FindIsLookup(s'.streams, ssrc);
  }

  // ----- Over runs

  lemma {:induction false} RunKeepsReplayable(
    prim: Primitives, s: SessionState, u: PacketId, p: Octets, useMki: bool, run: seq<Operation>)
    requires ValidSession(s) && UniqueSsrcs(s.streams) && Epoch(run) && Replayable(prim, s, u, p, useMki)
    ensures ValidSession(AfterRun(prim, s, run)) && Replayable(prim, AfterRun(prim, s, run), u, p, useMki)
    decreases |run|
  {
    hide ValidSession, UniqueSsrcs, Epoch, Replayable, Apply, AsMap, StreamsKept;
    if run != [] {
      EpochStep(run);
      ApplyKeepsStreams(prim, s, run[0]);
      ReplayableStays(prim, s, Apply(prim, s, run[0]), u, p, useMki);
      RunKeepsReplayable(prim, Apply(prim, s, run[0]), u, p, useMki, run[1..]);
    }
  }

  /** Whatever else happens after a packet has been accepted, it is accepted again, under the same index,
      if and only if the database that has been reached by then does not refuse that index. */
  lemma RtcpAgainInRunIff(prim: Primitives, s: SessionState, p: Octets, useMki: bool, run: seq<Operation>)
    requires ValidSession(s) && UniqueSsrcs(s.streams) && Epoch(run)
    requires UnprotectRtcpMki(prim, s, p, useMki).status == Ok
    ensures |p| >= RTCP_HEADER
    ensures var u := PacketId(RtcpSsrc(p), AcceptedUse(prim, s, p, useMki).index);
            var s' := AfterRun(prim, UnprotectRtcpMki(prim, s, p, useMki).session, run);
            && DbOf(s'.streams, u.ssrc).Some?
            && if Refuses(DbOf(s'.streams, u.ssrc).value, u.index)
               then AcceptedBy(prim, s', ReceiveRtcpPacket(p, useMki)) == []
               else AcceptsAs(prim, s', p, useMki, u)
  {
    hide *;
    AcceptedIsReplayable(prim, s, p, useMki);
    ApplyKeepsStreams(prim, s, ReceiveRtcpPacket(p, useMki)) by { ReceiveKeepsKeys(p, useMki); }
    ReceivePerforms(prim, s, p, useMki);
    var u := PacketId(RtcpSsrc(p), AcceptedUse(prim, s, p, useMki).index);
    var s1 := UnprotectRtcpMki(prim, s, p, useMki).session;
    RunKeepsReplayable(prim, s1, u, p, useMki, run);
    ReplayableIsAccepted(prim, AfterRun(prim, s1, run), u, p, useMki);
  }

  lemma ReceiveKeepsKeys(p: Octets, useMki: bool)
    ensures KeepsKeys(ReceiveRtcpPacket(p, useMki))
  {
  }

  lemma ReceivePerforms(prim: Primitives, s: SessionState, p: Octets, useMki: bool)
    requires ValidSession(s)
    ensures Perform(prim, s, ReceiveRtcpPacket(p, useMki)) == UnprotectRtcpMki(prim, s, p, useMki)
    ensures Apply(prim, s, ReceiveRtcpPacket(p, useMki)) == UnprotectRtcpMki(prim, s, p, useMki).session
  {
    hide ValidSession, UnprotectRtcpMki;
  }

  datatype Arrival = Arrival(p: Octets, useMki: bool)

  /** For every index that was accepted, a packet that is accepted under it unless it is refused. */
  ghost predicate AllReplayable(prim: Primitives, s: SessionState, seen: map<PacketId, Arrival>) {
    forall u | u in seen :: Replayable(prim, s, u, seen[u].p, seen[u].useMki)
  }

  lemma AllReplayableStays(prim: Primitives, s: SessionState, s': SessionState, seen: map<PacketId, Arrival>)
    requires AllReplayable(prim, s, seen) && StreamsKept(AsMap(s.streams), AsMap(s'.streams))
    ensures AllReplayable(prim, s', seen)
  {
    hide AsMap, Replayable, StreamsKept;
    forall u | u in seen
      ensures Replayable(prim, s', u, seen[u].p, seen[u].useMki)
    {
      ReplayableStays(prim, s, s', u, seen[u].p, seen[u].useMki);
    }
  }

  lemma AcceptedTraceUnfold(prim: Primitives, s: SessionState, run: seq<Operation>)
    ensures run == [] ==> AcceptedTrace(prim, s, run) == []
    ensures run != [] ==>
              AcceptedTrace(prim, s, run)
              == AcceptedBy(prim, s, run[0]) + AcceptedTrace(prim, Apply(prim, s, run[0]), run[1..])
  {
    hide AcceptedBy, Apply;
  }

  lemma RunGapFreeUnfold(prim: Primitives, s: SessionState, used: set<PacketId>, run: seq<Operation>)
    ensures run == [] ==> RunGapFree(prim, s, used, run)
    ensures run != [] ==>
              var accepted := AcceptedBy(prim, s, run[0]);
              RunGapFree(prim, s, used, run)
              <==> && (Perform(prim, s, run[0]).status == Ok ==> GapFree(s.streams, used, run[0]))
                   && RunGapFree(prim, Apply(prim, s, run[0]), used + set u | u in accepted :: Id(u), run[1..])
  {
    hide AcceptedBy, Apply, Perform, GapFree, Id;
  }

  lemma UsedAdding(accepted: seq<SrtcpUse>, used: set<PacketId>)
    ensures accepted == [] ==> used + (set u | u in accepted :: Id(u)) == used
    ensures accepted != [] && accepted == [accepted[0]] ==>
              used + (set u | u in accepted :: Id(u)) == used + {Id(accepted[0])}
  {
    if accepted != [] && accepted == [accepted[0]] {
      assert accepted[0] in accepted && forall u | u in accepted :: u == accepted[0];
    }
  }

  /** After a packet sent over a gap, one of the packets accepted before is accepted again. */
  lemma GapRepeats(prim: Primitives, s: SessionState, seen: map<PacketId, Arrival>, op: Operation)
    returns (p: Octets, useMki: bool)
    requires ValidSession(s) && UniqueSsrcs(s.streams) && KeepsKeys(op)
    requires AllRefused(s.streams, seen.Keys) && AllReplayable(prim, s, seen)
    requires Perform(prim, s, op).status == Ok && !GapFree(s.streams, seen.Keys, op)
    ensures AcceptedBy(prim, s, op) == []
    ensures var again := AcceptedBy(prim, Apply(prim, s, op), ReceiveRtcpPacket(p, useMki));
            again != [] && again == [again[0]] && Id(again[0]) in seen.Keys
  {
    hide *;
    var s' := Apply(prim, s, op);
    OnlySendingGaps(s.streams, seen.Keys, op);
    SendAcceptsNothing(prim, s, op);
    SentRefusedIff(prim, s, op, seen.Keys);
    ApplyKeepsStreams(prim, s, op);
    AllReplayableStays(prim, s, s', seen);
    var u := NotRefused(prim, s', seen);
    p, useMki := seen[u].p, seen[u].useMki;
    ReplayableIsAccepted(prim, s', u, p, useMki);
    AcceptsAsIs(prim, s', p, useMki, u);
  }

  lemma OnlySendingGaps(streams: seq<StreamState>, used: set<PacketId>, op: Operation)
    requires !GapFree(streams, used, op)
    ensures op.SendRtcpPacket?
  {
  }

  lemma SendAcceptsNothing(prim: Primitives, s: SessionState, op: Operation)
    requires op.SendRtcpPacket?
    ensures AcceptedBy(prim, s, op) == []
  {
  }

  lemma NotRefused(prim: Primitives, s: SessionState, seen: map<PacketId, Arrival>) returns (u: PacketId)
    requires ValidSession(s) && AllReplayable(prim, s, seen) && !AllRefused(s.streams, seen.Keys)
    ensures u in seen && Replayable(prim, s, u, seen[u].p, seen[u].useMki)
    ensures DbOf(s.streams, u.ssrc).Some? && !Refuses(DbOf(s.streams, u.ssrc).value, u.index)
  {
    hide DbOf, Refuses, Replayable, ValidSession;
    u :| u in seen && !(DbOf(s.streams, u.ssrc).Some? && Refuses(DbOf(s.streams, u.ssrc).value, u.index));
    ReplayableIsAccepted(prim, s, u, seen[u].p, seen[u].useMki);
  }

  lemma AcceptsAsIs(prim: Primitives, s: SessionState, p: Octets, useMki: bool, u: PacketId)
    requires AcceptsAs(prim, s, p, useMki, u)
    ensures var accepted := AcceptedBy(prim, s, ReceiveRtcpPacket(p, useMki));
            accepted != [] && accepted == [accepted[0]] && Id(accepted[0]) == u
  {
    hide AcceptedBy;
  }

  lemma SeenOnce(use: SrtcpUse, used: set<PacketId>)
    ensures Fresh([use], used) <==> Id(use) !in used
  {
    FreshStep(use, [], used);
    NothingUsed<RtcpKeys>(used + {Id(use)});
    assert [use] + [] == [use];
  }

  /** A run that sends over a gap can be cut short and continued so that an index is accepted twice. */
  lemma {:induction false} GapLetsRepeat(
    prim: Primitives, s: SessionState, seen: map<PacketId, Arrival>, run: seq<Operation>)
    returns (k: nat, p: Octets, useMki: bool)
    requires ValidSession(s) && UniqueSsrcs(s.streams) && Epoch(run)
    requires AllRefused(s.streams, seen.Keys) && AllReplayable(prim, s, seen)
    requires !RunGapFree(prim, s, seen.Keys, run)
    ensures k <= |run|
    ensures !Fresh(AcceptedTrace(prim, s, run[..k] + [ReceiveRtcpPacket(p, useMki)]), seen.Keys)
    decreases |run|
  {
    hide *;
    RunGapFreeUnfold(prim, s, seen.Keys, run);
    EpochStep(run);
    var s', accepted := Apply(prim, s, run[0]), AcceptedBy(prim, s, run[0]);
    if Perform(prim, s, run[0]).status == Ok && !GapFree(s.streams, seen.Keys, run[0]) {
      k := 1;
      p, useMki := GapRepeats(prim, s, seen, run[0]);
      var more, op := run[..1] + [ReceiveRtcpPacket(p, useMki)], ReceiveRtcpPacket(p, useMki);
      AcceptedTraceUnfold(prim, s, more);
      AcceptedTraceUnfold(prim, s', more[1..]);
      AcceptedTraceUnfold(prim, Apply(prim, s', op), []);
      assert more[1..] == [op] && [op][1..] == [];
      var again := AcceptedBy(prim, s', op);
      assert AcceptedTrace(prim, s, more) == [again[0]];
      SeenOnce(again[0], seen.Keys);
    } else {
      AcceptStep(prim, s, run[0], seen.Keys);
      UsedAdding(accepted, seen.Keys);
      ApplyKeepsStreams(prim, s, run[0]);
      AllReplayableStays(prim, s, s', seen);
      var seen' := seen;
      if accepted != [] {
        seen' := AddAccepted(prim, s, seen, run[0]);
      }
      k, p, useMki := GapLetsRepeat(prim, s', seen', run[1..]);
      var op := ReceiveRtcpPacket(p, useMki);
      var more := run[..k + 1] + [op];
      assert more[0] == run[0] && more[1..] == run[1..][..k] + [op];
      AcceptedTraceUnfold(prim, s, more);
      var rest := AcceptedTrace(prim, s', more[1..]);
      if accepted == [] {
        assert accepted + rest == rest;
      } else {
        FreshStep(accepted[0], rest, seen.Keys);
      }
      k := k + 1;
    }
  }

  /** The packet that was just accepted is one that would be accepted again. */
  lemma AddAccepted(prim: Primitives, s: SessionState, seen: map<PacketId, Arrival>, op: Operation)
    returns (seen': map<PacketId, Arrival>)
    requires ValidSession(s) && UniqueSsrcs(s.streams) && AcceptedBy(prim, s, op) != []
    requires AllReplayable(prim, Apply(prim, s, op), seen)
    ensures AllReplayable(prim, Apply(prim, s, op), seen')
    ensures seen'.Keys == seen.Keys + {Id(AcceptedBy(prim, s, op)[0])}
  {
    hide ValidSession, UniqueSsrcs, Replayable, UnprotectRtcpMki, AcceptedUse, RtcpSsrc;
    var p, useMki := op.pkt, op.useMki;
    AcceptedByIs(prim, s, p, useMki);
    AcceptedIsReplayable(prim, s, p, useMki);
    seen' := seen[Id(AcceptedBy(prim, s, op)[0]) := Arrival(p, useMki)];
  }

  lemma {:induction false} GapFreeExtended(
    prim: Primitives, s: SessionState, used: set<PacketId>, run: seq<Operation>, k: nat, p: Octets, useMki: bool)
    requires RunGapFree(prim, s, used, run) && Epoch(run) && k <= |run|
    ensures var more := run[..k] + [ReceiveRtcpPacket(p, useMki)];
            RunGapFree(prim, s, used, more) && Epoch(more)
    decreases k
  {
    hide RunGapFree, Apply, AcceptedBy, Perform, Id, Epoch;
    var op := ReceiveRtcpPacket(p, useMki);
    var more := run[..k] + [op];
    EpochOf(run, k, op);
    RunGapFreeUnfold(prim, s, used, more);
    if k == 0 {
      assert more == [op] && more[1..] == [];
      RunGapFreeUnfold(prim, Apply(prim, s, op), used + set u | u in AcceptedBy(prim, s, op) :: Id(u), []);
    } else {
      RunGapFreeUnfold(prim, s, used, run);
      EpochStep(run);
      GapFreeExtended(prim, Apply(prim, s, run[0]), used + set u | u in AcceptedBy(prim, s, run[0]) :: Id(u),
                      run[1..], k - 1, p, useMki);
      assert more[0] == run[0] && more[1..] == run[1..][..k - 1] + [op];
    }
  }

  lemma EpochOf(run: seq<Operation>, k: nat, op: Operation)
    requires Epoch(run) && k <= |run| && KeepsKeys(op)
    ensures Epoch(run[..k] + [op])
  {
  }

  /** The exact condition: a run sends without gaps if and only if at no point of it any packet whatever
      would be accepted under an index that was accepted before. */
  lemma RtcpAcceptedOnceIff(prim: Primitives, s: SessionState, run: seq<Operation>)
    requires ValidSession(s) && UniqueSsrcs(s.streams) && Epoch(run)
    ensures RunGapFree(prim, s, {}, run)
            <==> forall k: nat, p: Octets, useMki: bool | k <= |run| ::
                   Fresh(AcceptedTrace(prim, s, run[..k] + [ReceiveRtcpPacket(p, useMki)]), {})
  {
    hide RunGapFree, AcceptedTrace, Epoch, ValidSession, UniqueSsrcs;
    assert AllRefused(s.streams, {});
    if RunGapFree(prim, s, {}, run) {
      forall k: nat, p: Octets, useMki: bool | k <= |run|
        ensures Fresh(AcceptedTrace(prim, s, run[..k] + [ReceiveRtcpPacket(p, useMki)]), {})
      {
        GapFreeExtended(prim, s, {}, run, k, p, useMki);
        RtcpAcceptedOnce(prim, s, {}, run[..k] + [ReceiveRtcpPacket(p, useMki)]);
      }
    } else {
      var seen: map<PacketId, Arrival> := map[];
      assert seen.Keys == {};
      var k, p, useMki := GapLetsRepeat(prim, s, seen, run);
    }
  }

  // ----- A run that accepts a packet twice

  /** One stream, whose SRTCP database has not seen a packet. */
  ghost predicate NewStream(s: SessionState) {
    && ValidSession(s) && |s.streams| == 1 && s.streams[0].keys != [] && s.streams[0].rtcpDb == EmptyRdb()
  }

  /** A packet of the stream's source, sealed under its first key and the given index. */
  function SealedRtcpBy(prim: Primitives, t: StreamState, pkt: Octets, index: nat): Octets
    requires t.keys != [] && |pkt| >= RTCP_HEADER
  {
    SealRtcp(prim, RtcpKeysOf(t.keys[0]), t.rtcp.conf, pkt, index, false)
  }

  /** What the receiver makes of a sealed packet whose index it does not refuse. */
  lemma SealedIsOpened(prim: Primitives, k: RtcpKeys, conf: bool, db: Rdb, pkt: Octets, index: nat)
    requires |pkt| >= RTCP_HEADER && 0 < index <= MAX_RTCP_INDEX
    requires ValidRdb(db) && CheckRdb(db, index) == Ok
    ensures db.start <= index
    ensures var q := SealRtcp(prim, k, conf, pkt, index, false);
            && |q| >= RTCP_HEADER + TRAILER && RtcpSsrc(q) == RtcpSsrc(pkt)
            && 0 <= TrailerAt(k, |q|, 0) && TrailerAt(k, |q|, 0) + TRAILER <= |q|
            && TrailerIndex(q, TrailerAt(k, |q|, 0)) == index
            && UnprotectRtcp(prim, k, conf, db, q, 0) == RtcpReceived(Ok, pkt, AddRdb(db, index))
  {
    hide CryptRtcp, Trailer, RtcpTag, EBit, TrailerIndex, SealRtcp, CheckRdb, AddRdb, UnprotectRtcp, RtcpSsrc;
    CheckedRdb(db, index);
    var q := SealRtcp(prim, k, conf, pkt, index, false);
    SealedRtcpLayout(prim, k, conf, pkt, index, false);
    TrailerReadBack(conf, index, q, TrailerAt(k, |q|, 0));
    var body := CryptRtcp(prim, k, conf, pkt, index);
    assert q[..RTCP_HEADER] == body[..RTCP_HEADER];
    SameRtcpSsrc(pkt, q);
    RtcpRoundTrip(prim, k, conf, Rdb(index - 1, []), db, pkt, false);
  }

  lemma ReceivesOnOne(prim: Primitives, s: SessionState, q: Octets, pkt: Octets, index: nat)
    requires ValidSession(s) && |s.streams| == 1 && s.streams[0].keys != [] && ValidRdb(s.streams[0].rtcpDb)
    requires |q| >= RTCP_HEADER + TRAILER && RtcpSsrc(q) == s.streams[0].ssrc
    requires s.streams[0].rtcpDb.start <= index <= MAX_RTCP_INDEX
    requires var t, k := s.streams[0], RtcpKeysOf(s.streams[0].keys[0]);
             && 0 <= TrailerAt(k, |q|, 0) && TrailerAt(k, |q|, 0) + TRAILER <= |q|
             && TrailerIndex(q, TrailerAt(k, |q|, 0)) == index
             && UnprotectRtcp(prim, k, t.rtcp.conf, t.rtcpDb, q, 0) == RtcpReceived(Ok, pkt, AddRdb(t.rtcpDb, index))
    ensures var t, r := s.streams[0], UnprotectRtcpMki(prim, s, q, false);
            && r == Outcome(CommitRtcp(s, t.ssrc, index), Ok, pkt)
            && AcceptedUse(prim, s, q, false) == IndexUse(RtcpKeysOf(t.keys[0]), t.ssrc, index)
  {
    hide UnprotectRtcp, RtcpSsrc, RtcpKeysOf, TrailerIndex, AddRdb, CommitRtcp, ValidSession;
    OneIsFound(s);
  }

  lemma OneIsFound(s: SessionState)
    requires |s.streams| == 1
    ensures Find(s.streams, s.streams[0].ssrc) == 0 && ReceiverStream(s, s.streams[0].ssrc) == s.streams[0]
  {
  }

  lemma CommitsToOneRtcp(s: SessionState, index: nat)
    requires |s.streams| == 1 && ValidRdb(s.streams[0].rtcpDb) && s.streams[0].rtcpDb.start <= index <= MAX_RTCP_INDEX
    ensures Find(s.streams, s.streams[0].ssrc) < |s.streams|
    ensures ReceiverStream(s, s.streams[0].ssrc) == s.streams[0]
    ensures var t, s' := s.streams[0], CommitRtcp(s, s.streams[0].ssrc, index);
            && |s'.streams| == 1
            && s'.streams[0] == t.(direction := s'.streams[0].direction, rtcpDb := AddRdb(t.rtcpDb, index))
  {
    hide AddRdb;
    OneIsFound(s);
  }

  lemma ReceivesSealed(prim: Primitives, s: SessionState, pkt: Octets, index: nat)
    requires ValidSession(s) && |s.streams| == 1 && s.streams[0].keys != [] && ValidRdb(s.streams[0].rtcpDb)
    requires |pkt| >= RTCP_HEADER && RtcpSsrc(pkt) == s.streams[0].ssrc && 0 < index <= MAX_RTCP_INDEX
    requires CheckRdb(s.streams[0].rtcpDb, index) == Ok
    ensures s.streams[0].rtcpDb.start <= index
    ensures var t, op := s.streams[0], ReceiveRtcpPacket(SealedRtcpBy(prim, s.streams[0], pkt, index), false);
            && Perform(prim, s, op).status == Ok && Perform(prim, s, op).packet == pkt
            && AcceptedBy(prim, s, op) == [IndexUse(RtcpKeysOf(t.keys[0]), t.ssrc, index)]
            && ValidSession(Apply(prim, s, op)) && |Apply(prim, s, op).streams| == 1
            && var u := Apply(prim, s, op).streams[0];
               u == t.(direction := u.direction, rtcpDb := AddRdb(t.rtcpDb, index))
  {
    hide *;
    var t := s.streams[0];
    var k, q := RtcpKeysOf(t.keys[0]), SealedRtcpBy(prim, t, pkt, index);
    SealedRtcpByIs(prim, t, pkt, index);
    SealedIsOpened(prim, k, t.rtcp.conf, t.rtcpDb, pkt, index);
    ReceivesOnOne(prim, s, q, pkt, index);
    CommitsToOneRtcp(s, index);
    ReceivePerforms(prim, s, q, false);
    AcceptedByUse(prim, s, q, false);
    ApplyKeepsValid(prim, s, ReceiveRtcpPacket(q, false)) by { ReceiveKeepsKeys(q, false); }
  }

  lemma SealedRtcpByIs(prim: Primitives, t: StreamState, pkt: Octets, index: nat)
    requires t.keys != [] && |pkt| >= RTCP_HEADER
    ensures SealedRtcpBy(prim, t, pkt, index)
            == SealRtcp(prim, RtcpKeysOf(t.keys[0]), t.rtcp.conf, pkt, index, false)
  {
    hide SealRtcp, RtcpKeysOf;
  }

  lemma AcceptedByUse(prim: Primitives, s: SessionState, p: Octets, useMki: bool)
    requires ValidSession(s) && UnprotectRtcpMki(prim, s, p, useMki).status == Ok
    ensures AcceptedBy(prim, s, ReceiveRtcpPacket(p, useMki)) == [AcceptedUse(prim, s, p, useMki)]
  {
    hide ValidSession, UnprotectRtcpMki, AcceptedUse;
    AcceptedChanges(prim, s, p, useMki);
  }

  /** The receiver's packet, one SRTCP packet sent for the same source, and the same packet again. */
  function RepeatingRun(q: Octets, x: Octets): seq<Operation> {
    [ReceiveRtcpPacket(q, false), SendRtcpPacket(x, false, 0), ReceiveRtcpPacket(q, false)]
  }

  lemma SendsOnOne(prim: Primitives, s: SessionState, x: Octets)
    requires ValidSession(s) && |s.streams| == 1 && IncrementRdb(s.streams[0].rtcpDb).Some?
    requires |x| >= RTCP_HEADER && RtcpSsrc(x) == s.streams[0].ssrc
    ensures var t, op := s.streams[0], SendRtcpPacket(x, false, 0);
            && Perform(prim, s, op).status == Ok && AcceptedBy(prim, s, op) == []
            && ValidSession(Apply(prim, s, op)) && |Apply(prim, s, op).streams| == 1
            && var u := Apply(prim, s, op).streams[0];
               u == t.(direction := u.direction, rtcpDb := IncrementRdb(t.rtcpDb).value)
  {
    hide SealRtcp, RtcpKeysOf, RtcpSsrc, IncrementRdb, ValidSession;
    ApplyKeepsValid(prim, s, SendRtcpPacket(x, false, 0));
    OneIsFound(s);
    WithRtcpStreamKeepsValid(s, s.streams[0].ssrc) by { RtcpSsrcRange(x); }
  }

  /** An index received alone is forgotten by counting up, unless it is 0. */
  lemma LoneIndexForgotten(index: nat)
    requires 0 < index <= MAX_RTCP_INDEX
    ensures var db := AddRdb(EmptyRdb(), index);
            && ValidRdb(EmptyRdb()) && CheckRdb(EmptyRdb(), index) == Ok && ValidRdb(db)
            && IncrementRdb(db).Some? && ValidRdb(IncrementRdb(db).value)
            && CheckRdb(IncrementRdb(db).value, index) == Ok
  {
  }

  /** Every index but 0: the packet is accepted by a new stream, and after one SRTCP packet has been sent
      for the same source, the same packet is accepted again, both times with its octets. */
  lemma RtcpAcceptedTwice(prim: Primitives, s: SessionState, pkt: Octets, x: Octets, index: nat)
    requires NewStream(s) && 0 < index <= MAX_RTCP_INDEX
    requires |pkt| >= RTCP_HEADER && RtcpSsrc(pkt) == s.streams[0].ssrc
    requires |x| >= RTCP_HEADER && RtcpSsrc(x) == s.streams[0].ssrc
    ensures s.streams[0].keys != []
    ensures var run := RepeatingRun(SealedRtcpBy(prim, s.streams[0], pkt, index), x);
            var s2 := Apply(prim, Apply(prim, s, run[0]), run[1]);
            var use := IndexUse(RtcpKeysOf(s.streams[0].keys[0]), s.streams[0].ssrc, index);
            && Perform(prim, s, run[0]).status == Ok && Perform(prim, s, run[0]).packet == pkt
            && Perform(prim, s2, run[2]).status == Ok && Perform(prim, s2, run[2]).packet == pkt
            && AcceptedTrace(prim, s, run) == [use, use]
  {
    hide *;
    NewStreamParts(s);
    LoneIndexForgotten(index);
    var t, q := s.streams[0], SealedRtcpBy(prim, s.streams[0], pkt, index);
    var run := RepeatingRun(q, x);
    RepeatingRunIs(q, x);
    ReceivesSealed(prim, s, pkt, index);
    var s1 := Apply(prim, s, run[0]);
    SendsOnOne(prim, s1, x);
    var s2 := Apply(prim, s1, run[1]);
    SealedRtcpByIs(prim, t, pkt, index);
    SealedRtcpByIs(prim, s2.streams[0], pkt, index);
    ReceivesSealed(prim, s2, pkt, index);
    AcceptedTraceUnfold(prim, s, run);
    AcceptedTraceUnfold(prim, s1, run[1..]);
    AcceptedTraceUnfold(prim, s2, run[2..]);
    AcceptedTraceUnfold(prim, Apply(prim, s2, run[2]), []);
    assert run[1..][1..] == run[2..] && run[2..][1..] == [];
  }

  lemma NewStreamParts(s: SessionState)
    requires NewStream(s)
    ensures ValidSession(s) && |s.streams| == 1 && s.streams[0].keys != [] && s.streams[0].rtcpDb == EmptyRdb()
  {
  }

  lemma RepeatingRunIs(q: Octets, x: Octets)
    ensures RepeatingRun(q, x)
            == [ReceiveRtcpPacket(q, false), SendRtcpPacket(x, false, 0), ReceiveRtcpPacket(q, false)]
  {
  }
}
