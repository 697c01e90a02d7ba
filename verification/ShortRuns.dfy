/** Runs that are too short for a rollover counter to wrap: what can be told from the state they start in
    and the calls they make. */
module ShortRuns {
  import opened Octets
  import opened SrtpStatus
  import opened Crypto
  import opened ReplayWindow
  import opened RtpPacket
  import opened SessionKey
  import opened SessionModel
  import opened SessionInvariants
  import opened RtcpPacket
  import opened RtcpModel
  import opened SessionRuns
  import opened VectorUniqueness
  import opened NetworkSafety
  import opened NetworkReplay
  import opened IndexEstimate

  // ----- Rollover counters of at most `r`

  predicate LowStream(t: StreamState, r: nat) {
    t.db.index / SEQ_MAX <= r && t.pendingRoc <= r
  }

  predicate Low(streams: seq<StreamState>, r: nat) {
    forall i | 0 <= i < |streams| :: LowStream(streams[i], r)
  }

  lemma LowMore(streams: seq<StreamState>, r: nat, more: nat)
    requires Low(streams, r) && r <= more
    ensures Low(streams, more)
  {
  }

  lemma LowReplaced(streams: seq<StreamState>, at: nat, t: StreamState, r: nat)
    requires Low(streams, r) && at < |streams| && LowStream(t, r + 1)
    ensures Low(streams[at := t], r + 1)
  {
    LowMore(streams, r, r + 1);
  }

  lemma LowPrepended(t: StreamState, streams: seq<StreamState>, r: nat)
    requires Low(streams, r) && LowStream(t, r)
    ensures Low([t] + streams, r)
  {
    forall i | 0 <= i < |streams| + 1
      ensures LowStream(([t] + streams)[i], r)
    {
      assert i > 0 ==> ([t] + streams)[i] == streams[i - 1];
    }
  }

  /** One packet moves the index into the next range at most, and not out of the last one. */
  lemma EstimateLow(db: Rdbx, s: nat, r: nat)
    requires s < SEQ_MAX && db.index / SEQ_MAX <= r
    ensures var n := db.index + EstimateIndex(db, s).delta; n >= 0 && n / SEQ_MAX <= r + 1
  {
    if db.index > MEDIAN {
      EstimateIsTruncated(db, s);
    }
  }

  lemma AddIndexLow(db: Rdbx, delta: int, r: nat)
    requires ValidWindow(db) && |db.window| - 1 + delta >= 0 && delta < SEQ_MAX
    requires db.index / SEQ_MAX <= r && (db.index + delta) / SEQ_MAX <= r && r < UINT32
    ensures AddIndex(db, delta).index / SEQ_MAX <= r
  {
    hide LeftShift;
  }

  lemma AdvanceLow(t: StreamState, est: nat, r: nat)
    requires ValidWindow(t.db) && LowStream(t, r) && est / SEQ_MAX <= r
    ensures LowStream(Advance(t, est), r)
  {
    hide LeftShift;
    var low := est % SEQ_MAX;
    assert est == est / SEQ_MAX * SEQ_MAX + low;
  }

  /** What a guess leads to. */
  lemma GuessLow(t: StreamState, s: nat, r: nat)
    requires ValidWindow(t.db) && LowStream(t, r) && s < SEQ_MAX && t.pendingRoc < UINT32 && r + 1 < UINT32
    ensures var g := GuessIndex(t, s);
            && (g.status == IndexAdvance ==> LowStream(Advance(t, g.est), r + 1))
            && (g.status == Ok ==> -SEQ_MAX < g.delta < SEQ_MAX)
            && (g.status == Ok && |t.db.window| - 1 + g.delta >= 0 ==>
                  LowStream(t.(db := AddIndex(t.db, g.delta)), r + 1))
  {
    hide AddIndex, IndexGuess, EstimateIndex, Advance, Laps;
    var g := GuessIndex(t, s);
    GuessIsPaced(t, s);
    PendingLow(t, s, r);
    if g.status == IndexAdvance {
      AdvanceLow(t, g.est, r + 1);
    } else if g.status == Ok && |t.db.window| - 1 + g.delta >= 0 {
      EstimateLow(t.db, s, r);
      AddIndexLow(t.db, g.delta, r + 1);
    }
  }

  lemma PendingLow(t: StreamState, s: nat, r: nat)
    requires LowStream(t, r) && s < SEQ_MAX && t.pendingRoc < UINT32
    ensures var g := GuessIndex(t, s);
            && (g.status == IndexAdvance ==> g.est / SEQ_MAX <= r)
            && (g.status == Ok ==>
                  t.db.index + g.delta == t.db.index + EstimateIndex(t.db, s).delta
                  || (t.db.index + g.delta >= 0 && (t.db.index + g.delta) / SEQ_MAX <= r))
  {
    hide EstimateIndex;
    if t.pendingRoc != 0 {
      EstimateWithRocIsExact(t.db.index, t.pendingRoc, s);
    }
  }


  lemma SenderLow(t: StreamState, s: nat, gcm: bool, r: nat)
    requires ValidWindow(t.db) && LowStream(t, r) && s < SEQ_MAX && t.pendingRoc < UINT32 && r + 1 < UINT32
    ensures SenderIndex(t, s, gcm).Use? ==> LowStream(SenderIndex(t, s, gcm).stream, r + 1)
  {
    hide AddIndex, GuessIndex, Advance;
    GuessLow(t, s, r);
    GuessLow(t.(pendingRoc := 0), s, r);
    if gcm {
      NoPendingNoAdvance(t.(pendingRoc := 0), s);
    }
  }

  // ----- Operations

  lemma PrepareOnLow(s: SessionState, at: nat, seqNo: nat, useMki: bool, mkiIndex: nat, r: nat)
    requires ValidSession(s) && at < |s.streams| && seqNo < SEQ_MAX && Low(s.streams, r) && r + 1 < UINT32
    ensures Low(PrepareOn(s, at, seqNo, useMki, mkiIndex).session.streams, r + 1)
  {
    hide Charge, SelectedSlot, SenderIndex, Low;
    var t := Mark(s.streams[at], Sender);
    assert ValidStream(t, s.limits);
    MarkLow(s.streams, at, Sender, r);
    LowReplaced(s.streams, at, t, r);
    SenderLow(t, seqNo, t.keys[SelectedSlot(|t.keys|, useMki, mkiIndex)].rtpCipher.algorithm.Gcm?, r);
    var p := PrepareOn(s, at, seqNo, useMki, mkiIndex);
    if p.Ready? {
      var d := SenderIndex(t, seqNo, t.keys[SelectedSlot(|t.keys|, useMki, mkiIndex)].rtpCipher.algorithm.Gcm?);
      LowReplaced(s.streams, at, d.stream, r);
      assert s.streams[at := t][at := d.stream] == s.streams[at := d.stream];
    }
  }

  lemma MarkLow(streams: seq<StreamState>, at: nat, d: Direction, r: nat)
    requires Low(streams, r) && at < |streams|
    ensures LowStream(Mark(streams[at], d), r) && LowStream(Mark(streams[at], d), r + 1)
  {
  }

  lemma CloneLow(t: StreamState, ssrc: nat, r: nat)
    ensures LowStream(Clone(t, ssrc), r)
    ensures LowStream(Clone(t, ssrc).(direction := Sender), r)
  {
  }

  lemma ProtectLow(prim: Primitives, s: SessionState, pkt: Octets, useMki: bool, mkiIndex: nat, r: nat)
    requires ValidSession(s) && Low(s.streams, r) && r + 1 < UINT32
    ensures Low(Protect(prim, s, pkt, useMki, mkiIndex).session.streams, r + 1)
  {
    hide PrepareOn, Low, LowStream, Ssrc, Sequence, Clone, ValidSession, CsrcEnd, HasExtension, CsrcCount;
    ProtectSession(prim, s, pkt, useMki, mkiIndex);
    LowMore(s.streams, r, r + 1);
    if ValidHeader(pkt) && EnsureStream(s, Ssrc(pkt)).Some? {
      EnsureStreamKeepsValid(s, Ssrc(pkt));
      var s1 := EnsureStream(s, Ssrc(pkt)).value;
      if s1 != s {
        CloneLow(s.template.value, Ssrc(pkt), r);
        LowPrepended(s1.streams[0], s.streams, r);
      }
      PrepareOnLow(s1, Find(s1.streams, Ssrc(pkt)), Sequence(pkt), useMki, mkiIndex, r);
    }
  }

  lemma CommitLow(s: SessionState, ssrc: nat, seqNo: nat, gcm: bool, r: nat)
    requires ValidSession(s) && Low(s.streams, r) && r + 1 < UINT32 && seqNo < SEQ_MAX
    requires var g := ReceiverGuess(s, ssrc, seqNo);
             (g.status == Ok || g.status == IndexAdvance) && CommitAllowed(s, ssrc, g)
    ensures Low(Commit(s, ssrc, ReceiverGuess(s, ssrc, seqNo), gcm).streams, r + 1)
  {
    hide AddIndex, GuessIndex, Advance, Low, Check, Clone;
    var at, g := Find(s.streams, ssrc), ReceiverGuess(s, ssrc, seqNo);
    if at < |s.streams| {
      var t := Mark(s.streams[at], Receiver);
      MarkLow(s.streams, at, Receiver, r);
      CommittedLow(t, seqNo, g, gcm, r) by {
        assert GuessIndex(t, seqNo) == GuessIndex(s.streams[at], seqNo) by { MarkedGuess(s.streams[at], seqNo); }
        CheckNeverAdvances(s.streams[at].db, GuessIndex(t, seqNo).delta);
      }
      LowReplaced(s.streams, at, Commit(s, ssrc, g, gcm).streams[at], r);
    } else {
      var t := Mark(s.template.value, Receiver);
      NewStreamLow(t, ssrc, seqNo, r);
      LowMore(s.streams, r, r + 1);
      LowPrepended(Commit(s, ssrc, g, gcm).streams[0], s.streams, r + 1);
    }
  }

  lemma MarkedGuess(t: StreamState, s: nat)
    requires s < SEQ_MAX && t.pendingRoc < UINT32
    ensures GuessIndex(Mark(t, Receiver), s) == GuessIndex(t, s)
  {
  }

  lemma CommittedLow(t: StreamState, s: nat, g: Guess, gcm: bool, r: nat)
    requires ValidWindow(t.db) && LowStream(t, r) && s < SEQ_MAX && t.pendingRoc < UINT32 && r + 1 < UINT32
    requires g.status == Ok || g.status == IndexAdvance
    requires GuessIndex(t, s) == g && |t.db.window| - 1 + g.delta >= 0
    ensures LowStream(if g.status == IndexAdvance && !gcm then Advance(t, g.est)
                      else t.(db := AddIndex(t.db, g.delta)), r + 1)
  {
    hide AddIndex, GuessIndex, Advance;
    GuessLow(t, s, r);
    if g.status == IndexAdvance {
      AheadIsPending(t, s);
      MarkingLow(t, r);
    }
  }

  lemma AheadIsPending(t: StreamState, s: nat)
    requires s < SEQ_MAX && t.pendingRoc < UINT32 && GuessIndex(t, s).status == IndexAdvance
    ensures GuessIndex(t, s).delta == 0
  {
  }

  lemma MarkingLow(t: StreamState, r: nat)
    requires ValidWindow(t.db) && LowStream(t, r)
    ensures LowStream(t.(db := AddIndex(t.db, 0)), r + 1)
  {
  }

  lemma NewStreamLow(t: StreamState, ssrc: nat, s: nat, r: nat)
    requires ValidWindow(t.db) && s < SEQ_MAX
    ensures ValidWindow(Clone(t, ssrc).db)
    ensures LowStream(Clone(t, ssrc).(db := AddIndex(Clone(t, ssrc).db, s)), r + 1)
  {
    hide LeftShift;
  }

  lemma UnprotectLow(prim: Primitives, s: SessionState, pkt: Octets, useMki: bool, r: nat)
    requires ValidSession(s) && Low(s.streams, r) && r + 1 < UINT32
    ensures Low(Unprotect(prim, s, pkt, useMki).session.streams, r + 1)
  {
    hide *;
    LowMore(s.streams, r, r + 1) by { OneMore(r); }
    if Unprotect(prim, s, pkt, useMki).status == Ok {
      AcceptedWasChosen(prim, s, pkt, useMki);
      UnprotectUnfold(prim, s, pkt, useMki);
      ChooseReceiveFacts(s, pkt, useMki);
      var ssrc := Ssrc(pkt);
      var key := ReceiverStream(s, ssrc).keys[ChooseReceive(s, pkt, useMki).slot].limit;
      var s1 := s.(limits := s.limits[key := Charge(s.limits[key]).0]);
      LimitsKeepValid(s, key, Charge(s.limits[key]).0);
      GuessIgnoresLimits(s, s1, ssrc, Sequence(pkt));
      CommitLow(s1, ssrc, Sequence(pkt), UsesGcm(s, pkt, useMki), r);
    } else if ChooseReceive(s, pkt, useMki).Choose? {
      UnprotectUnfold(prim, s, pkt, useMki);
    } else {
      UnprotectRejects(prim, s, pkt, useMki);
    }
  }

  lemma OneMore(r: nat)
    ensures r <= r + 1
  {
  }

  lemma LimitsKeepValid(s: SessionState, key: KeyLimit, limit: Limit)
    requires ValidSession(s)
    ensures ValidSession(s.(limits := s.limits[key := limit]))
  {
  }

  lemma RtcpChangeLow(s: SessionState, s': SessionState, ssrc: nat, r: nat)
    requires Low(s.streams, r) && RtcpChange(s, s', ssrc)
    ensures Low(s'.streams, r)
  {
    if s' != s && Find(s.streams, ssrc) == |s.streams| {
      CloneLow(s'.template.value, ssrc, r);
      LowPrepended(s'.streams[0], s.streams, r);
    }
  }

  lemma SetRocLow(s: SessionState, ssrc: nat, roc: nat, r: nat)
    requires Low(s.streams, r) && roc <= r
    ensures Low(SetRoc(s, ssrc, roc).session.streams, r)
  {
  }

  /** Rollover counters that are set are at most `r`. */
  predicate SetsAtMost(op: Operation, r: nat) {
    op.SetCounter? ==> op.roc % UINT32 <= r
  }

  lemma QuietLow(prim: Primitives, s: SessionState, op: Operation, r: nat)
    requires Quiet(op) && SetsAtMost(op, r) && Low(s.streams, r)
    ensures Low(Apply(prim, s, op).streams, r)
  {
    hide Low, ProtectRtcpMki, UnprotectRtcpMki, RtcpChange, SetRoc, RtcpSsrc, ValidSession;
    if ValidSession(s) {
      if op.SetCounter? {
        SetRocLow(s, op.ssrc, op.roc % UINT32, r);
      } else if |op.pkt| < RTCP_HEADER {
        ShortRtcpKeeps(prim, s, op.pkt, op.useMki, if op.SendRtcpPacket? then op.mkiIndex else 0);
      } else if op.SendRtcpPacket? {
        SendRtcpChange(prim, s, op.pkt, op.useMki, op.mkiIndex);
        RtcpChangeLow(s, Apply(prim, s, op), RtcpSsrc(op.pkt), r);
      } else {
        ReceiveRtcpChange(prim, s, op.pkt, op.useMki);
        RtcpChangeLow(s, Apply(prim, s, op), RtcpSsrc(op.pkt), r);
      }
    }
  }

  predicate IsRtp(op: Operation) {
    op.SendRtpPacket? || op.ReceiveRtpPacket?
  }

  lemma ApplyLow(prim: Primitives, s: SessionState, op: Operation, r: nat)
    requires KeepsKeys(op) && SetsAtMost(op, r) && Low(s.streams, r)
    requires IsRtp(op) ==> r + 1 < UINT32
    ensures Low(Apply(prim, s, op).streams, if IsRtp(op) then r + 1 else r)
  {
    hide Low, Protect, Unprotect, ValidSession;
    if !IsRtp(op) {
      hide Apply;
      QuietLow(prim, s, op, r);
    } else if ValidSession(s) {
      if op.SendRtpPacket? {
        ProtectLow(prim, s, op.pkt, op.useMki, op.mkiIndex, r);
      } else {
        UnprotectLow(prim, s, op.pkt, op.useMki, r);
      }
    } else {
      LowMore(s.streams, r, r + 1);
    }
  }

  /** Below the last rollover counter nothing laps. */
  lemma LowLapsNowhere(t: StreamState, s: nat, used: set<nat>, r: nat)
    requires LowStream(t, r) && r + 1 < UINT32 && s < SEQ_MAX
    ensures !LapsOnto(t, s, used)
  {
    hide EstimateIndex;
    EstimateLow(t.db, s, r);
    var n := t.db.index + EstimateIndex(t.db, s).delta;
    assert n == n / SEQ_MAX * SEQ_MAX + n % SEQ_MAX;
  }

  lemma LowSendsBelow(s: SessionState, used: set<PacketId>, pkt: Octets, useMki: bool, mkiIndex: nat, r: nat)
    requires Low(s.streams, r) && r + 1 < UINT32
    ensures !SendLapsOnto(s, used, pkt, useMki, mkiIndex)
  {
    hide LapsOnto, SelectedSlot, UsedBy, Ssrc, Sequence;
    if ValidHeader(pkt) && Find(s.streams, Ssrc(pkt)) < |s.streams| {
      var t := s.streams[Find(s.streams, Ssrc(pkt))];
      LowLapsNowhere(t, Sequence(pkt), UsedBy(used, Ssrc(pkt)), r);
      LowLapsNowhere(t.(pendingRoc := 0), Sequence(pkt), UsedBy(used, Ssrc(pkt)), r);
    }
  }

  lemma LowReceivesBelow(s: SessionState, used: set<PacketId>, pkt: Octets, r: nat)
    requires Low(s.streams, r) && r + 1 < UINT32
    ensures !ReceiveLapsOnto(s, used, pkt)
  {
    hide LapsOnto, UsedBy, Ssrc, Sequence;
    if ValidHeader(pkt) && Find(s.streams, Ssrc(pkt)) < |s.streams| {
      LowLapsNowhere(s.streams[Find(s.streams, Ssrc(pkt))], Sequence(pkt), UsedBy(used, Ssrc(pkt)), r);
    }
  }

  lemma LowIsLapFree(prim: Primitives, s: SessionState, used: set<PacketId>, op: Operation, r: nat)
    requires Low(s.streams, r) && (IsRtp(op) ==> r + 1 < UINT32)
    ensures !LapsOntoUsed(s, used, op)
  {
    hide SendLapsOnto, ReceiveLapsOnto, Low;
    if op.SendRtpPacket? {
      LowSendsBelow(s, used, op.pkt, op.useMki, op.mkiIndex, r);
    } else if op.ReceiveRtpPacket? {
      LowReceivesBelow(s, used, op.pkt, r);
    }
  }

  // ----- Runs of a session

  /** How many RTP packets are sent or received. */
  function RtpCount(run: seq<Operation>): nat {
    if run == [] then 0 else (if IsRtp(run[0]) then 1 else 0) + RtpCount(run[1..])
  }

  /** What a caller can see beforehand: the rollover counters at the start and those that are set are at
      most `r`, and the packets do not lead beyond the last one. */
  ghost predicate Short(streams: seq<StreamState>, run: seq<Operation>, r: nat) {
    && Low(streams, r) && r + 1 + RtpCount(run) <= UINT32
    && forall i | 0 <= i < |run| :: SetsAtMost(run[i], r)
  }

  lemma ShortStep(prim: Primitives, s: SessionState, run: seq<Operation>, r: nat)
    requires run != [] && Short(s.streams, run, r) && KeepsKeys(run[0])
    ensures IsRtp(run[0]) ==> r + 1 < UINT32
    ensures Low(s.streams, r) && SetsAtMost(run[0], r)
    ensures Short(Apply(prim, s, run[0]).streams, run[1..], if IsRtp(run[0]) then r + 1 else r)
  {
    hide Low, Apply, KeepsKeys, IsRtp;
    ApplyLow(prim, s, run[0], r);
  }

  /** No packet of such a run laps onto a used index. */
  lemma {:induction false} ShortRunIsLapFree(
    prim: Primitives, s: SessionState, used: set<PacketId>, run: seq<Operation>, r: nat)
    requires Epoch(run) && Short(s.streams, run, r)
    ensures LapFree(prim, s, used, run)
    decreases |run|
  {
    hide *;
    TraceUnfold(prim, s, used, run);
    if run != [] {
      EpochStep(run);
      ShortStep(prim, s, run, r);
      LowIsLapFree(prim, s, used, run[0], r);
      ShortRunIsLapFree(prim, Apply(prim, s, run[0]), UsedAfter(prim, s, used, run[0]), run[1..],
                        if IsRtp(run[0]) then r + 1 else r);
    }
  }

  /** So, without permission to repeat, no vector is set twice under one cipher. */
  lemma ShortRunReusesNothing(prim: Primitives, s: SessionState, run: seq<Operation>, r: nat, i: nat, j: nat)
    requires GuardedSession(s, {}) && NoRepeats(s) && Epoch(run) && Short(s.streams, run, r)
    requires i < j < |Trace(prim, s, run)|
    ensures Id(Trace(prim, s, run)[i]) != Id(Trace(prim, s, run)[j])
    ensures SameVectors(Trace(prim, s, run)[i].keys, Trace(prim, s, run)[j].keys) ==>
              Vector(Trace(prim, s, run)[i]) != Vector(Trace(prim, s, run)[j])
  {
    hide Trace, LapFree, GuardedSession, NoRepeats, Epoch, Vector, Id, Short, SameVectors;
    ShortRunIsLapFree(prim, s, {}, run, r);
    TraceIsFresh(prim, s, {}, run);
    if SameVectors(Trace(prim, s, run)[i].keys, Trace(prim, s, run)[j].keys) {
      NoVectorReuse(prim, s, run, i, j);
    }
  }

  // ----- Runs of sender, network and receiver

  /** How many packets are delivered. */
  function DeliveryCount(actions: seq<Action>): nat {
    if actions == [] then 0 else (if actions[0].Deliver? then 1 else 0) + DeliveryCount(actions[1..])
  }

  ghost predicate ShortDelivery(streams: seq<StreamState>, actions: seq<Action>, r: nat) {
    && Low(streams, r) && r + 1 + DeliveryCount(actions) <= UINT32
    && forall i | 0 <= i < |actions| && actions[i].AtReceiver? :: SetsAtMost(actions[i].op, r)
  }

  lemma ActLow(prim: Primitives, y: System, a: Action, r: nat)
    requires ValidSession(y.tx) && ValidSession(y.rx) && Low(y.rx.streams, r)
    requires a.Deliver? ==> r + 1 < UINT32
    requires a.AtReceiver? ==> SetsAtMost(a.op, r)
    ensures Low(Act(prim, y, a).rx.streams, if a.Deliver? then r + 1 else r)
  {
    hide ValidSession, Low, SendOne, Unprotect, Apply, Quiet, ChooseReceive, Records, Ssrc;
    match a
    case Send(pkt, useMki, mkiIndex) => SendLeavesReceiver(prim, y, pkt, useMki, mkiIndex);
    case Deliver(pkt, useMki) => UnprotectLow(prim, y.rx, pkt, useMki, r);
    case AtSender(op) =>
    case AtReceiver(op) => QuietLow(prim, y.rx, op, r);
  }

  lemma ShortDeliveryStep(prim: Primitives, y: System, actions: seq<Action>, r: nat)
    requires actions != [] && ShortDelivery(y.rx.streams, actions, r) && ValidSession(y.tx) && ValidSession(y.rx)
    ensures Low(y.rx.streams, r) && (actions[0].Deliver? ==> r + 1 < UINT32)
    ensures ShortDelivery(Act(prim, y, actions[0]).rx.streams, actions[1..], if actions[0].Deliver? then r + 1 else r)
  {
    hide Low, Act, ValidSession;
    ActLow(prim, y, actions[0], r);
  }

  lemma {:induction false} ShortDeliveryIsLapFree(prim: Primitives, y: System, actions: seq<Action>, r: nat)
    requires ShortDelivery(y.rx.streams, actions, r)
    ensures LapFreeRun(prim, y, actions)
    decreases |actions|
  {
    hide ValidSession, Act, ShortDelivery, Low, ReceiveLapsOnto, RecordedIds, Unprotect;
    if actions != [] && ValidSession(y.tx) && ValidSession(y.rx) {
      ShortDeliveryStep(prim, y, actions, r);
      if actions[0].Deliver? {
        LowReceivesBelow(y.rx, RecordedIds(y.accepted), actions[0].pkt, r);
      }
      ShortDeliveryIsLapFree(prim, Act(prim, y, actions[0]), actions[1..], if actions[0].Deliver? then r + 1 else r);
    }
  }

  /** So no recorded index is accepted again, whatever is delivered. */
  lemma ShortDeliveryRepeatsNothing(
    prim: Primitives, tx: SessionState, rx: SessionState, actions: seq<Action>, r: nat)
    requires GuardedSession(rx, {}) && ShortDelivery(rx.streams, actions, r)
    ensures NoneTwice(After(prim, System(tx, rx, [], []), actions).accepted)
  {
    hide GuardedSession, ShortDelivery, After, LapFreeRun;
    var y := System(tx, rx, [], []);
    assert RecordedIds(y.accepted) == {};
    ShortDeliveryIsLapFree(prim, y, actions, r);
    AcceptedOnce(prim, y, actions);
  }
}
