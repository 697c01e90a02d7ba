/** The other half of replay protection: over which runs a packet is refused as a replay only if its index
    was used. */
module ReplayExactness {
  import opened Octets
  import opened SrtpStatus
  import opened Crypto
  import opened ReplayWindow
  import opened RtpPacket
  import opened SessionKey
  import opened SessionModel
  import opened SessionInvariants
  import opened RtcpPacket
  import opened RtcpModel
  import opened SessionRuns
  import opened VectorUniqueness
  import opened NetworkSafety
  import opened ShortRuns

  /** Every mark in a window stands for an index that its source has used. */
  ghost predicate Exact(streams: seq<StreamState>, used: set<PacketId>) {
    forall i | 0 <= i < |streams| :: MarksOnly(streams[i].db, UsedBy(used, streams[i].ssrc))
  }

  lemma ExactReplaced(streams: seq<StreamState>, used: set<PacketId>, at: nat, t: StreamState, index: nat)
    requires UniqueSsrcs(streams) && Exact(streams, used) && at < |streams| && t.ssrc == streams[at].ssrc
    requires MarksOnly(t.db, UsedBy(used, t.ssrc) + {index})
    ensures Exact(streams[at := t], used + {PacketId(t.ssrc, index)})
  {
    hide MarksOnly, UsedBy;
    var u := streams[at := t];
    forall i | 0 <= i < |u|
      ensures MarksOnly(u[i].db, UsedBy(used + {PacketId(t.ssrc, index)}, u[i].ssrc))
    {
      UsedByAdding(used, PacketId(t.ssrc, index), u[i].ssrc);
      assert i != at ==> u[i] == streams[i] && u[i].ssrc != t.ssrc;
    }
  }

  lemma ExactKept(streams: seq<StreamState>, used: set<PacketId>, at: nat, t: StreamState)
    requires Exact(streams, used) && at < |streams| && t.ssrc == streams[at].ssrc && t.db == streams[at].db
    ensures Exact(streams[at := t], used)
  {
    hide MarksOnly, UsedBy;
  }

  lemma ExactPrepended(t: StreamState, streams: seq<StreamState>, used: set<PacketId>)
    requires Exact(streams, used) && t.db == Empty(|t.db.window|)
    ensures Exact([t] + streams, used)
  {
    hide UsedBy;
    NothingMarked(|t.db.window|, UsedBy(used, t.ssrc));
    var u := [t] + streams;
    forall i | 0 <= i < |u|
      ensures MarksOnly(u[i].db, UsedBy(used, u[i].ssrc))
    {
      assert i > 0 ==> u[i] == streams[i - 1];
    }
  }

  lemma NothingMarked(size: nat, used: set<nat>)
    ensures MarksOnly(Empty(size), used)
  {
  }

  // ----- One stream

  /** Recording marks nothing but the index, if the index does not lap. */
  lemma RecordingIsExact(t: StreamState, s: nat, used: set<nat>)
    requires Guarded(t, used) && MarksOnly(t.db, used) && s < SEQ_MAX && t.pendingRoc < UINT32 && !Laps(t, s)
    ensures var g := GuessIndex(t, s);
            && (g.status == IndexAdvance ==> MarksOnly(Advance(t, g.est).db, used + {g.est}))
            && (g.status == Ok && |t.db.window| - 1 + g.delta >= 0 ==>
                  MarksOnly(AddIndex(t.db, g.delta), used + {g.est}))
  {
    hide AddIndex, GuessIndex, Covers, Marked, LeftShift, Laps, MarksOnly;
    var g := GuessIndex(t, s);
    GuessIsPaced(t, s);
    IndexFits(t, used);
    if g.status == IndexAdvance {
      AdvanceTracks(t.db, used, g.est);
    } else if g.status == Ok && |t.db.window| - 1 + g.delta >= 0 {
      AddIndexTracks(t.db, used, g.est);
    }
  }

  lemma SendingIsExact(t: StreamState, s: nat, gcm: bool, used: set<nat>)
    requires Guarded(t, used) && MarksOnly(t.db, used) && s < SEQ_MAX && t.pendingRoc < UINT32 && !t.allowRepeatTx
    requires !Laps(SendingStream(t, gcm), s)
    ensures var d := SenderIndex(t, s, gcm);
            d.Use? ==> MarksOnly(d.stream.db, used + {d.index}) && d.stream.ssrc == t.ssrc
  {
    hide AddIndex, GuessIndex, Covers, SetRocSeq, Laps, MarksOnly;
    var u := SendingStream(t, gcm);
    assert Guarded(u, used);
    RecordingIsExact(u, s, used);
    CheckedInWindow(t.db, GuessIndex(u, s).delta);
  }

  lemma CheckedInWindow(db: Rdbx, delta: int)
    requires ValidWindow(db)
    ensures Check(db, delta) == Ok ==> |db.window| - 1 + delta >= 0
  {
  }

  lemma LowDoesNotLap(t: StreamState, s: nat, r: nat)
    requires LowStream(t, r) && r + 1 < UINT32 && s < SEQ_MAX
    ensures !Laps(t, s) && !Laps(t.(pendingRoc := 0), s)
  {
    hide EstimateIndex;
    EstimateLow(t.db, s, r);
    var n := t.db.index + EstimateIndex(t.db, s).delta;
    assert n == n / SEQ_MAX * SEQ_MAX + n % SEQ_MAX;
  }

  // ----- Sending

  lemma PrepareOnExact(
    s: SessionState, used: set<PacketId>, at: nat, seqNo: nat, useMki: bool, mkiIndex: nat, r: nat)
    requires GuardedSession(s, used) && Exact(s.streams, used) && NoRepeats(s) && at < |s.streams| && seqNo < SEQ_MAX
    requires Low(s.streams, r) && r + 1 < UINT32
    ensures var p := PrepareOn(s, at, seqNo, useMki, mkiIndex);
            && (p.Refused? ==> Exact(p.session.streams, used))
            && (p.Ready? ==> Exact(p.session.streams, used + {PacketId(s.streams[at].ssrc, p.index)}))
  {
    hide UsedBy, Covers, MarksOnly, Listed, SenderIndex, SelectedSlot, Charge, Laps;
    var t := Mark(s.streams[at], Sender);
    MarkGuards(s, used, at, Sender);
    ExactKept(s.streams, used, at, t);
    LowDoesNotLap(t, seqNo, r);
    assert MarksOnly(t.db, UsedBy(used, t.ssrc));
    var gcm := t.keys[SelectedSlot(|t.keys|, useMki, mkiIndex)].rtpCipher.algorithm.Gcm?;
    SendingIsExact(t, seqNo, gcm, UsedBy(used, t.ssrc));
    var d := SenderIndex(t, seqNo, gcm);
    if d.Use? {
      ExactReplaced(s.streams, used, at, d.stream, d.index);
      assert s.streams[at := t][at := d.stream] == s.streams[at := d.stream];
    }
  }

  lemma SendExact(
    prim: Primitives, s: SessionState, used: set<PacketId>, pkt: Octets, useMki: bool, mkiIndex: nat, r: nat)
    requires GuardedSession(s, used) && Exact(s.streams, used) && NoRepeats(s)
    requires Low(s.streams, r) && r + 1 < UINT32
    ensures ValidSession(s)
    ensures var p := PrepareSend(s, pkt, useMki, mkiIndex);
            && (p.Refused? ==> Exact(p.session.streams, used))
            && (p.Ready? ==>
                  |pkt| >= RTP_HEADER && Exact(p.session.streams, used + {PacketId(Ssrc(pkt), p.index)}))
  {
    hide GuardedSession, Exact, NoRepeats, Low, LowStream, PrepareOn, Clone, Ssrc, Sequence, ValidSession, CsrcEnd,
         HasExtension, CsrcCount;
    GuardedIsValid(s, used);
    if ValidHeader(pkt) && EnsureStream(s, Ssrc(pkt)).Some? {
      var ssrc := Ssrc(pkt);
      EnsureStreamGuards(s, used, ssrc);
      var s1 := EnsureStream(s, ssrc).value;
      if s1 != s {
        CloneLow(s.template.value, ssrc, r);
        LowPrepended(s1.streams[0], s.streams, r);
        CloneIsEmpty(s.template.value, ssrc);
        ExactPrepended(s1.streams[0], s.streams, used);
      }
      PrepareOnExact(s1, used, Find(s1.streams, ssrc), Sequence(pkt), useMki, mkiIndex, r);
    }
  }

  lemma CloneIsEmpty(t: StreamState, ssrc: nat)
    ensures var c := Clone(t, ssrc);
            c.db == Empty(|c.db.window|) && |c.db.window| == |t.db.window| && c.ssrc == ssrc
  {
  }

  // ----- Receiving

  lemma CommitExact(s: SessionState, used: set<PacketId>, ssrc: nat, seqNo: nat, gcm: bool, r: nat)
    requires GuardedSession(s, used) && Exact(s.streams, used) && Low(s.streams, r) && r + 1 < UINT32
    requires seqNo < SEQ_MAX
    requires var g := ReceiverGuess(s, ssrc, seqNo);
             && (g.status == Ok || (g.status == IndexAdvance && !gcm)) && CommitAllowed(s, ssrc, g)
    ensures var g := ReceiverGuess(s, ssrc, seqNo);
            Exact(Commit(s, ssrc, g, gcm).streams, used + {PacketId(ssrc, g.est)})
  {
    hide AddIndex, GuessIndex, Check, Covers, MarksOnly, UsedBy, Listed, Laps, Clone, SetRocSeq;
    var at, g := Find(s.streams, ssrc), ReceiverGuess(s, ssrc, seqNo);
    var s' := Commit(s, ssrc, g, gcm);
    if at < |s.streams| {
      var t := s.streams[at];
      LowDoesNotLap(t, seqNo, r);
      CheckNeverAdvances(t.db, g.delta);
      RecordingIsExact(t, seqNo, UsedBy(used, ssrc));
      AdvanceMarked(t, Receiver, g.est);
      ExactReplaced(s.streams, used, at, s'.streams[at], g.est);
    } else {
      var c := Clone(Mark(s.template.value, Receiver), ssrc);
      CloneIsEmpty(Mark(s.template.value, Receiver), ssrc);
      ExactPrepended(c, s.streams, used);
      FirstIsExact(c, ssrc, seqNo, UsedBy(used, ssrc));
      UniquePrepended(s, c);
      ExactReplaced([c] + s.streams, used, 0, s'.streams[0], seqNo);
      assert ([c] + s.streams)[0 := s'.streams[0]] == s'.streams;
    }
  }

  lemma AdvanceMarked(t: StreamState, d: Direction, est: nat)
    requires ValidWindow(t.db)
    ensures Advance(Mark(t, d), est).db == Advance(t, est).db && Mark(t, d).db == t.db && Mark(t, d).ssrc == t.ssrc
  {
    hide AddIndex, SetRocSeq;
  }

  lemma FirstIsExact(t: StreamState, ssrc: nat, s: nat, used: set<nat>)
    requires t.db == Empty(|t.db.window|) && ValidWindow(t.db) && s < SEQ_MAX
    ensures MarksOnly(AddIndex(t.db, s), used + {s})
  {
    hide AddIndex;
    NothingMarked(|t.db.window|, {});
    NothingCovered(t.db);
    AddIndexTracks(t.db, {}, s);
    assert {} + {s} <= used + {s};
  }

  lemma UniquePrepended(s: SessionState, t: StreamState)
    requires UniqueSsrcs(s.streams) && Find(s.streams, t.ssrc) == |s.streams|
    ensures UniqueSsrcs([t] + s.streams)
  {
    var u := [t] + s.streams;
    forall i, j | 0 <= i < j < |u|
      ensures u[i].ssrc != u[j].ssrc
    {
      assert u[j] == s.streams[j - 1] && (i > 0 ==> u[i] == s.streams[i - 1]);
    }
  }

  /** If what is accepted is recorded. */
  lemma ReceiveExact(prim: Primitives, s: SessionState, used: set<PacketId>, pkt: Octets, useMki: bool, r: nat)
    requires GuardedSession(s, used) && Exact(s.streams, used) && Low(s.streams, r) && r + 1 < UINT32
    ensures ValidSession(s)
    ensures var r, c := Unprotect(prim, s, pkt, useMki), ChooseReceive(s, pkt, useMki);
            && (r.status != Ok ==> Exact(r.session.streams, used))
            && (r.status == Ok ==> c.Choose? && |pkt| >= RTP_HEADER)
            && (r.status == Ok && Records(s, pkt, useMki) ==>
                  Exact(r.session.streams, used + {PacketId(Ssrc(pkt), c.guess.est)}))
  {
    hide *;
    GuardedIsValid(s, used);
    if Unprotect(prim, s, pkt, useMki).status == Ok {
      AcceptedWasChosen(prim, s, pkt, useMki);
      UnprotectUnfold(prim, s, pkt, useMki);
      ChooseReceiveFacts(s, pkt, useMki);
      var ssrc := Ssrc(pkt);
      var key := ReceiverStream(s, ssrc).keys[ChooseReceive(s, pkt, useMki).slot].limit;
      var s1 := s.(limits := s.limits[key := Charge(s.limits[key]).0]);
      ChargeGuards(s, used, key, Charge(s.limits[key]).0);
      GuardedIsValid(s1, used);
      GuessIgnoresLimits(s, s1, ssrc, Sequence(pkt));
      RecordsIs(s, pkt, useMki);
      if Records(s, pkt, useMki) {
        CommitExact(s1, used, ssrc, Sequence(pkt), UsesGcm(s, pkt, useMki), r);
      }
    } else if ChooseReceive(s, pkt, useMki).Choose? {
      UnprotectUnfold(prim, s, pkt, useMki);
    } else {
      UnprotectRejects(prim, s, pkt, useMki);
    }
  }

  // ----- Runs

  lemma RtcpChangeExact(s: SessionState, s': SessionState, used: set<PacketId>, ssrc: nat)
    requires Exact(s.streams, used) && RtcpChange(s, s', ssrc)
    ensures Exact(s'.streams, used)
  {
    hide Exact;
    var at := Find(s.streams, ssrc);
    if s' == s {
    } else if at < |s.streams| {
      ExactKept(s.streams, used, at, s'.streams[at]);
    } else {
      CloneIsEmpty(s'.template.value, ssrc);
      ExactPrepended(s'.streams[0], s.streams, used);
    }
  }

  lemma QuietExact(prim: Primitives, s: SessionState, used: set<PacketId>, op: Operation)
    requires Exact(s.streams, used) && Quiet(op) && ValidSession(s)
    ensures Exact(Apply(prim, s, op).streams, used)
  {
    hide Exact, ProtectRtcpMki, UnprotectRtcpMki, RtcpChange, RtcpSsrc, ValidSession;
    if op.SetCounter? {
      SetRocExact(s, used, op.ssrc, op.roc % UINT32);
    } else if |op.pkt| < RTCP_HEADER {
      ShortRtcpKeeps(prim, s, op.pkt, op.useMki, if op.SendRtcpPacket? then op.mkiIndex else 0);
    } else if op.SendRtcpPacket? {
      SendRtcpChange(prim, s, op.pkt, op.useMki, op.mkiIndex);
      RtcpChangeExact(s, Apply(prim, s, op), used, RtcpSsrc(op.pkt));
    } else {
      ReceiveRtcpChange(prim, s, op.pkt, op.useMki);
      RtcpChangeExact(s, Apply(prim, s, op), used, RtcpSsrc(op.pkt));
    }
  }

  lemma SetRocExact(s: SessionState, used: set<PacketId>, ssrc: nat, roc: nat)
    requires Exact(s.streams, used)
    ensures Exact(SetRoc(s, ssrc, roc).session.streams, used)
  {
    hide Exact;
    var at := Find(s.streams, ssrc);
    if at < |s.streams| {
      ExactKept(s.streams, used, at, s.streams[at].(pendingRoc := roc));
    }
  }

  /** Accepting the packet, if that is what the operation does, records its index. */
  ghost predicate RecordsIfAccepted(prim: Primitives, s: SessionState, op: Operation) {
    ValidSession(s) && op.ReceiveRtpPacket? && Unprotect(prim, s, op.pkt, op.useMki).status == Ok ==>
      (AcceptedWasChosen(prim, s, op.pkt, op.useMki);
       Records(s, op.pkt, op.useMki))
  }

  ghost predicate AllRecorded(prim: Primitives, s: SessionState, run: seq<Operation>)
    decreases |run|
  {
    run != [] ==> RecordsIfAccepted(prim, s, run[0]) && AllRecorded(prim, Apply(prim, s, run[0]), run[1..])
  }

  /** That is so in every run of a session without authenticated ciphers. */
  lemma {:induction false} PlainRunsRecord(
    prim: Primitives, s: SessionState, run: seq<Operation>, configs: set<Config>)
    requires ValidSession(s) && Configured(s, configs) && Epoch(run)
    requires forall c | c in configs :: !c.keys.cipher.algorithm.Gcm?
    ensures AllRecorded(prim, s, run)
    decreases |run|
  {
    hide ValidSession, Configured, Epoch, Apply, RecordsIfAccepted;
    if run != [] {
      EpochStep(run);
      PlainRecords(prim, s, run[0], configs);
      ApplyKeepsConfig(prim, s, run[0], configs);
      PlainRunsRecord(prim, Apply(prim, s, run[0]), run[1..], configs);
    }
  }

  lemma PlainRecords(prim: Primitives, s: SessionState, op: Operation, configs: set<Config>)
    requires ValidSession(s) && Configured(s, configs)
    requires forall c | c in configs :: !c.keys.cipher.algorithm.Gcm?
    ensures RecordsIfAccepted(prim, s, op)
  {
    hide ValidSession, Configured, Unprotect, ChooseReceive, UsesGcm, CheckedWith;
    if op.ReceiveRtpPacket? && Unprotect(prim, s, op.pkt, op.useMki).status == Ok {
      AcceptedWasChosen(prim, s, op.pkt, op.useMki);
      CheckedConfig(s, op.pkt, op.useMki, configs);
    }
  }

  /** One operation. */
  lemma StepExact(prim: Primitives, s: SessionState, used: set<PacketId>, op: Operation, r: nat)
    requires GuardedSession(s, used) && Exact(s.streams, used) && NoRepeats(s) && KeepsKeys(op)
    requires Low(s.streams, r) && (IsRtp(op) ==> r + 1 < UINT32) && RecordsIfAccepted(prim, s, op)
    ensures var s', used' := Apply(prim, s, op), UsedAfter(prim, s, used, op);
            GuardedSession(s', used') && Exact(s'.streams, used') && NoRepeats(s')
  {
    hide *;
    GuardedIsValid(s, used);
    StepGuards(prim, s, used, op);
    StepParts(prim, s, used, op);
    LowIsLapFree(prim, s, used, op, r);
    ExactAfter(prim, s, used, op, r);
  }

  lemma ExactAfter(prim: Primitives, s: SessionState, used: set<PacketId>, op: Operation, r: nat)
    requires GuardedSession(s, used) && Exact(s.streams, used) && NoRepeats(s) && KeepsKeys(op)
    requires Low(s.streams, r) && (IsRtp(op) ==> r + 1 < UINT32) && RecordsIfAccepted(prim, s, op)
    requires var uses := Uses(prim, s, op);
             if uses == [] then UsedAfter(prim, s, used, op) == used
             else UsedAfter(prim, s, used, op) == used + {Id(uses[0])}
    ensures Exact(Apply(prim, s, op).streams, UsedAfter(prim, s, used, op))
  {
    hide Exact, GuardedSession, NoRepeats, Low, ValidSession, Protect, PrepareSend, Unprotect, ChooseReceive,
         Records, Ssrc,
         ChosenKeys, RtpKeysOf, UsedAfter, ValidHeader;
    GuardedIsValid(s, used);
    if op.SendRtpPacket? {
      SendExact(prim, s, used, op.pkt, op.useMki, op.mkiIndex, r);
      ProtectSession(prim, s, op.pkt, op.useMki, op.mkiIndex);
    } else if op.ReceiveRtpPacket? {
      ReceiveExact(prim, s, used, op.pkt, op.useMki, r);
    } else {
      hide Apply;
      QuietExact(prim, s, used, op);
    }
  }

  /** What a run has used, on top of what was used before it. */
  ghost function UsedIn(prim: Primitives, s: SessionState, used: set<PacketId>, run: seq<Operation>): set<PacketId> {
    used + set u | u in Trace(prim, s, run) :: Id(u)
  }

  lemma UsedInUnfold(prim: Primitives, s: SessionState, used: set<PacketId>, run: seq<Operation>)
    ensures run == [] ==> UsedIn(prim, s, used, run) == used
    ensures run != [] ==>
              UsedIn(prim, s, used, run)
              == UsedIn(prim, Apply(prim, s, run[0]), UsedAfter(prim, s, used, run[0]), run[1..])
  {
    hide Uses, Apply, Id, Trace, LapFree;
    TraceUnfold(prim, s, used, run);
    if run != [] {
      var uses, rest := Uses(prim, s, run[0]), Trace(prim, Apply(prim, s, run[0]), run[1..]);
      assert forall u | u in uses + rest :: u in uses || u in rest;
      assert forall u | u in uses || u in rest :: u in uses + rest;
    }
  }

  lemma {:induction false} RunExact(
    prim: Primitives, s: SessionState, used: set<PacketId>, run: seq<Operation>, r: nat)
    requires GuardedSession(s, used) && Exact(s.streams, used) && NoRepeats(s)
    requires Epoch(run) && Short(s.streams, run, r) && AllRecorded(prim, s, run)
    ensures var s', used' := AfterRun(prim, s, run), UsedIn(prim, s, used, run);
            GuardedSession(s', used') && Exact(s'.streams, used') && Low(s'.streams, r + RtpCount(run))
    decreases |run|
  {
    hide *;
    UsedInUnfold(prim, s, used, run);
    RunUnfold(prim, s, run, r);
    if run != [] {
      EpochStep(run);
      ShortStep(prim, s, run, r);
      StepExact(prim, s, used, run[0], r);
      RunExact(prim, Apply(prim, s, run[0]), UsedAfter(prim, s, used, run[0]), run[1..],
               if IsRtp(run[0]) then r + 1 else r);
    }
  }

  lemma RunUnfold(prim: Primitives, s: SessionState, run: seq<Operation>, r: nat)
    requires Short(s.streams, run, r)
    ensures run == [] ==> AfterRun(prim, s, run) == s && RtpCount(run) == 0 && Low(s.streams, r)
    ensures run != [] ==>
              && AfterRun(prim, s, run) == AfterRun(prim, Apply(prim, s, run[0]), run[1..])
              && RtpCount(run) == (if IsRtp(run[0]) then 1 else 0) + RtpCount(run[1..])
              && (AllRecorded(prim, s, run) ==>
                    RecordsIfAccepted(prim, s, run[0]) && AllRecorded(prim, Apply(prim, s, run[0]), run[1..]))
  {
    hide Apply, Low, RecordsIfAccepted, IsRtp;
  }

  /** After a short run in which every accepted packet is recorded, the check passes exactly the indices
      that the run has not used and that are not older than the window. */
  lemma ReplayCheckIsExact(prim: Primitives, s: SessionState, run: seq<Operation>, r: nat, ssrc: nat, seqNo: nat)
    requires GuardedSession(s, {}) && Exact(s.streams, {}) && NoRepeats(s)
    requires Epoch(run) && Short(s.streams, run, r) && r + 1 + RtpCount(run) < UINT32 && AllRecorded(prim, s, run)
    requires Find(AfterRun(prim, s, run).streams, ssrc) < |AfterRun(prim, s, run).streams| && seqNo < SEQ_MAX
    ensures var s', used := AfterRun(prim, s, run), UsedIn(prim, s, {}, run);
            var t := s'.streams[Find(s'.streams, ssrc)];
            && t.pendingRoc < UINT32 && ValidWindow(t.db)
            && var g := GuessIndex(t, seqNo);
               g.status == Ok ==>
                 (Check(t.db, g.delta) == Ok
                  <==> PacketId(ssrc, g.est) !in used && g.est > t.db.index - |t.db.window|)
  {
    hide *;
    RunExact(prim, s, {}, run, r);
    CheckedExactly(AfterRun(prim, s, run), UsedIn(prim, s, {}, run), ssrc, seqNo, r + RtpCount(run));
  }

  lemma CheckedExactly(s: SessionState, used: set<PacketId>, ssrc: nat, seqNo: nat, r: nat)
    requires GuardedSession(s, used) && Exact(s.streams, used) && Low(s.streams, r) && r + 1 < UINT32
    requires Find(s.streams, ssrc) < |s.streams| && seqNo < SEQ_MAX
    ensures var t := s.streams[Find(s.streams, ssrc)];
            && t.pendingRoc < UINT32 && ValidWindow(t.db)
            && var g := GuessIndex(t, seqNo);
               g.status == Ok ==>
                 (Check(t.db, g.delta) == Ok
                  <==> PacketId(ssrc, g.est) !in used && g.est > t.db.index - |t.db.window|)
  {
    hide UsedBy, Covers, MarksOnly, Listed, Laps, Check, GuessIndex, UniqueSsrcs;
    var t := s.streams[Find(s.streams, ssrc)];
    LowDoesNotLap(t, seqNo, r);
    GuessIsPaced(t, seqNo);
    UsedMembership(used, ssrc, GuessIndex(t, seqNo).est);
    if GuessIndex(t, seqNo).status == Ok {
      CheckIsExact(t.db, UsedBy(used, ssrc), GuessIndex(t, seqNo).est);
    }
  }
}
