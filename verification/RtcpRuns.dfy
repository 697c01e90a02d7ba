/** SRTCP indices over any run of a session in one key epoch: those it sends under, and those it accepts. */
module RtcpRuns {
  import opened Octets
  import opened SrtpStatus
  import opened Crypto
  import opened InitVectors
  import opened ReplayWindow
  import opened RtcpReplay
  import opened RtpPacket
  import opened SessionKey
  import opened SessionModel
  import opened SessionInvariants
  import opened RtcpPacket
  import opened RtcpModel
  import opened SessionRuns
  import opened StreamMap

  // ----- The SRTCP database of an SSRC

  function DbOf(streams: seq<StreamState>, ssrc: nat): Option<Rdb> {
    if Find(streams, ssrc) < |streams| then Some(streams[Find(streams, ssrc)].rtcpDb) else None
  }

  lemma DbOfPrepended(t: StreamState, streams: seq<StreamState>, ssrc: nat)
    ensures DbOf([t] + streams, ssrc) == if ssrc == t.ssrc then Some(t.rtcpDb) else DbOf(streams, ssrc)
  {
    FindPrepended(t, streams, ssrc);
  }

  lemma DbOfReplaced(streams: seq<StreamState>, at: nat, t: StreamState, ssrc: nat)
    requires at == Find(streams, t.ssrc) < |streams|
    ensures DbOf(streams[at := t], ssrc) == if ssrc == t.ssrc then Some(t.rtcpDb) else DbOf(streams, ssrc)
  {
    SameSsrcsFind(streams, streams[at := t], ssrc);
  }

  /** What is there stays as it is. */
  ghost predicate DbsKept(before: seq<StreamState>, after: seq<StreamState>) {
    forall ssrc: nat | DbOf(before, ssrc).Some? :: DbOf(after, ssrc) == DbOf(before, ssrc)
  }

  /** Except for one SSRC, whose database is `db` afterwards. */
  ghost predicate DbChanges(before: seq<StreamState>, after: seq<StreamState>, changed: nat, db: Rdb) {
    && DbOf(after, changed) == Some(db)
    && forall ssrc: nat | ssrc != changed && DbOf(before, ssrc).Some? :: DbOf(after, ssrc) == DbOf(before, ssrc)
  }

  lemma PrependKeepsDbs(t: StreamState, streams: seq<StreamState>)
    requires Find(streams, t.ssrc) == |streams|
    ensures DbsKept(streams, [t] + streams)
  {
    hide Find;
    forall ssrc: nat
      ensures DbOf([t] + streams, ssrc) == if ssrc == t.ssrc then Some(t.rtcpDb) else DbOf(streams, ssrc)
    {
      DbOfPrepended(t, streams, ssrc);
    }
  }

  lemma ReplaceChangesDb(streams: seq<StreamState>, at: nat, t: StreamState)
    requires at == Find(streams, t.ssrc) < |streams|
    ensures DbChanges(streams, streams[at := t], t.ssrc, t.rtcpDb)
  {
    hide Find, DbOf;
    DbOfReplaced(streams, at, t, t.ssrc);
    forall ssrc: nat
      ensures DbOf(streams[at := t], ssrc) == if ssrc == t.ssrc then Some(t.rtcpDb) else DbOf(streams, ssrc)
    {
      DbOfReplaced(streams, at, t, ssrc);
    }
  }

  // ----- What each operation does to the databases

  lemma PreparedKeepsDb(s: SessionState, at: nat, seqNo: nat, useMki: bool, mkiIndex: nat)
    requires ValidSession(s) && at < |s.streams| && seqNo < SEQ_MAX
    ensures var u := PrepareOn(s, at, seqNo, useMki, mkiIndex).session.streams;
            && at < |u| && u == s.streams[at := u[at]]
            && u[at].ssrc == s.streams[at].ssrc && u[at].rtcpDb == s.streams[at].rtcpDb
  {
    hide Charge, SelectedSlot, SenderIndex;
    var t := Mark(s.streams[at], Sender);
    assert ValidStream(t, s.limits);
    var gcm := t.keys[SelectedSlot(|t.keys|, useMki, mkiIndex)].rtpCipher.algorithm.Gcm?;
    if SenderIndex(t, seqNo, gcm).Use? {
      SenderIndexKeepsStream(t, seqNo, gcm, s.limits);
    }
  }

  lemma ProtectKeepsDbs(prim: Primitives, s: SessionState, pkt: Octets, useMki: bool, mkiIndex: nat)
    requires ValidSession(s)
    ensures DbsKept(s.streams, Protect(prim, s, pkt, useMki, mkiIndex).session.streams)
  {
    hide PrepareOn, DbOf, Ssrc, Sequence, ValidSession, CsrcEnd, HasExtension, CsrcCount;
    ProtectSession(prim, s, pkt, useMki, mkiIndex);
    if ValidHeader(pkt) && EnsureStream(s, Ssrc(pkt)).Some? {
      HeaderBounds(pkt);
      EnsureStreamKeepsValid(s, Ssrc(pkt));
      var s1 := EnsureStream(s, Ssrc(pkt)).value;
      if s1 != s {
        PrependKeepsDbs(s1.streams[0], s.streams);
      }
      var at := Find(s1.streams, Ssrc(pkt));
      PreparedKeepsDb(s1, at, Sequence(pkt), useMki, mkiIndex);
      var u := PrepareOn(s1, at, Sequence(pkt), useMki, mkiIndex).session.streams;
      ReplaceChangesDb(s1.streams, at, u[at]);
      DbIs(s1.streams, Ssrc(pkt));
    }
  }

  lemma DbIs(streams: seq<StreamState>, ssrc: nat)
    ensures Find(streams, ssrc) < |streams| ==> DbOf(streams, ssrc) == Some(streams[Find(streams, ssrc)].rtcpDb)
    ensures Find(streams, ssrc) == |streams| <==> DbOf(streams, ssrc).None?
  {
  }

  lemma CommitKeepsDbs(s: SessionState, ssrc: nat, guess: Guess, gcm: bool)
    requires CommitAllowed(s, ssrc, guess)
    ensures DbsKept(s.streams, Commit(s, ssrc, guess, gcm).streams)
  {
    hide AddIndex, SetRocSeq, DbOf;
    var at, u := Find(s.streams, ssrc), Commit(s, ssrc, guess, gcm).streams;
    if at < |s.streams| {
      ReplaceChangesDb(s.streams, at, u[at]);
      DbIs(s.streams, ssrc);
    } else {
      PrependKeepsDbs(u[0], s.streams);
    }
  }

  lemma UnprotectKeepsDbs(prim: Primitives, s: SessionState, pkt: Octets, useMki: bool)
    requires ValidSession(s)
    ensures DbsKept(s.streams, Unprotect(prim, s, pkt, useMki).session.streams)
  {
    hide *;
    KeptSelfDbs(s.streams);
    if Unprotect(prim, s, pkt, useMki).status == Ok {
      AcceptedWasChosen(prim, s, pkt, useMki);
      UnprotectUnfold(prim, s, pkt, useMki);
      var c := ChooseReceive(s, pkt, useMki);
      var key := ReceiverStream(s, Ssrc(pkt)).keys[c.slot].limit;
      var s1 := s.(limits := s.limits[key := Charge(s.limits[key]).0]);
      CommitKeepsDbs(s1, Ssrc(pkt), c.guess, UsesGcm(s, pkt, useMki));
    } else if ChooseReceive(s, pkt, useMki).Choose? {
      UnprotectUnfold(prim, s, pkt, useMki);
    } else {
      UnprotectRejects(prim, s, pkt, useMki);
    }
  }

  lemma KeptSelfDbs(streams: seq<StreamState>)
    ensures DbsKept(streams, streams)
  {
  }

  /** The database that sending or receiving for the SSRC starts from. */
  function BaseDb(streams: seq<StreamState>, ssrc: nat): Rdb {
    if DbOf(streams, ssrc).Some? then DbOf(streams, ssrc).value else EmptyRdb()
  }

  lemma SendRtcpDbs(prim: Primitives, s: SessionState, pkt: Octets, useMki: bool, mkiIndex: nat)
    requires ValidSession(s) && |pkt| >= RTCP_HEADER
    ensures var ssrc, r := RtcpSsrc(pkt), ProtectRtcpMki(prim, s, pkt, useMki, mkiIndex);
            var next := IncrementRdb(BaseDb(s.streams, ssrc));
            && (r.status == Ok ==> next.Some? && DbChanges(s.streams, r.session.streams, ssrc, next.value))
            && (r.status != Ok ==> DbsKept(s.streams, r.session.streams))
  {
    hide DbOf, RtcpSsrc, RtcpKeysOf, SelectedSlot, SealRtcp, ValidSession;
    var ssrc := RtcpSsrc(pkt);
    KeptSelfDbs(s.streams);
    DbIs(s.streams, ssrc);
    if WithRtcpStream(s, ssrc).Some? {
      RtcpSsrcRange(pkt);
      WithRtcpStreamKeepsValid(s, ssrc);
      var s1 := WithRtcpStream(s, ssrc).value;
      if s1 != s {
        PrependKeepsDbs(s1.streams[0], s.streams);
      }
      var at := Find(s1.streams, ssrc);
      SendRtcpIs(prim, s1, at, pkt, useMki, mkiIndex);
      SendRtcpDb(prim, s1, at, pkt, useMki, mkiIndex);
      var u := SendRtcp(prim, s1, at, pkt, useMki, mkiIndex).session.streams;
      ReplaceChangesDb(s1.streams, at, u[at]);
      DbIs(s1.streams, ssrc);
    }
  }

  lemma SendRtcpDb(prim: Primitives, s: SessionState, at: nat, pkt: Octets, useMki: bool, mkiIndex: nat)
    requires ValidSession(s) && at < |s.streams| && |pkt| >= RTCP_HEADER
    ensures var r, next := SendRtcp(prim, s, at, pkt, useMki, mkiIndex), IncrementRdb(s.streams[at].rtcpDb);
            && at < |r.session.streams|
            && (r.status == Ok <==> next.Some?)
            && r.session.streams[at].rtcpDb == (if next.Some? then next.value else s.streams[at].rtcpDb)
  {
    hide RtcpKeysOf, SelectedSlot, SealRtcp;
  }

  type SrtcpUse = IndexUse<RtcpKeys>

  /** The keys, source and index a received packet was accepted under. */
  function AcceptedUse(prim: Primitives, s: SessionState, p: Octets, useMki: bool): SrtcpUse
    requires ValidSession(s) && UnprotectRtcpMki(prim, s, p, useMki).status == Ok
  {
    ReceiverStreamValid(s, RtcpSsrc(p));
    var t := ReceiverStream(s, RtcpSsrc(p));
    var slot := ReceiveSlot(t, p, useMki).value;
    var k, mkiSize := RtcpKeysOf(t.keys[slot]), if useMki then |t.keys[slot].mki| else 0;
    AcceptedIndex(prim, k, t.rtcp.conf, t.rtcpDb, p, mkiSize);
    IndexUse(k, RtcpSsrc(p), TrailerIndex(p, TrailerAt(k, |p|, mkiSize)))
  }

  lemma ReceiveRtcpDbs(prim: Primitives, s: SessionState, p: Octets, useMki: bool)
    requires ValidSession(s) && UnprotectRtcpMki(prim, s, p, useMki).status == Ok
    ensures |p| >= RTCP_HEADER
    ensures var ssrc, index := RtcpSsrc(p), AcceptedUse(prim, s, p, useMki).index;
            var base := BaseDb(s.streams, ssrc);
            && ValidRdb(base) && base.start <= index <= MAX_RTCP_INDEX
            && (DbOf(s.streams, ssrc).Some? ==> CheckRdb(base, index) == Ok)
            && DbChanges(s.streams, UnprotectRtcpMki(prim, s, p, useMki).session.streams, ssrc, AddRdb(base, index))
  {
    hide DbOf, RtcpSsrc, RtcpKeysOf, UnprotectRtcp, ReceiveSlot, TrailerIndex, AddRdb, ValidSession, ValidRdb, CheckRdb;
    var ssrc, index := RtcpSsrc(p), AcceptedUse(prim, s, p, useMki).index;
    ReceiverStreamValid(s, ssrc);
    var t := ReceiverStream(s, ssrc);
    var slot := ReceiveSlot(t, p, useMki).value;
    var k, mkiSize := RtcpKeysOf(t.keys[slot]), if useMki then |t.keys[slot].mki| else 0;
    AcceptedIndex(prim, k, t.rtcp.conf, t.rtcpDb, p, mkiSize);
    AcceptedPasses(prim, k, t.rtcp.conf, t.rtcpDb, p, mkiSize);
    DbIs(s.streams, ssrc);
    CommitRtcpDbs(s, ssrc, index);
  }

  lemma AcceptedPasses(prim: Primitives, k: RtcpKeys, conf: bool, db: Rdb, p: Octets, mkiSize: nat)
    requires ValidRdb(db) && UnprotectRtcp(prim, k, conf, db, p, mkiSize).status == Ok
    ensures var at := TrailerAt(k, |p|, mkiSize);
            0 <= at && at + TRAILER <= |p| && CheckRdb(db, TrailerIndex(p, at)) == Ok
  {
    hide CryptRtcp, RtcpTag, EBit, TrailerIndex, AddRdb, CheckRdb;
  }

  lemma CommitRtcpDbs(s: SessionState, ssrc: nat, index: nat)
    requires Find(s.streams, ssrc) < |s.streams| || s.template.Some?
    requires ValidRdb(ReceiverStream(s, ssrc).rtcpDb) && ReceiverStream(s, ssrc).rtcpDb.start <= index <= MAX_RTCP_INDEX
    ensures var base := BaseDb(s.streams, ssrc);
            && ValidRdb(base) && base.start <= index
            && DbChanges(s.streams, CommitRtcp(s, ssrc, index).streams, ssrc, AddRdb(base, index))
  {
    hide AddRdb, DbOf;
    var at, u := Find(s.streams, ssrc), CommitRtcp(s, ssrc, index).streams;
    DbIs(s.streams, ssrc);
    if at < |s.streams| {
      ReplaceChangesDb(s.streams, at, u[at]);
    } else {
      PrependKeepsDbs(u[0], s.streams);
      DbOfPrepended(u[0], s.streams, ssrc);
    }
  }

  lemma SetRocKeepsDbs(s: SessionState, ssrc: nat, roc: nat)
    ensures DbsKept(s.streams, SetRoc(s, ssrc, roc).session.streams)
  {
    hide DbOf;
    var at := Find(s.streams, ssrc);
    KeptSelfDbs(s.streams);
    if at < |s.streams| {
      ReplaceChangesDb(s.streams, at, s.streams[at].(pendingRoc := roc));
      DbIs(s.streams, ssrc);
    }
  }

  /** Everything but sending and accepting SRTCP packets leaves the databases alone. */
  lemma OthersKeepDbs(prim: Primitives, s: SessionState, op: Operation)
    requires KeepsKeys(op)
    requires !op.SendRtcpPacket? && !(op.ReceiveRtcpPacket? && Perform(prim, s, op).status == Ok)
    ensures DbsKept(s.streams, Apply(prim, s, op).streams)
  {
    hide DbsKept, Protect, Unprotect, UnprotectRtcpMki, SetRoc, ValidSession;
    KeptSelfDbs(s.streams);
    if ValidSession(s) {
      if op.SendRtpPacket? {
        ProtectKeepsDbs(prim, s, op.pkt, op.useMki, op.mkiIndex);
      } else if op.ReceiveRtpPacket? {
        UnprotectKeepsDbs(prim, s, op.pkt, op.useMki);
      } else if op.ReceiveRtcpPacket? {
        RefusedRtcpChangesNothing(prim, s, op.pkt, op.useMki);
      } else {
        SetRocKeepsDbs(s, op.ssrc, op.roc % UINT32);
      }
    }
  }

  // ----- Sending

  /** The packet an operation sends. */
  ghost function SentBy(prim: Primitives, s: SessionState, op: Operation): seq<SrtcpUse> {
    if !op.SendRtcpPacket? || Perform(prim, s, op).status != Ok then []
    else
      SentIsListed(prim, s, op.pkt, op.useMki, op.mkiIndex);
      var ssrc := RtcpSsrc(op.pkt);
      var keys := ReceiverStream(s, ssrc).keys;
      [IndexUse(RtcpKeysOf(keys[SelectedSlot(|keys|, op.useMki, op.mkiIndex)]), ssrc,
                IncrementRdb(BaseDb(s.streams, ssrc)).value.start)]
  }

  lemma SentIsListed(prim: Primitives, s: SessionState, pkt: Octets, useMki: bool, mkiIndex: nat)
    requires Perform(prim, s, SendRtcpPacket(pkt, useMki, mkiIndex)).status == Ok
    ensures ValidSession(s) && |pkt| >= RTCP_HEADER
    ensures Find(s.streams, RtcpSsrc(pkt)) < |s.streams| || s.template.Some?
    ensures ReceiverStream(s, RtcpSsrc(pkt)).keys != []
    ensures IncrementRdb(BaseDb(s.streams, RtcpSsrc(pkt))).Some?
    ensures var ssrc := RtcpSsrc(pkt);
            DbChanges(s.streams, Apply(prim, s, SendRtcpPacket(pkt, useMki, mkiIndex)).streams, ssrc,
                      IncrementRdb(BaseDb(s.streams, ssrc)).value)
  {
    hide SendRtcp, RtcpSsrc, BaseDb, DbChanges, IncrementRdb, ValidSession, DbsKept;
    SendRtcpDbs(prim, s, pkt, useMki, mkiIndex);
    ReceiverStreamValid(s, RtcpSsrc(pkt));
  }

  ghost function SentTrace(prim: Primitives, s: SessionState, run: seq<Operation>): seq<SrtcpUse>
    decreases |run|
  {
    if run == [] then [] else SentBy(prim, s, run[0]) + SentTrace(prim, Apply(prim, s, run[0]), run[1..])
  }

  /** The counter of each source is at or past what was sent. */
  ghost predicate Behind(streams: seq<StreamState>, used: set<PacketId>) {
    forall u | u in used :: DbOf(streams, u.ssrc).Some? && u.index <= DbOf(streams, u.ssrc).value.start
  }

  lemma KeptBehind(before: seq<StreamState>, after: seq<StreamState>, used: set<PacketId>)
    requires DbsKept(before, after) && Behind(before, used)
    ensures Behind(after, used)
  {
    hide DbOf;
  }

  lemma ChangedBehind(
    before: seq<StreamState>, after: seq<StreamState>, ssrc: nat, db: Rdb, used: set<PacketId>)
    requires DbChanges(before, after, ssrc, db) && Behind(before, used)
    requires DbOf(before, ssrc).Some? ==> DbOf(before, ssrc).value.start <= db.start
    ensures Behind(after, used) && Behind(after, used + {PacketId(ssrc, db.start)})
  {
    hide DbOf;
  }

  /** What is sent has a new index; receiving never moves a counter back. */
  lemma SendStep(prim: Primitives, s: SessionState, op: Operation, used: set<PacketId>)
    requires KeepsKeys(op) && Behind(s.streams, used)
    ensures var s', sent := Apply(prim, s, op), SentBy(prim, s, op);
            && (sent == [] ==> Behind(s'.streams, used))
            && (sent != [] ==>
                  && sent == [sent[0]] && sent[0].ssrc < UINT32 && sent[0].index <= MAX_RTCP_INDEX
                  && Id(sent[0]) !in used && Behind(s'.streams, used + {Id(sent[0])}))
  {
    hide DbOf, Behind, DbChanges, DbsKept, RtcpSsrc, AddRdb, RtcpKeysOf, SelectedSlot, Perform, ValidSession;
    var s' := Apply(prim, s, op);
    if op.SendRtcpPacket? {
      if Perform(prim, s, op).status == Ok {
        SentIsListed(prim, s, op.pkt, op.useMki, op.mkiIndex);
        RtcpSsrcRange(op.pkt);
        var ssrc := RtcpSsrc(op.pkt);
        var next := IncrementRdb(BaseDb(s.streams, ssrc)).value;
        ChangedBehind(s.streams, s'.streams, ssrc, next, used);
        BehindIs(s.streams, used, PacketId(ssrc, next.start));
      } else {
        UnsentKeepsDbs(prim, s, op);
        KeptBehind(s.streams, s'.streams, used);
      }
    } else if op.ReceiveRtcpPacket? && Perform(prim, s, op).status == Ok {
      AcceptedChanges(prim, s, op.pkt, op.useMki);
      var ssrc, index := RtcpSsrc(op.pkt), AcceptedUse(prim, s, op.pkt, op.useMki).index;
      var base := BaseDb(s.streams, ssrc);
      AddRdbForward(base, index);
      ChangedBehind(s.streams, s'.streams, ssrc, AddRdb(base, index), used);
    } else {
      OthersKeepDbs(prim, s, op);
      KeptBehind(s.streams, s'.streams, used);
    }
  }

  lemma BehindIs(streams: seq<StreamState>, used: set<PacketId>, u: PacketId)
    requires Behind(streams, used)
    ensures u in used ==> DbOf(streams, u.ssrc).Some? && u.index <= DbOf(streams, u.ssrc).value.start
  {
    hide DbOf;
  }

  lemma UnsentKeepsDbs(prim: Primitives, s: SessionState, op: Operation)
    requires op.SendRtcpPacket? && Perform(prim, s, op).status != Ok
    ensures DbsKept(s.streams, Apply(prim, s, op).streams)
  {
    hide DbsKept, DbChanges, SendRtcp, RtcpSsrc, ValidSession;
    KeptSelfDbs(s.streams);
    if ValidSession(s) && |op.pkt| >= RTCP_HEADER {
      SendRtcpDbs(prim, s, op.pkt, op.useMki, op.mkiIndex);
    }
  }

  lemma AcceptedChanges(prim: Primitives, s: SessionState, p: Octets, useMki: bool)
    requires Perform(prim, s, ReceiveRtcpPacket(p, useMki)).status == Ok
    ensures ValidSession(s) && |p| >= RTCP_HEADER && UnprotectRtcpMki(prim, s, p, useMki).status == Ok
    ensures var ssrc, index := RtcpSsrc(p), AcceptedUse(prim, s, p, useMki).index;
            var base := BaseDb(s.streams, ssrc);
            && ValidRdb(base) && base.start <= index <= MAX_RTCP_INDEX
            && (DbOf(s.streams, ssrc).Some? ==> CheckRdb(base, index) == Ok)
            && DbChanges(s.streams, Apply(prim, s, ReceiveRtcpPacket(p, useMki)).streams, ssrc, AddRdb(base, index))
  {
    hide DbChanges, BaseDb, AcceptedUse, AddRdb, UnprotectRtcpMki, RtcpSsrc, ValidSession, DbOf;
    ReceiveRtcpDbs(prim, s, p, useMki);
  }

  lemma AddRdbForward(db: Rdb, index: nat)
    requires ValidRdb(db) && db.start <= index <= MAX_RTCP_INDEX
    ensures db.start <= AddRdb(db, index).start
  {
  }

  /** Over any run, no pair of SSRC and index is sent under twice. */
  lemma {:induction false} SentOnce(prim: Primitives, s: SessionState, used: set<PacketId>, run: seq<Operation>)
    requires Epoch(run) && Behind(s.streams, used)
    ensures Fresh(SentTrace(prim, s, run), used)
    ensures forall u | u in SentTrace(prim, s, run) :: u.ssrc < UINT32 && u.index <= MAX_RTCP_INDEX
    decreases |run|
  {
    hide Epoch, Behind, Apply, SentBy, Fresh, Id;
    if run == [] {
      NothingUsed<RtcpKeys>(used);
    } else {
      var s', sent := Apply(prim, s, run[0]), SentBy(prim, s, run[0]);
      var rest := SentTrace(prim, s', run[1..]);
      EpochStep(run);
      SendStep(prim, s, run[0], used);
      if sent == [] {
        assert sent + rest == rest;
        SentOnce(prim, s', used, run[1..]);
      } else {
        FreshStep(sent[0], rest, used);
        SentOnce(prim, s', used + {Id(sent[0])}, run[1..]);
      }
    }
  }

  /** One cipher whose vectors depend on SSRC and index, and one salt where they depend on it. */
  predicate SameRtcpVectors(k: RtcpKeys, l: RtcpKeys) {
    && k.gcm == l.gcm && k.cipher == l.cipher && (k.gcm || k.cipher.algorithm.Icm?)
    && (k.gcm ==> k.salt == l.salt)
  }

  /** So in what a session sends, over all its streams, no vector occurs twice under one cipher. */
  lemma RtcpVectorsNeverRepeat(prim: Primitives, s: SessionState, run: seq<Operation>, i: nat, j: nat)
    requires Epoch(run) && i < j < |SentTrace(prim, s, run)|
    requires SameRtcpVectors(SentTrace(prim, s, run)[i].keys, SentTrace(prim, s, run)[j].keys)
    ensures var u, v := SentTrace(prim, s, run)[i], SentTrace(prim, s, run)[j];
            RtcpIv(u.keys, u.ssrc, u.index) != RtcpIv(v.keys, v.ssrc, v.index)
  {
    hide SentTrace, Epoch, RtcpIv, SameRtcpVectors;
    SentOnce(prim, s, {}, run);
    var u, v := SentTrace(prim, s, run)[i], SentTrace(prim, s, run)[j];
    SameRtcpIv(u.keys, v.keys, v.ssrc, v.index);
    if RtcpIv(u.keys, u.ssrc, u.index) == RtcpIv(v.keys, v.ssrc, v.index) {
      RtcpIvInjective(u.keys, u.ssrc, u.index, v.ssrc, v.index);
    }
  }

  /** Nor does a keystream block in counter mode, in packets of at most 2^16 blocks. */
  lemma RtcpBlocksNeverRepeat(
    prim: Primitives, s: SessionState, run: seq<Operation>, i: nat, a: nat, j: nat, b: nat)
    requires Epoch(run) && i < j < |SentTrace(prim, s, run)| && a < 0x1_0000 && b < 0x1_0000
    requires var k, l := SentTrace(prim, s, run)[i].keys, SentTrace(prim, s, run)[j].keys;
             SameRtcpVectors(k, l) && !k.gcm
    ensures var u, v := SentTrace(prim, s, run)[i], SentTrace(prim, s, run)[j];
            Value(RtcpIv(u.keys, u.ssrc, u.index)) + a != Value(RtcpIv(v.keys, v.ssrc, v.index)) + b
  {
    hide SentTrace, Epoch, IcmIv, Value;
    SentOnce(prim, s, {}, run);
    var u, v := SentTrace(prim, s, run)[i], SentTrace(prim, s, run)[j];
    if Value(RtcpIv(u.keys, u.ssrc, u.index)) + a == Value(RtcpIv(v.keys, v.ssrc, v.index)) + b {
      BlocksAreDisjoint(u.ssrc, u.index, a, v.ssrc, v.index, b);
    }
  }

  lemma SameRtcpIv(k: RtcpKeys, l: RtcpKeys, ssrc: nat, index: nat)
    requires SameRtcpVectors(k, l)
    ensures RtcpIv(k, ssrc, index) == RtcpIv(l, ssrc, index) && (k.gcm || k.cipher.algorithm.Icm?)
  {
  }

  // ----- Accepting

  ghost function AcceptedBy(prim: Primitives, s: SessionState, op: Operation): seq<SrtcpUse> {
    if !op.ReceiveRtcpPacket? || Perform(prim, s, op).status != Ok then []
    else
      AcceptedChanges(prim, s, op.pkt, op.useMki);
      [AcceptedUse(prim, s, op.pkt, op.useMki)]
  }

  ghost function AcceptedTrace(prim: Primitives, s: SessionState, run: seq<Operation>): seq<SrtcpUse>
    decreases |run|
  {
    if run == [] then [] else AcceptedBy(prim, s, run[0]) + AcceptedTrace(prim, Apply(prim, s, run[0]), run[1..])
  }

  /** The database refuses the index. */
  predicate Refuses(db: Rdb, index: nat) {
    ValidRdb(db) && CheckRdb(db, index) != Ok
  }

  ghost predicate AllRefused(streams: seq<StreamState>, used: set<PacketId>) {
    forall u | u in used :: DbOf(streams, u.ssrc).Some? && Refuses(DbOf(streams, u.ssrc).value, u.index)
  }

  /** Counting up moves the marks along with the start of the window, so a received index stays refused
      if and only if it is at the start or the one before it is marked too. */
  lemma CountingRefusesIff(db: Rdb, index: nat)
    requires Refuses(db, index) && IncrementRdb(db).Some?
    ensures Refuses(IncrementRdb(db).value, index) <==> index <= db.start || MarkedRdb(db, index - 1)
  {
  }

  /** For instance index 5, alone, is accepted again after sending. */
  lemma CountingForgets()
    ensures var db := AddRdb(EmptyRdb(), 5);
            Refuses(db, 5) && CheckRdb(IncrementRdb(db).value, 5) == Ok
  {
  }

  /** The operation is not an SRTCP packet sent for a source whose received indices have gaps. */
  ghost predicate GapFree(streams: seq<StreamState>, used: set<PacketId>, op: Operation) {
    op.SendRtcpPacket? && |op.pkt| >= RTCP_HEADER ==>
      forall u | u in used && u.ssrc == RtcpSsrc(op.pkt) && DbOf(streams, u.ssrc).Some? ::
        var db := DbOf(streams, u.ssrc).value;
        u.index <= db.start || (ValidRdb(db) && MarkedRdb(db, u.index - 1))
  }

  lemma KeptRefused(before: seq<StreamState>, after: seq<StreamState>, used: set<PacketId>)
    requires DbsKept(before, after) && AllRefused(before, used)
    ensures AllRefused(after, used)
  {
    hide DbOf, Refuses;
  }

  lemma AddRdbRefuses(db: Rdb, index: nat, i: nat)
    requires ValidRdb(db) && db.start <= index <= MAX_RTCP_INDEX && (i == index || Refuses(db, i))
    ensures Refuses(AddRdb(db, index), i)
  {
  }

  lemma AcceptedRefused(
    before: seq<StreamState>, after: seq<StreamState>, ssrc: nat, index: nat, used: set<PacketId>)
    requires AllRefused(before, used)
    requires ValidRdb(BaseDb(before, ssrc)) && BaseDb(before, ssrc).start <= index <= MAX_RTCP_INDEX
    requires DbOf(before, ssrc).Some? ==> CheckRdb(BaseDb(before, ssrc), index) == Ok
    requires DbChanges(before, after, ssrc, AddRdb(BaseDb(before, ssrc), index))
    ensures PacketId(ssrc, index) !in used
    ensures AllRefused(after, used + {PacketId(ssrc, index)})
  {
    hide DbOf, AddRdb, CheckRdb, ValidRdb;
    forall u | u in used + {PacketId(ssrc, index)}
      ensures DbOf(after, u.ssrc).Some? && Refuses(DbOf(after, u.ssrc).value, u.index)
    {
      if u.ssrc == ssrc {
        AddRdbRefuses(BaseDb(before, ssrc), index, u.index);
      }
    }
  }

  /** Sending keeps received indices refused exactly if there are no gaps. */
  lemma SentRefusedIff(prim: Primitives, s: SessionState, op: Operation, used: set<PacketId>)
    requires op.SendRtcpPacket? && Perform(prim, s, op).status == Ok && AllRefused(s.streams, used)
    ensures AllRefused(Apply(prim, s, op).streams, used) <==> GapFree(s.streams, used, op)
  {
    hide DbOf, RtcpSsrc, Refuses, Apply, Perform, IncrementRdb, MarkedRdb, ValidSession;
    SentIsListed(prim, s, op.pkt, op.useMki, op.mkiIndex);
    var ssrc, after := RtcpSsrc(op.pkt), Apply(prim, s, op).streams;
    var db := BaseDb(s.streams, ssrc);
    forall u | u in used && u.ssrc == ssrc
      ensures ValidRdb(db) && DbOf(s.streams, ssrc) == Some(db)
      ensures Refuses(IncrementRdb(db).value, u.index) <==> u.index <= db.start || MarkedRdb(db, u.index - 1)
    {
      RefusesValid(db, u.index);
      CountingRefusesIff(db, u.index);
    }
    SentRefused(s.streams, after, ssrc, db, op, used);
  }

  lemma RefusesValid(db: Rdb, index: nat)
    requires Refuses(db, index)
    ensures ValidRdb(db)
  {
  }

  lemma SentRefused(
    before: seq<StreamState>, after: seq<StreamState>, ssrc: nat, db: Rdb, op: Operation, used: set<PacketId>)
    requires op.SendRtcpPacket? && |op.pkt| >= RTCP_HEADER && ssrc == RtcpSsrc(op.pkt)
    requires IncrementRdb(db).Some? && AllRefused(before, used)
    requires DbChanges(before, after, ssrc, IncrementRdb(db).value)
    requires forall u | u in used && u.ssrc == ssrc ::
               && ValidRdb(db) && DbOf(before, ssrc) == Some(db)
               && (Refuses(IncrementRdb(db).value, u.index) <==> u.index <= db.start || MarkedRdb(db, u.index - 1))
    ensures AllRefused(after, used) <==> GapFree(before, used, op)
  {
    hide DbOf, RtcpSsrc, Refuses, IncrementRdb, MarkedRdb;
  }

  /** Every SRTCP packet that is sent meets no gaps. */
  ghost predicate RunGapFree(prim: Primitives, s: SessionState, used: set<PacketId>, run: seq<Operation>)
    decreases |run|
  {
    run != [] ==>
      && (Perform(prim, s, run[0]).status == Ok ==> GapFree(s.streams, used, run[0]))
      && RunGapFree(prim, Apply(prim, s, run[0]),
                    used + set u | u in AcceptedBy(prim, s, run[0]) :: Id(u), run[1..])
  }

  lemma AcceptStep(prim: Primitives, s: SessionState, op: Operation, used: set<PacketId>)
    requires KeepsKeys(op) && AllRefused(s.streams, used)
    requires Perform(prim, s, op).status == Ok ==> GapFree(s.streams, used, op)
    ensures var s', accepted := Apply(prim, s, op), AcceptedBy(prim, s, op);
            && (accepted == [] ==> AllRefused(s'.streams, used))
            && (accepted != [] ==>
                  && accepted == [accepted[0]] && Id(accepted[0]) !in used
                  && AllRefused(s'.streams, used + {Id(accepted[0])}))
  {
    hide DbOf, AllRefused, DbChanges, DbsKept, RtcpSsrc, AddRdb, Perform, ValidSession, GapFree, CheckRdb, ValidRdb;
    var s' := Apply(prim, s, op);
    if op.SendRtcpPacket? {
      if Perform(prim, s, op).status == Ok {
        SentRefusedIff(prim, s, op, used);
      } else {
        UnsentKeepsDbs(prim, s, op);
        KeptRefused(s.streams, s'.streams, used);
      }
    } else if op.ReceiveRtcpPacket? && Perform(prim, s, op).status == Ok {
      AcceptedChanges(prim, s, op.pkt, op.useMki);
      AcceptedRefused(s.streams, s'.streams, RtcpSsrc(op.pkt), AcceptedUse(prim, s, op.pkt, op.useMki).index, used);
    } else {
      OthersKeepDbs(prim, s, op);
      KeptRefused(s.streams, s'.streams, used);
    }
  }

  /** Over any run that sends SRTCP without gaps, in particular one that sends none: whatever arrives, no
      index of a source is accepted twice. */
  lemma {:induction false} RtcpAcceptedOnce(
    prim: Primitives, s: SessionState, used: set<PacketId>, run: seq<Operation>)
    requires Epoch(run) && AllRefused(s.streams, used) && RunGapFree(prim, s, used, run)
    ensures Fresh(AcceptedTrace(prim, s, run), used)
    decreases |run|
  {
    hide Epoch, AllRefused, Apply, AcceptedBy, Fresh, Id, GapFree, Perform;
    if run == [] {
      NothingUsed<RtcpKeys>(used);
    } else {
      var s', accepted := Apply(prim, s, run[0]), AcceptedBy(prim, s, run[0]);
      var rest := AcceptedTrace(prim, s', run[1..]);
      EpochStep(run);
      AcceptStep(prim, s, run[0], used);
      var more := used + set u | u in accepted :: Id(u);
      if accepted == [] {
        assert accepted + rest == rest;
        assert more == used;
        RtcpAcceptedOnce(prim, s', used, run[1..]);
      } else {
        FreshStep(accepted[0], rest, used);
        assert accepted[0] in accepted && (forall u | u in accepted :: u == accepted[0]);
        assert more == used + {Id(accepted[0])};
        RtcpAcceptedOnce(prim, s', used + {Id(accepted[0])}, run[1..]);
      }
    }
  }

  lemma {:induction false} SilentRunIsGapFree(
    prim: Primitives, s: SessionState, used: set<PacketId>, run: seq<Operation>)
    requires forall i | 0 <= i < |run| :: !run[i].SendRtcpPacket?
    ensures RunGapFree(prim, s, used, run)
    decreases |run|
  {
    hide Apply, AcceptedBy, Perform, Id;
    if run != [] {
      SilentRunIsGapFree(prim, Apply(prim, s, run[0]),
                         used + set u | u in AcceptedBy(prim, s, run[0]) :: Id(u), run[1..]);
    }
  }
}
