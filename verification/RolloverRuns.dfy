/** Runs in which a rollover counter at its maximum, or one that stays pending, lets an index be used
    or accepted a second time. */
module RolloverRuns {
  import opened Octets
  import opened SrtpStatus
  import opened Crypto
  import opened ReplayWindow
  import opened RtpPacket
  import opened SessionKey
  import opened SessionModel
  import opened SessionInvariants
  import opened RtcpModel
  import opened SessionRuns
  import opened VectorUniqueness

  const LAST_ROC: nat := 0xffff_ffff
  const LAST_SEQUENCE: nat := 0xffff
  const LAST_INDEX: nat := 0xffff_ffff_ffff

  // ----- Sending

  /** One stream, whose first key has some uses left. */
  ghost predicate OneKey(s: SessionState, uses: nat) {
    && ValidSession(s) && |s.streams| == 1 && ValidStream(s.streams[0], s.limits)
    && uses < s.limits[s.streams[0].keys[0].limit].numLeft < UINT64
  }

  /** One stream outside the authenticated cipher. */
  ghost predicate OneStream(s: SessionState, uses: nat) {
    OneKey(s, uses) && !s.streams[0].keys[0].rtpCipher.algorithm.Gcm?
  }

  lemma SendsAs(prim: Primitives, s: SessionState, uses: nat, pkt: Octets)
    requires 0 < uses && OneStream(s, uses) && ValidHeader(pkt) && Ssrc(pkt) == s.streams[0].ssrc
    requires SenderIndex(Mark(s.streams[0], Sender), Sequence(pkt), false).Use?
    ensures var d, op := SenderIndex(Mark(s.streams[0], Sender), Sequence(pkt), false), SendRtpPacket(pkt, false, 0);
            && Uses(prim, s, op) == [IndexUse(RtpKeysOf(s.streams[0].keys[0]), s.streams[0].ssrc, d.index)]
            && OneStream(Apply(prim, s, op), uses - 1) && Apply(prim, s, op).streams == [d.stream]
            && d.stream.keys == s.streams[0].keys && d.stream.ssrc == s.streams[0].ssrc
  {
    hide SenderIndex, Protect, ValidHeader, Ssrc, Sequence, RtpKeysOf;
    var t := Mark(s.streams[0], Sender);
    HeaderBounds(pkt);
    ProtectSession(prim, s, pkt, false, 0);
    SenderIndexKeepsStream(t, Sequence(pkt), false, s.limits);
    assert Find(s.streams, Ssrc(pkt)) == 0;
  }

  /** Index 0, a jump to the last index there is, and the sequence number of index 0 again. */
  lemma SenderStarts(t: StreamState)
    requires ValidWindow(t.db) && t.db == Empty(|t.db.window|) && t.pendingRoc == 0
    ensures var d := SenderIndex(t, 0, false);
            d.Use? && d.index == 0 && d.stream == t.(db := AddIndex(t.db, 0)) && d.stream.db.index == 0
  {
  }

  lemma SenderJumps(t: StreamState)
    requires ValidWindow(t.db) && t.db.index == 0 && t.pendingRoc == LAST_ROC
    ensures var d := SenderIndex(t, LAST_SEQUENCE, false);
            d.Use? && d.index == LAST_INDEX && d.stream == t.(db := d.stream.db, pendingRoc := 0)
            && d.stream.db.index == LAST_INDEX && ValidWindow(d.stream.db)
  {
    hide LeftShift;
  }

  lemma SenderWraps(t: StreamState)
    requires ValidWindow(t.db) && t.db.index == LAST_INDEX && t.pendingRoc == 0
    ensures var d := SenderIndex(t, 0, false); d.Use? && d.index == 0
  {
    hide LeftShift;
  }

  lemma CounterSet(prim: Primitives, s: SessionState, uses: nat, roc: nat)
    requires OneStream(s, uses) && roc < UINT32
    ensures var t, s' := s.streams[0], Apply(prim, s, SetCounter(s.streams[0].ssrc, roc));
            && Uses(prim, s, SetCounter(t.ssrc, roc)) == []
            && OneStream(s', uses) && s'.streams == [t.(pendingRoc := roc)]
  {
    hide Apply, Uses;
    SetOnOne(prim, s, roc);
  }

  lemma SetOnOne(prim: Primitives, s: SessionState, roc: nat)
    requires ValidSession(s) && |s.streams| == 1 && roc < UINT32
    ensures var t, s' := s.streams[0], Apply(prim, s, SetCounter(s.streams[0].ssrc, roc));
            && Uses(prim, s, SetCounter(t.ssrc, roc)) == []
            && ValidSession(s') && s'.limits == s.limits && s'.streams == [t.(pendingRoc := roc)]
  {
    var t := s.streams[0];
    assert ValidStream(t, s.limits) && Find(s.streams, t.ssrc) == 0;
    assert s.streams[0 := t.(pendingRoc := roc)] == [t.(pendingRoc := roc)];
  }

  /** The sender's packet 0, the last rollover counter, the last sequence number, and packet 0 again. */
  function SendingRun(ssrc: nat, first: Octets, last: Octets): seq<Operation> {
    [SendRtpPacket(first, false, 0), SetCounter(ssrc, LAST_ROC), SendRtpPacket(last, false, 0),
     SendRtpPacket(first, false, 0)]
  }

  /** A run from a new stream that uses index 0, and with it one payload vector, twice. */
  lemma VectorIsSetTwice(prim: Primitives, s: SessionState, first: Octets, last: Octets)
    requires OneStream(s, 3) && NoRepeats(s) && s.streams[0].pendingRoc == 0
    requires s.streams[0].db == Empty(|s.streams[0].db.window|)
    requires ValidHeader(first) && Ssrc(first) == s.streams[0].ssrc && Sequence(first) == 0
    requires ValidHeader(last) && Ssrc(last) == s.streams[0].ssrc && Sequence(last) == LAST_SEQUENCE
    ensures var run := SendingRun(s.streams[0].ssrc, first, last);
            var trace := Trace(prim, s, run);
            && GuardedSession(s, {}) && Epoch(run)
            && |trace| == 3 && trace[0] == trace[2] && trace[0].index == 0 && trace[1].index == LAST_INDEX
            && Vector(trace[0]) == Vector(trace[2]) && !LapFree(prim, s, {}, run)
  {
    hide *;
    OneStreamParts(s, 3);
    var t, run := s.streams[0], SendingRun(s.streams[0].ssrc, first, last);
    NewSessionGuarded(s, 3);
    RunIs(t.ssrc, first, last);
    SenderStarts(Mark(t, Sender)) by { MarkIs(t); }
    SendsAs(prim, s, 3, first);
    var s1 := Apply(prim, s, run[0]);
    CounterSet(prim, s1, 2, LAST_ROC);
    var s2 := Apply(prim, s1, run[1]);
    MarkIs(t);
    MarkIs(s2.streams[0]);
    OneStreamParts(s2, 2);
    SenderJumps(Mark(s2.streams[0], Sender));
    SendsAs(prim, s2, 2, last);
    var s3 := Apply(prim, s2, run[2]);
    MarkIs(s3.streams[0]);
    SenderWraps(Mark(s3.streams[0], Sender));
    SendsAs(prim, s3, 1, first);
    TraceOfFour(prim, s, run);
    TraceIsFresh(prim, s, {}, run);
    NotFresh(Trace(prim, s, run), {});
  }

  lemma MarkIs(t: StreamState)
    ensures var m := Mark(t, Sender); m == t.(direction := m.direction)
  {
  }

  lemma OneStreamParts(s: SessionState, uses: nat)
    requires OneStream(s, uses)
    ensures |s.streams| == 1 && ValidSession(s) && ValidWindow(s.streams[0].db) && s.streams[0].keys != []
    ensures OneKey(s, uses) && !s.streams[0].keys[0].rtpCipher.algorithm.Gcm?
  {
  }

  lemma NewSessionGuarded(s: SessionState, uses: nat)
    requires OneStream(s, uses) && s.streams[0].db == Empty(|s.streams[0].db.window|)
    ensures GuardedSession(s, {})
  {
    assert UsedBy({}, s.streams[0].ssrc) == {};
  }

  lemma RunIs(ssrc: nat, first: Octets, last: Octets)
    ensures var run := SendingRun(ssrc, first, last);
            && run == [SendRtpPacket(first, false, 0), SetCounter(ssrc, LAST_ROC), SendRtpPacket(last, false, 0),
                       SendRtpPacket(first, false, 0)]
            && Epoch(run) && LAST_ROC < UINT32
  {
  }

  lemma TraceOfFour(prim: Primitives, s: SessionState, run: seq<Operation>)
    requires |run| == 4
    ensures var s1 := Apply(prim, s, run[0]);
            var s2 := Apply(prim, s1, run[1]);
            var s3 := Apply(prim, s2, run[2]);
            Trace(prim, s, run)
            == Uses(prim, s, run[0]) + Uses(prim, s1, run[1]) + Uses(prim, s2, run[2]) + Uses(prim, s3, run[3])
  {
    hide Apply, Uses, LapFree;
    var s1 := Apply(prim, s, run[0]);
    var s2 := Apply(prim, s1, run[1]);
    var s3 := Apply(prim, s2, run[2]);
    TraceUnfold(prim, s, {}, run);
    TraceUnfold(prim, s1, {}, run[1..]);
    TraceUnfold(prim, s2, {}, run[2..]);
    TraceUnfold(prim, s3, {}, run[3..]);
    assert run[1..][1..] == run[2..] && run[2..][1..] == run[3..] && run[3..][1..] == [];
    assert Trace(prim, Apply(prim, s3, run[3]), []) == [];
  }

  lemma NotFresh(trace: seq<RtpUse>, used: set<PacketId>)
    requires |trace| == 3 && trace[0] == trace[2]
    ensures !Fresh(trace, used)
  {
    assert Id(trace[0]) == Id(trace[2]);
  }

  // ----- Receiving

  /** A packet sealed under the stream's first key is accepted if the receiver guesses its index. */
  lemma ReceivesAs(prim: Primitives, s: SessionState, uses: nat, pkt: Octets, index: nat)
    requires 0 < uses && OneStream(s, uses) && ValidHeader(pkt) && Ssrc(pkt) == s.streams[0].ssrc
    requires s.streams[0].rtp.auth || s.streams[0].keys[0].rtpAuth.tagLen == 0
    requires var t := s.streams[0]; Seal(prim, RtpKeysOf(t.keys[0]), t.rtp, t.ids, pkt, index, false).status == Ok
    requires var g := ReceiverGuess(s, s.streams[0].ssrc, Sequence(pkt));
             g.est == index && (g.status == Ok || g.status == IndexAdvance)
    ensures var t, g := s.streams[0], ReceiverGuess(s, s.streams[0].ssrc, Sequence(pkt));
            var q := Seal(prim, RtpKeysOf(t.keys[0]), t.rtp, t.ids, pkt, index, false).packet;
            var op := ReceiveRtpPacket(q, false);
            && Perform(prim, s, op).status == Ok && Perform(prim, s, op).packet == pkt
            && Uses(prim, s, op) == [IndexUse(RtpKeysOf(t.keys[0]), t.ssrc, index)]
            && OneStream(Apply(prim, s, op), uses - 1)
            && Received(t, g, Apply(prim, s, op).streams[0])
  {
    hide *;
    OneStreamParts(s, uses);
    HeaderBounds(pkt);
    var t, g := s.streams[0], ReceiverGuess(s, s.streams[0].ssrc, Sequence(pkt));
    var k := RtpKeysOf(t.keys[0]);
    var q := Seal(prim, k, t.rtp, t.ids, pkt, index, false).packet;
    NoMkiSize(k);
    KeysAlgorithm(t.keys[0]);
    OpenSealed(prim, k, t.rtp, t.ids, pkt, index, false);
    HeaderBounds(q);
    ChoosesFirst(s, uses, q);
    ChargesOne(s, uses);
    UnprotectSucceeds(prim, s, q, false, pkt);
    PerformIs(prim, s, q);
    CommitsToOne(s, uses, g);
  }

  lemma NoMkiSize(k: RtpKeys)
    ensures MkiOctets(k, false) == []
  {
  }

  lemma KeysAlgorithm(keys: SessionKeys)
    ensures var k := RtpKeysOf(keys);
            k.cipher.algorithm == keys.rtpCipher.algorithm && k.tagLen == keys.rtpAuth.tagLen
  {
  }

  lemma ChoosesFirst(s: SessionState, uses: nat, q: Octets)
    requires OneKey(s, uses) && ValidHeader(q) && |q| >= RTP_HEADER && Ssrc(q) == s.streams[0].ssrc
    requires var g := ReceiverGuess(s, s.streams[0].ssrc, Sequence(q)); g.status == Ok || g.status == IndexAdvance
    ensures var t, g := s.streams[0], ReceiverGuess(s, s.streams[0].ssrc, Sequence(q));
            && ChooseReceive(s, q, false) == Choose(false, 0, g, 0, 0)
            && Find(s.streams, Ssrc(q)) < |s.streams| && ReceiverStream(s, Ssrc(q)) == t
            && ChosenKeys(s, q, false) == t.keys[0] && t.keys[0].limit in s.limits
            && (UsesGcm(s, q, false) <==> t.keys[0].rtpCipher.algorithm.Gcm?)
            && (Records(s, q, false) <==> !t.keys[0].rtpCipher.algorithm.Gcm? || g.status == Ok)
  {
    hide ReceiverGuess, Ssrc, Sequence, ValidHeader;
    assert Find(s.streams, Ssrc(q)) == 0;
  }

  lemma ChargesOne(s: SessionState, uses: nat)
    requires 0 < uses && OneKey(s, uses)
    ensures var (limit, event) := Charge(s.limits[s.streams[0].keys[0].limit]);
            event != HardLimit && uses - 1 < limit.numLeft < UINT64
  {
  }

  lemma PerformIs(prim: Primitives, s: SessionState, q: Octets)
    requires ValidSession(s)
    ensures Perform(prim, s, ReceiveRtpPacket(q, false)) == Unprotect(prim, s, q, false)
    ensures Apply(prim, s, ReceiveRtpPacket(q, false)) == Unprotect(prim, s, q, false).session
    ensures Uses(prim, s, ReceiveRtpPacket(q, false)) == ReceiveUses(prim, s, q, false)
    ensures Unprotect(prim, s, q, false).status == Ok ==>
              && ChooseReceive(s, q, false).Choose? && |q| >= RTP_HEADER
              && ReceiveUses(prim, s, q, false)
                 == if !Records(s, q, false) then []
                    else [IndexUse(RtpKeysOf(ChosenKeys(s, q, false)), Ssrc(q), ChooseReceive(s, q, false).guess.est)]
  {
    hide ValidSession, Unprotect, ChooseReceive, Records, ChosenKeys, Ssrc, ValidHeader, RtpKeysOf;
    if Unprotect(prim, s, q, false).status == Ok {
      AcceptedWasChosen(prim, s, q, false);
    }
  }

  /** What accepting makes of a stream. */
  predicate Received(t: StreamState, g: Guess, u: StreamState) {
    && u == t.(db := u.db, direction := u.direction, pendingRoc := u.pendingRoc) && ValidWindow(t.db)
    && if g.status == IndexAdvance then u.db == Advance(t, g.est).db && u.pendingRoc == 0
       else |t.db.window| - 1 + g.delta >= 0 && u.db == AddIndex(t.db, g.delta) && u.pendingRoc == t.pendingRoc
  }

  lemma CommitsToOne(s: SessionState, uses: nat, g: Guess)
    requires 0 < uses && OneStream(s, uses)
    requires var key := s.streams[0].keys[0].limit;
             CommitAllowed(s.(limits := s.limits[key := Charge(s.limits[key]).0]), s.streams[0].ssrc, g)
    ensures var t, key := s.streams[0], s.streams[0].keys[0].limit;
            var s' := Commit(s.(limits := s.limits[key := Charge(s.limits[key]).0]), t.ssrc, g, false);
            OneStream(s', uses - 1) && Received(t, g, s'.streams[0])
  {
    hide AddIndex, SetRocSeq;
    var t := s.streams[0];
    SetRocSeqKeepsWindow(t.db, 0);
    assert Find(s.streams, t.ssrc) == 0;
  }

  // ----- Packet 0, the last counter, the last packet, and packet 0 again

  lemma ReceiverStarts(t: StreamState)
    requires ValidWindow(t.db) && t.db == Empty(|t.db.window|) && t.pendingRoc == 0
    ensures GuessIndex(t, 0) == Guess(Ok, 0, 0) && Check(t.db, 0) == Ok && AddIndex(t.db, 0).index == 0
  {
  }

  lemma ReceiverJumps(t: StreamState)
    requires ValidWindow(t.db) && t.db.index == 0 && t.pendingRoc == LAST_ROC
    ensures GuessIndex(t, LAST_SEQUENCE) == Guess(IndexAdvance, LAST_INDEX, 0)
    ensures Advance(t, LAST_INDEX).db.index == LAST_INDEX
  {
    hide LeftShift;
  }

  lemma ReceiverWraps(t: StreamState)
    requires ValidWindow(t.db) && t.db.index == LAST_INDEX && t.pendingRoc == 0
    ensures GuessIndex(t, 0) == Guess(Ok, 0, 1) && Check(t.db, 1) == Ok
  {
  }

  lemma GuessOfOne(s: SessionState, uses: nat, seqNo: nat)
    requires OneKey(s, uses) && seqNo < SEQ_MAX
    ensures var t := s.streams[0];
            && t.pendingRoc < UINT32
            && var g := GuessIndex(t, seqNo);
               ReceiverGuess(s, t.ssrc, seqNo) == if g.status == Ok then g.(status := Check(t.db, g.delta)) else g
  {
    hide GuessIndex, Check;
    assert Find(s.streams, s.streams[0].ssrc) == 0;
  }

  lemma ReceivedIs(t: StreamState, g: Guess, u: StreamState)
    requires Received(t, g, u)
    ensures u.ssrc == t.ssrc && u.keys == t.keys && u.rtp == t.rtp && u.ids == t.ids && ValidWindow(t.db)
    ensures g.status == IndexAdvance ==> u.db == Advance(t, g.est).db && u.pendingRoc == 0
    ensures g.status == Ok ==>
              |t.db.window| - 1 + g.delta >= 0 && u.db == AddIndex(t.db, g.delta) && u.pendingRoc == t.pendingRoc
  {
  }

  function SealedBy(prim: Primitives, t: StreamState, pkt: Octets, index: nat): Result
    requires t.keys != [] && ValidHeader(pkt)
  {
    Seal(prim, RtpKeysOf(t.keys[0]), t.rtp, t.ids, pkt, index, false)
  }

  function ReceivingRun(ssrc: nat, first: Octets, last: Octets): seq<Operation> {
    [ReceiveRtpPacket(first, false), SetCounter(ssrc, LAST_ROC), ReceiveRtpPacket(last, false),
     ReceiveRtpPacket(first, false)]
  }

  lemma ReceivingRunIs(ssrc: nat, first: Octets, last: Octets)
    ensures ReceivingRun(ssrc, first, last)
            == [ReceiveRtpPacket(first, false), SetCounter(ssrc, LAST_ROC), ReceiveRtpPacket(last, false),
                ReceiveRtpPacket(first, false)]
    ensures LAST_ROC < UINT32 && LAST_SEQUENCE < SEQ_MAX
  {
  }

  /** A run from a new stream that accepts the sealed packet of index 0 twice, both times with its
      octets. */
  lemma PacketIsAcceptedTwice(prim: Primitives, s: SessionState, first: Octets, last: Octets)
    requires OneStream(s, 3) && s.streams[0].pendingRoc == 0
    requires s.streams[0].keys != [] && s.streams[0].db == Empty(|s.streams[0].db.window|)
    requires s.streams[0].rtp.auth || s.streams[0].keys[0].rtpAuth.tagLen == 0
    requires ValidHeader(first) && Ssrc(first) == s.streams[0].ssrc && Sequence(first) == 0
    requires ValidHeader(last) && Ssrc(last) == s.streams[0].ssrc && Sequence(last) == LAST_SEQUENCE
    requires SealedBy(prim, s.streams[0], first, 0).status == Ok
    requires SealedBy(prim, s.streams[0], last, LAST_INDEX).status == Ok
    ensures var t := s.streams[0];
            var run := ReceivingRun(t.ssrc, SealedBy(prim, t, first, 0).packet,
                                    SealedBy(prim, t, last, LAST_INDEX).packet);
            var trace := Trace(prim, s, run);
            var s3 := Apply(prim, Apply(prim, Apply(prim, s, run[0]), run[1]), run[2]);
            && GuardedSession(s, {})
            && Perform(prim, s, run[0]).status == Ok && Perform(prim, s, run[0]).packet == first
            && Perform(prim, s3, run[3]).status == Ok && Perform(prim, s3, run[3]).packet == first
            && |trace| == 3 && trace[0] == trace[2] && trace[0].index == 0
  {
    hide *;
    OneStreamParts(s, 3);
    var t := s.streams[0];
    var q0, q1 := SealedBy(prim, t, first, 0).packet, SealedBy(prim, t, last, LAST_INDEX).packet;
    var run := ReceivingRun(t.ssrc, q0, q1);
    ReceivingRunIs(t.ssrc, q0, q1);
    NewSessionGuarded(s, 3);
    SealedByIs(prim, t, first, 0);
    SealedByIs(prim, t, last, LAST_INDEX);
    GuessOfOne(s, 3, 0);
    ReceiverStarts(t);
    ReceivesAs(prim, s, 3, first, 0);
    var s1 := Apply(prim, s, run[0]);
    OneStreamParts(s1, 2);
    ReceivedIs(t, ReceiverGuess(s, t.ssrc, 0), s1.streams[0]);
    CounterSet(prim, s1, 2, LAST_ROC);
    var s2 := Apply(prim, s1, run[1]);
    OneStreamParts(s2, 2);
    var t2 := s2.streams[0];
    GuessOfOne(s2, 2, LAST_SEQUENCE);
    ReceiverJumps(t2);
    ReceivesAs(prim, s2, 2, last, LAST_INDEX);
    var s3 := Apply(prim, s2, run[2]);
    OneStreamParts(s3, 1);
    var t3 := s3.streams[0];
    ReceivedIs(t2, ReceiverGuess(s2, t2.ssrc, LAST_SEQUENCE), t3);
    GuessOfOne(s3, 1, 0);
    ReceiverWraps(t3);
    ReceivesAs(prim, s3, 1, first, 0);
    TraceOfFour(prim, s, run);
  }

  lemma SealedByIs(prim: Primitives, t: StreamState, pkt: Octets, index: nat)
    requires t.keys != [] && ValidHeader(pkt)
    ensures SealedBy(prim, t, pkt, index) == Seal(prim, RtpKeysOf(t.keys[0]), t.rtp, t.ids, pkt, index, false)
  {
    hide Seal, RtpKeysOf, ValidHeader;
  }

  // ----- An index that is never recorded

  /** Receiving at an index ahead of the window without jumping leaves the estimate as it was. */
  lemma AheadCommit(s: SessionState, ssrc: nat, seqNo: nat)
    requires ValidSession(s) && seqNo < SEQ_MAX && ReceiverGuess(s, ssrc, seqNo).status == IndexAdvance
    requires CommitAllowed(s, ssrc, ReceiverGuess(s, ssrc, seqNo))
    ensures Find(s.streams, ssrc) < |s.streams|
    ensures var g, t := ReceiverGuess(s, ssrc, seqNo), ReceiverStream(s, ssrc);
            var s' := Commit(s, ssrc, g, true);
            && ValidSession(s') && s'.limits == s.limits && |s'.streams| == |s.streams|
            && Find(s'.streams, ssrc) == Find(s.streams, ssrc)
            && ValidWindow(t.db)
            && var t' := ReceiverStream(s', ssrc);
               && t'.db == AddIndex(t.db, 0) && t' == t.(db := t'.db, direction := t'.direction)
               && ReceiverGuess(s', ssrc, seqNo) == g
  {
    hide AddIndex, Check, GuessIndex;
    var at, g := Find(s.streams, ssrc), ReceiverGuess(s, ssrc, seqNo);
    var t, s' := s.streams[at], Commit(s, ssrc, g, true);
    CheckNeverAdvances(t.db, g.delta);
    AheadDelta(t, seqNo);
    MarkingKeepsIndex(t.db);
    SameSsrcsFind(s.streams, s'.streams, ssrc);
    SameGuess(t, s'.streams[at], seqNo);
  }

  lemma SameGuess(t: StreamState, u: StreamState, s: nat)
    requires s < SEQ_MAX && t.pendingRoc == u.pendingRoc < UINT32 && t.db.index == u.db.index
    ensures GuessIndex(t, s) == GuessIndex(u, s)
  {
  }

  lemma AheadDelta(t: StreamState, s: nat)
    requires s < SEQ_MAX && t.pendingRoc < UINT32 && GuessIndex(t, s).status == IndexAdvance
    ensures GuessIndex(t, s).delta == 0 && t.pendingRoc != 0
  {
  }

  lemma MarkingKeepsIndex(db: Rdbx)
    requires ValidWindow(db)
    ensures AddIndex(db, 0).index == db.index && ValidWindow(AddIndex(db, 0))
  {
  }

  lemma SameChoice(s: SessionState, s': SessionState, pkt: Octets, useMki: bool)
    requires ValidSession(s) && ValidSession(s') && ChooseReceive(s, pkt, useMki).Choose? && |pkt| >= RTP_HEADER
    requires Find(s'.streams, Ssrc(pkt)) == Find(s.streams, Ssrc(pkt)) < |s.streams| == |s'.streams|
    requires ReceiverGuess(s', Ssrc(pkt), Sequence(pkt)) == ReceiverGuess(s, Ssrc(pkt), Sequence(pkt))
    requires ReceiverStream(s', Ssrc(pkt)).keys == ReceiverStream(s, Ssrc(pkt)).keys
    ensures ChooseReceive(s', pkt, useMki) == ChooseReceive(s, pkt, useMki)
    ensures ChosenKeys(s', pkt, useMki) == ChosenKeys(s, pkt, useMki)
    ensures Records(s', pkt, useMki) == Records(s, pkt, useMki)
    ensures UsesGcm(s', pkt, useMki) == UsesGcm(s, pkt, useMki)
  {
    hide ReceiverGuess, FindSlot, RtpKeysOfAll, ValidHeader, Ssrc, Sequence, Find;
  }

  lemma UnrecordedIs(s: SessionState, pkt: Octets, useMki: bool)
    requires ValidSession(s) && ChooseReceive(s, pkt, useMki).Choose? && !Records(s, pkt, useMki)
    ensures |pkt| >= RTP_HEADER && ValidHeader(pkt)
    ensures UsesGcm(s, pkt, useMki) && ReceiverGuess(s, Ssrc(pkt), Sequence(pkt)).status == IndexAdvance
    ensures ChooseReceive(s, pkt, useMki).guess == ReceiverGuess(s, Ssrc(pkt), Sequence(pkt))
    ensures ChosenKeys(s, pkt, useMki).limit in s.limits
    ensures Find(s.streams, Ssrc(pkt)) < |s.streams| || s.template.Some?
    ensures ChooseReceive(s, pkt, useMki).slot < |ReceiverStream(s, Ssrc(pkt)).keys|
    ensures ChosenKeys(s, pkt, useMki) == ReceiverStream(s, Ssrc(pkt)).keys[ChooseReceive(s, pkt, useMki).slot]
  {
    hide ReceiverGuess, ChooseReceive, ValidSession, Ssrc, Sequence;
    ChooseReceiveFacts(s, pkt, useMki);
    HeaderBounds(pkt);
  }

  /** The packet is accepted and its index is not recorded. */
  ghost predicate AcceptedUnrecorded(prim: Primitives, s: SessionState, pkt: Octets, useMki: bool) {
    && ValidSession(s) && Unprotect(prim, s, pkt, useMki).status == Ok
    && ChooseReceive(s, pkt, useMki).Choose? && !Records(s, pkt, useMki)
  }

  lemma AcceptedUnrecordedIs(prim: Primitives, s: SessionState, pkt: Octets, useMki: bool)
    ensures AcceptedUnrecorded(prim, s, pkt, useMki)
            <==> && ValidSession(s) && Unprotect(prim, s, pkt, useMki).status == Ok
                 && ChooseReceive(s, pkt, useMki).Choose? && !Records(s, pkt, useMki)
  {
    hide ValidSession, Unprotect, ChooseReceive, Records;
  }

  /** Under the authenticated cipher an index ahead of the window, from a pending counter, is accepted
      without being recorded, so the packet is accepted again - as long as the key is not at its limit. */
  lemma AcceptedAgain(prim: Primitives, s: SessionState, pkt: Octets, useMki: bool)
    requires ValidSession(s) && AcceptedUnrecorded(prim, s, pkt, useMki)
    ensures ChooseReceive(s, pkt, useMki).Choose?
    ensures var r, key := Unprotect(prim, s, pkt, useMki), ChosenKeys(s, pkt, useMki).limit;
            && ValidSession(r.session) && ChooseReceive(r.session, pkt, useMki) == ChooseReceive(s, pkt, useMki)
            && ChosenKeys(r.session, pkt, useMki) == ChosenKeys(s, pkt, useMki)
            && key in s.limits && key in r.session.limits && r.session.limits[key] == Charge(s.limits[key]).0
            && (Charge(r.session.limits[key]).1 != HardLimit ==>
                  AcceptedUnrecorded(prim, r.session, pkt, useMki)
                  && Unprotect(prim, r.session, pkt, useMki).packet == r.packet)
  {
    hide *;
    AcceptedUnrecordedIs(prim, s, pkt, useMki);
    UnrecordedIs(s, pkt, useMki);
    UnprotectUnfold(prim, s, pkt, useMki);
    var r, key := Unprotect(prim, s, pkt, useMki), ChosenKeys(s, pkt, useMki).limit;
    var s1 := s.(limits := s.limits[key := Charge(s.limits[key]).0]);
    LimitsKeepValid(s, key, Charge(s.limits[key]).0);
    GuessIgnoresLimits(s, s1, Ssrc(pkt), Sequence(pkt));
    AheadCommit(s1, Ssrc(pkt), Sequence(pkt));
    SameChoice(s, r.session, pkt, useMki);
    AcceptedUnrecordedIs(prim, r.session, pkt, useMki);
    if Charge(r.session.limits[key]).1 != HardLimit {
      UnprotectSucceeds(prim, r.session, pkt, useMki, r.packet);
    }
  }

  lemma LimitsKeepValid(s: SessionState, key: KeyLimit, limit: Limit)
    requires ValidSession(s)
    ensures ValidSession(s.(limits := s.limits[key := limit]))
  {
  }

  /** So it is accepted any number of times. */
  lemma {:induction false} AcceptedForever(prim: Primitives, s: SessionState, pkt: Octets, useMki: bool, n: nat)
    requires ValidSession(s) && AcceptedUnrecorded(prim, s, pkt, useMki)
    requires ChooseReceive(s, pkt, useMki).Choose? && ChosenKeys(s, pkt, useMki).limit in s.limits
    requires n + 2 < s.limits[ChosenKeys(s, pkt, useMki).limit].numLeft < UINT64
    ensures var s' := AfterRun(prim, s, seq(n, _ => ReceiveRtpPacket(pkt, useMki)));
            && AcceptedUnrecorded(prim, s', pkt, useMki) && ValidSession(s')
            && Unprotect(prim, s', pkt, useMki).packet == Unprotect(prim, s, pkt, useMki).packet
    decreases n
  {
    hide *;
    RepeatedRun(prim, s, ReceiveRtpPacket(pkt, useMki), n);
    if n > 0 {
      var r, key := Unprotect(prim, s, pkt, useMki), ChosenKeys(s, pkt, useMki).limit;
      ReceivePerforms(prim, s, pkt, useMki);
      AcceptedAgain(prim, s, pkt, useMki);
      ChargedTwice(s.limits[key]);
      AcceptedUnrecordedIs(prim, r.session, pkt, useMki);
      AcceptedForever(prim, r.session, pkt, useMki, n - 1);
    }
  }

  lemma ChargedTwice(limit: Limit)
    requires 2 < limit.numLeft < UINT64
    ensures Charge(Charge(limit).0).1 != HardLimit && Charge(limit).0.numLeft == limit.numLeft - 1
  {
  }

  lemma ReceivePerforms(prim: Primitives, s: SessionState, pkt: Octets, useMki: bool)
    requires ValidSession(s)
    ensures Apply(prim, s, ReceiveRtpPacket(pkt, useMki)) == Unprotect(prim, s, pkt, useMki).session
  {
    hide ValidSession, Unprotect;
  }

  lemma RepeatedRun(prim: Primitives, s: SessionState, op: Operation, n: nat)
    ensures n == 0 ==> AfterRun(prim, s, seq(n, _ => op)) == s
    ensures n > 0 ==> AfterRun(prim, s, seq(n, _ => op)) == AfterRun(prim, Apply(prim, s, op), seq(n - 1, _ => op))
  {
    hide Apply;
    if n > 0 {
      var run := seq(n, _ => op);
      assert run[1..] == seq(n - 1, _ => op);
    }
  }

  /** The stream's sealed packets with a sequence number that the pending counter puts more than half a
      sequence space ahead. */
  predicate SealedAhead(prim: Primitives, t: StreamState, pkt: Octets, index: nat) {
    && t.keys != [] && t.keys[0].rtpCipher.algorithm.Gcm? && 0 < t.pendingRoc < UINT32
    && ValidHeader(pkt) && Ssrc(pkt) == t.ssrc
    && index == t.pendingRoc * SEQ_MAX + Sequence(pkt) > t.db.index + MEDIAN
    && SealedBy(prim, t, pkt, index).status == Ok
  }

  /** They are accepted without being recorded. */
  lemma AheadIsAccepted(prim: Primitives, s: SessionState, uses: nat, pkt: Octets, index: nat)
    requires 0 < uses && OneKey(s, uses) && SealedAhead(prim, s.streams[0], pkt, index)
    ensures var q := SealedBy(prim, s.streams[0], pkt, index).packet;
            AcceptedUnrecorded(prim, s, q, false) && Unprotect(prim, s, q, false).packet == pkt
  {
    hide *;
    OneKeyParts(s, uses);
    var t := s.streams[0];
    SealedAheadParts(prim, t, pkt, index);
    HeaderBounds(pkt);
    PendingGuess(t, Sequence(pkt));
    GuessOfOne(s, uses, Sequence(pkt));
    SealedByIs(prim, t, pkt, index);
    var k := RtpKeysOf(t.keys[0]);
    var q := SealedBy(prim, t, pkt, index).packet;
    NoMkiSize(k);
    KeysAlgorithm(t.keys[0]);
    OpenSealed(prim, k, t.rtp, t.ids, pkt, index, false);
    HeaderBounds(q);
    ChoosesFirst(s, uses, q);
    ChargesOne(s, uses);
    UnprotectSucceeds(prim, s, q, false, pkt);
    AcceptedUnrecordedIs(prim, s, q, false);
  }

  lemma SealedAheadParts(prim: Primitives, t: StreamState, pkt: Octets, index: nat)
    requires SealedAhead(prim, t, pkt, index)
    ensures t.keys != [] && t.keys[0].rtpCipher.algorithm.Gcm? && 0 < t.pendingRoc < UINT32
    ensures ValidHeader(pkt) && |pkt| >= RTP_HEADER && Ssrc(pkt) == t.ssrc
    ensures index == t.pendingRoc * SEQ_MAX + Sequence(pkt) > t.db.index + MEDIAN
    ensures SealedBy(prim, t, pkt, index).status == Ok
  {
    hide SealedBy;
  }

  lemma OneKeyParts(s: SessionState, uses: nat)
    requires OneKey(s, uses)
    ensures |s.streams| == 1 && ValidSession(s)
  {
  }

  lemma PendingGuess(t: StreamState, s: nat)
    requires s < SEQ_MAX && 0 < t.pendingRoc < UINT32 && t.pendingRoc * SEQ_MAX + s > t.db.index + MEDIAN
    ensures GuessIndex(t, s) == Guess(IndexAdvance, t.pendingRoc * SEQ_MAX + s, 0)
  {
  }

  /** Without a header extension nothing keeps a packet from being sealed. */
  lemma SealsWithoutExtension(prim: Primitives, t: StreamState, pkt: Octets, index: nat)
    requires t.keys != [] && ValidHeader(pkt) && !HasExtension(pkt)
    ensures SealedBy(prim, t, pkt, index).status == Ok
  {
    hide ValidHeader, CryptPayload, KeystreamOf, EncStart;
  }

  // ----- An index that is refused though nobody sent it

  /** What the stream looks like after such a packet: the current index is marked, whatever it is. */
  lemma UnrecordedMarks(prim: Primitives, s: SessionState, pkt: Octets, useMki: bool)
    requires ValidSession(s) && AcceptedUnrecorded(prim, s, pkt, useMki)
    ensures |pkt| >= RTP_HEADER && Find(s.streams, Ssrc(pkt)) < |s.streams|
    ensures var s' := Unprotect(prim, s, pkt, useMki).session;
            && ValidSession(s') && |s'.streams| == |s.streams|
            && Find(s'.streams, Ssrc(pkt)) == Find(s.streams, Ssrc(pkt))
            && var t, u := ReceiverStream(s, Ssrc(pkt)), ReceiverStream(s', Ssrc(pkt));
               ValidWindow(t.db) && u == t.(db := AddIndex(t.db, 0), direction := u.direction)
  {
    hide *;
    AcceptedUnrecordedIs(prim, s, pkt, useMki);
    UnrecordedIs(s, pkt, useMki);
    UnprotectUnfold(prim, s, pkt, useMki);
    var key := ChosenKeys(s, pkt, useMki).limit;
    var s1 := s.(limits := s.limits[key := Charge(s.limits[key]).0]);
    LimitsKeepValid(s, key, Charge(s.limits[key]).0);
    GuessIgnoresLimits(s, s1, Ssrc(pkt), Sequence(pkt));
    AheadCommit(s1, Ssrc(pkt), Sequence(pkt));
  }

  function FalseReplayRun(ssrc: nat, q: Octets): seq<Operation> {
    [SetCounter(ssrc, 1), ReceiveRtpPacket(q, false), SetCounter(ssrc, 0)]
  }

  /** A new stream under the authenticated cipher accepts a packet under a pending counter. Nothing is
      recorded, but index 0 is marked: with the counter taken back, every packet with sequence number 0 is
      refused as a replay. */
  lemma UnsentIndexIsRefused(prim: Primitives, s: SessionState, pkt: Octets, p: Octets, useMki: bool)
    requires OneKey(s, 1) && s.streams[0].keys != [] && s.streams[0].keys[0].rtpCipher.algorithm.Gcm?
    requires s.streams[0].db == Empty(|s.streams[0].db.window|)
    requires ValidHeader(pkt) && Ssrc(pkt) == s.streams[0].ssrc && !HasExtension(pkt)
    requires ValidHeader(p) && Ssrc(p) == s.streams[0].ssrc && Sequence(p) == 0
    ensures var run := FalseReplayRun(s.streams[0].ssrc,
                                      SealedBy(prim, s.streams[0], pkt, SEQ_MAX + Sequence(pkt)).packet);
            var s' := AfterRun(prim, s, run);
            && Trace(prim, s, run) == [] && ValidSession(s')
            && Unprotect(prim, s', p, useMki).status == ReplayFail
  {
    hide *;
    OneKeyParts(s, 1);
    HeaderBounds(pkt);
    HeaderBounds(p);
    var t, index := s.streams[0], SEQ_MAX + Sequence(pkt);
    EmptyIs(|t.db.window|);
    CounterSetOne(prim, s, 1);
    var s1 := Apply(prim, s, SetCounter(t.ssrc, 1));
    var t1 := s1.streams[0];
    SealsWithoutExtension(prim, t1, pkt, index);
    SealedAheadFrom(prim, t1, pkt, index);
    SealedByIs(prim, t, pkt, index);
    SealedByIs(prim, t1, pkt, index);
    AheadIsAccepted(prim, s1, 1, pkt, index);
    var q := SealedBy(prim, t, pkt, index).packet;
    OneKeyParts(s1, 1);
    AcceptedUnrecordedIs(prim, s1, q, false);
    OpenedSameSsrc(prim, t1, pkt, index);
    UnrecordedMarks(prim, s1, q, false);
    PerformIs(prim, s1, q);
    var s2 := Apply(prim, s1, ReceiveRtpPacket(q, false));
    OnlyOne(s1, t.ssrc);
    OnlyOne(s2, t.ssrc);
    SetOnOne(prim, s2, 0);
    var s3 := Apply(prim, s2, SetCounter(t.ssrc, 0));
    RefusedAtZero(s3, |t.db.window|, p, useMki);
    UnprotectRejects(prim, s3, p, useMki);
    FalseReplayRunIs(prim, s, t.ssrc, q);
  }

  lemma CounterSetOne(prim: Primitives, s: SessionState, roc: nat)
    requires OneKey(s, 1) && roc < UINT32
    ensures |s.streams| == 1
    ensures var t, s' := s.streams[0], Apply(prim, s, SetCounter(s.streams[0].ssrc, roc));
            && Uses(prim, s, SetCounter(t.ssrc, roc)) == []
            && OneKey(s', 1) && s'.streams == [t.(pendingRoc := roc)] && ValidWindow(t.db)
  {
    hide Apply, Uses;
    SetOnOne(prim, s, roc);
  }

  lemma SealedAheadFrom(prim: Primitives, t: StreamState, pkt: Octets, index: nat)
    requires t.keys != [] && t.keys[0].rtpCipher.algorithm.Gcm? && t.pendingRoc == 1 && t.db.index == 0
    requires ValidHeader(pkt) && Ssrc(pkt) == t.ssrc && index == SEQ_MAX + Sequence(pkt)
    requires SealedBy(prim, t, pkt, index).status == Ok
    ensures SealedAhead(prim, t, pkt, index)
  {
    hide SealedBy, Ssrc, Sequence;
  }

  lemma EmptyIs(size: nat)
    ensures Empty(size).index == 0 && SEQ_MAX == 0x1_0000 && 1 < UINT32
  {
  }

  lemma OpenedSameSsrc(prim: Primitives, t: StreamState, pkt: Octets, index: nat)
    requires t.keys != [] && t.keys[0].rtpCipher.algorithm.Gcm? && ValidHeader(pkt)
    requires SealedBy(prim, t, pkt, index).status == Ok
    ensures var q := SealedBy(prim, t, pkt, index).packet;
            |q| >= RTP_HEADER && |pkt| >= RTP_HEADER && Ssrc(q) == Ssrc(pkt)
  {
    hide *;
    HeaderBounds(pkt);
    SealedByIs(prim, t, pkt, index);
    KeysAlgorithm(t.keys[0]);
    OpenSealed(prim, RtpKeysOf(t.keys[0]), t.rtp, t.ids, pkt, index, false);
    HeaderBounds(SealedBy(prim, t, pkt, index).packet);
  }

  lemma OnlyOne(s: SessionState, ssrc: nat)
    requires |s.streams| == 1 && Find(s.streams, ssrc) < |s.streams|
    ensures ReceiverStream(s, ssrc) == s.streams[0] && s.streams[0].ssrc == ssrc
  {
  }

  lemma RefusedAtZero(s: SessionState, size: nat, p: Octets, useMki: bool)
    requires ValidSession(s) && |s.streams| == 1 && s.streams[0].pendingRoc == 0
    requires ValidWindow(Empty(size)) && s.streams[0].db == AddIndex(Empty(size), 0)
    requires ValidHeader(p) && |p| >= RTP_HEADER && Ssrc(p) == s.streams[0].ssrc && Sequence(p) == 0
    ensures ChooseReceive(s, p, useMki) == Reject(ReplayFail)
  {
    hide ValidHeader, Ssrc, Sequence, ValidSession;
    assert Find(s.streams, Ssrc(p)) == 0;
  }

  lemma FalseReplayRunIs(prim: Primitives, s: SessionState, ssrc: nat, q: Octets)
    ensures var run := FalseReplayRun(ssrc, q);
            var s1 := Apply(prim, s, SetCounter(ssrc, 1));
            var s2 := Apply(prim, s1, ReceiveRtpPacket(q, false));
            && AfterRun(prim, s, run) == Apply(prim, s2, SetCounter(ssrc, 0))
            && Trace(prim, s, run)
               == Uses(prim, s, SetCounter(ssrc, 1)) + Uses(prim, s1, ReceiveRtpPacket(q, false))
                  + Uses(prim, s2, SetCounter(ssrc, 0))
  {
    hide Apply, Uses, LapFree;
    var run := FalseReplayRun(ssrc, q);
    var s1 := Apply(prim, s, run[0]);
    var s2 := Apply(prim, s1, run[1]);
    TraceUnfold(prim, s, {}, run);
    TraceUnfold(prim, s1, {}, run[1..]);
    TraceUnfold(prim, s2, {}, run[2..]);
    assert run[1..][1..] == run[2..] && run[2..][1..] == [];
    assert Trace(prim, Apply(prim, s2, run[2]), []) == [];
    assert AfterRun(prim, s, run) == AfterRun(prim, s1, run[1..]) == AfterRun(prim, s2, run[2..])
        == AfterRun(prim, Apply(prim, s2, run[2]), []);
  }
}
