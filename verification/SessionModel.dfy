/** The session state as a value, and what protecting and unprotecting an RTP packet does to it. */
module SessionModel {
  import opened Octets
  import opened SrtpStatus
  import opened Crypto
  import opened ReplayWindow
  import opened IndexEstimate
  import opened RtcpReplay
  import opened RtpPacket
  import opened SessionKey

  datatype Direction = Unknown | Sender | Receiver

  datatype StreamState = StreamState(
    ssrc: nat,
    keys: seq<SessionKeys>,
    db: Rdbx,
    rtcpDb: Rdb,
    rtp: Services,
    rtcp: Services,
    direction: Direction,
    allowRepeatTx: bool,
    ids: seq<int>,
    pendingRoc: nat)

  /** The stream list in order, the template, and the usage limits of the session's keys. */
  datatype SessionState = SessionState(
    streams: seq<StreamState>, template: Option<StreamState>, limits: map<KeyLimit, Limit>)

  ghost predicate ValidStream(t: StreamState, limits: map<KeyLimit, Limit>) {
    && t.ssrc < UINT32 && t.pendingRoc < UINT32
    && t.keys != []
    && ValidWindow(t.db) && ValidRdb(t.rtcpDb)
    && forall i | 0 <= i < |t.keys| :: t.keys[i].limit in limits
  }

  ghost predicate ValidSession(s: SessionState) {
    && (forall i | 0 <= i < |s.streams| :: ValidStream(s.streams[i], s.limits))
    && (s.template.Some? ==> ValidStream(s.template.value, s.limits))
  }

  /** The list position of the first stream with the given SSRC; the length if there is none. */
  function Find(streams: seq<StreamState>, ssrc: nat): (r: nat)
    ensures r <= |streams|
    ensures r < |streams| ==> streams[r].ssrc == ssrc
    ensures forall i :: 0 <= i < r ==> streams[i].ssrc != ssrc
  {
    if streams == [] || streams[0].ssrc == ssrc then 0 else 1 + Find(streams[1..], ssrc)
  }

  predicate UniqueSsrcs(streams: seq<StreamState>) {
    forall i, j | 0 <= i < j < |streams| :: streams[i].ssrc != streams[j].ssrc
  }

  /** A stream on the template's keys, with fresh replay databases. */
  function Clone(template: StreamState, ssrc: nat): StreamState {
    template.(ssrc := ssrc, db := Empty(|template.db.window|), rtcpDb := EmptyRdb(), pendingRoc := 0)
  }

  // ----- Packet indices

  datatype Guess = Guess(status: Status, est: nat, delta: int)

  function GuessIndex(t: StreamState, s: nat): Guess
    requires s < SEQ_MAX && t.pendingRoc < UINT32
  {
    if t.pendingRoc != 0 then
      var e := EstimateWithRoc(t.db.index, t.pendingRoc, s);
      Guess(e.status, e.est, e.delta)
    else
      var e := EstimateIndex(t.db, s);
      Guess(Ok, e.est, e.delta)
  }

  /** Jumping to an index ahead of the window; this is what consumes a pending rollover counter. */
  function Advance(t: StreamState, est: nat): StreamState
    requires ValidWindow(t.db)
  {
    t.(db := AddIndex(SetRocSeq(t.db, est / SEQ_MAX, est % SEQ_MAX).db, 0), pendingRoc := 0)
  }

  datatype IndexDecision = Refuse(status: Status) | Use(index: nat, stream: StreamState)

  /** The sender's index for a sequence number, and the stream that has recorded it. The
      authenticated cipher ignores a pending rollover counter and does not mark a repetition. */
  function SenderIndex(t: StreamState, s: nat, gcm: bool): IndexDecision
    requires s < SEQ_MAX && t.pendingRoc < UINT32 && ValidWindow(t.db)
  {
    var g := if gcm then GuessIndex(t.(pendingRoc := 0), s) else GuessIndex(t, s);
    if g.status == IndexAdvance then Use(g.est, Advance(t, g.est))
    else if g.status != Ok then Refuse(g.status)
    else
      var check := Check(t.db, g.delta);
      if check == Ok then Use(g.est, t.(db := AddIndex(t.db, g.delta)))
      else if check == ReplayFail && t.allowRepeatTx then
        Use(g.est, if gcm then t else t.(db := AddIndex(t.db, g.delta)))
      else Refuse(check)
  }

  // ----- Protect

  /** Everything before the packet is touched: where the stream is, which key slot and index. */
  datatype Prepared =
    | Refused(session: SessionState, status: Status)
    | Ready(session: SessionState, at: nat, slot: nat, index: nat)

  function WithStream(s: SessionState, at: nat, t: StreamState): SessionState
    requires at < |s.streams|
  {
    s.(streams := s.streams[at := t])
  }

  function Mark(t: StreamState, d: Direction): StreamState {
    if t.direction == Unknown then t.(direction := d) else t
  }

  /** The session with a stream for the SSRC, cloned at the head if need be; None without template. */
  function EnsureStream(s: SessionState, ssrc: nat): Option<SessionState> {
    if Find(s.streams, ssrc) < |s.streams| then Some(s)
    else if s.template.Some? then
      Some(s.(streams := [Clone(s.template.value, ssrc).(direction := Sender)] + s.streams))
    else None
  }

  lemma EnsureStreamKeepsValid(s: SessionState, ssrc: nat)
    requires ValidSession(s) && ssrc < UINT32 && EnsureStream(s, ssrc).Some?
    ensures var s' := EnsureStream(s, ssrc).value;
            ValidSession(s') && Find(s'.streams, ssrc) < |s'.streams|
  {
    var s' := EnsureStream(s, ssrc).value;
    forall i | 0 <= i < |s'.streams|
      ensures ValidStream(s'.streams[i], s'.limits)
    {
      if s' != s {
        assert i > 0 ==> s'.streams[i] == s.streams[i - 1];
      }
    }
  }

  function PrepareSend(s: SessionState, pkt: Octets, useMki: bool, mkiIndex: nat): Prepared
    requires ValidSession(s)
  {
    if !ValidHeader(pkt) then Refused(s, BadParam)
    else
      match EnsureStream(s, Ssrc(pkt))
      case None => Refused(s, NoCtx)
      case Some(s1) =>
        EnsureStreamKeepsValid(s, Ssrc(pkt));
        PrepareOn(s1, Find(s1.streams, Ssrc(pkt)), Sequence(pkt), useMki, mkiIndex)
  }

  function PrepareOn(s: SessionState, at: nat, seqNo: nat, useMki: bool, mkiIndex: nat): Prepared
    requires ValidSession(s) && at < |s.streams| && seqNo < SEQ_MAX
  {
    var t := Mark(s.streams[at], Sender);
    var slot := SelectedSlot(|t.keys|, useMki, mkiIndex);
    var (limit, event) := Charge(s.limits[t.keys[slot].limit]);
    var s1 := WithStream(s, at, t).(limits := s.limits[t.keys[slot].limit := limit]);
    if event == HardLimit then Refused(s1, KeyExpired)
    else
      match SenderIndex(t, seqNo, t.keys[slot].rtpCipher.algorithm.Gcm?)
      case Refuse(status) => Refused(s1, status)
      case Use(index, t') => Ready(WithStream(s1, at, t'), at, slot, index)
  }

  /** The result of a call; `packet` is meaningful only with status Ok. */
  datatype Outcome = Outcome(session: SessionState, status: Status, packet: Octets)

  function Protect(prim: Primitives, s: SessionState, pkt: Octets, useMki: bool, mkiIndex: nat): Outcome
    requires ValidSession(s)
  {
    match PrepareSend(s, pkt, useMki, mkiIndex)
    case Refused(s', status) => Outcome(s', status, [])
    case Ready(s', at, slot, index) =>
      PrepareSendReady(s, pkt, useMki, mkiIndex);
      var t := s'.streams[at];
      var r := Seal(prim, RtpKeysOf(t.keys[slot]), t.rtp, t.ids, pkt, index, useMki);
      Outcome(s', r.status, r.packet)
  }

  lemma PrepareSendReady(s: SessionState, pkt: Octets, useMki: bool, mkiIndex: nat)
    requires ValidSession(s) && PrepareSend(s, pkt, useMki, mkiIndex).Ready?
    ensures var p := PrepareSend(s, pkt, useMki, mkiIndex);
            && ValidHeader(pkt) && p.at < |p.session.streams| && p.slot < |p.session.streams[p.at].keys|
  {
  }

  // ----- Unprotect

  /** The receiver's choice: a listed stream or, provisionally, the template; an index; a key slot. */
  datatype Choice =
    | Reject(status: Status)
    | Choose(provisional: bool, at: nat, guess: Guess, slot: nat, mkiSize: nat)

  function ReceiverGuess(s: SessionState, ssrc: nat, seqNo: nat): Guess
    requires ValidSession(s) && seqNo < SEQ_MAX
  {
    var at := Find(s.streams, ssrc);
    if at < |s.streams| then
      var g := GuessIndex(s.streams[at], seqNo);
      if g.status == Ok then g.(status := Check(s.streams[at].db, g.delta)) else g
    else if s.template.Some? then Guess(Ok, seqNo, seqNo)
    else Guess(NoCtx, 0, 0)
  }

  /** The stream whose keys a received packet is checked against. */
  function ReceiverStream(s: SessionState, ssrc: nat): StreamState
    requires Find(s.streams, ssrc) < |s.streams| || s.template.Some?
  {
    var at := Find(s.streams, ssrc);
    if at < |s.streams| then s.streams[at] else s.template.value
  }

  function ChooseReceive(s: SessionState, pkt: Octets, useMki: bool): Choice
    requires ValidSession(s)
  {
    if !ValidHeader(pkt) then Reject(BadParam)
    else
      var at := Find(s.streams, Ssrc(pkt));
      var g := ReceiverGuess(s, Ssrc(pkt), Sequence(pkt));
      if g.status != Ok && g.status != IndexAdvance then Reject(g.status)
      else
        var t := ReceiverStream(s, Ssrc(pkt));
        if !useMki then Choose(at == |s.streams|, at, g, 0, 0)
        else
          match FindSlot(RtpKeysOfAll(t.keys), pkt, 0)
          case None => Reject(BadMki)
          case Some(slot) => Choose(at == |s.streams|, at, g, slot, |t.keys[slot].mki|)
  }

  lemma ChooseReceiveFacts(s: SessionState, pkt: Octets, useMki: bool)
    requires ValidSession(s) && ChooseReceive(s, pkt, useMki).Choose?
    ensures var c := ChooseReceive(s, pkt, useMki);
            && ValidHeader(pkt)
            && c.at == Find(s.streams, Ssrc(pkt)) <= |s.streams|
            && (c.provisional <==> c.at == |s.streams|)
            && (c.provisional ==> s.template.Some?)
            && c.slot < |ReceiverStream(s, Ssrc(pkt)).keys|
            && ReceiverStream(s, Ssrc(pkt)).keys[c.slot].limit in s.limits
            && c.guess == ReceiverGuess(s, Ssrc(pkt), Sequence(pkt))
            && (c.guess.status == Ok || c.guess.status == IndexAdvance)
  {
    hide ValidHeader, FindSlot, RtpKeysOfAll, Ssrc, Sequence, GuessIndex, Check;
  }

  predicate CommitAllowed(s: SessionState, ssrc: nat, guess: Guess) {
    && (Find(s.streams, ssrc) < |s.streams| || s.template.Some?)
    && ValidWindow(ReceiverStream(s, ssrc).db)
    && (Find(s.streams, ssrc) < |s.streams| ==> |ReceiverStream(s, ssrc).db.window| - 1 + guess.delta >= 0)
    && (Find(s.streams, ssrc) == |s.streams| ==> guess.delta >= 0)
  }

  /** The state after a packet has been accepted: direction, clone, replay database. The
      authenticated cipher does not act on an index that is ahead of the window. */
  function Commit(s: SessionState, ssrc: nat, guess: Guess, gcm: bool): SessionState
    requires CommitAllowed(s, ssrc, guess)
  {
    var at := Find(s.streams, ssrc);
    var t := Mark(ReceiverStream(s, ssrc), Receiver);
    if at < |s.streams| then
      WithStream(s, at, if guess.status == IndexAdvance && !gcm then Advance(t, guess.est)
                        else t.(db := AddIndex(t.db, guess.delta)))
    else
      var new' := Clone(t, ssrc);
      s.(template := Some(t), streams := [new'.(db := AddIndex(new'.db, guess.delta))] + s.streams)
  }

  lemma ReceiverGuessInWindow(s: SessionState, ssrc: nat, seqNo: nat)
    requires ValidSession(s) && seqNo < SEQ_MAX
    requires var g := ReceiverGuess(s, ssrc, seqNo); g.status == Ok || g.status == IndexAdvance
    ensures CommitAllowed(s, ssrc, ReceiverGuess(s, ssrc, seqNo))
  {
    hide IndexGuess;
    var at := Find(s.streams, ssrc);
    if at < |s.streams| {
      assert ValidStream(s.streams[at], s.limits);
    }
  }

  function Unprotect(prim: Primitives, s: SessionState, pkt: Octets, useMki: bool): Outcome
    requires ValidSession(s)
  {
    var c := ChooseReceive(s, pkt, useMki);
    if c.Reject? then Outcome(s, c.status, pkt)
    else
      ChooseReceiveFacts(s, pkt, useMki);
      ReceiverGuessInWindow(s, Ssrc(pkt), Sequence(pkt));
      UnprotectChosen(prim, s, pkt, c.guess, c.slot, c.mkiSize)
  }

  function UnprotectChosen(
    prim: Primitives, s: SessionState, pkt: Octets, guess: Guess, slot: nat, mkiSize: nat): Outcome
    requires ValidHeader(pkt) && CommitAllowed(s, Ssrc(pkt), guess)
    requires slot < |ReceiverStream(s, Ssrc(pkt)).keys| && ReceiverStream(s, Ssrc(pkt)).keys[slot].limit in s.limits
  {
    var t := ReceiverStream(s, Ssrc(pkt));
    var k := RtpKeysOf(t.keys[slot]);
    var gcm := k.cipher.algorithm.Gcm?;
    var verdict := Verdict(prim, k, t.rtp, pkt, guess.est, mkiSize);
    var (limit, event) := Charge(s.limits[t.keys[slot].limit]);
    var s1 := s.(limits := s.limits[t.keys[slot].limit := limit]);
    if verdict == ParseErr || (verdict != Ok && !gcm) then Outcome(s, verdict, pkt)
    else if event == HardLimit then Outcome(s1, KeyExpired, pkt)
    else if verdict != Ok then Outcome(s1, verdict, pkt)
    else
      var r := Open(prim, k, t.rtp, t.ids, pkt, guess.est, mkiSize);
      if r.status != Ok then Outcome(s1, r.status, r.packet)
      else Outcome(Commit(s1, Ssrc(pkt), guess, gcm), Ok, r.packet)
  }

  // ----- The remaining operations on streams

  function SetRoc(s: SessionState, ssrc: nat, roc: nat): Outcome {
    var at := Find(s.streams, ssrc);
    if at == |s.streams| then Outcome(s, BadParam, [])
    else Outcome(WithStream(s, at, s.streams[at].(pendingRoc := roc)), Ok, [])
  }

  /** A stream for a specific SSRC goes to the head of the list; the list is not searched for it. */
  function AddSpecific(s: SessionState, t: StreamState): SessionState {
    s.(streams := [t] + s.streams)
  }

  function Without<T>(s: seq<T>, at: nat): (r: seq<T>)
    requires at < |s|
    ensures |r| == |s| - 1
  {
    s[..at] + s[at + 1..]
  }

  function Remove(s: SessionState, ssrc: nat): Outcome {
    var at := Find(s.streams, ssrc);
    if at == |s.streams| then Outcome(s, NoCtx, [])
    else Outcome(s.(streams := Without(s.streams, at)), Ok, [])
  }
}
