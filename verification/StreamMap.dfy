/** The stream list as a map from SSRC to stream. */
module StreamMap {
  import opened Octets
  import opened SrtpStatus
  import opened Crypto
  import opened ReplayWindow
  import opened RtcpReplay
  import opened RtpPacket
  import opened SessionKey
  import opened SessionModel
  import opened SessionInvariants
  import opened RtcpPacket
  import opened RtcpModel
  import opened Migration
  import opened SessionRuns

  function AsMap(streams: seq<StreamState>): map<nat, StreamState> {
    map ssrc | ssrc in Ssrcs(streams) :: Entry(streams, ssrc)
  }

  function Entry(streams: seq<StreamState>, ssrc: nat): StreamState
    requires ssrc in Ssrcs(streams)
  {
    FoundIffListed(streams, ssrc);
    streams[Find(streams, ssrc)]
  }

  /** Walking the list is looking the SSRC up. */
  lemma FindIsLookup(streams: seq<StreamState>, ssrc: nat)
    ensures ssrc in AsMap(streams) <==> Find(streams, ssrc) < |streams|
    ensures ssrc in AsMap(streams) ==> AsMap(streams)[ssrc] == streams[Find(streams, ssrc)]
  {
    FoundIffListed(streams, ssrc);
  }

  lemma AsMapIs(streams: seq<StreamState>, m: map<nat, StreamState>)
    requires forall ssrc: nat ::
               && (Find(streams, ssrc) < |streams| <==> ssrc in m)
               && (ssrc in m ==> streams[Find(streams, ssrc)] == m[ssrc])
    ensures AsMap(streams) == m
  {
    hide Find, Ssrcs, AsMap;
    forall ssrc: nat
      ensures ssrc in AsMap(streams) <==> ssrc in m
      ensures ssrc in m ==> AsMap(streams)[ssrc] == m[ssrc]
    {
      FindIsLookup(streams, ssrc);
    }
  }

  /** Adding a stream with a new SSRC at the head is inserting it. */
  lemma PrependIsInsert(streams: seq<StreamState>, t: StreamState)
    requires UniqueSsrcs(streams) && t.ssrc !in AsMap(streams)
    ensures UniqueSsrcs([t] + streams)
    ensures AsMap([t] + streams) == AsMap(streams)[t.ssrc := t]
  {
    hide UniqueSsrcs, Ssrcs, Find, AsMap;
    PrependUnique(streams, t);
    forall ssrc: nat
      ensures Find([t] + streams, ssrc) == if ssrc == t.ssrc then 0 else 1 + Find(streams, ssrc)
      ensures ssrc in AsMap(streams) <==> Find(streams, ssrc) < |streams|
      ensures ssrc in AsMap(streams) ==> AsMap(streams)[ssrc] == streams[Find(streams, ssrc)]
    {
      FindPrepended(t, streams, ssrc);
      FindIsLookup(streams, ssrc);
    }
    AsMapIs([t] + streams, AsMap(streams)[t.ssrc := t]);
  }

  lemma PrependUnique(streams: seq<StreamState>, t: StreamState)
    requires UniqueSsrcs(streams) && t.ssrc !in AsMap(streams)
    ensures UniqueSsrcs([t] + streams)
  {
    hide UniqueSsrcs, Ssrcs, Find, AsMap;
    FindIsLookup(streams, t.ssrc);
    FoundIffListed(streams, t.ssrc);
    assert [] + [t] + streams == [t] + streams && [] + streams == streams;
    InsertUnique([], t, streams);
  }

  lemma FindPrepended(t: StreamState, streams: seq<StreamState>, ssrc: nat)
    ensures Find([t] + streams, ssrc) == if t.ssrc == ssrc then 0 else 1 + Find(streams, ssrc)
  {
    assert ([t] + streams)[1..] == streams;
  }

  /** With a listed SSRC it is not: uniqueness is kept exactly if the SSRC is new. */
  lemma AddKeepsUniqueIffNew(streams: seq<StreamState>, t: StreamState)
    requires UniqueSsrcs(streams)
    ensures UniqueSsrcs([t] + streams) <==> t.ssrc !in AsMap(streams)
  {
    if t.ssrc !in AsMap(streams) {
      PrependIsInsert(streams, t);
    } else {
      FindIsLookup(streams, t.ssrc);
      var all, i := [t] + streams, Find(streams, t.ssrc);
      assert all[0].ssrc == all[i + 1].ssrc;
    }
  }

  /** Replacing a stream in the list is updating the entry. */
  lemma ReplaceIsUpdate(streams: seq<StreamState>, at: nat, t: StreamState)
    requires UniqueSsrcs(streams) && at < |streams| && t.ssrc == streams[at].ssrc
    ensures UniqueSsrcs(streams[at := t]) && t.ssrc in AsMap(streams)
    ensures AsMap(streams[at := t]) == AsMap(streams)[t.ssrc := t]
  {
    hide Find, AsMap;
    var u := streams[at := t];
    UniqueFind(streams, at);
    forall ssrc: nat
      ensures Find(u, ssrc) == Find(streams, ssrc)
      ensures Find(streams, ssrc) == at <==> ssrc == t.ssrc
      ensures ssrc in AsMap(streams) <==> Find(streams, ssrc) < |streams|
      ensures ssrc in AsMap(streams) ==> AsMap(streams)[ssrc] == streams[Find(streams, ssrc)]
    {
      SameSsrcsFind(streams, u, ssrc);
      FindIsLookup(streams, ssrc);
    }
    AsMapIs(u, AsMap(streams)[t.ssrc := t]);
  }

  /** Unlinking a stream is deleting the entry. */
  lemma WithoutIsDelete(streams: seq<StreamState>, at: nat)
    requires UniqueSsrcs(streams) && at < |streams|
    ensures UniqueSsrcs(Without(streams, at))
    ensures AsMap(Without(streams, at)) == AsMap(streams) - {streams[at].ssrc}
  {
    hide Find, AsMap, UniqueSsrcs;
    UniqueFind(streams, at);
    var u := Without(streams, at);
    forall ssrc: nat
      ensures Find(u, ssrc) < |u| <==> Find(streams, ssrc) < |streams| && ssrc != streams[at].ssrc
      ensures Find(u, ssrc) < |u| ==> u[Find(u, ssrc)] == streams[Find(streams, ssrc)]
      ensures ssrc in AsMap(streams) <==> Find(streams, ssrc) < |streams|
      ensures ssrc in AsMap(streams) ==> AsMap(streams)[ssrc] == streams[Find(streams, ssrc)]
    {
      FoundWithout(streams, at, ssrc);
      FindIsLookup(streams, ssrc);
    }
    AsMapIs(u, AsMap(streams) - {streams[at].ssrc});
  }

  lemma FoundWithout(streams: seq<StreamState>, at: nat, ssrc: nat)
    requires UniqueSsrcs(streams) && at < |streams|
    ensures var u := Without(streams, at);
            && (Find(u, ssrc) < |u| <==> Find(streams, ssrc) < |streams| && ssrc != streams[at].ssrc)
            && (Find(u, ssrc) < |u| ==> u[Find(u, ssrc)] == streams[Find(streams, ssrc)])
  {
    hide Find, UniqueSsrcs;
    var u := Without(streams, at);
    UniqueFind(streams, at);
    var i, j := Find(streams, ssrc), Find(u, ssrc);
    if i < |streams| && i != at {
      var k := if i < at then i else i - 1;
      assert u[k] == streams[i];
      UniqueFind(u, k);
    } else if j < |u| {
      UniqueFind(streams, if j < at then j else j + 1);
    }
  }

  // ----- The operations on packets

  /** The same stream as far as packets cannot change it: SSRC, keys, services, listed identifiers, the
      permission to repeat, and the size of the window. */
  predicate SameConstants(t: StreamState, u: StreamState) {
    && u == t.(db := u.db, rtcpDb := u.rtcpDb, direction := u.direction, pendingRoc := u.pendingRoc)
    && |u.db.window| == |t.db.window|
  }

  /** At most the entry of one SSRC changes: its stream is updated, or a clone of the template is
      inserted. */
  ghost predicate Touches(
    before: map<nat, StreamState>, after: map<nat, StreamState>, ssrc: nat, template: Option<StreamState>) {
    || after == before
    || (&& ssrc in after && after == before[ssrc := after[ssrc]]
        && if ssrc in before then SameConstants(before[ssrc], after[ssrc])
           else template.Some? && SameConstants(template.value.(ssrc := ssrc), after[ssrc]))
  }

  lemma TouchesTwice(
    a: map<nat, StreamState>, b: map<nat, StreamState>, c: map<nat, StreamState>, ssrc: nat,
    template: Option<StreamState>)
    requires Touches(a, b, ssrc, template) && Touches(b, c, ssrc, template)
    ensures Touches(a, c, ssrc, template)
  {
  }

  /** A clone under an SSRC that is not listed, then an update of that stream. */
  lemma PrependTouches(streams: seq<StreamState>, t: StreamState, template: StreamState)
    requires UniqueSsrcs(streams) && Find(streams, t.ssrc) == |streams|
    requires SameConstants(template.(ssrc := t.ssrc), t)
    ensures UniqueSsrcs([t] + streams) && Touches(AsMap(streams), AsMap([t] + streams), t.ssrc, Some(template))
  {
    hide UniqueSsrcs, Find, AsMap, SameConstants;
    FindIsLookup(streams, t.ssrc);
    PrependIsInsert(streams, t);
  }

  lemma ReplaceTouches(streams: seq<StreamState>, at: nat, t: StreamState, template: Option<StreamState>)
    requires UniqueSsrcs(streams) && at < |streams| && SameConstants(streams[at], t)
    ensures UniqueSsrcs(streams[at := t]) && Touches(AsMap(streams), AsMap(streams[at := t]), t.ssrc, template)
  {
    hide UniqueSsrcs, Find, AsMap;
    ReplaceIsUpdate(streams, at, t);
    FindIsLookup(streams, t.ssrc);
    UniqueFind(streams, at);
  }

  lemma PreparedStreams(s: SessionState, at: nat, seqNo: nat, useMki: bool, mkiIndex: nat)
    requires ValidSession(s) && at < |s.streams| && seqNo < SEQ_MAX
    ensures var u := PrepareOn(s, at, seqNo, useMki, mkiIndex).session.streams;
            at < |u| && u == s.streams[at := u[at]] && SameConstants(s.streams[at], u[at])
  {
    hide Charge, SelectedSlot, SenderIndex;
    var t := Mark(s.streams[at], Sender);
    assert ValidStream(t, s.limits);
    var gcm := t.keys[SelectedSlot(|t.keys|, useMki, mkiIndex)].rtpCipher.algorithm.Gcm?;
    if SenderIndex(t, seqNo, gcm).Use? {
      SenderIndexKeepsSize(t, seqNo, gcm);
    }
  }

  lemma SenderIndexKeepsSize(t: StreamState, s: nat, gcm: bool)
    requires ValidWindow(t.db) && t.pendingRoc < UINT32 && s < SEQ_MAX && SenderIndex(t, s, gcm).Use?
    ensures SameConstants(t, SenderIndex(t, s, gcm).stream)
  {
    hide GuessIndex, SetRocSeq, Check;
    SetRocSeqKeepsWindow(t.db, s);
  }

  /** Protecting a packet touches no stream but the packet's. */
  lemma ProtectTouches(prim: Primitives, s: SessionState, pkt: Octets, useMki: bool, mkiIndex: nat)
    requires ValidSession(s) && UniqueSsrcs(s.streams) && ValidHeader(pkt)
    ensures var u := Protect(prim, s, pkt, useMki, mkiIndex).session.streams;
            UniqueSsrcs(u) && Touches(AsMap(s.streams), AsMap(u), Ssrc(pkt), s.template)
  {
    hide UniqueSsrcs, Find, AsMap, PrepareOn, Touches, Ssrc, Sequence, ValidHeader;
    ProtectSession(prim, s, pkt, useMki, mkiIndex);
    HeaderBounds(pkt);
    TouchesNothing(AsMap(s.streams), Ssrc(pkt), s.template);
    if EnsureStream(s, Ssrc(pkt)).Some? {
      var s1 := EnsureStream(s, Ssrc(pkt)).value;
      EnsureStreamKeepsValid(s, Ssrc(pkt));
      if s1 != s {
        PrependTouches(s.streams, s1.streams[0], s.template.value);
      }
      var at := Find(s1.streams, Ssrc(pkt));
      PreparedStreams(s1, at, Sequence(pkt), useMki, mkiIndex);
      var u := PrepareOn(s1, at, Sequence(pkt), useMki, mkiIndex).session.streams;
      ReplaceTouches(s1.streams, at, u[at], s.template);
      TouchesTwice(AsMap(s.streams), AsMap(s1.streams), AsMap(u), Ssrc(pkt), s.template);
    }
  }

  lemma TouchesNothing(m: map<nat, StreamState>, ssrc: nat, template: Option<StreamState>)
    ensures Touches(m, m, ssrc, template)
  {
  }

  lemma CommitTouches(s: SessionState, ssrc: nat, guess: Guess, gcm: bool)
    requires CommitAllowed(s, ssrc, guess) && UniqueSsrcs(s.streams)
    ensures var u := Commit(s, ssrc, guess, gcm).streams;
            UniqueSsrcs(u) && Touches(AsMap(s.streams), AsMap(u), ssrc, s.template)
  {
    hide UniqueSsrcs, AsMap, AddIndex, SetRocSeq, Touches;
    var at, u := Find(s.streams, ssrc), Commit(s, ssrc, guess, gcm).streams;
    SetRocSeqKeepsWindow(ReceiverStream(s, ssrc).db, 0);
    if at < |s.streams| {
      ReplaceTouches(s.streams, at, u[at], s.template);
    } else {
      PrependTouches(s.streams, u[0], s.template.value);
    }
  }

  /** Neither does unprotecting one. */
  lemma UnprotectTouches(prim: Primitives, s: SessionState, pkt: Octets, useMki: bool)
    requires ValidSession(s) && UniqueSsrcs(s.streams) && ValidHeader(pkt)
    ensures var u := Unprotect(prim, s, pkt, useMki).session.streams;
            UniqueSsrcs(u) && Touches(AsMap(s.streams), AsMap(u), Ssrc(pkt), s.template)
  {
    hide UniqueSsrcs, Find, AsMap, Commit, Touches, Verdict, Open, Charge, ChooseReceive, ReceiverGuess, Ssrc, ValidHeader;
    HeaderBounds(pkt);
    TouchesNothing(AsMap(s.streams), Ssrc(pkt), s.template);
    var c := ChooseReceive(s, pkt, useMki);
    if c.Choose? {
      ChooseReceiveFacts(s, pkt, useMki);
      ReceiverGuessInWindow(s, Ssrc(pkt), Sequence(pkt));
      var t := ReceiverStream(s, Ssrc(pkt));
      var limit := t.keys[c.slot].limit;
      var s1 := s.(limits := s.limits[limit := Charge(s.limits[limit]).0]);
      CommitTouches(s1, Ssrc(pkt), c.guess, RtpKeysOf(t.keys[c.slot]).cipher.algorithm.Gcm?);
    }
  }

  lemma ProtectRtcpTouches(prim: Primitives, s: SessionState, pkt: Octets, useMki: bool, mkiIndex: nat)
    requires ValidSession(s) && UniqueSsrcs(s.streams) && |pkt| >= RTCP_HEADER
    ensures var u := ProtectRtcpMki(prim, s, pkt, useMki, mkiIndex).session.streams;
            UniqueSsrcs(u) && Touches(AsMap(s.streams), AsMap(u), RtcpSsrc(pkt), s.template)
  {
    hide UniqueSsrcs, Find, AsMap, SendRtcp, Touches;
    var ssrc := RtcpSsrc(pkt);
    TouchesNothing(AsMap(s.streams), ssrc, s.template);
    if WithRtcpStream(s, ssrc).Some? {
      var s1 := WithRtcpStream(s, ssrc).value;
      WithRtcpStreamKeepsValid(s, ssrc);
      if s1 != s {
        PrependTouches(s.streams, s1.streams[0], s.template.value);
      }
      var at := Find(s1.streams, ssrc);
      SendRtcpIs(prim, s1, at, pkt, useMki, mkiIndex);
      var u := SendRtcp(prim, s1, at, pkt, useMki, mkiIndex).session.streams;
      ReplaceTouches(s1.streams, at, u[at], s.template);
      TouchesTwice(AsMap(s.streams), AsMap(s1.streams), AsMap(u), ssrc, s.template);
    }
  }

  lemma UnprotectRtcpTouches(prim: Primitives, s: SessionState, p: Octets, useMki: bool)
    requires ValidSession(s) && UniqueSsrcs(s.streams) && |p| >= RTCP_HEADER
    ensures var u := UnprotectRtcpMki(prim, s, p, useMki).session.streams;
            UniqueSsrcs(u) && Touches(AsMap(s.streams), AsMap(u), RtcpSsrc(p), s.template)
  {
    hide UniqueSsrcs, AsMap, Touches, UnprotectRtcp, RtcpKeysOf, ReceiveSlot, CommitRtcp, ValidSession;
    var ssrc := RtcpSsrc(p);
    TouchesNothing(AsMap(s.streams), ssrc, s.template);
    if UnprotectRtcpMki(prim, s, p, useMki).status == Ok {
      ReceiverStreamValid(s, ssrc);
      var t := ReceiverStream(s, ssrc);
      var slot := ReceiveSlot(t, p, useMki).value;
      var k, mkiSize := RtcpKeysOf(t.keys[slot]), if useMki then |t.keys[slot].mki| else 0;
      AcceptedIndex(prim, k, t.rtcp.conf, t.rtcpDb, p, mkiSize);
      CommitRtcpTouches(s, ssrc, TrailerIndex(p, TrailerAt(k, |p|, mkiSize)));
    } else {
      RefusedRtcpChangesNothing(prim, s, p, useMki);
    }
  }

  lemma CommitRtcpTouches(s: SessionState, ssrc: nat, index: nat)
    requires (Find(s.streams, ssrc) < |s.streams| || s.template.Some?) && UniqueSsrcs(s.streams)
    requires ValidRdb(ReceiverStream(s, ssrc).rtcpDb) && ReceiverStream(s, ssrc).rtcpDb.start <= index <= MAX_RTCP_INDEX
    ensures var u := CommitRtcp(s, ssrc, index).streams;
            UniqueSsrcs(u) && Touches(AsMap(s.streams), AsMap(u), ssrc, s.template)
  {
    hide UniqueSsrcs, AsMap, Touches, AddRdb;
    var at, u := Find(s.streams, ssrc), CommitRtcp(s, ssrc, index).streams;
    if at < |s.streams| {
      ReplaceTouches(s.streams, at, u[at], s.template);
    } else {
      PrependTouches(s.streams, u[0], s.template.value);
    }
  }

  /** Removal deletes the entry, and nothing if there is none. */
  lemma RemoveIsDelete(s: SessionState, ssrc: nat)
    requires UniqueSsrcs(s.streams)
    ensures UniqueSsrcs(Remove(s, ssrc).session.streams)
    ensures AsMap(Remove(s, ssrc).session.streams) == AsMap(s.streams) - {ssrc}
    ensures Remove(s, ssrc).status == Ok <==> ssrc in AsMap(s.streams)
  {
    hide UniqueSsrcs, AsMap;
    var at := Find(s.streams, ssrc);
    FindIsLookup(s.streams, ssrc);
    if at < |s.streams| {
      WithoutIsDelete(s.streams, at);
    }
  }

  /** Setting a rollover counter updates the entry. */
  lemma SetRocIsUpdate(s: SessionState, ssrc: nat, roc: nat)
    requires UniqueSsrcs(s.streams)
    ensures var u := SetRoc(s, ssrc, roc).session.streams;
            && UniqueSsrcs(u)
            && AsMap(u) == if ssrc in AsMap(s.streams)
                           then AsMap(s.streams)[ssrc := AsMap(s.streams)[ssrc].(pendingRoc := roc)]
                           else AsMap(s.streams)
  {
    hide UniqueSsrcs, AsMap;
    var at := Find(s.streams, ssrc);
    FindIsLookup(s.streams, ssrc);
    if at < |s.streams| {
      ReplaceIsUpdate(s.streams, at, s.streams[at].(pendingRoc := roc));
    }
  }

  /** Re-keying maps the update over the entries. */
  lemma MigrateIsMap(streams: seq<StreamState>, auth: Auth, template: StreamState)
    requires UniqueSsrcs(streams)
    ensures var u := Migrate(streams, auth, template, []);
            && UniqueSsrcs(u)
            && AsMap(u) == map ssrc | ssrc in AsMap(streams) :: AfterUpdate(AsMap(streams)[ssrc], auth, template)
  {
    hide UniqueSsrcs, AsMap, Find, Migrate, AfterUpdate;
    UpdateKeepsStreams(streams, auth, template);
    forall ssrc: nat
      ensures ssrc in AsMap(streams) <==> Find(streams, ssrc) < |streams|
      ensures ssrc in AsMap(streams) ==> AsMap(streams)[ssrc] == streams[Find(streams, ssrc)]
    {
      FindIsLookup(streams, ssrc);
    }
    AsMapIs(Migrate(streams, auth, template, []),
            map ssrc | ssrc in AsMap(streams) :: AfterUpdate(AsMap(streams)[ssrc], auth, template));
  }

  // ----- Whole runs

  /** A stream is added only under an SSRC that is not listed: the library does not check. */
  ghost predicate AddsNew(s: SessionState, op: Operation) {
    op.AddOne? ==> op.stream.ssrc !in AsMap(s.streams)
  }

  ghost predicate RunAddsNew(prim: Primitives, s: SessionState, run: seq<Operation>)
    decreases |run|
  {
    run != [] ==> AddsNew(s, run[0]) && RunAddsNew(prim, Apply(prim, s, run[0]), run[1..])
  }

  lemma ApplyKeepsUnique(prim: Primitives, s: SessionState, op: Operation)
    requires UniqueSsrcs(s.streams) && AddsNew(s, op)
    ensures UniqueSsrcs(Apply(prim, s, op).streams)
  {
    hide UniqueSsrcs, AsMap, Protect, Unprotect, ProtectRtcpMki, UnprotectRtcpMki, SetRoc, Remove, Migrate, Touches,
         ValidSession, ValidHeader;
    if ValidSession(s) {
      match op {
        case SendRtpPacket(pkt, useMki, mkiIndex) =>
          if ValidHeader(pkt) {
            ProtectTouches(prim, s, pkt, useMki, mkiIndex);
          } else {
            BadRtpKeeps(prim, s, pkt, useMki, mkiIndex);
          }
        case ReceiveRtpPacket(pkt, useMki) =>
          if ValidHeader(pkt) {
            UnprotectTouches(prim, s, pkt, useMki);
          } else {
            BadRtpKeeps(prim, s, pkt, useMki, 0);
          }
        case SendRtcpPacket(pkt, useMki, mkiIndex) =>
          if |pkt| >= RTCP_HEADER {
            ProtectRtcpTouches(prim, s, pkt, useMki, mkiIndex);
          } else {
            ShortRtcpKeeps(prim, s, pkt, useMki, mkiIndex);
          }
        case ReceiveRtcpPacket(pkt, useMki) =>
          if |pkt| >= RTCP_HEADER {
            UnprotectRtcpTouches(prim, s, pkt, useMki);
          } else {
            ShortRtcpKeeps(prim, s, pkt, useMki, 0);
          }
        case SetCounter(ssrc, roc) => SetRocIsUpdate(s, ssrc, roc % UINT32);
        case RemoveOne(ssrc) => RemoveIsDelete(s, ssrc);
        case AddOne(stream, limits) => PrependIsInsert(s.streams, stream);
        case Rekey(auth, template, limits) => MigrateIsMap(s.streams, auth, template);
      }
    }
  }

  lemma BadRtpKeeps(prim: Primitives, s: SessionState, pkt: Octets, useMki: bool, mkiIndex: nat)
    requires ValidSession(s) && !ValidHeader(pkt)
    ensures Protect(prim, s, pkt, useMki, mkiIndex).session == s && Unprotect(prim, s, pkt, useMki).session == s
  {
    hide ValidHeader;
  }

  /** In every state that such a run reaches, each SSRC is listed at most once. */
  lemma {:induction false} RunKeepsUnique(prim: Primitives, s: SessionState, run: seq<Operation>)
    requires UniqueSsrcs(s.streams) && RunAddsNew(prim, s, run)
    ensures UniqueSsrcs(AfterRun(prim, s, run).streams)
    decreases |run|
  {
    hide UniqueSsrcs, AddsNew, Apply;
    if run != [] {
      ApplyKeepsUnique(prim, s, run[0]);
      RunKeepsUnique(prim, Apply(prim, s, run[0]), run[1..]);
    }
  }
}
