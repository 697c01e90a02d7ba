/** What the settings of a policy mean for the streams that are set up for it: which policies are accepted, the
    keys, the reach of the replay window, and that two ends with the same settings understand each other. */
module PolicyEffects {
  import opened Octets
  import opened SrtpStatus
  import opened Crypto
  import opened ReplayWindow
  import opened RtcpReplay
  import opened RtpPacket
  import opened SessionKey
  import opened SessionModel
  import opened Migration
  import opened RtcpPacket
  import opened SessionRuns
  import opened StreamMap
  import opened StreamObjects
  import opened SessionSetup
  import opened Delivery
  import opened RtcpRepeats

  // ----- Acceptance

  /** The policies from which a session can be created: up to 16 master keys with identifiers of up to 128 octets,
      a window of 64 to 2^15 - 1 positions or the default, a kind of SSRC, and at most one wildcard. */
  lemma AcceptedPolicies(policies: seq<Policy>)
    ensures AllAccepted(policies, |policies|)
            <==> && (forall i | 0 <= i < |policies| ::
                       && 0 < |policies[i].slots| <= 16
                       && (forall j | 0 <= j < |policies[i].slots| :: |policies[i].slots[j].mki| <= 128)
                       && (policies[i].windowSize == 0 || 64 <= policies[i].windowSize <= 0x7fff)
                       && policies[i].ssrcType != Undefined)
                 && (forall i, j | 0 <= i < j < |policies| ::
                       policies[i].ssrcType == Specific || policies[j].ssrcType == Specific)
  {
    hide ValidMasterKeys, ValidWindowSize;
    forall i | 0 <= i < |policies| {
      WellFormedIs(policies[i]);
    }
    if AllAccepted(policies, |policies|) {
      forall i, j | 0 <= i < j < |policies|
        ensures policies[i].ssrcType == Specific || policies[j].ssrcType == Specific
      {
        assert !(Wildcard(policies[i]) && Wildcard(policies[j]));
      }
    }
  }

  // ----- Keys

  /** The keys of slot `i`: those of the policy for RTP, with a cipher for extensions if identifiers are listed, and
      those for RTCP with their own salt. The RTP cipher decides for both whether it is an authenticated one. */
  lemma KeysOfPolicy(t: StreamState, p: Policy, direction: Direction, i: nat)
    requires StateFor(t, p, direction) && i < |p.slots|
    ensures |t.keys| == |p.slots|
    ensures var k := p.slots[i];
            && RtpKeysOf(t.keys[i])
               == RtpKeys(k.cipher, if p.ids == [] then None else Some(k.xtn), k.authKey, k.tagLen, k.salt, k.mki)
            && RtcpKeysOf(t.keys[i])
               == RtcpKeys(k.cipher.algorithm == Gcm, k.rtcpCipher, k.rtcpAuthKey, k.rtcpTagLen, k.cSalt, k.mki)
  {
    var keys := t.keys[i];
    assert RtpKeysOf(keys) == PolicyKeys(p.slots[i], p.ids != []);
  }

  /** Two ends that are set up with the same keys and services are peers: what one seals the other opens. */
  lemma SameSettingsArePeers(t: StreamState, p: Policy, d: Direction, u: StreamState, q: Policy, e: Direction)
    requires StateFor(t, p, d) && StateFor(u, q, e)
    requires p.slots == q.slots && p.rtp == q.rtp && p.rtcp == q.rtcp && p.ids == q.ids
    ensures Peers(t, u) && t.rtcp == u.rtcp && |t.keys| == |u.keys|
    ensures forall i | 0 <= i < |t.keys| :: RtcpKeysOf(t.keys[i]) == RtcpKeysOf(u.keys[i])
  {
    hide RtcpKeysOf, RtpKeysOf;
    forall i | 0 <= i < |p.slots|
      ensures RtpKeysOf(t.keys[i]) == RtpKeysOf(u.keys[i]) && RtcpKeysOf(t.keys[i]) == RtcpKeysOf(u.keys[i])
    {
      KeysOfPolicy(t, p, d, i);
      KeysOfPolicy(u, q, e, i);
    }
    assert RtpKeysOfAll(t.keys) == RtpKeysOfAll(u.keys);
  }

  // ----- Windows

  /** A new stream remembers nothing, and its window holds the indices that the policy asks for, 128 by default,
      and fewer than 32 more. */
  lemma WindowOfPolicy(t: StreamState, p: Policy, direction: Direction)
    requires StateFor(t, p, direction)
    ensures var w := if p.windowSize == 0 then 128 else p.windowSize;
            && t.db.index == 0 && Covers(t.db, {}) && MarksOnly(t.db, {})
            && w <= |t.db.window| < w + 32 && |t.db.window| % 32 == 0
    ensures t.rtcpDb.start == 0 && TracksRdb(t.rtcpDb, {}) && t.pendingRoc == 0
  {
    EmptyTracks(|t.db.window|);
  }

  lemma {:induction false} RunKeepsStreams(prim: Primitives, s: SessionState, run: seq<Operation>)
    requires ValidSession(s) && UniqueSsrcs(s.streams) && Epoch(run)
    ensures var s' := AfterRun(prim, s, run);
            && ValidSession(s') && UniqueSsrcs(s'.streams) && StreamsKept(AsMap(s.streams), AsMap(s'.streams))
    decreases |run|
  {
    hide ValidSession, UniqueSsrcs, Epoch, Apply, AsMap, StreamsKept;
    if run == [] {
      KeptSelfConstants(AsMap(s.streams));
    } else {
      EpochStep(run);
      ApplyKeepsStreams(prim, s, run[0]);
      var s1 := Apply(prim, s, run[0]);
      RunKeepsStreams(prim, s1, run[1..]);
      KeptOn(AsMap(s.streams), AsMap(s1.streams), AsMap(AfterRun(prim, s, run).streams));
    }
  }

  lemma KeptSelfConstants(m: map<nat, StreamState>)
    ensures StreamsKept(m, m)
  {
  }

  lemma KeptOn(a: map<nat, StreamState>, b: map<nat, StreamState>, c: map<nat, StreamState>)
    requires StreamsKept(a, b) && StreamsKept(b, c)
    ensures StreamsKept(a, c)
  {
    forall ssrc | ssrc in a
      ensures ssrc in c && SameConstants(a[ssrc], c[ssrc])
    {
      assert SameConstants(a[ssrc], b[ssrc]) && SameConstants(b[ssrc], c[ssrc]);
    }
  }

  /** In every state that the session reaches, the replay check refuses no index as old that is less than the size
      which the policy asked for behind the highest one. */
  lemma WindowReachesBack(
    prim: Primitives, s: SessionState, at: nat, p: Policy, direction: Direction, run: seq<Operation>, i: nat)
    requires ValidSession(s) && UniqueSsrcs(s.streams) && Epoch(run)
    requires at < |s.streams| && StateFor(s.streams[at], p, direction)
    ensures var s', w := AfterRun(prim, s, run), if p.windowSize == 0 then 128 else p.windowSize;
            && Find(s'.streams, p.ssrc) < |s'.streams|
            && var db := ReceiverStream(s', p.ssrc).db;
               && ValidWindow(db) && w <= |db.window| < w + 32
               && (i > db.index - w ==> Check(db, i - db.index) != ReplayOld)
  {
    hide StateFor, ValidSession, Epoch, AfterRun, UniqueSsrcs, AsMap, WindowLength;
    RunKeepsStreams(prim, s, run);
    WindowOfPolicy(s.streams[at], p, direction);
    ListedEntry(s.streams, at);
    SsrcOf(s.streams[at], p, direction);
    var s' := AfterRun(prim, s, run);
    FindIsLookup(s'.streams, p.ssrc);
    ListedIsValid(s', p.ssrc);
    NotOld(ReceiverStream(s', p.ssrc).db, i);
  }

  lemma ListedEntry(streams: seq<StreamState>, at: nat)
    requires UniqueSsrcs(streams) && at < |streams|
    ensures streams[at].ssrc in AsMap(streams) && AsMap(streams)[streams[at].ssrc] == streams[at]
  {
    hide AsMap;
    UniqueFind(streams, at);
    FindIsLookup(streams, streams[at].ssrc);
  }

  lemma SsrcOf(t: StreamState, p: Policy, direction: Direction)
    requires StateFor(t, p, direction)
    ensures t.ssrc == p.ssrc
  {
  }

  lemma ListedIsValid(s: SessionState, ssrc: nat)
    requires ValidSession(s) && Find(s.streams, ssrc) < |s.streams|
    ensures ValidWindow(ReceiverStream(s, ssrc).db)
  {
  }

  lemma NotOld(db: Rdbx, i: nat)
    ensures i > db.index - |db.window| ==> Check(db, i - db.index) != ReplayOld
  {
  }

  // ----- End to end

  lemma NewListed(s: SessionState, at: nat, p: Policy, direction: Direction)
    requires ValidSession(s) && UniqueSsrcs(s.streams) && at < |s.streams| && StateFor(s.streams[at], p, direction)
    requires AllUnused(s.limits)
    ensures Find(s.streams, p.ssrc) < |s.streams| && ReceiverStream(s, p.ssrc) == s.streams[at]
    ensures var t := s.streams[at];
            && t.keys != [] && t.db.index == 0 && Covers(t.db, {}) && MarksOnly(t.db, {}) && t.pendingRoc == 0
            && 0 < |t.db.window|
            && forall slot | 0 <= slot < |t.keys| :: t.keys[slot].limit in s.limits && KeyLasts(s, t.keys[slot].limit)
  {
    hide KeysFor, WindowLength;
    UniqueFind(s.streams, at);
    EmptyTracks(|s.streams[at].db.window|);
    assert ValidStream(s.streams[at], s.limits);
  }

  /** Between new streams with the same settings the first packet is sent under its sequence number as index, and
      it arrives with its octets. */
  lemma FirstPacketArrives(
    prim: Primitives, tx: SessionState, a: nat, p: Policy, d: Direction, rx: SessionState, b: nat, q: Policy,
    e: Direction, pkt: Octets, useMki: bool, mkiIndex: nat)
    requires ValidSession(tx) && UniqueSsrcs(tx.streams) && AllUnused(tx.limits)
    requires ValidSession(rx) && UniqueSsrcs(rx.streams) && AllUnused(rx.limits)
    requires a < |tx.streams| && StateFor(tx.streams[a], p, d) && b < |rx.streams| && StateFor(rx.streams[b], q, e)
    requires p.slots == q.slots && p.rtp == q.rtp && p.rtcp == q.rtcp && p.ids == q.ids && p.ssrc == q.ssrc
    requires |pkt| >= RTP_HEADER && Ssrc(pkt) == p.ssrc
    requires Compatible(tx.streams[a], rx.streams[b], pkt, useMki, mkiIndex)
    requires Protect(prim, tx, pkt, useMki, mkiIndex).status == Ok
    ensures PrepareSend(tx, pkt, useMki, mkiIndex).Ready?
    ensures PrepareSend(tx, pkt, useMki, mkiIndex).index == Sequence(pkt)
    ensures var r := Unprotect(prim, rx, Protect(prim, tx, pkt, useMki, mkiIndex).packet, useMki);
            r.status == Ok && r.packet == pkt
  {
    hide *;
    NewListed(tx, a, p, d);
    NewListed(rx, b, q, e);
    SealedUnderNamedKey(prim, tx, pkt, useMki, mkiIndex);
    var t, u, i := tx.streams[a], rx.streams[b], Sequence(pkt);
    SlotsAre(t, useMki, mkiIndex);
    SlotsAre(u, useMki, mkiIndex);
    NewReaches(t, i);
    NewReaches(u, i);
    PreparedIff(tx, pkt, i, useMki, mkiIndex, {});
    PacketIsDelivered(prim, tx, rx, pkt, useMki, mkiIndex, {});
    NewUnused(u.db, i);
  }

  lemma SlotsAre(t: StreamState, useMki: bool, mkiIndex: nat)
    requires t.keys != []
    ensures NamedSlot(t, useMki, mkiIndex) < |t.keys|
  {
  }

  lemma NewReaches(t: StreamState, i: nat)
    requires t.db.index == 0 && t.pendingRoc == 0 && i < SEQ_MAX
    ensures Reaches(t, i) && (forall gcm :: Reaches(SenderView(t, gcm), i)) && t.db.index < INDEX_LIMIT
    ensures i < INDEX_LIMIT && i % SEQ_MAX == i
  {
  }

  lemma NewUnused(db: Rdbx, i: nat)
    requires db.index == 0 && 0 < |db.window|
    ensures Unused(db, {}, i)
  {
  }
}
