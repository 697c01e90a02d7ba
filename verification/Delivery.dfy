/** That packets get through: which keys a packet is sealed under, and exactly when a receiver with the same keys
    accepts it. */
module Delivery {
  import opened Octets
  import opened SrtpStatus
  import opened Crypto
  import opened ReplayWindow
  import opened IndexEstimate
  import opened RtpPacket
  import opened SessionKey
  import opened SessionModel
  import opened SessionInvariants
  import opened RtcpModel
  import opened SessionRuns
  import opened VectorUniqueness
  import NetworkSafety
  import RtcpRepeats
  import opened ShortRuns
  import opened ReplayExactness

  // ----- Which keys a packet is sealed under

  lemma PreparedOn(s: SessionState, at: nat, seqNo: nat, useMki: bool, mkiIndex: nat)
    requires ValidSession(s) && at < |s.streams| && seqNo < SEQ_MAX
    requires PrepareOn(s, at, seqNo, useMki, mkiIndex).Ready?
    ensures var p, t := PrepareOn(s, at, seqNo, useMki, mkiIndex), s.streams[at];
            && p.at == at < |p.session.streams| && p.index < INDEX_LIMIT && p.index % SEQ_MAX == seqNo
            && p.slot == (if useMki && mkiIndex < |t.keys| then mkiIndex else 0) < |t.keys|
            && var u := p.session.streams[at]; u.keys == t.keys && u.rtp == t.rtp && u.ids == t.ids
  {
    hide SenderIndex, Charge;
    assert ValidStream(s.streams[at], s.limits);
    var t := Mark(s.streams[at], Sender);
    var gcm := t.keys[if useMki && mkiIndex < |t.keys| then mkiIndex else 0].rtpCipher.algorithm.Gcm?;
    SenderIndexKeepsStream(t, seqNo, gcm, s.limits);
  }

  lemma EnsuredStream(s: SessionState, ssrc: nat)
    requires EnsureStream(s, ssrc).Some?
    ensures Find(s.streams, ssrc) < |s.streams| || s.template.Some?
    ensures var s1, t := EnsureStream(s, ssrc).value, ReceiverStream(s, ssrc);
            && Find(s1.streams, ssrc) < |s1.streams|
            && var u := s1.streams[Find(s1.streams, ssrc)]; u.keys == t.keys && u.rtp == t.rtp && u.ids == t.ids
  {
    var s1 := EnsureStream(s, ssrc).value;
    if s1 != s {
      assert Find(s1.streams, ssrc) == 0;
    }
  }

  /** The stream for the SSRC, or else the template, and one of its keys. */
  lemma PreparedKeys(s: SessionState, pkt: Octets, useMki: bool, mkiIndex: nat)
    requires ValidSession(s) && PrepareSend(s, pkt, useMki, mkiIndex).Ready?
    ensures ValidHeader(pkt) && |pkt| >= RTP_HEADER
    ensures Find(s.streams, Ssrc(pkt)) < |s.streams| || s.template.Some?
    ensures var p, t := PrepareSend(s, pkt, useMki, mkiIndex), ReceiverStream(s, Ssrc(pkt));
            && p.at < |p.session.streams| && p.index < INDEX_LIMIT && p.index % SEQ_MAX == Sequence(pkt)
            && p.slot == (if useMki && mkiIndex < |t.keys| then mkiIndex else 0) < |t.keys|
            && var u := p.session.streams[p.at]; u.keys == t.keys && u.rtp == t.rtp && u.ids == t.ids
  {
    hide PrepareOn, Ssrc, Sequence, ValidSession, EnsureStream, ReceiverStream, ValidHeader;
    HeaderBounds(pkt);
    EnsureStreamKeepsValid(s, Ssrc(pkt));
    EnsuredStream(s, Ssrc(pkt));
    var s1 := EnsureStream(s, Ssrc(pkt)).value;
    PreparedOn(s1, Find(s1.streams, Ssrc(pkt)), Sequence(pkt), useMki, mkiIndex);
  }

  /** The packet is sealed under the master key that the caller names, under the first one if the caller names
      none or one that does not exist. */
  lemma SealedUnderNamedKey(prim: Primitives, s: SessionState, pkt: Octets, useMki: bool, mkiIndex: nat)
    requires ValidSession(s) && Protect(prim, s, pkt, useMki, mkiIndex).status == Ok
    ensures ValidHeader(pkt) && |pkt| >= RTP_HEADER
    ensures Find(s.streams, Ssrc(pkt)) < |s.streams| || s.template.Some?
    ensures PrepareSend(s, pkt, useMki, mkiIndex).Ready?
    ensures var t, index := ReceiverStream(s, Ssrc(pkt)), PrepareSend(s, pkt, useMki, mkiIndex).index;
            && t.keys != [] && index < INDEX_LIMIT && index % SEQ_MAX == Sequence(pkt)
            && (useMki && mkiIndex < |t.keys| ==>
                  Result(Protect(prim, s, pkt, useMki, mkiIndex).packet, Ok)
                  == Seal(prim, RtpKeysOf(t.keys[mkiIndex]), t.rtp, t.ids, pkt, index, true))
            && (!useMki || mkiIndex >= |t.keys| ==>
                  Result(Protect(prim, s, pkt, useMki, mkiIndex).packet, Ok)
                  == Seal(prim, RtpKeysOf(t.keys[0]), t.rtp, t.ids, pkt, index, useMki))
  {
    hide PrepareSend, Seal, RtpKeysOf, ValidSession, ValidHeader, Ssrc, Sequence, ReceiverStream;
    NetworkSafety.PrepareSendRefuses(s, pkt, useMki, mkiIndex);
    PreparedKeys(s, pkt, useMki, mkiIndex);
  }

  /** A sender can be undone: outside the authenticated cipher without the service only if there is no tag. */
  predicate Opens(t: StreamState, slot: nat)
    requires slot < |t.keys|
  {
    t.keys[slot].rtpCipher.algorithm.Gcm? || t.rtp.auth || t.keys[slot].rtpAuth.tagLen == 0
  }

  /** The identifier in the packet leads the receiver to the key that the sender named. */
  lemma NamedKeyIsFound(prim: Primitives, s: SessionState, pkt: Octets, mkiIndex: nat)
    requires ValidSession(s) && Protect(prim, s, pkt, true, mkiIndex).status == Ok
    requires |pkt| >= RTP_HEADER && (Find(s.streams, Ssrc(pkt)) < |s.streams| || s.template.Some?)
    requires var t := ReceiverStream(s, Ssrc(pkt));
             && mkiIndex < |t.keys| && DistinctMkis(RtpKeysOfAll(t.keys)) && Opens(t, mkiIndex)
             && |pkt| >= |t.keys[mkiIndex].mki|
    ensures var t := ReceiverStream(s, Ssrc(pkt));
            FindSlot(RtpKeysOfAll(t.keys), Protect(prim, s, pkt, true, mkiIndex).packet, 0) == Some(mkiIndex)
  {
    hide Protect, PrepareSend, Seal, ValidSession, ReceiverStream, Ssrc, ValidHeader, FindSlot;
    SealedUnderNamedKey(prim, s, pkt, true, mkiIndex);
    var t, index := ReceiverStream(s, Ssrc(pkt)), PrepareSend(s, pkt, true, mkiIndex).index;
    SlotIsFound(prim, t, mkiIndex, pkt, index);
  }

  lemma SlotIsFound(prim: Primitives, t: StreamState, slot: nat, pkt: Octets, index: nat)
    requires slot < |t.keys| && DistinctMkis(RtpKeysOfAll(t.keys)) && Opens(t, slot)
    requires ValidHeader(pkt) && |pkt| >= |t.keys[slot].mki|
    requires Seal(prim, RtpKeysOf(t.keys[slot]), t.rtp, t.ids, pkt, index, true).status == Ok
    ensures FindSlot(RtpKeysOfAll(t.keys),
                     Seal(prim, RtpKeysOf(t.keys[slot]), t.rtp, t.ids, pkt, index, true).packet, 0)
            == Some(slot)
  {
    hide Seal, ValidHeader, FindSlot;
    var keys := RtpKeysOfAll(t.keys);
    assert keys[slot] == RtpKeysOf(t.keys[slot]) && keys[slot].tagLen == keys[0].tagLen;
    SealedSlotIsFound(prim, keys, slot, t.rtp, t.ids, pkt, index);
  }

  // ----- What the receiver makes of a sealed packet

  /** The same key material and services, whatever the objects that hold it. */
  predicate Peers(t: StreamState, u: StreamState) {
    RtpKeysOfAll(t.keys) == RtpKeysOfAll(u.keys) && t.rtp == u.rtp && t.ids == u.ids
  }

  /** The packet as a stream seals it under one of its keys. */
  function SealedUnder(prim: Primitives, t: StreamState, slot: nat, pkt: Octets, index: nat, useMki: bool): Result
    requires slot < |t.keys| && ValidHeader(pkt)
  {
    Seal(prim, RtpKeysOf(t.keys[slot]), t.rtp, t.ids, pkt, index, useMki)
  }

  /** What the receiver needs in order to find the key: the identifier, or else the first key is meant. */
  ghost predicate KeyIsTold(t: StreamState, slot: nat, pkt: Octets, useMki: bool)
    requires slot < |t.keys|
  {
    if useMki then DistinctMkis(RtpKeysOfAll(t.keys)) && |pkt| >= |t.keys[slot].mki| else slot == 0
  }

  lemma PeerSlot(t: StreamState, u: StreamState, slot: nat)
    requires Peers(t, u) && slot < |t.keys|
    ensures |u.keys| == |t.keys| && RtpKeysOf(u.keys[slot]) == RtpKeysOf(t.keys[slot])
    ensures u.keys[slot].mki == t.keys[slot].mki
    ensures Opens(t, slot) <==> Opens(u, slot)
  {
    assert RtpKeysOfAll(t.keys)[slot] == RtpKeysOfAll(u.keys)[slot];
  }

  lemma PeerSeals(prim: Primitives, t: StreamState, u: StreamState, slot: nat, pkt: Octets, index: nat, useMki: bool)
    requires Peers(t, u) && slot < |t.keys| && ValidHeader(pkt)
    ensures |u.keys| == |t.keys|
    ensures SealedUnder(prim, u, slot, pkt, index, useMki) == SealedUnder(prim, t, slot, pkt, index, useMki)
    ensures KeyIsTold(t, slot, pkt, useMki) <==> KeyIsTold(u, slot, pkt, useMki)
    ensures Opens(t, slot) <==> Opens(u, slot)
  {
    hide Seal, ValidHeader, RtpKeysOf, DistinctMkis, RtpKeysOfAll, Opens;
    PeerSlot(t, u, slot);
  }

  /** The receiver's choice for a sealed packet is the sender's key, or its verdict on the index. */
  lemma ChoosesSealed(prim: Primitives, s: SessionState, slot: nat, pkt: Octets, index: nat, useMki: bool)
    requires ValidSession(s) && ValidHeader(pkt) && |pkt| >= RTP_HEADER
    requires Find(s.streams, Ssrc(pkt)) < |s.streams| || s.template.Some?
    requires var t := ReceiverStream(s, Ssrc(pkt));
             && slot < |t.keys| && Opens(t, slot) && KeyIsTold(t, slot, pkt, useMki)
             && SealedUnder(prim, t, slot, pkt, index, useMki).status == Ok
    ensures var t, g := ReceiverStream(s, Ssrc(pkt)), ReceiverGuess(s, Ssrc(pkt), Sequence(pkt));
            var q := SealedUnder(prim, t, slot, pkt, index, useMki).packet;
            && ValidHeader(q) && |q| >= RTP_HEADER && Ssrc(q) == Ssrc(pkt) && Sequence(q) == Sequence(pkt)
            && ChooseReceive(s, q, useMki)
               == if g.status != Ok && g.status != IndexAdvance then Reject(g.status)
                  else Choose(Find(s.streams, Ssrc(pkt)) == |s.streams|, Find(s.streams, Ssrc(pkt)), g, slot,
                              |MkiOctets(RtpKeysOf(t.keys[slot]), useMki)|)
  {
    hide Seal, ValidHeader, FindSlot, Ssrc, Sequence, ReceiverGuess, ReceiverStream, DistinctMkis, Find, ValidSession,
         RtpKeysOfAll;
    var t := ReceiverStream(s, Ssrc(pkt));
    var k := RtpKeysOf(t.keys[slot]);
    OpenSealed(prim, k, t.rtp, t.ids, pkt, index, useMki);
    HeaderBounds(Seal(prim, k, t.rtp, t.ids, pkt, index, useMki).packet);
    if useMki {
      SlotIsFound(prim, t, slot, pkt, index);
    }
  }

  /** The key has not come to its last use. */
  predicate KeyLasts(s: SessionState, key: KeyLimit)
    requires key in s.limits
  {
    s.limits[key].numLeft % UINT64 != 1
  }

  lemma LastingKey(s: SessionState, key: KeyLimit)
    requires key in s.limits
    ensures KeyLasts(s, key) <==> Charge(s.limits[key]).1 != HardLimit
  {
  }

  /** A sealed packet whose index the receiver guesses right is opened, if the key lasts, unless the index is
      refused; then nothing changes. */
  lemma SealedIsJudged(prim: Primitives, s: SessionState, slot: nat, pkt: Octets, index: nat, useMki: bool)
    requires ValidSession(s) && ValidHeader(pkt) && |pkt| >= RTP_HEADER
    requires Find(s.streams, Ssrc(pkt)) < |s.streams| || s.template.Some?
    requires var t := ReceiverStream(s, Ssrc(pkt));
             && slot < |t.keys| && t.keys[slot].limit in s.limits && KeyLasts(s, t.keys[slot].limit)
             && Opens(t, slot) && KeyIsTold(t, slot, pkt, useMki)
             && SealedUnder(prim, t, slot, pkt, index, useMki).status == Ok
    requires var g := ReceiverGuess(s, Ssrc(pkt), Sequence(pkt));
             g.status == Ok || g.status == IndexAdvance ==> g.est == index
    ensures var t, g := ReceiverStream(s, Ssrc(pkt)), ReceiverGuess(s, Ssrc(pkt), Sequence(pkt));
            var q := SealedUnder(prim, t, slot, pkt, index, useMki).packet;
            var key := t.keys[slot].limit;
            var s1 := s.(limits := s.limits[key := Charge(s.limits[key]).0]);
            if g.status != Ok && g.status != IndexAdvance then Unprotect(prim, s, q, useMki) == Outcome(s, g.status, q)
            else
              && CommitAllowed(s1, Ssrc(pkt), g)
              && Unprotect(prim, s, q, useMki)
                 == Outcome(Commit(s1, Ssrc(pkt), g, t.keys[slot].rtpCipher.algorithm.Gcm?), Ok, pkt)
              && (g.status == Ok || !t.keys[slot].rtpCipher.algorithm.Gcm? ==>
                    ReceiveUses(prim, s, q, useMki) == [IndexUse(RtpKeysOf(t.keys[slot]), Ssrc(pkt), index)])
  {
    hide *;
    ChoosesSealed(prim, s, slot, pkt, index, useMki);
    var t, g := ReceiverStream(s, Ssrc(pkt)), ReceiverGuess(s, Ssrc(pkt), Sequence(pkt));
    var q := SealedUnder(prim, t, slot, pkt, index, useMki).packet;
    if g.status != Ok && g.status != IndexAdvance {
      UnprotectRejects(prim, s, q, useMki);
    } else {
      SealedOpens(prim, t, slot, pkt, index, useMki);
      ChosenIs(s, q, useMki, slot);
      LastingKey(s, t.keys[slot].limit);
      UnprotectSucceeds(prim, s, q, useMki, pkt);
      UsesOfAccepted(prim, s, q, useMki);
    }
  }

  lemma SealedOpens(prim: Primitives, t: StreamState, slot: nat, pkt: Octets, index: nat, useMki: bool)
    requires slot < |t.keys| && ValidHeader(pkt) && Opens(t, slot)
    requires SealedUnder(prim, t, slot, pkt, index, useMki).status == Ok
    ensures var k, q := RtpKeysOf(t.keys[slot]), SealedUnder(prim, t, slot, pkt, index, useMki).packet;
            && ValidHeader(q)
            && Verdict(prim, k, t.rtp, q, index, |MkiOctets(k, useMki)|) == Ok
            && Open(prim, k, t.rtp, t.ids, q, index, |MkiOctets(k, useMki)|) == Result(pkt, Ok)
  {
    hide Seal, ValidHeader, Verdict, Open, MkiOctets;
    OpenSealed(prim, RtpKeysOf(t.keys[slot]), t.rtp, t.ids, pkt, index, useMki);
  }

  lemma ChosenIs(s: SessionState, q: Octets, useMki: bool, slot: nat)
    requires ValidSession(s) && |q| >= RTP_HEADER && (Find(s.streams, Ssrc(q)) < |s.streams| || s.template.Some?)
    requires ChooseReceive(s, q, useMki).Choose? && ChooseReceive(s, q, useMki).slot == slot
    ensures slot < |ReceiverStream(s, Ssrc(q)).keys|
    ensures ChosenKeys(s, q, useMki) == ReceiverStream(s, Ssrc(q)).keys[slot]
    ensures UsesGcm(s, q, useMki) == ReceiverStream(s, Ssrc(q)).keys[slot].rtpCipher.algorithm.Gcm?
    ensures Records(s, q, useMki) <==> !UsesGcm(s, q, useMki) || ChooseReceive(s, q, useMki).guess.status == Ok
  {
    hide ChooseReceive, Ssrc, Find, ReceiverStream;
    ChooseReceiveFacts(s, q, useMki);
  }

  lemma UsesOfAccepted(prim: Primitives, s: SessionState, q: Octets, useMki: bool)
    requires ValidSession(s) && Unprotect(prim, s, q, useMki).status == Ok
    ensures ChooseReceive(s, q, useMki).Choose? && |q| >= RTP_HEADER
    ensures ReceiveUses(prim, s, q, useMki)
            == if !Records(s, q, useMki) then []
               else [IndexUse(RtpKeysOf(ChosenKeys(s, q, useMki)), Ssrc(q), ChooseReceive(s, q, useMki).guess.est)]
  {
    hide ValidSession, Unprotect, ChooseReceive, Records, ChosenKeys, Ssrc, ValidHeader, RtpKeysOf;
    AcceptedWasChosen(prim, s, q, useMki);
  }

  // ----- Exactly when it is accepted

  /** What the receiver has to know of the index: a pending rollover counter is that of the packet; without
      one, the packet is of the first range of sequence numbers and the receiver at its start, or it is near
      the receiver's index. */
  predicate Reaches(t: StreamState, i: nat) {
    if t.pendingRoc != 0 then t.pendingRoc == i / SEQ_MAX
    else (t.db.index <= MEDIAN && i < SEQ_MAX) || Near(t.db.index, i)
  }

  /** The index is neither used nor older than the window. */
  ghost predicate Unused(db: Rdbx, used: set<nat>, i: nat) {
    i !in used && i > db.index - |db.window|
  }

  lemma ReachedGuess(t: StreamState, i: nat)
    requires t.pendingRoc < UINT32 && t.db.index < INDEX_LIMIT && i < INDEX_LIMIT && Reaches(t, i)
    ensures var g := GuessIndex(t, i % SEQ_MAX);
            && g.est == i && (g.status == Ok ==> g.delta == i - t.db.index < SEQ_MAX)
            && (t.pendingRoc == 0 ==> g.status == Ok)
            && (t.pendingRoc != 0 ==>
                  && (g.status == Ok <==> Distance(i, t.db.index) <= MEDIAN)
                  && (g.status == IndexAdvance <==> i > t.db.index + MEDIAN)
                  && (g.status == Ok || g.status == IndexAdvance || g.status == IndexOld))
  {
    hide EstimateIndex, EstimateWithRoc;
    if t.pendingRoc == 0 {
      EstimateIsTheIndexIff(t.db, i);
      EstimateIsIndexPlusDelta(t.db, i % SEQ_MAX);
      NearDoesNotWrap(t.db.index, i);
    } else {
      EstimateWithRocIsExact(t.db.index, t.pendingRoc, i % SEQ_MAX);
    }
  }

  lemma NearDoesNotWrap(index: nat, i: nat)
    requires index < INDEX_LIMIT && i < INDEX_LIMIT
    requires (index <= MEDIAN && i < SEQ_MAX) || Near(index, i)
    ensures !RocWraps(index, i % SEQ_MAX)
    ensures index <= MEDIAN ==> i < SEQ_MAX
  {
    var k := i / SEQ_MAX - index / SEQ_MAX;
    assert i - index == k * SEQ_MAX + i % SEQ_MAX - index % SEQ_MAX;
  }

  /** The verdict on the index. */
  lemma ReachedVerdict(s: SessionState, ssrc: nat, i: nat, used: set<nat>)
    requires ValidSession(s) && Find(s.streams, ssrc) < |s.streams| && i < INDEX_LIMIT
    requires var t := ReceiverStream(s, ssrc);
             t.db.index < INDEX_LIMIT && Reaches(t, i) && Covers(t.db, used) && MarksOnly(t.db, used)
    ensures var t, g := ReceiverStream(s, ssrc), ReceiverGuess(s, ssrc, i % SEQ_MAX);
            && ValidWindow(t.db)
            && g.est == i && (g.status == Ok ==> g.delta == i - t.db.index < SEQ_MAX)
            && (g.status == Ok || g.status == IndexAdvance <==> Unused(t.db, used, i))
            && (g.status == IndexAdvance ==> t.pendingRoc != 0 && i > t.db.index + MEDIAN)
  {
    hide GuessIndex, Check, Covers, MarksOnly, Reaches;
    var t := ReceiverStream(s, ssrc);
    assert ValidStream(t, s.limits);
    ReachedGuess(t, i);
    CheckIsExact(t.db, used, i);
    AheadIsUnused(t.db, used, i);
    CheckStatuses(t.db, i - t.db.index);
  }

  lemma CheckStatuses(db: Rdbx, delta: int)
    ensures Check(db, delta) != IndexAdvance
  {
  }

  lemma AheadIsUnused(db: Rdbx, used: set<nat>, i: nat)
    requires Covers(db, used)
    ensures i > db.index ==> i !in used
  {
  }

  /** What the receiver's stream remembers afterwards. */
  lemma CommittedTracks(s: SessionState, ssrc: nat, g: Guess, gcm: bool, used: set<nat>)
    requires CommitAllowed(s, ssrc, g) && Find(s.streams, ssrc) < |s.streams|
    requires var t := ReceiverStream(s, ssrc);
             && t.db.index < INDEX_LIMIT && Covers(t.db, used) && MarksOnly(t.db, used) && g.est < INDEX_LIMIT
             && if g.status == IndexAdvance then !gcm && g.est > t.db.index + MEDIAN
                else g.delta == g.est - t.db.index < SEQ_MAX
    ensures var t, s' := ReceiverStream(s, ssrc), Commit(s, ssrc, g, gcm);
            && Find(s'.streams, ssrc) == Find(s.streams, ssrc) && |s'.streams| == |s.streams|
            && var u := ReceiverStream(s', ssrc);
               && u == t.(db := u.db, direction := u.direction, pendingRoc := u.pendingRoc)
               && Covers(u.db, used + {g.est}) && MarksOnly(u.db, used + {g.est})
               && u.db.index == (if g.est > t.db.index then g.est else t.db.index)
               && u.pendingRoc == (if g.status == IndexAdvance then 0 else t.pendingRoc)
               && |u.db.window| == |t.db.window|
               && s'.limits == s.limits
  {
    hide AddIndex, SetRocSeq, Covers, MarksOnly;
    var t, at := ReceiverStream(s, ssrc), Find(s.streams, ssrc);
    var s' := Commit(s, ssrc, g, gcm);
    SameSsrcsFind(s.streams, s'.streams, ssrc);
    if g.status == IndexAdvance {
      SetRocSeqKeepsWindow(t.db, 0);
      AdvanceTracks(t.db, used, g.est);
      SetMarked(t.db, g.est);
    } else {
      AddIndexTracks(t.db, used, g.est);
    }
  }

  lemma SetMarked(db: Rdbx, i: nat)
    requires ValidWindow(db) && db.index < i < INDEX_LIMIT
    ensures var r := SetRocSeq(db, i / SEQ_MAX, i % SEQ_MAX);
            ValidWindow(r.db) && AddIndex(r.db, 0).index == i
  {
    assert i / SEQ_MAX >= db.index / SEQ_MAX;
  }

  /** A sealed packet that reaches a listed stream with the same keys is accepted exactly if its index is
      neither used nor older than the window. Then it is restored, and the index is recorded, except by the
      authenticated cipher under a pending counter when it is far ahead. Otherwise nothing changes. */
  lemma SealedIsDelivered(
    prim: Primitives, s: SessionState, slot: nat, pkt: Octets, i: nat, useMki: bool, used: set<nat>)
    requires ValidSession(s) && ValidHeader(pkt) && |pkt| >= RTP_HEADER && Find(s.streams, Ssrc(pkt)) < |s.streams|
    requires var t := ReceiverStream(s, Ssrc(pkt));
             && slot < |t.keys| && t.keys[slot].limit in s.limits && KeyLasts(s, t.keys[slot].limit)
             && Opens(t, slot) && KeyIsTold(t, slot, pkt, useMki)
             && SealedUnder(prim, t, slot, pkt, i, useMki).status == Ok
             && i < INDEX_LIMIT && i % SEQ_MAX == Sequence(pkt) && t.db.index < INDEX_LIMIT && Reaches(t, i)
             && Covers(t.db, used) && MarksOnly(t.db, used)
    ensures var t, q := ReceiverStream(s, Ssrc(pkt)),
                        SealedUnder(prim, ReceiverStream(s, Ssrc(pkt)), slot, pkt, i, useMki).packet;
            var r := Unprotect(prim, s, q, useMki);
            && (r.status == Ok <==> Unused(t.db, used, i))
            && (r.status != Ok ==> r.session == s)
            && (r.status == Ok ==> r.packet == pkt)
            && (r.status == Ok
                && !(t.keys[slot].rtpCipher.algorithm.Gcm? && t.pendingRoc != 0 && i > t.db.index + MEDIAN) ==>
                  && ReceiveUses(prim, s, q, useMki) == [IndexUse(RtpKeysOf(t.keys[slot]), Ssrc(pkt), i)]
                  && Find(r.session.streams, Ssrc(pkt)) == Find(s.streams, Ssrc(pkt)) < |r.session.streams|
                  && var u := ReceiverStream(r.session, Ssrc(pkt));
                     && u == t.(db := u.db, direction := u.direction, pendingRoc := u.pendingRoc)
                     && Covers(u.db, used + {i}) && MarksOnly(u.db, used + {i})
                     && u.db.index == (if i > t.db.index then i else t.db.index)
                     && (t.pendingRoc == 0 ==> u.pendingRoc == 0) && |u.db.window| == |t.db.window|
                     && r.session.limits
                        == s.limits[t.keys[slot].limit := Charge(s.limits[t.keys[slot].limit]).0])
  {
    hide *;
    var ssrc := Ssrc(pkt);
    var t, g := ReceiverStream(s, ssrc), ReceiverGuess(s, ssrc, Sequence(pkt));
    ReachedVerdict(s, ssrc, i, used);
    SealedIsJudged(prim, s, slot, pkt, i, useMki);
    var key, gcm := t.keys[slot].limit, t.keys[slot].rtpCipher.algorithm.Gcm?;
    if Unused(t.db, used, i) && !(gcm && t.pendingRoc != 0 && i > t.db.index + MEDIAN) {
      var s1 := s.(limits := s.limits[key := Charge(s.limits[key]).0]);
      SameStream(s, s1, ssrc);
      CommittedTracks(s1, ssrc, g, gcm, used);
    }
  }

  lemma SameStream(s: SessionState, s': SessionState, ssrc: nat)
    requires s' == s.(limits := s'.limits) && Find(s.streams, ssrc) < |s.streams|
    ensures Find(s'.streams, ssrc) == Find(s.streams, ssrc) < |s'.streams|
    ensures ReceiverStream(s', ssrc) == ReceiverStream(s, ssrc)
  {
  }

  // ----- From session to session

  /** The slot that a sender with these arguments uses. */
  function NamedSlot(t: StreamState, useMki: bool, mkiIndex: nat): nat {
    if useMki && mkiIndex < |t.keys| then mkiIndex else 0
  }

  /** A receiver on the same keys can find and undo what the sender does. */
  ghost predicate Compatible(t: StreamState, u: StreamState, pkt: Octets, useMki: bool, mkiIndex: nat) {
    && Peers(t, u) && t.keys != []
    && Opens(t, NamedSlot(t, useMki, mkiIndex))
    && (useMki ==> DistinctMkis(RtpKeysOfAll(t.keys)) && |pkt| >= |t.keys[NamedSlot(t, useMki, mkiIndex)].mki|)
  }

  lemma SentIsSealed(
    prim: Primitives, tx: SessionState, u: StreamState, pkt: Octets, useMki: bool, mkiIndex: nat)
    requires ValidSession(tx) && Protect(prim, tx, pkt, useMki, mkiIndex).status == Ok
    requires |pkt| >= RTP_HEADER && (Find(tx.streams, Ssrc(pkt)) < |tx.streams| || tx.template.Some?)
    requires Compatible(ReceiverStream(tx, Ssrc(pkt)), u, pkt, useMki, mkiIndex)
    ensures ValidHeader(pkt) && PrepareSend(tx, pkt, useMki, mkiIndex).Ready?
    ensures var slot, i := NamedSlot(u, useMki, mkiIndex), PrepareSend(tx, pkt, useMki, mkiIndex).index;
            && i < INDEX_LIMIT && i % SEQ_MAX == Sequence(pkt)
            && slot < |u.keys| && Opens(u, slot) && KeyIsTold(u, slot, pkt, useMki)
            && SealedUnder(prim, u, slot, pkt, i, useMki)
               == Result(Protect(prim, tx, pkt, useMki, mkiIndex).packet, Ok)
  {
    hide Protect, PrepareSend, Seal, ValidSession, ReceiverStream, Ssrc, Sequence, ValidHeader, RtpKeysOf, DistinctMkis,
         Peers, RtpKeysOfAll, Opens;
    SealedUnderNamedKey(prim, tx, pkt, useMki, mkiIndex);
    var t, i := ReceiverStream(tx, Ssrc(pkt)), PrepareSend(tx, pkt, useMki, mkiIndex).index;
    PeerSeals(prim, t, u, NamedSlot(t, useMki, mkiIndex), pkt, i, useMki);
  }

  /** A packet that is protected in one session is accepted in another one that lists its SSRC with the same keys
      and services, exactly if the receiver has not used its index and it is not older than the window; then
      it arrives with its octets. */
  lemma PacketIsDelivered(
    prim: Primitives, tx: SessionState, rx: SessionState, pkt: Octets, useMki: bool, mkiIndex: nat, used: set<nat>)
    requires ValidSession(tx) && Protect(prim, tx, pkt, useMki, mkiIndex).status == Ok && ValidSession(rx)
    requires |pkt| >= RTP_HEADER && (Find(tx.streams, Ssrc(pkt)) < |tx.streams| || tx.template.Some?)
    requires Find(rx.streams, Ssrc(pkt)) < |rx.streams|
    requires var u := ReceiverStream(rx, Ssrc(pkt));
             && Compatible(ReceiverStream(tx, Ssrc(pkt)), u, pkt, useMki, mkiIndex)
             && PrepareSend(tx, pkt, useMki, mkiIndex).Ready?
             && u.db.index < INDEX_LIMIT && Reaches(u, PrepareSend(tx, pkt, useMki, mkiIndex).index)
             && Covers(u.db, used) && MarksOnly(u.db, used)
             && (var slot := NamedSlot(u, useMki, mkiIndex);
                 slot < |u.keys| && u.keys[slot].limit in rx.limits && KeyLasts(rx, u.keys[slot].limit))
    ensures var i, u := PrepareSend(tx, pkt, useMki, mkiIndex).index, ReceiverStream(rx, Ssrc(pkt));
            var q := Protect(prim, tx, pkt, useMki, mkiIndex).packet;
            var r := Unprotect(prim, rx, q, useMki);
            && (r.status == Ok <==> Unused(u.db, used, i))
            && (r.status == Ok ==> r.packet == pkt)
            && (r.status != Ok ==> r.session == rx)
            && (r.status == Ok && (u.pendingRoc == 0 || i <= u.db.index + MEDIAN) ==>
                  ReceiveUses(prim, rx, q, useMki)
                  == [IndexUse(RtpKeysOf(u.keys[NamedSlot(u, useMki, mkiIndex)]), Ssrc(pkt), i)])
  {
    hide *;
    var u := ReceiverStream(rx, Ssrc(pkt));
    SentIsSealed(prim, tx, u, pkt, useMki, mkiIndex);
    var i := PrepareSend(tx, pkt, useMki, mkiIndex).index;
    SealedIsDelivered(prim, rx, NamedSlot(u, useMki, mkiIndex), pkt, i, useMki, used);
  }

  /** The same after any run that is known not to wrap and in which everything accepted is recorded: the packet
      is accepted exactly if the run has not used its index and it is not older than the window. */
  lemma DeliveredAfterRun(
    prim: Primitives, tx: SessionState, s: SessionState, run: seq<Operation>, r: nat,
    pkt: Octets, useMki: bool, mkiIndex: nat)
    requires ValidSession(tx) && Protect(prim, tx, pkt, useMki, mkiIndex).status == Ok
    requires |pkt| >= RTP_HEADER && (Find(tx.streams, Ssrc(pkt)) < |tx.streams| || tx.template.Some?)
    requires GuardedSession(s, {}) && Exact(s.streams, {}) && NoRepeats(s)
    requires Epoch(run) && Short(s.streams, run, r) && r + 1 + RtpCount(run) < UINT32 && AllRecorded(prim, s, run)
    requires var rx := AfterRun(prim, s, run);
             && Find(rx.streams, Ssrc(pkt)) < |rx.streams|
             && var u := ReceiverStream(rx, Ssrc(pkt));
                && Compatible(ReceiverStream(tx, Ssrc(pkt)), u, pkt, useMki, mkiIndex)
                && PrepareSend(tx, pkt, useMki, mkiIndex).Ready?
                && Reaches(u, PrepareSend(tx, pkt, useMki, mkiIndex).index)
                && (var slot := NamedSlot(u, useMki, mkiIndex);
                    slot < |u.keys| && u.keys[slot].limit in rx.limits && KeyLasts(rx, u.keys[slot].limit))
    ensures var rx, i := AfterRun(prim, s, run), PrepareSend(tx, pkt, useMki, mkiIndex).index;
            var u := ReceiverStream(rx, Ssrc(pkt));
            && ValidSession(rx)
            && var out := Unprotect(prim, rx, Protect(prim, tx, pkt, useMki, mkiIndex).packet, useMki);
               && (out.status == Ok
                   <==> PacketId(Ssrc(pkt), i) !in UsedIn(prim, s, {}, run) && i > u.db.index - |u.db.window|)
               && (out.status == Ok ==> out.packet == pkt)
  {
    hide *;
    RunExact(prim, s, {}, run, r);
    var rx, used := AfterRun(prim, s, run), UsedIn(prim, s, {}, run);
    GuardedIsValid(rx, used);
    ExactStream(rx, used, Ssrc(pkt), r + RtpCount(run));
    PacketIsDelivered(prim, tx, rx, pkt, useMki, mkiIndex, UsedBy(used, Ssrc(pkt)));
    UnusedIs(ReceiverStream(rx, Ssrc(pkt)).db, used, Ssrc(pkt), PrepareSend(tx, pkt, useMki, mkiIndex).index);
  }

  lemma ExactStream(s: SessionState, used: set<PacketId>, ssrc: nat, r: nat)
    requires GuardedSession(s, used) && Exact(s.streams, used) && Low(s.streams, r) && r < UINT32
    requires Find(s.streams, ssrc) < |s.streams|
    ensures var t := ReceiverStream(s, ssrc);
            && t.db.index < INDEX_LIMIT && Covers(t.db, UsedBy(used, ssrc)) && MarksOnly(t.db, UsedBy(used, ssrc))
  {
    hide UsedBy, Covers, MarksOnly;
  }

  lemma UnusedIs(db: Rdbx, used: set<PacketId>, ssrc: nat, i: nat)
    ensures Unused(db, UsedBy(used, ssrc), i) <==> PacketId(ssrc, i) !in used && i > db.index - |db.window|
  {
  }

  // ----- The first packet of a source

  /** A source that is not listed gets a stream on the keys of the template with its first packet, if that is of
      the first range of sequence numbers. */
  lemma FirstPacketIsDelivered(
    prim: Primitives, tx: SessionState, rx: SessionState, pkt: Octets, useMki: bool, mkiIndex: nat)
    requires ValidSession(tx) && Protect(prim, tx, pkt, useMki, mkiIndex).status == Ok && ValidSession(rx)
    requires |pkt| >= RTP_HEADER && (Find(tx.streams, Ssrc(pkt)) < |tx.streams| || tx.template.Some?)
    requires Find(rx.streams, Ssrc(pkt)) == |rx.streams| && rx.template.Some?
    requires var u := rx.template.value;
             && Compatible(ReceiverStream(tx, Ssrc(pkt)), u, pkt, useMki, mkiIndex)
             && PrepareSend(tx, pkt, useMki, mkiIndex).Ready? && PrepareSend(tx, pkt, useMki, mkiIndex).index < SEQ_MAX
             && (var slot := NamedSlot(u, useMki, mkiIndex);
                 slot < |u.keys| && u.keys[slot].limit in rx.limits && KeyLasts(rx, u.keys[slot].limit))
    ensures var r := Unprotect(prim, rx, Protect(prim, tx, pkt, useMki, mkiIndex).packet, useMki);
            && r.status == Ok && r.packet == pkt
            && r.session.streams != [] && r.session.streams[1..] == rx.streams
            && var t, i := r.session.streams[0], PrepareSend(tx, pkt, useMki, mkiIndex).index;
               && t.ssrc == Ssrc(pkt) && t.keys == rx.template.value.keys && t.pendingRoc == 0
               && t.db.index == i && Covers(t.db, {i}) && MarksOnly(t.db, {i})
               && |t.db.window| == |rx.template.value.db.window|
  {
    hide *;
    var ssrc, u := Ssrc(pkt), rx.template.value;
    TemplateGuess(rx, ssrc, Sequence(pkt));
    SentIsSealed(prim, tx, u, pkt, useMki, mkiIndex);
    var i, slot := PrepareSend(tx, pkt, useMki, mkiIndex).index, NamedSlot(u, useMki, mkiIndex);
    SealedIsJudged(prim, rx, slot, pkt, i, useMki);
    var key := u.keys[slot].limit;
    var s1 := rx.(limits := rx.limits[key := Charge(rx.limits[key]).0]);
    CommittedFirst(s1, ssrc, i, u.keys[slot].rtpCipher.algorithm.Gcm?);
  }

  lemma TemplateGuess(s: SessionState, ssrc: nat, seqNo: nat)
    requires ValidSession(s) && Find(s.streams, ssrc) == |s.streams| && s.template.Some? && seqNo < SEQ_MAX
    ensures ReceiverGuess(s, ssrc, seqNo) == Guess(Ok, seqNo, seqNo)
    ensures ReceiverStream(s, ssrc) == s.template.value
  {
  }

  lemma CommittedFirst(s: SessionState, ssrc: nat, i: nat, gcm: bool)
    requires CommitAllowed(s, ssrc, Guess(Ok, i, i)) && i < SEQ_MAX
    requires Find(s.streams, ssrc) == |s.streams| && s.template.Some?
    ensures var s' := Commit(s, ssrc, Guess(Ok, i, i), gcm);
            && s'.streams != [] && s'.streams[1..] == s.streams
            && var t, u := s'.streams[0], s.template.value;
               && t.ssrc == ssrc && t.keys == u.keys && t.pendingRoc == 0
               && t.db.index == i && Covers(t.db, {i}) && MarksOnly(t.db, {i})
               && |t.db.window| == |u.db.window|
  {
    hide AddIndex, Covers, MarksOnly, Empty;
    var w := |s.template.value.db.window|;
    EmptyTracks(w);
    AddIndexTracks(Empty(w), {}, i);
    assert {} + {i} == {i};
  }

  // ----- Which packets are sent, and under which index

  /** The stream as the sender's index goes by it: an authenticated cipher ignores a pending counter. */
  function SenderView(t: StreamState, gcm: bool): StreamState {
    if gcm then t.(pendingRoc := 0) else t
  }

  /** A packet is sent under the index that it reaches exactly if that is not older than the window and is unused
      or may be repeated. */
  lemma SenderIndexIff(t: StreamState, i: nat, gcm: bool, used: set<nat>)
    requires ValidWindow(t.db) && t.pendingRoc < UINT32 && t.db.index < INDEX_LIMIT && i < INDEX_LIMIT
    requires Reaches(SenderView(t, gcm), i) && Covers(t.db, used) && MarksOnly(t.db, used)
    ensures var d := SenderIndex(t, i % SEQ_MAX, gcm);
            && (d.Use? <==> i > t.db.index - |t.db.window| && (i !in used || t.allowRepeatTx))
            && (d.Use? ==> d.index == i)
  {
    hide EstimateIndex, EstimateWithRoc, GuessIndex, AddIndex, Check, Covers, MarksOnly, SetRocSeq;
    ReachedGuess(SenderView(t, gcm), i);
    CheckIsExact(t.db, used, i);
    CheckStatuses(t.db, i - t.db.index);
    AheadIsUnused(t.db, used, i);
  }

  /** The packet after the current one gets the next index, across every turn of the sequence numbers. */
  lemma NextPacketGetsNextIndex(t: StreamState, gcm: bool)
    requires ValidWindow(t.db) && t.db.index + 1 < INDEX_LIMIT && t.pendingRoc == 0
    ensures var d := SenderIndex(t, (t.db.index + 1) % SEQ_MAX, gcm);
            d.Use? && d.index == t.db.index + 1 && d.stream.db.index == t.db.index + 1 && d.stream.pendingRoc == 0
  {
    hide EstimateIndex, AddIndex;
    var i := t.db.index + 1;
    assert t.(pendingRoc := 0) == t;
    ReachedGuess(t, i);
    AddIndexMarks(t.db, i, i);
  }

  /** On a listed stream a packet is prepared exactly if the key that is named lasts and the index may be used. One
      use of that key, and of no other, is counted in any case. */
  lemma PreparedIff(s: SessionState, pkt: Octets, i: nat, useMki: bool, mkiIndex: nat, used: set<nat>)
    requires ValidSession(s) && ValidHeader(pkt) && |pkt| >= RTP_HEADER && Find(s.streams, Ssrc(pkt)) < |s.streams|
    requires i < INDEX_LIMIT && i % SEQ_MAX == Sequence(pkt)
    requires var t := ReceiverStream(s, Ssrc(pkt));
             && NamedSlot(t, useMki, mkiIndex) < |t.keys| && t.keys[NamedSlot(t, useMki, mkiIndex)].limit in s.limits
             && t.db.index < INDEX_LIMIT && Covers(t.db, used) && MarksOnly(t.db, used)
             && Reaches(SenderView(t, t.keys[NamedSlot(t, useMki, mkiIndex)].rtpCipher.algorithm.Gcm?), i)
    ensures var t, p := ReceiverStream(s, Ssrc(pkt)), PrepareSend(s, pkt, useMki, mkiIndex);
            && (p.Ready? <==>
                  && KeyLasts(s, t.keys[NamedSlot(t, useMki, mkiIndex)].limit)
                  && i > t.db.index - |t.db.window| && (i !in used || t.allowRepeatTx))
            && (p.Ready? ==> p.index == i)
            && var key := t.keys[NamedSlot(t, useMki, mkiIndex)].limit;
               p.session.limits == s.limits[key := Charge(s.limits[key]).0]
  {
    hide SenderIndex, Charge, Covers, MarksOnly, Reaches, Ssrc, Sequence, ValidHeader;
    var t := ReceiverStream(s, Ssrc(pkt));
    var slot := NamedSlot(t, useMki, mkiIndex);
    assert ValidStream(t, s.limits);
    LastingKey(s, t.keys[slot].limit);
    var u, gcm := Mark(t, Sender), t.keys[slot].rtpCipher.algorithm.Gcm?;
    assert u == t.(direction := u.direction);
    ReachesMarked(t, u, gcm, i);
    SenderIndexIff(u, i, gcm, used);
  }

  lemma ReachesMarked(t: StreamState, u: StreamState, gcm: bool, i: nat)
    requires u == t.(direction := u.direction)
    ensures Reaches(SenderView(u, gcm), i) <==> Reaches(SenderView(t, gcm), i)
  {
  }

  // ----- Streams of packets out of order

  /** A packet as it was sealed for the stream. */
  datatype Arrival = Arrival(pkt: Octets, index: nat, slot: nat, useMki: bool)

  ghost predicate SealedFor(prim: Primitives, t: StreamState, a: Arrival) {
    && ValidHeader(a.pkt) && |a.pkt| >= RTP_HEADER && Ssrc(a.pkt) == t.ssrc
    && a.index < INDEX_LIMIT && a.index % SEQ_MAX == Sequence(a.pkt)
    && a.slot < |t.keys| && Opens(t, a.slot) && KeyIsTold(t, a.slot, a.pkt, a.useMki)
    && SealedUnder(prim, t, a.slot, a.pkt, a.index, a.useMki).status == Ok
  }

  ghost function Arriving(prim: Primitives, t: StreamState, a: Arrival): Operation
    requires SealedFor(prim, t, a)
  {
    ReceiveRtpPacket(SealedUnder(prim, t, a.slot, a.pkt, a.index, a.useMki).packet, a.useMki)
  }

  /** No index comes twice; none is late by the window or more, and none leaps by half a sequence space, except
      that the first range of sequence numbers is open at the start. */
  ghost predicate Orderly(current: nat, window: nat, used: set<nat>, arrivals: seq<Arrival>)
    decreases |arrivals|
  {
    arrivals != [] ==>
      var i := arrivals[0].index;
      && i !in used && i > current - window
      && ((current <= MEDIAN && i < SEQ_MAX) || Near(current, i))
      && Orderly(if i > current then i else current, window, used + {i}, arrivals[1..])
  }

  /** Every key of the stream has more than `n` uses left. */
  ghost predicate KeysLast(s: SessionState, t: StreamState, n: nat) {
    forall slot | 0 <= slot < |t.keys| ::
      t.keys[slot].limit in s.limits && n < s.limits[t.keys[slot].limit].numLeft < UINT64
  }

  /** Each arrival is accepted in turn and arrives with its octets. */
  ghost predicate AllRestored(prim: Primitives, s: SessionState, t: StreamState, arrivals: seq<Arrival>)
    requires forall a | a in arrivals :: SealedFor(prim, t, a)
    decreases |arrivals|
  {
    arrivals != [] ==>
      var op := Arriving(prim, t, arrivals[0]);
      && Perform(prim, s, op).status == Ok && Perform(prim, s, op).packet == arrivals[0].pkt
      && AllRestored(prim, Apply(prim, s, op), t, arrivals[1..])
  }

  /** The stream for which the packets were sealed, somewhat later. */
  predicate SameSealing(t: StreamState, u: StreamState) {
    u.ssrc == t.ssrc && u.keys == t.keys && u.rtp == t.rtp && u.ids == t.ids
  }

  lemma SealedForLater(prim: Primitives, t: StreamState, u: StreamState, a: Arrival)
    requires SameSealing(t, u) && SealedFor(prim, t, a)
    ensures SealedFor(prim, u, a) && Arriving(prim, u, a) == Arriving(prim, t, a)
  {
    hide Seal, ValidHeader, Ssrc, Sequence, DistinctMkis, RtpKeysOf, RtpKeysOfAll;
  }

  /** One arrival. */
  lemma OneArrives(
    prim: Primitives, s: SessionState, t: StreamState, a: Arrival, n: nat, window: nat, used: set<nat>)
    requires ValidSession(s) && Find(s.streams, t.ssrc) < |s.streams| && SealedFor(prim, t, a)
    requires var u := ReceiverStream(s, t.ssrc);
             && SameSealing(t, u) && u.pendingRoc == 0 && u.db.index < INDEX_LIMIT && |u.db.window| == window
             && Covers(u.db, used) && MarksOnly(u.db, used)
             && a.index !in used && a.index > u.db.index - window
             && ((u.db.index <= MEDIAN && a.index < SEQ_MAX) || Near(u.db.index, a.index))
    requires 0 < n && KeysLast(s, t, n)
    ensures var op := Arriving(prim, t, a);
            var u, s' := ReceiverStream(s, t.ssrc), Apply(prim, s, op);
            && Perform(prim, s, op).status == Ok && Perform(prim, s, op).packet == a.pkt
            && ValidSession(s') && Find(s'.streams, t.ssrc) < |s'.streams| && KeysLast(s', t, n - 1)
            && var u' := ReceiverStream(s', t.ssrc);
               && SameSealing(t, u') && u'.pendingRoc == 0 && |u'.db.window| == window
               && u'.db.index == (if a.index > u.db.index then a.index else u.db.index)
               && Covers(u'.db, used + {a.index}) && MarksOnly(u'.db, used + {a.index})
  {
    hide Unprotect, Seal, ValidHeader, Ssrc, Sequence, DistinctMkis, RtpKeysOf, RtpKeysOfAll, ReceiverStream, Find,
         ValidSession, Covers, MarksOnly, Near, Charge, Opens, Perform, Apply, KeysLast, ReceiveUses;
    var u := ReceiverStream(s, t.ssrc);
    SealedForLater(prim, t, u, a);
    KeysLastFor(s, t, n, a.slot);
    SealedIsDelivered(prim, s, a.slot, a.pkt, a.index, a.useMki, used);
    var op := Arriving(prim, t, a);
    PerformReceives(prim, s, op.pkt, op.useMki);
    RtcpRepeats.ApplyKeepsValid(prim, s, op);
    KeysStillLast(s, Apply(prim, s, op), t, n, t.keys[a.slot].limit);
  }

  lemma KeysLastFor(s: SessionState, t: StreamState, n: nat, slot: nat)
    requires KeysLast(s, t, n) && 0 < n && slot < |t.keys|
    ensures t.keys[slot].limit in s.limits && KeyLasts(s, t.keys[slot].limit)
  {
  }

  lemma PerformReceives(prim: Primitives, s: SessionState, q: Octets, useMki: bool)
    requires ValidSession(s)
    ensures Perform(prim, s, ReceiveRtpPacket(q, useMki)) == Unprotect(prim, s, q, useMki)
    ensures Apply(prim, s, ReceiveRtpPacket(q, useMki)) == Unprotect(prim, s, q, useMki).session
  {
    hide ValidSession, Unprotect;
  }

  lemma KeysStillLast(s: SessionState, s': SessionState, t: StreamState, n: nat, key: KeyLimit)
    requires 0 < n && KeysLast(s, t, n) && key in s.limits && s'.limits == s.limits[key := Charge(s.limits[key]).0]
    ensures KeysLast(s', t, n - 1)
  {
  }

  /** Packets of one stream may arrive in any order that is not too far from that of their indices: if none comes
      twice, none is late by the window or more, and none leaps by half a sequence space, then each of them
      is accepted and arrives with its octets, over any number of turns of the sequence numbers. */
  lemma {:induction false} OrderlyPacketsArrive(
    prim: Primitives, s: SessionState, t: StreamState, arrivals: seq<Arrival>, window: nat, used: set<nat>)
    requires ValidSession(s) && Find(s.streams, t.ssrc) < |s.streams|
    requires forall a | a in arrivals :: SealedFor(prim, t, a)
    requires var u := ReceiverStream(s, t.ssrc);
             && SameSealing(t, u) && u.pendingRoc == 0 && u.db.index < INDEX_LIMIT && |u.db.window| == window
             && Covers(u.db, used) && MarksOnly(u.db, used) && Orderly(u.db.index, window, used, arrivals)
    requires KeysLast(s, t, |arrivals|)
    ensures AllRestored(prim, s, t, arrivals)
    decreases |arrivals|
  {
    hide SealedFor, Arriving, ValidSession, Covers, MarksOnly, Near, KeysLast, SameSealing, Perform, Apply, Find,
         ReceiverStream;
    if arrivals != [] {
      var a := arrivals[0];
      assert SealedFor(prim, t, a);
      OneArrives(prim, s, t, a, |arrivals|, window, used);
      IndexInRange(prim, t, a);
      OrderlyPacketsArrive(prim, Apply(prim, s, Arriving(prim, t, a)), t, arrivals[1..], window, used + {a.index});
    }
  }

  lemma IndexInRange(prim: Primitives, t: StreamState, a: Arrival)
    requires SealedFor(prim, t, a)
    ensures a.index < INDEX_LIMIT
  {
    hide Seal, ValidHeader, Ssrc, Sequence, DistinctMkis, RtpKeysOf, RtpKeysOfAll;
  }
}
