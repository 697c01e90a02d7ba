/** Invariants of the session state: well-formedness, unique SSRCs, and replay databases that
    cover everything recorded so far. */
module SessionInvariants {
  import opened Octets
  import opened SrtpStatus
  import opened Crypto
  import opened ReplayWindow
  import opened IndexEstimate
  import opened RtpPacket
  import opened SessionKey
  import opened SessionModel

  // ----- One stream

  /** The index to be recorded is beyond 48 bits, and the packet is given what is left of it. */
  predicate Laps(t: StreamState, s: nat)
    requires s < SEQ_MAX
  {
    t.pendingRoc == 0 && t.db.index + EstimateIndex(t.db, s).delta >= INDEX_LIMIT
  }

  /** On the first lap that is where the rollover counter wraps, and then the index starts again with
      the bare sequence number. */
  lemma LapIsWrap(t: StreamState, s: nat)
    requires s < SEQ_MAX && t.db.index < INDEX_LIMIT
    ensures Laps(t, s) <==> t.pendingRoc == 0 && RocWraps(t.db.index, s)
    ensures Laps(t, s) ==> EstimateIndex(t.db, s).est == s
  {
    WrapIsOverrun(t.db, s);
  }

  /** The index comes from an earlier lap, and was used there. */
  predicate LapsOnto(t: StreamState, s: nat, used: set<nat>)
    requires s < SEQ_MAX
  {
    Laps(t, s) && EstimateIndex(t.db, s).est in used
  }

  /** The database covers what was used, and has left the 48-bit range by no more than the uses
      account for. */
  ghost predicate Guarded(t: StreamState, used: set<nat>) {
    && ValidWindow(t.db) && Covers(t.db, used)
    && (forall i | i in used :: i < INDEX_LIMIT)
    && t.db.index <= INDEX_LIMIT + MEDIAN * |used|
  }

  lemma {:induction false} AtMost(used: set<nat>, n: nat)
    requires forall i | i in used :: i < n
    ensures |used| <= n
  {
    if n > 0 {
      AtMost(used - {n - 1}, n - 1);
      assert used <= used - {n - 1} + {n - 1};
      if n - 1 in used {
        assert used == used - {n - 1} + {n - 1};
      } else {
        assert used == used - {n - 1};
      }
    } else if i: nat :| i in used {
      assert false;
    }
  }

  /** There are only 2^48 indices to use, so the 64-bit index never wraps. */
  lemma IndexFits(t: StreamState, used: set<nat>)
    requires Guarded(t, used)
    ensures t.db.index + SEQ_MAX < UINT64
  {
    AtMost(used, INDEX_LIMIT);
  }

  /** The pace of the index, and where it is: the estimate is the index plus the difference unless
      the index laps, and then it lies at least a whole lap back. */
  lemma GuessIsPaced(t: StreamState, s: nat)
    requires s < SEQ_MAX && t.pendingRoc < UINT32
    ensures var g := GuessIndex(t, s);
            && g.est < INDEX_LIMIT && g.est % SEQ_MAX == s
            && (g.status == IndexAdvance ==> g.delta == 0 && g.est > t.db.index + MEDIAN)
            && (g.status == Ok ==>
                  && -SEQ_MAX < g.delta < SEQ_MAX && t.db.index + g.delta >= 0
                  && (t.db.index + g.delta < INDEX_LIMIT || g.delta <= MEDIAN)
                  && (if Laps(t, s) then g.est + INDEX_LIMIT <= t.db.index + g.delta
                      else g.est == t.db.index + g.delta))
  {
    hide IndexGuess;
    if t.pendingRoc != 0 {
      EstimateWithRocIsExact(t.db.index, t.pendingRoc, s);
    } else if t.db.index > MEDIAN {
      EstimateIsTruncated(t.db, s);
      LapsBack(t.db.index + EstimateIndex(t.db, s).delta);
      EstimateRange(t.db, s);
    }
  }

  lemma LapsBack(n: nat)
    ensures n % INDEX_LIMIT < INDEX_LIMIT
    ensures if n >= INDEX_LIMIT then n % INDEX_LIMIT + INDEX_LIMIT <= n else n % INDEX_LIMIT == n
  {
  }

  /** An index a stream may use is new unless it laps onto a used one; once recorded, a new one stays
      guarded against. */
  lemma GuessIsFresh(t: StreamState, s: nat, used: set<nat>)
    requires Guarded(t, used) && s < SEQ_MAX && t.pendingRoc < UINT32
    ensures var g := GuessIndex(t, s);
            && g.est < INDEX_LIMIT && g.est % SEQ_MAX == s
            && (g.status == IndexAdvance ==>
                  && g.delta == 0 && g.est > t.db.index
                  && g.est !in used && Guarded(Advance(t, g.est), used + {g.est}))
            && (g.status == Ok ==> -SEQ_MAX < g.delta < SEQ_MAX)
            && (g.status == Ok && Check(t.db, g.delta) == Ok ==>
                  && |t.db.window| - 1 + g.delta >= 0
                  && (g.est in used <==> LapsOnto(t, s, used))
                  && (g.est !in used ==> Guarded(t.(db := AddIndex(t.db, g.delta)), used + {g.est})))
  {
    hide AddIndex, IndexGuess, Covers, Marked, EstimateIndex, EstimateWithRoc, LeftShift, Laps;
    var g := GuessIndex(t, s);
    GuessIsPaced(t, s);
    if g.status == IndexAdvance {
      AdvanceTracks(t.db, used, g.est);
      AddIndexTracks(SetRocSeq(t.db, g.est / SEQ_MAX, g.est % SEQ_MAX).db, {}, g.est) by {
        NothingCovered(SetRocSeq(t.db, g.est / SEQ_MAX, g.est % SEQ_MAX).db);
      }
    } else if g.status == Ok && Check(t.db, g.delta) == Ok {
      RecordingGuards(t, used, g.est, g.delta, Laps(t, s));
      LapsOntoIs(t, s, used);
    }
  }

  lemma LapsOntoIs(t: StreamState, s: nat, used: set<nat>)
    requires s < SEQ_MAX && t.pendingRoc < UINT32
    ensures LapsOnto(t, s, used) <==> Laps(t, s) && GuessIndex(t, s).est in used
  {
    hide EstimateIndex, EstimateWithRoc;
  }

  lemma RecordingGuards(t: StreamState, used: set<nat>, est: nat, delta: int, laps: bool)
    requires Guarded(t, used) && Check(t.db, delta) == Ok && est < INDEX_LIMIT
    requires -SEQ_MAX < delta < SEQ_MAX && t.db.index + delta >= 0
    requires t.db.index + delta < INDEX_LIMIT || delta <= MEDIAN
    requires if laps then est + INDEX_LIMIT <= t.db.index + delta else est == t.db.index + delta
    ensures |t.db.window| - 1 + delta >= 0
    ensures est in used ==> laps
    ensures est !in used ==> Guarded(t.(db := AddIndex(t.db, delta)), used + {est})
  {
    hide AddIndex, Covers, Marked;
    var n := t.db.index + delta;
    IndexFits(t, used);
    CheckRejects(t.db, used, n);
    AddIndexTracks(t.db, used, n);
    CoversFarBack(AddIndex(t.db, delta), used, n, est);
  }

  /** What lies further back than the window needs no mark. */
  lemma CoversFarBack(db: Rdbx, used: set<nat>, n: nat, est: nat)
    requires Covers(db, used + {n}) && (est == n || db.index - est >= |db.window|)
    ensures Covers(db, used + {est})
  {
    assert forall i | i in used :: i in used + {n};
  }

  lemma NothingCovered(db: Rdbx)
    ensures Covers(db, {})
  {
  }

  lemma CheckRejects(db: Rdbx, used: set<nat>, i: nat)
    requires Covers(db, used) && Check(db, i - db.index) == Ok
    ensures i !in used
  {
  }

  lemma CoversSubset(db: Rdbx, used: set<nat>, fewer: set<nat>)
    requires Covers(db, used) && fewer <= used
    ensures Covers(db, fewer)
  {
  }

  // ----- The whole session

  /** A recorded packet index of one synchronization source. */
  datatype PacketId = PacketId(ssrc: nat, index: nat)

  function UsedBy(used: set<PacketId>, ssrc: nat): set<nat> {
    set u | u in used && u.ssrc == ssrc :: u.index
  }

  predicate Listed(streams: seq<StreamState>, ssrc: nat) {
    exists i | 0 <= i < |streams| :: streams[i].ssrc == ssrc
  }

  /** Every recorded index belongs to a listed stream that guards against its reuse. */
  ghost predicate GuardedSession(s: SessionState, used: set<PacketId>) {
    && ValidSession(s)
    && UniqueSsrcs(s.streams)
    && (forall i | 0 <= i < |s.streams| :: Guarded(s.streams[i], UsedBy(used, s.streams[i].ssrc)))
    && (forall u | u in used :: Listed(s.streams, u.ssrc))
  }

  lemma UsedByAdding(used: set<PacketId>, u: PacketId, ssrc: nat)
    ensures u.ssrc == ssrc ==> UsedBy(used + {u}, ssrc) == UsedBy(used, ssrc) + {u.index}
    ensures u.ssrc != ssrc ==> UsedBy(used + {u}, ssrc) == UsedBy(used, ssrc)
  {
    var more := UsedBy(used + {u}, ssrc);
    forall i | i in UsedBy(used, ssrc)
      ensures i in more
    {
      var v :| v in used && v.ssrc == ssrc && v.index == i;
      assert v in used + {u};
    }
    if u.ssrc == ssrc {
      assert u in used + {u};
    }
  }

  lemma UnlistedUnused(s: SessionState, used: set<PacketId>, ssrc: nat)
    requires GuardedSession(s, used) && !Listed(s.streams, ssrc)
    ensures UsedBy(used, ssrc) == {}
  {
  }

  lemma FindListed(streams: seq<StreamState>, ssrc: nat)
    ensures Listed(streams, ssrc) <==> Find(streams, ssrc) < |streams|
  {
  }

  /** Replacing a stream by one that has recorded one more index. */
  lemma ReplaceGuards(s: SessionState, used: set<PacketId>, at: nat, t: StreamState, index: nat)
    requires GuardedSession(s, used) && at < |s.streams| && t.ssrc == s.streams[at].ssrc
    requires ValidStream(t, s.limits) && Guarded(t, UsedBy(used, t.ssrc) + {index})
    ensures GuardedSession(WithStream(s, at, t), used + {PacketId(t.ssrc, index)})
  {
    hide ValidStream, Guarded, UsedBy;
    var s', u := WithStream(s, at, t), PacketId(t.ssrc, index);
    forall i | 0 <= i < |s'.streams|
      ensures Guarded(s'.streams[i], UsedBy(used + {u}, s'.streams[i].ssrc))
    {
      UsedByAdding(used, u, s'.streams[i].ssrc);
      assert i != at ==> s'.streams[i] == s.streams[i] && s'.streams[i].ssrc != t.ssrc;
    }
    forall v | v in used + {u}
      ensures Listed(s'.streams, v.ssrc)
    {
      if v == u {
        assert s'.streams[at].ssrc == v.ssrc;
      } else {
        var i :| 0 <= i < |s.streams| && s.streams[i].ssrc == v.ssrc;
        assert s'.streams[i].ssrc == v.ssrc;
      }
    }
  }

  /** Replacing a stream by one that guards the same indices. */
  lemma KeepGuards(s: SessionState, used: set<PacketId>, at: nat, t: StreamState)
    requires GuardedSession(s, used) && at < |s.streams| && t.ssrc == s.streams[at].ssrc
    requires ValidStream(t, s.limits) && Guarded(t, UsedBy(used, t.ssrc))
    ensures GuardedSession(WithStream(s, at, t), used)
  {
    hide ValidStream, Guarded, UsedBy;
    var s' := WithStream(s, at, t);
    forall v | v in used
      ensures Listed(s'.streams, v.ssrc)
    {
      var i :| 0 <= i < |s.streams| && s.streams[i].ssrc == v.ssrc;
      assert s'.streams[i].ssrc == v.ssrc;
    }
  }

  /** Putting a stream for an unlisted SSRC at the head. */
  lemma PrependGuards(s: SessionState, used: set<PacketId>, t: StreamState)
    requires GuardedSession(s, used) && !Listed(s.streams, t.ssrc)
    requires ValidStream(t, s.limits) && Guarded(t, {})
    ensures GuardedSession(s.(streams := [t] + s.streams), used)
  {
    UnlistedUnused(s, used, t.ssrc);
    hide ValidStream, Guarded, UsedBy;
    var s' := s.(streams := [t] + s.streams);
    forall i | 0 <= i < |s'.streams|
      ensures ValidStream(s'.streams[i], s'.limits)
      ensures Guarded(s'.streams[i], UsedBy(used, s'.streams[i].ssrc))
    {
      assert i > 0 ==> s'.streams[i] == s.streams[i - 1];
    }
    forall v | v in used
      ensures Listed(s'.streams, v.ssrc)
    {
      var i :| 0 <= i < |s.streams| && s.streams[i].ssrc == v.ssrc;
      assert s'.streams[i + 1].ssrc == v.ssrc;
    }
  }

  /** Charging a key limit concerns no stream. */
  lemma ChargeGuards(s: SessionState, used: set<PacketId>, key: KeyLimit, limit: Limit)
    requires GuardedSession(s, used)
    ensures GuardedSession(s.(limits := s.limits[key := limit]), used)
  {
    hide Guarded, UsedBy, Listed;
  }

  lemma TemplateGuards(s: SessionState, used: set<PacketId>, t: StreamState)
    requires GuardedSession(s, used) && ValidStream(t, s.limits)
    ensures GuardedSession(s.(template := Some(t)), used)
  {
    hide ValidStream, Guarded, UsedBy, Listed;
  }

  lemma CloneIsGuarded(template: StreamState, ssrc: nat, limits: map<KeyLimit, Limit>)
    requires ValidStream(template, limits) && ssrc < UINT32
    ensures var t := Clone(template, ssrc);
            && ValidStream(t, limits) && Guarded(t, {}) && t.ssrc == ssrc
            && ValidStream(t.(direction := Sender), limits) && Guarded(t.(direction := Sender), {})
            && t.db.index == 0
  {
    NothingCovered(Empty(|template.db.window|));
  }

  // ----- Protecting

  ghost predicate NoRepeats(s: SessionState) {
    && (forall i | 0 <= i < |s.streams| :: !s.streams[i].allowRepeatTx)
    && (s.template.Some? ==> !s.template.value.allowRepeatTx)
  }

  /** The stream as the sender estimates with it: the authenticated cipher ignores a pending counter. */
  function SendingStream(t: StreamState, gcm: bool): StreamState {
    if gcm then t.(pendingRoc := 0) else t
  }

  /** What a caller can check before protecting: the packet would be given an index of an earlier lap
      that was used there. */
  predicate SendLapsOnto(s: SessionState, used: set<PacketId>, pkt: Octets, useMki: bool, mkiIndex: nat) {
    && ValidHeader(pkt)
    && Find(s.streams, Ssrc(pkt)) < |s.streams|
    && var t := s.streams[Find(s.streams, Ssrc(pkt))];
       && t.keys != []
       && var gcm := t.keys[SelectedSlot(|t.keys|, useMki, mkiIndex)].rtpCipher.algorithm.Gcm?;
          LapsOnto(SendingStream(t, gcm), Sequence(pkt), UsedBy(used, Ssrc(pkt)))
  }

  lemma SenderIndexIsFresh(t: StreamState, s: nat, gcm: bool, used: set<nat>)
    requires Guarded(t, used) && s < SEQ_MAX && t.pendingRoc < UINT32 && !t.allowRepeatTx
    ensures var d := SenderIndex(t, s, gcm);
            d.Use? ==>
              && d.index < INDEX_LIMIT && d.index % SEQ_MAX == s
              && (d.index in used <==> LapsOnto(SendingStream(t, gcm), s, used))
              && (d.index !in used ==> Guarded(d.stream, used + {d.index}))
              && d.stream == t.(db := d.stream.db, pendingRoc := d.stream.pendingRoc)
              && d.stream.pendingRoc < UINT32 && ValidWindow(d.stream.db)
  {
    hide AddIndex, GuessIndex, LapsOnto, Covers, SetRocSeq, Check, EstimateIndex;
    var u := SendingStream(t, gcm);
    GuessIsFresh(u, s, used) by {
      assert Guarded(u, used);
    }
    if GuessIndex(u, s).status == IndexAdvance {
      AheadLapsNowhere(u, s, used);
    }
    if gcm {
      NoPendingNoAdvance(u, s);
    }
  }

  lemma SenderIndexKeepsStream(t: StreamState, s: nat, gcm: bool, limits: map<KeyLimit, Limit>)
    requires ValidStream(t, limits) && s < SEQ_MAX && SenderIndex(t, s, gcm).Use?
    ensures var d := SenderIndex(t, s, gcm);
            && d.index < INDEX_LIMIT && d.index % SEQ_MAX == s
            && ValidStream(d.stream, limits)
            && d.stream == t.(db := d.stream.db, pendingRoc := d.stream.pendingRoc)
  {
    hide GuessIndex, SetRocSeq, Check, Laps;
    GuessIsPaced(t, s);
    GuessIsPaced(t.(pendingRoc := 0), s);
    SetRocSeqKeepsWindow(t.db, s);
  }

  lemma SetRocSeqKeepsWindow(db: Rdbx, s: nat)
    ensures forall roc: nat, q: nat :: |SetRocSeq(db, roc, q).db.window| == |db.window|
  {
  }

  /** An index ahead of the window comes from a pending counter. */
  lemma AheadLapsNowhere(t: StreamState, s: nat, used: set<nat>)
    requires s < SEQ_MAX && t.pendingRoc < UINT32 && GuessIndex(t, s).status == IndexAdvance
    ensures !LapsOnto(t, s, used)
  {
  }

  lemma NoPendingNoAdvance(t: StreamState, s: nat)
    requires s < SEQ_MAX && t.pendingRoc == 0
    ensures GuessIndex(t, s).status == Ok
  {
  }

  lemma MarkGuards(s: SessionState, used: set<PacketId>, at: nat, d: Direction)
    requires GuardedSession(s, used) && at < |s.streams|
    ensures var t := Mark(s.streams[at], d);
            && ValidStream(t, s.limits) && Guarded(t, UsedBy(used, t.ssrc))
            && t.ssrc == s.streams[at].ssrc && GuardedSession(WithStream(s, at, t), used)
  {
    hide UsedBy, Covers, Listed, UniqueSsrcs;
    KeepGuards(s, used, at, Mark(s.streams[at], d));
  }

  lemma EnsureStreamGuards(s: SessionState, used: set<PacketId>, ssrc: nat)
    requires GuardedSession(s, used) && ssrc < UINT32 && EnsureStream(s, ssrc).Some?
    ensures var s1 := EnsureStream(s, ssrc).value;
            && GuardedSession(s1, used)
            && (NoRepeats(s) ==> NoRepeats(s1))
            && Find(s1.streams, ssrc) < |s1.streams|
            && (Find(s.streams, ssrc) < |s.streams| ==> s1 == s)
            && (Find(s.streams, ssrc) == |s.streams| ==> s1.streams[Find(s1.streams, ssrc)].db.index == 0)
            && s1.limits == s.limits && s1.template == s.template
  {
    hide Guarded, ValidStream, UsedBy, Listed;
    FindListed(s.streams, ssrc);
    EnsureStreamKeepsValid(s, ssrc);
    if Find(s.streams, ssrc) == |s.streams| {
      CloneIsGuarded(s.template.value, ssrc, s.limits);
      var t := Clone(s.template.value, ssrc).(direction := Sender);
      PrependGuards(s, used, t);
      var s1 := s.(streams := [t] + s.streams);
      assert Find(s1.streams, ssrc) == 0;
    }
  }

  lemma PrepareOnGuards(s: SessionState, used: set<PacketId>, at: nat, seqNo: nat, useMki: bool, mkiIndex: nat)
    requires GuardedSession(s, used) && NoRepeats(s) && at < |s.streams| && seqNo < SEQ_MAX
    ensures var p, t := PrepareOn(s, at, seqNo, useMki, mkiIndex), s.streams[at];
            && NoRepeats(p.session) && p.session.template == s.template
            && (p.Refused? ==> GuardedSession(p.session, used))
            && (p.Ready? ==>
                  && p.index < INDEX_LIMIT && p.index % SEQ_MAX == seqNo
                  && t.keys != []
                  && var gcm := t.keys[SelectedSlot(|t.keys|, useMki, mkiIndex)].rtpCipher.algorithm.Gcm?;
                     && (PacketId(t.ssrc, p.index) in used
                         <==> LapsOnto(SendingStream(t, gcm), seqNo, UsedBy(used, t.ssrc)))
                     && (PacketId(t.ssrc, p.index) !in used ==>
                           GuardedSession(p.session, used + {PacketId(t.ssrc, p.index)})))
  {
    hide UsedBy, Covers, Listed, UniqueSsrcs, SenderIndex, EstimateIndex, SelectedSlot;
    var t := Mark(s.streams[at], Sender);
    MarkGuards(s, used, at, Sender);
    var slot := SelectedSlot(|t.keys|, useMki, mkiIndex);
    var key := t.keys[slot].limit;
    var limit := Charge(s.limits[key]).0;
    var s1 := WithStream(s, at, t).(limits := s.limits[key := limit]);
    ChargeGuards(WithStream(s, at, t), used, key, limit);
    var gcm := t.keys[slot].rtpCipher.algorithm.Gcm?;
    SenderIndexIsFresh(t, seqNo, gcm, UsedBy(used, t.ssrc));
    var d := SenderIndex(t, seqNo, gcm);
    if d.Use? {
      UsedMembership(used, t.ssrc, d.index);
      if d.index !in UsedBy(used, t.ssrc) {
        ReplaceGuards(s1, used, at, d.stream, d.index);
      }
    }
  }

  lemma UsedMembership(used: set<PacketId>, ssrc: nat, index: nat)
    ensures PacketId(ssrc, index) in used <==> index in UsedBy(used, ssrc)
  {
    if PacketId(ssrc, index) in used {
      assert PacketId(ssrc, index).ssrc == ssrc;
    }
  }

  /** A packet is protected under an index its source has used before if and only if it laps onto it;
      everything used so far, and a new index with it, stays guarded. */
  lemma PrepareSendGuards(s: SessionState, used: set<PacketId>, pkt: Octets, useMki: bool, mkiIndex: nat)
    requires GuardedSession(s, used) && NoRepeats(s)
    ensures var p := PrepareSend(s, pkt, useMki, mkiIndex);
            && NoRepeats(p.session) && p.session.template == s.template
            && (p.Refused? ==> GuardedSession(p.session, used))
            && (p.Ready? ==>
                  && ValidHeader(pkt)
                  && p.index < INDEX_LIMIT && p.index % SEQ_MAX == Sequence(pkt)
                  && (PacketId(Ssrc(pkt), p.index) in used <==> SendLapsOnto(s, used, pkt, useMki, mkiIndex))
                  && (PacketId(Ssrc(pkt), p.index) !in used ==>
                        GuardedSession(p.session, used + {PacketId(Ssrc(pkt), p.index)})))
  {
    hide Guarded, ValidStream, UsedBy, Listed, PrepareOn, UniqueSsrcs, Clone, NoRepeats, LapsOnto, SendingStream,
         SelectedSlot;
    if ValidHeader(pkt) && EnsureStream(s, Ssrc(pkt)).Some? {
      var ssrc := Ssrc(pkt);
      EnsureStreamGuards(s, used, ssrc);
      var s1 := EnsureStream(s, ssrc).value;
      var at := Find(s1.streams, ssrc);
      PrepareOnGuards(s1, used, at, Sequence(pkt), useMki, mkiIndex);
      if Find(s.streams, ssrc) == |s.streams| {
        FindListed(s.streams, ssrc);
        UnlistedUnused(s, used, ssrc);
        NothingToLapOnto(s1.streams[at], Sequence(pkt));
      }
    }
  }

  /** While the index is within 48 bits, a packet laps onto a used index exactly if the rollover counter
      wraps and the bare sequence number was used. */
  lemma FirstSendLap(s: SessionState, used: set<PacketId>, pkt: Octets, useMki: bool, mkiIndex: nat)
    requires GuardedSession(s, used) && ValidHeader(pkt) && Find(s.streams, Ssrc(pkt)) < |s.streams|
    requires s.streams[Find(s.streams, Ssrc(pkt))].db.index < INDEX_LIMIT
    ensures var t := s.streams[Find(s.streams, Ssrc(pkt))];
            && t.keys != []
            && var gcm := t.keys[SelectedSlot(|t.keys|, useMki, mkiIndex)].rtpCipher.algorithm.Gcm?;
               SendLapsOnto(s, used, pkt, useMki, mkiIndex)
               <==> (t.pendingRoc == 0 || gcm) && RocWraps(t.db.index, Sequence(pkt))
                    && PacketId(Ssrc(pkt), Sequence(pkt)) in used
  {
    hide Guarded, UsedBy, Listed, UniqueSsrcs, EstimateIndex, RocWraps, SelectedSlot, Laps;
    var t := s.streams[Find(s.streams, Ssrc(pkt))];
    UsedMembership(used, Ssrc(pkt), Sequence(pkt));
    LapIsWrap(t, Sequence(pkt));
    LapIsWrap(SendingStream(t, true), Sequence(pkt));
  }

  lemma NothingToLapOnto(t: StreamState, s: nat)
    requires s < SEQ_MAX
    ensures forall gcm :: !LapsOnto(SendingStream(t, gcm), s, {})
  {
  }

  lemma ProtectSession(prim: Primitives, s: SessionState, pkt: Octets, useMki: bool, mkiIndex: nat)
    requires ValidSession(s)
    ensures Protect(prim, s, pkt, useMki, mkiIndex).session == PrepareSend(s, pkt, useMki, mkiIndex).session
  {
    hide PrepareSend, Seal;
  }

  lemma SetRocGuards(s: SessionState, used: set<PacketId>, ssrc: nat, roc: nat)
    requires GuardedSession(s, used) && roc < UINT32
    ensures GuardedSession(SetRoc(s, ssrc, roc).session, used)
    ensures NoRepeats(s) ==> NoRepeats(SetRoc(s, ssrc, roc).session)
  {
    hide UsedBy, Covers, Listed, UniqueSsrcs;
    var at := Find(s.streams, ssrc);
    if at < |s.streams| {
      KeepGuards(s, used, at, s.streams[at].(pendingRoc := roc));
    }
  }

  // ----- Unprotecting

  /** What a receiver can check before unprotecting: the packet would be given an index of an earlier
      lap that was used there. */
  predicate ReceiveLapsOnto(s: SessionState, used: set<PacketId>, pkt: Octets) {
    && ValidHeader(pkt)
    && Find(s.streams, Ssrc(pkt)) < |s.streams|
    && LapsOnto(s.streams[Find(s.streams, Ssrc(pkt))], Sequence(pkt), UsedBy(used, Ssrc(pkt)))
  }

  lemma FirstReceiveLap(s: SessionState, used: set<PacketId>, pkt: Octets)
    requires ValidHeader(pkt) && Find(s.streams, Ssrc(pkt)) < |s.streams|
    requires s.streams[Find(s.streams, Ssrc(pkt))].db.index < INDEX_LIMIT
    ensures var t := s.streams[Find(s.streams, Ssrc(pkt))];
            ReceiveLapsOnto(s, used, pkt)
            <==> t.pendingRoc == 0 && RocWraps(t.db.index, Sequence(pkt))
                 && PacketId(Ssrc(pkt), Sequence(pkt)) in used
  {
    hide UsedBy, EstimateIndex, RocWraps;
    UsedMembership(used, Ssrc(pkt), Sequence(pkt));
    LapIsWrap(s.streams[Find(s.streams, Ssrc(pkt))], Sequence(pkt));
  }

  /** Recording on a listed stream. */
  lemma CommitListedGuards(s: SessionState, used: set<PacketId>, ssrc: nat, seqNo: nat, gcm: bool)
    requires GuardedSession(s, used) && seqNo < SEQ_MAX
    requires Find(s.streams, ssrc) < |s.streams|
    requires var g := ReceiverGuess(s, ssrc, seqNo); g.status == Ok || g.status == IndexAdvance
    ensures var g := ReceiverGuess(s, ssrc, seqNo);
            && |ReceiverStream(s, ssrc).db.window| - 1 + g.delta >= 0
            && ValidWindow(ReceiverStream(s, ssrc).db)
            && var s', id := Commit(s, ssrc, g, gcm), PacketId(ssrc, g.est);
               && g.est < INDEX_LIMIT && g.est % SEQ_MAX == seqNo
               && (id in used <==> LapsOnto(s.streams[Find(s.streams, ssrc)], seqNo, UsedBy(used, ssrc)))
               && (if gcm && g.status == IndexAdvance then
                     GuardedSession(s', used) && !GuardedSession(s', used + {id})
                   else
                     id !in used ==> GuardedSession(s', used + {id}))
  {
    hide AddIndex, GuessIndex, LapsOnto, Covers, SetRocSeq, UsedBy, Listed, UniqueSsrcs;
    var at, g := Find(s.streams, ssrc), ReceiverGuess(s, ssrc, seqNo);
    var t := s.streams[at];
    var mine := UsedBy(used, ssrc);
    ReceiverGuessInWindow(s, ssrc, seqNo);
    GuessIsFresh(t, seqNo, mine);
    MarkKeepsGuess(t, seqNo, Receiver);
    UsedMembership(used, ssrc, g.est);
    var m := Mark(t, Receiver);
    var t' := if g.status == IndexAdvance && !gcm then Advance(m, g.est) else m.(db := AddIndex(m.db, g.delta));
    if g.status == IndexAdvance {
      AheadLapsNowhere(t, seqNo, mine);
    }
    if g.status == IndexAdvance && gcm {
      AddingNothing(m, mine);
      KeepGuards(s, used, at, t');
      AheadIsUnguarded(WithStream(s, at, t'), used, at, g.est);
    } else if g.est !in mine {
      assert Guarded(t', mine + {g.est});
      ReplaceGuards(s, used, at, t', g.est);
    }
  }

  /** An index ahead of the database is not guarded against. */
  lemma AheadIsUnguarded(s: SessionState, used: set<PacketId>, at: nat, index: nat)
    requires at < |s.streams| && s.streams[at].db.index < index
    ensures !GuardedSession(s, used + {PacketId(s.streams[at].ssrc, index)})
  {
    hide ValidStream, UniqueSsrcs, UsedBy;
    var t := s.streams[at];
    UsedMembership(used + {PacketId(t.ssrc, index)}, t.ssrc, index);
  }

  lemma MarkKeepsGuess(t: StreamState, s: nat, d: Direction)
    ensures var m := Mark(t, d); m == t.(direction := m.direction)
  {
  }

  /** Marking the current index again. */
  lemma AddingNothing(t: StreamState, used: set<nat>)
    requires Guarded(t, used)
    ensures Guarded(t.(db := AddIndex(t.db, 0)), used)
    ensures AddIndex(t.db, 0).index == t.db.index
  {
    IndexFits(t, used);
    AddIndexTracks(t.db, used, t.db.index);
    CoversSubset(AddIndex(t.db, 0), used + {t.db.index}, used);
  }

  /** Recording on a new clone of the template. */
  lemma CommitProvisionalGuards(s: SessionState, used: set<PacketId>, ssrc: nat, seqNo: nat, gcm: bool)
    requires GuardedSession(s, used) && seqNo < SEQ_MAX && ssrc < UINT32
    requires Find(s.streams, ssrc) == |s.streams| && s.template.Some?
    ensures var g := ReceiverGuess(s, ssrc, seqNo);
            && g == Guess(Ok, seqNo, seqNo) && g.est < INDEX_LIMIT && g.est % SEQ_MAX == seqNo
            && ValidWindow(s.template.value.db)
            && var s' := Commit(s, ssrc, g, gcm);
               && PacketId(ssrc, seqNo) !in used
               && GuardedSession(s', used + {PacketId(ssrc, seqNo)})
  {
    hide AddIndex, Covers, UsedBy, Listed, UniqueSsrcs;
    FindListed(s.streams, ssrc);
    var m := Mark(s.template.value, Receiver);
    var t := Clone(m, ssrc);
    var t' := t.(db := AddIndex(t.db, seqNo));
    UnlistedUnused(s, used, ssrc);
    UsedMembership(used, ssrc, seqNo);
    TemplateGuards(s, used, m);
    var s1 := s.(template := Some(m));
    CloneIsGuarded(m, ssrc, s.limits);
    AddIndexTracks(t.db, {}, seqNo);
    assert {} + {seqNo} == {seqNo};
    PrependGuards(s1, used, t);
    var s2 := s1.(streams := [t] + s1.streams);
    ReplaceGuards(s2, used, 0, t', seqNo);
    assert WithStream(s2, 0, t') == Commit(s, ssrc, ReceiverGuess(s, ssrc, seqNo), gcm);
  }

  /** Whether accepting a packet records its index: the authenticated cipher does not record an index
      that is ahead of the window. */
  predicate Records(s: SessionState, pkt: Octets, useMki: bool)
    requires ValidSession(s) && ChooseReceive(s, pkt, useMki).Choose?
  {
    !UsesGcm(s, pkt, useMki) || ChooseReceive(s, pkt, useMki).guess.status == Ok
  }

  /** A refused packet disturbs no guard. The index of an accepted one has been used before if and only
      if it laps onto it. It is guarded against from then on, and so is everything used before, if and
      only if the call records it. */
  lemma UnprotectGuards(prim: Primitives, s: SessionState, used: set<PacketId>, pkt: Octets, useMki: bool)
    requires GuardedSession(s, used)
    ensures var r := Unprotect(prim, s, pkt, useMki);
            && (r.status != Ok ==> GuardedSession(r.session, used))
            && (r.status == Ok ==>
                  && ChooseReceive(s, pkt, useMki).Choose? && ValidHeader(pkt)
                  && var g := ChooseReceive(s, pkt, useMki).guess;
                     var id := PacketId(Ssrc(pkt), g.est);
                     && g.est < INDEX_LIMIT && g.est % SEQ_MAX == Sequence(pkt)
                     && (id in used <==> ReceiveLapsOnto(s, used, pkt))
                     && (!Records(s, pkt, useMki) ==> id !in used && GuardedSession(r.session, used))
                     && (id !in used ==>
                           (GuardedSession(r.session, used + {id}) <==> Records(s, pkt, useMki))))
  {
    hide *;
    GuardedIsValid(s, used);
    var c := ChooseReceive(s, pkt, useMki);
    if c.Reject? {
      UnprotectRejects(prim, s, pkt, useMki);
    } else {
      ChooseReceiveFacts(s, pkt, useMki);
      UnprotectUnfold(prim, s, pkt, useMki);
      HeaderBounds(pkt);
      var ssrc := Ssrc(pkt);
      var key := ReceiverStream(s, ssrc).keys[c.slot].limit;
      var limit := Charge(s.limits[key]).0;
      var s1 := s.(limits := s.limits[key := limit]);
      ChargeGuards(s, used, key, limit);
      GuardedIsValid(s1, used);
      GuessIgnoresLimits(s, s1, ssrc, Sequence(pkt));
      RecordsIs(s, pkt, useMki);
      ReceiveLapsOntoIs(s, used, pkt);
      if Find(s.streams, ssrc) < |s.streams| {
        CommitListedGuards(s1, used, ssrc, Sequence(pkt), UsesGcm(s, pkt, useMki));
        if c.guess.status == IndexAdvance {
          AheadUnused(s1, used, ssrc, Sequence(pkt));
        }
      } else {
        CommitProvisionalGuards(s1, used, ssrc, Sequence(pkt), UsesGcm(s, pkt, useMki));
      }
    }
  }

  lemma RecordsIs(s: SessionState, pkt: Octets, useMki: bool)
    requires ValidSession(s) && ChooseReceive(s, pkt, useMki).Choose?
    ensures Records(s, pkt, useMki)
            <==> !UsesGcm(s, pkt, useMki) || ChooseReceive(s, pkt, useMki).guess.status == Ok
  {
  }

  lemma ReceiveLapsOntoIs(s: SessionState, used: set<PacketId>, pkt: Octets)
    requires ValidHeader(pkt)
    ensures |pkt| >= RTP_HEADER
    ensures ReceiveLapsOnto(s, used, pkt)
            <==> Find(s.streams, Ssrc(pkt)) < |s.streams|
                 && LapsOnto(s.streams[Find(s.streams, Ssrc(pkt))], Sequence(pkt), UsedBy(used, Ssrc(pkt)))
  {
    HeaderBounds(pkt);
  }

  lemma AheadUnused(s: SessionState, used: set<PacketId>, ssrc: nat, seqNo: nat)
    requires GuardedSession(s, used) && seqNo < SEQ_MAX && Find(s.streams, ssrc) < |s.streams|
    requires ReceiverGuess(s, ssrc, seqNo).status == IndexAdvance
    ensures PacketId(ssrc, ReceiverGuess(s, ssrc, seqNo).est) !in used
  {
    hide AddIndex, GuessIndex, Covers, SetRocSeq, UsedBy, Check;
    var t, g := s.streams[Find(s.streams, ssrc)], ReceiverGuess(s, ssrc, seqNo);
    CheckNeverAdvances(t.db, g.delta);
    GuessIsFresh(t, seqNo, UsedBy(used, ssrc));
    UsedMembership(used, ssrc, g.est);
  }

  lemma CheckNeverAdvances(db: Rdbx, delta: int)
    ensures Check(db, delta) != IndexAdvance
  {
  }

  lemma GuardedIsValid(s: SessionState, used: set<PacketId>)
    requires GuardedSession(s, used)
    ensures ValidSession(s)
  {
  }

  lemma UnprotectRejects(prim: Primitives, s: SessionState, pkt: Octets, useMki: bool)
    requires ValidSession(s) && ChooseReceive(s, pkt, useMki).Reject?
    ensures Unprotect(prim, s, pkt, useMki) == Outcome(s, ChooseReceive(s, pkt, useMki).status, pkt)
    ensures Unprotect(prim, s, pkt, useMki).status != Ok
  {
    hide ReceiverGuess, FindSlot, Ssrc, Sequence, ValidHeader;
  }

  /** The three states a call can end in once keys and an index are chosen. */
  lemma UnprotectUnfold(prim: Primitives, s: SessionState, pkt: Octets, useMki: bool)
    requires ValidSession(s) && ChooseReceive(s, pkt, useMki).Choose?
    ensures ValidHeader(pkt)
    ensures Find(s.streams, Ssrc(pkt)) < |s.streams| || s.template.Some?
    ensures var r, c := Unprotect(prim, s, pkt, useMki), ChooseReceive(s, pkt, useMki);
            && c.slot < |ReceiverStream(s, Ssrc(pkt)).keys|
            && var t := ReceiverStream(s, Ssrc(pkt));
               && t.keys[c.slot].limit in s.limits
               && var s1 := s.(limits := s.limits[t.keys[c.slot].limit := Charge(s.limits[t.keys[c.slot].limit]).0]);
                  var k := RtpKeysOf(t.keys[c.slot]);
                  && (r.session == s || r.session == s1 || r.status == Ok)
                  && (r.status == Ok ==>
                        && Verdict(prim, k, t.rtp, pkt, c.guess.est, c.mkiSize) == Ok
                        && Open(prim, k, t.rtp, t.ids, pkt, c.guess.est, c.mkiSize) == Result(r.packet, Ok)
                        && CommitAllowed(s1, Ssrc(pkt), c.guess)
                        && r.session == Commit(s1, Ssrc(pkt), c.guess, UsesGcm(s, pkt, useMki)))
  {
    hide Verdict, Open, ReceiverGuess, FindSlot, Commit, ChooseReceive, Charge;
    ChooseReceiveFacts(s, pkt, useMki);
    ReceiverGuessInWindow(s, Ssrc(pkt), Sequence(pkt));
  }

  function ChosenKeys(s: SessionState, pkt: Octets, useMki: bool): SessionKeys
    requires ValidSession(s) && ChooseReceive(s, pkt, useMki).Choose?
  {
    ChooseReceiveFacts(s, pkt, useMki);
    ReceiverStream(s, Ssrc(pkt)).keys[ChooseReceive(s, pkt, useMki).slot]
  }

  predicate UsesGcm(s: SessionState, pkt: Octets, useMki: bool)
    requires ValidSession(s) && ChooseReceive(s, pkt, useMki).Choose?
  {
    ChosenKeys(s, pkt, useMki).rtpCipher.algorithm.Gcm?
  }

  /** When unprotecting succeeds. */
  lemma UnprotectSucceeds(prim: Primitives, s: SessionState, pkt: Octets, useMki: bool, packet: Octets)
    requires ValidSession(s) && ChooseReceive(s, pkt, useMki).Choose? && ValidHeader(pkt)
    requires |pkt| >= RTP_HEADER && ChosenKeys(s, pkt, useMki).limit in s.limits
    requires Find(s.streams, Ssrc(pkt)) < |s.streams| || s.template.Some?
    requires var c, k, t := ChooseReceive(s, pkt, useMki), RtpKeysOf(ChosenKeys(s, pkt, useMki)),
                            ReceiverStream(s, Ssrc(pkt));
             && Verdict(prim, k, t.rtp, pkt, c.guess.est, c.mkiSize) == Ok
             && Open(prim, k, t.rtp, t.ids, pkt, c.guess.est, c.mkiSize) == Result(packet, Ok)
    requires Charge(s.limits[ChosenKeys(s, pkt, useMki).limit]).1 != HardLimit
    ensures var key := ChosenKeys(s, pkt, useMki).limit;
            var s1 := s.(limits := s.limits[key := Charge(s.limits[key]).0]);
            && CommitAllowed(s1, Ssrc(pkt), ChooseReceive(s, pkt, useMki).guess)
            && Unprotect(prim, s, pkt, useMki)
               == Outcome(Commit(s1, Ssrc(pkt), ChooseReceive(s, pkt, useMki).guess, UsesGcm(s, pkt, useMki)),
                          Ok, packet)
  {
    hide Verdict, Open, ReceiverGuess, FindSlot, Commit, ChooseReceive, Charge, ValidHeader, Ssrc;
    ChooseReceiveFacts(s, pkt, useMki);
    ReceiverGuessInWindow(s, Ssrc(pkt), Sequence(pkt));
  }

  lemma AcceptedWasChosen(prim: Primitives, s: SessionState, pkt: Octets, useMki: bool)
    requires ValidSession(s) && Unprotect(prim, s, pkt, useMki).status == Ok
    ensures ChooseReceive(s, pkt, useMki).Choose? && ValidHeader(pkt) && |pkt| >= RTP_HEADER
  {
    hide Unprotect, ChooseReceive, ValidSession;
    if ChooseReceive(s, pkt, useMki).Reject? {
      UnprotectRejects(prim, s, pkt, useMki);
    } else {
      ChooseReceiveFacts(s, pkt, useMki);
    }
  }

  lemma GuessIgnoresLimits(s: SessionState, s': SessionState, ssrc: nat, seqNo: nat)
    requires ValidSession(s) && ValidSession(s') && seqNo < SEQ_MAX
    requires s' == s.(limits := s'.limits)
    ensures ReceiverGuess(s', ssrc, seqNo) == ReceiverGuess(s, ssrc, seqNo)
    ensures Find(s'.streams, ssrc) == Find(s.streams, ssrc)
    ensures Find(s.streams, ssrc) < |s.streams| || s.template.Some? ==>
              ReceiverStream(s', ssrc) == ReceiverStream(s, ssrc)
  {
  }
}
