/** Over any run of a session in one key epoch: when a payload initialization vector is set twice
    under one cipher. */
module VectorUniqueness {
  import opened Octets
  import opened SrtpStatus
  import opened Crypto
  import opened ReplayWindow
  import opened InitVectors
  import opened RtpPacket
  import opened SessionKey
  import opened SessionModel
  import opened SessionInvariants
  import opened SessionRuns

  /** An index used to protect a packet or to accept one. */
  type RtpUse = IndexUse<RtpKeys>

  function Vector(u: RtpUse): Octets {
    PayloadIv(u.keys, u.ssrc, u.index)
  }

  /** What an operation uses and records: protecting does so whether or not it succeeds afterwards,
      unprotecting only if it does. */
  ghost function Uses(prim: Primitives, s: SessionState, op: Operation): seq<RtpUse> {
    if !ValidSession(s) then []
    else
      match op
      case SendRtpPacket(pkt, useMki, mkiIndex) => SendUses(s, pkt, useMki, mkiIndex)
      case ReceiveRtpPacket(pkt, useMki) => ReceiveUses(prim, s, pkt, useMki)
      case _ => []
  }

  function SendUses(s: SessionState, pkt: Octets, useMki: bool, mkiIndex: nat): seq<RtpUse>
    requires ValidSession(s)
  {
    var p := PrepareSend(s, pkt, useMki, mkiIndex);
    if p.Refused? then []
    else
      PrepareSendReady(s, pkt, useMki, mkiIndex);
      [IndexUse(RtpKeysOf(p.session.streams[p.at].keys[p.slot]), Ssrc(pkt), p.index)]
  }

  function ReceiveUses(prim: Primitives, s: SessionState, pkt: Octets, useMki: bool): seq<RtpUse>
    requires ValidSession(s)
  {
    if Unprotect(prim, s, pkt, useMki).status != Ok then []
    else
      AcceptedWasChosen(prim, s, pkt, useMki);
      if !Records(s, pkt, useMki) then []
      else [IndexUse(RtpKeysOf(ChosenKeys(s, pkt, useMki)), Ssrc(pkt), ChooseReceive(s, pkt, useMki).guess.est)]
  }

  ghost function Trace(prim: Primitives, s: SessionState, run: seq<Operation>): seq<RtpUse>
    decreases |run|
  {
    if run == [] then [] else Uses(prim, s, run[0]) + Trace(prim, Apply(prim, s, run[0]), run[1..])
  }

  // ----- The one way to use an index again

  /** The packet would get an index of an earlier lap that was used there. */
  predicate LapsOntoUsed(s: SessionState, used: set<PacketId>, op: Operation) {
    match op
    case SendRtpPacket(pkt, useMki, mkiIndex) => SendLapsOnto(s, used, pkt, useMki, mkiIndex)
    case ReceiveRtpPacket(pkt, _) => ReceiveLapsOnto(s, used, pkt)
    case _ => false
  }

  ghost function UsedAfter(prim: Primitives, s: SessionState, used: set<PacketId>, op: Operation): set<PacketId> {
    used + set u | u in Uses(prim, s, op) :: Id(u)
  }

  /** No packet that goes through laps onto a used index. */
  ghost predicate LapFree(prim: Primitives, s: SessionState, used: set<PacketId>, run: seq<Operation>)
    decreases |run|
  {
    run != [] ==>
      && (Uses(prim, s, run[0]) != [] ==> !LapsOntoUsed(s, used, run[0]))
      && LapFree(prim, Apply(prim, s, run[0]), UsedAfter(prim, s, used, run[0]), run[1..])
  }

  lemma CommitKeepsNoRepeats(s: SessionState, ssrc: nat, guess: Guess, gcm: bool)
    requires NoRepeats(s) && CommitAllowed(s, ssrc, guess)
    ensures NoRepeats(Commit(s, ssrc, guess, gcm))
  {
    hide AddIndex, SetRocSeq;
    var s' := Commit(s, ssrc, guess, gcm);
    forall i | 0 <= i < |s'.streams|
      ensures !s'.streams[i].allowRepeatTx
    {
      if Find(s.streams, ssrc) == |s.streams| && i > 0 {
        assert s'.streams[i] == s.streams[i - 1];
      }
    }
  }

  lemma UnprotectKeepsNoRepeats(prim: Primitives, s: SessionState, pkt: Octets, useMki: bool)
    requires ValidSession(s) && NoRepeats(s)
    ensures NoRepeats(Unprotect(prim, s, pkt, useMki).session)
  {
    hide Unprotect, Commit, ChooseReceive, Verdict, Open, ValidHeader, ValidSession, ReceiverStream, Charge;
    var c := ChooseReceive(s, pkt, useMki);
    if c.Reject? {
      UnprotectRejects(prim, s, pkt, useMki);
    } else {
      UnprotectUnfold(prim, s, pkt, useMki);
      HeaderBounds(pkt);
      var key := ReceiverStream(s, Ssrc(pkt)).keys[c.slot].limit;
      var s1 := s.(limits := s.limits[key := Charge(s.limits[key]).0]);
      assert NoRepeats(s1);
      if Unprotect(prim, s, pkt, useMki).status == Ok {
        CommitKeepsNoRepeats(s1, Ssrc(pkt), c.guess, UsesGcm(s, pkt, useMki));
      }
    }
  }

  lemma SendStepGuards(
    prim: Primitives, s: SessionState, used: set<PacketId>, pkt: Octets, useMki: bool, mkiIndex: nat)
    requires GuardedSession(s, used) && NoRepeats(s)
    ensures StepGuarded(prim, s, used, SendRtpPacket(pkt, useMki, mkiIndex))
  {
    hide GuardedSession, NoRepeats, PrepareSend, Protect, SendLapsOnto, ValidHeader, Ssrc, ValidSession, RtpKeysOf;
    GuardedIsValid(s, used);
    PrepareSendGuards(s, used, pkt, useMki, mkiIndex);
    ProtectSession(prim, s, pkt, useMki, mkiIndex);
    if PrepareSend(s, pkt, useMki, mkiIndex).Ready? {
      PrepareSendReady(s, pkt, useMki, mkiIndex);
      HeaderBounds(pkt);
    }
  }

  lemma ReceiveStepGuards(prim: Primitives, s: SessionState, used: set<PacketId>, pkt: Octets, useMki: bool)
    requires GuardedSession(s, used) && NoRepeats(s)
    ensures StepGuarded(prim, s, used, ReceiveRtpPacket(pkt, useMki))
  {
    hide GuardedSession, NoRepeats, Unprotect, ReceiveLapsOnto, ValidHeader, Ssrc, ValidSession, RtpKeysOf,
         ChooseReceive, Records, ChosenKeys;
    GuardedIsValid(s, used);
    UnprotectGuards(prim, s, used, pkt, useMki);
    UnprotectKeepsNoRepeats(prim, s, pkt, useMki);
    if Unprotect(prim, s, pkt, useMki).status == Ok {
      AcceptedWasChosen(prim, s, pkt, useMki);
    }
  }

  /** What an operation uses was used before if and only if it laps onto it; what is used, once or
      more, is guarded afterwards. */
  ghost predicate StepGuarded(prim: Primitives, s: SessionState, used: set<PacketId>, op: Operation) {
    var s', uses := Apply(prim, s, op), Uses(prim, s, op);
    && NoRepeats(s')
    && (uses == [] ==> GuardedSession(s', used))
    && (uses != [] ==>
          && |uses| == 1 && uses[0].ssrc < UINT32 && uses[0].index < INDEX_LIMIT
          && (Id(uses[0]) in used <==> LapsOntoUsed(s, used, op))
          && (Id(uses[0]) !in used ==> GuardedSession(s', used + {Id(uses[0])})))
  }

  lemma StepGuards(prim: Primitives, s: SessionState, used: set<PacketId>, op: Operation)
    requires GuardedSession(s, used) && NoRepeats(s) && KeepsKeys(op)
    ensures StepGuarded(prim, s, used, op)
  {
    hide *;
    if op.SendRtpPacket? {
      SendStepGuards(prim, s, used, op.pkt, op.useMki, op.mkiIndex);
    } else if op.ReceiveRtpPacket? {
      ReceiveStepGuards(prim, s, used, op.pkt, op.useMki);
    } else {
      QuietStepGuards(prim, s, used, op);
    }
  }

  lemma QuietStepGuards(prim: Primitives, s: SessionState, used: set<PacketId>, op: Operation)
    requires GuardedSession(s, used) && NoRepeats(s) && KeepsKeys(op)
    requires !op.SendRtpPacket? && !op.ReceiveRtpPacket?
    ensures StepGuarded(prim, s, used, op)
  {
    hide GuardedSession, NoRepeats, Apply, ValidSession;
    QuietGuards(prim, s, used, op);
  }

  // ----- Whole runs

  /** An index is used twice in a run if and only if a packet that goes through laps onto it. */
  lemma {:induction false} TraceIsFresh(prim: Primitives, s: SessionState, used: set<PacketId>, run: seq<Operation>)
    requires GuardedSession(s, used) && NoRepeats(s) && Epoch(run)
    ensures Fresh(Trace(prim, s, run), used) <==> LapFree(prim, s, used, run)
    ensures LapFree(prim, s, used, run) ==>
              forall u | u in Trace(prim, s, run) :: u.ssrc < UINT32 && u.index < INDEX_LIMIT
    decreases |run|
  {
    hide *;
    TraceUnfold(prim, s, used, run);
    if run == [] {
      NothingUsed<RtpKeys>(used);
    } else {
      var s', uses := Apply(prim, s, run[0]), Uses(prim, s, run[0]);
      var rest := Trace(prim, s', run[1..]);
      EpochStep(run);
      StepGuards(prim, s, used, run[0]);
      StepParts(prim, s, used, run[0]);
      if uses == [] {
        assert uses + rest == rest;
        TraceIsFresh(prim, s', used, run[1..]);
      } else {
        FreshStep(uses[0], rest, used);
        if Id(uses[0]) !in used {
          TraceIsFresh(prim, s', used + {Id(uses[0])}, run[1..]);
        }
      }
    }
  }

  lemma TraceUnfold(prim: Primitives, s: SessionState, used: set<PacketId>, run: seq<Operation>)
    ensures run == [] ==> Trace(prim, s, run) == [] && LapFree(prim, s, used, run)
    ensures run != [] ==>
              && Trace(prim, s, run) == Uses(prim, s, run[0]) + Trace(prim, Apply(prim, s, run[0]), run[1..])
              && (LapFree(prim, s, used, run) <==>
                    && (Uses(prim, s, run[0]) != [] ==> !LapsOntoUsed(s, used, run[0]))
                    && LapFree(prim, Apply(prim, s, run[0]), UsedAfter(prim, s, used, run[0]), run[1..]))
  {
    hide Uses, Apply, LapsOntoUsed, UsedAfter;
  }

  lemma StepParts(prim: Primitives, s: SessionState, used: set<PacketId>, op: Operation)
    requires StepGuarded(prim, s, used, op)
    ensures var s', uses := Apply(prim, s, op), Uses(prim, s, op);
            && NoRepeats(s')
            && (uses == [] ==> GuardedSession(s', used) && UsedAfter(prim, s, used, op) == used)
            && (uses != [] ==>
                  && uses == [uses[0]] && uses[0].ssrc < UINT32 && uses[0].index < INDEX_LIMIT
                  && UsedAfter(prim, s, used, op) == used + {Id(uses[0])}
                  && (Id(uses[0]) in used <==> LapsOntoUsed(s, used, op))
                  && (Id(uses[0]) !in used ==> GuardedSession(s', used + {Id(uses[0])})))
  {
    hide NoRepeats, GuardedSession, Apply, Uses, LapsOntoUsed, Id;
    var uses := Uses(prim, s, op);
    if uses != [] {
      assert uses == [uses[0]];
      assert uses[0] in uses;
      assert forall u | u in uses :: u == uses[0];
    }
  }

  /** One cipher other than the null cipher, and one salt where the vectors depend on it. */
  predicate SameVectors(k: RtpKeys, l: RtpKeys) {
    && k.cipher == l.cipher && !k.cipher.algorithm.NullCipher?
    && (k.cipher.algorithm.Gcm? ==> k.salt == l.salt)
  }

  /** Then vectors tell SSRC and index. */
  lemma SameVectorIffSameId(u: RtpUse, v: RtpUse)
    requires u.ssrc < UINT32 && u.index < INDEX_LIMIT && v.ssrc < UINT32 && v.index < INDEX_LIMIT
    requires SameVectors(u.keys, v.keys)
    ensures Vector(u) == Vector(v) <==> Id(u) == Id(v)
  {
    hide IcmIv, GcmIv, PlainIv;
    if Vector(u) == Vector(v) {
      if u.keys.cipher.algorithm.Icm? {
        IcmIvInjective(u.ssrc, u.index, v.ssrc, v.index);
      } else {
        GcmIvInjective(u.keys.salt, u.ssrc, u.index, v.ssrc, v.index);
      }
    }
  }

  /** Without repeated transmissions, as long as no packet that goes through laps onto a used index, two
      payload vectors of a run under the same cipher differ, over all streams of the session. */
  lemma NoVectorReuse(prim: Primitives, s: SessionState, run: seq<Operation>, i: nat, j: nat)
    requires GuardedSession(s, {}) && NoRepeats(s) && Epoch(run) && LapFree(prim, s, {}, run)
    requires i < j < |Trace(prim, s, run)|
    requires SameVectors(Trace(prim, s, run)[i].keys, Trace(prim, s, run)[j].keys)
    ensures Vector(Trace(prim, s, run)[i]) != Vector(Trace(prim, s, run)[j])
  {
    hide Trace, LapFree, GuardedSession, NoRepeats, Epoch, Vector, Id;
    TraceIsFresh(prim, s, {}, run);
    SameVectorIffSameId(Trace(prim, s, run)[i], Trace(prim, s, run)[j]);
  }

  /** In counter mode a vector is the number of the first keystream block, and the others are counted from
      it. No block is used twice under one cipher, in packets of at most 2^16 blocks. */
  lemma NoBlockReuse(prim: Primitives, s: SessionState, run: seq<Operation>, i: nat, a: nat, j: nat, b: nat)
    requires GuardedSession(s, {}) && NoRepeats(s) && Epoch(run) && LapFree(prim, s, {}, run)
    requires i < j < |Trace(prim, s, run)| && a < 0x1_0000 && b < 0x1_0000
    requires var k, l := Trace(prim, s, run)[i].keys, Trace(prim, s, run)[j].keys;
             k.cipher == l.cipher && k.cipher.algorithm.Icm?
    ensures Value(Vector(Trace(prim, s, run)[i])) + a != Value(Vector(Trace(prim, s, run)[j])) + b
  {
    hide Trace, LapFree, GuardedSession, NoRepeats, Epoch, IcmIv, Value;
    TraceIsFresh(prim, s, {}, run);
    var u, v := Trace(prim, s, run)[i], Trace(prim, s, run)[j];
    if Value(Vector(u)) + a == Value(Vector(v)) + b {
      BlocksAreDisjoint(u.ssrc, u.index, a, v.ssrc, v.index, b);
    }
  }

  /** Otherwise one is set twice, if all keys have the same cipher and salt. */
  lemma LapReusesVector(prim: Primitives, s: SessionState, run: seq<Operation>) returns (i: nat, j: nat)
    requires GuardedSession(s, {}) && NoRepeats(s) && Epoch(run) && !LapFree(prim, s, {}, run)
    ensures i < j < |Trace(prim, s, run)|
    ensures Id(Trace(prim, s, run)[i]) == Id(Trace(prim, s, run)[j])
    ensures Trace(prim, s, run)[i].keys == Trace(prim, s, run)[j].keys ==>
              Vector(Trace(prim, s, run)[i]) == Vector(Trace(prim, s, run)[j])
  {
    hide Trace, LapFree, GuardedSession, NoRepeats, Epoch, PayloadIv;
    TraceIsFresh(prim, s, {}, run);
    var trace := Trace(prim, s, run);
    i, j :| 0 <= i < j < |trace| && Id(trace[i]) == Id(trace[j]);
  }
}
