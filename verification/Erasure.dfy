/** Packets that fail up to the tag comparison leave no trace: erasing them from any run of the session
    changes nothing. */
module Erasure {
  import opened Octets
  import opened SrtpStatus
  import opened Crypto
  import opened RtpPacket
  import opened SessionKey
  import opened SessionModel
  import opened SessionInvariants
  import opened SessionRuns
  import opened RtcpModel

  /** Keys and an index could be chosen, and the tag is right. The authenticated cipher counts as
      passing: it charges its key before it compares. */
  ghost predicate Passes(prim: Primitives, s: SessionState, pkt: Octets, useMki: bool)
    requires ValidSession(s)
  {
    && ChooseReceive(s, pkt, useMki).Choose?
    && (UsesGcm(s, pkt, useMki) || ChosenVerdict(prim, s, pkt, useMki) == Ok)
  }

  function ChosenVerdict(prim: Primitives, s: SessionState, pkt: Octets, useMki: bool): Status
    requires ValidSession(s) && ChooseReceive(s, pkt, useMki).Choose?
  {
    ChooseReceiveFacts(s, pkt, useMki);
    var c := ChooseReceive(s, pkt, useMki);
    Verdict(prim, RtpKeysOf(ChosenKeys(s, pkt, useMki)), ReceiverStream(s, Ssrc(pkt)).rtp, pkt, c.guess.est, c.mkiSize)
  }

  /** Streams, replay databases, directions, pending counters, key limits and the packet stay. */
  lemma RejectionChangesNothing(prim: Primitives, s: SessionState, pkt: Octets, useMki: bool)
    requires ValidSession(s) && !Passes(prim, s, pkt, useMki)
    ensures var r := Unprotect(prim, s, pkt, useMki);
            r.session == s && r.packet == pkt && r.status != Ok
  {
    hide Verdict, Open, ChooseReceive, Commit, ValidHeader, Charge;
    if ChooseReceive(s, pkt, useMki).Reject? {
      UnprotectRejects(prim, s, pkt, useMki);
    } else {
      ChooseReceiveFacts(s, pkt, useMki);
    }
  }

  /** An RTP packet that fails up to the tag comparison, or an RTCP packet that fails at all. */
  ghost predicate Ignored(prim: Primitives, s: SessionState, op: Operation) {
    && ValidSession(s)
    && match op
       case ReceiveRtpPacket(pkt, useMki) => !Passes(prim, s, pkt, useMki)
       case ReceiveRtcpPacket(pkt, useMki) => UnprotectRtcpMki(prim, s, pkt, useMki).status != Ok
       case _ => false
  }

  /** The run without the packets that are ignored when their turn comes. */
  ghost function Erase(prim: Primitives, s: SessionState, run: seq<Operation>): seq<Operation>
    decreases |run|
  {
    if run == [] then []
    else if Ignored(prim, s, run[0]) then Erase(prim, s, run[1..])
    else [run[0]] + Erase(prim, Apply(prim, s, run[0]), run[1..])
  }

  /** The results of the operations that are not ignored, in order. */
  ghost function Results(prim: Primitives, s: SessionState, run: seq<Operation>): seq<Outcome>
    decreases |run|
  {
    if run == [] then []
    else
      (if Ignored(prim, s, run[0]) then [] else [Perform(prim, s, run[0])])
      + Results(prim, Apply(prim, s, run[0]), run[1..])
  }

  lemma IgnoredStep(prim: Primitives, s: SessionState, op: Operation)
    requires Ignored(prim, s, op)
    ensures Apply(prim, s, op) == s
  {
    hide Unprotect, UnprotectRtcpMki, Passes, ValidSession;
    if op.ReceiveRtpPacket? {
      RejectionChangesNothing(prim, s, op.pkt, op.useMki);
    } else {
      RefusedRtcpChangesNothing(prim, s, op.pkt, op.useMki);
    }
  }

  /** The erased run ends in the same state and gives every remaining operation the same result. */
  lemma {:induction false} ErasureIsInvisible(prim: Primitives, s: SessionState, run: seq<Operation>)
    ensures AfterRun(prim, s, Erase(prim, s, run)) == AfterRun(prim, s, run)
    ensures Results(prim, s, Erase(prim, s, run)) == Results(prim, s, run)
    ensures |Results(prim, s, run)| == |Erase(prim, s, run)|
    decreases |run|
  {
    hide Apply, Ignored, Perform;
    if run != [] {
      var s', rest := Apply(prim, s, run[0]), run[1..];
      if Ignored(prim, s, run[0]) {
        IgnoredStep(prim, s, run[0]);
        ErasureIsInvisible(prim, s, rest);
        assert [] + Results(prim, s, rest) == Results(prim, s, rest);
      } else {
        ErasureIsInvisible(prim, s', rest);
        var erased := Erase(prim, s', rest);
        assert Erase(prim, s, run) == [run[0]] + erased;
        assert ([run[0]] + erased)[1..] == erased;
      }
    }
  }
}
