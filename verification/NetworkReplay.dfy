/** Over any run of the system: when a recorded index is accepted again. Nothing is assumed about what the
    network delivers. */
module NetworkReplay {
  import opened Octets
  import opened SrtpStatus
  import opened Crypto
  import opened RtpPacket
  import opened SessionModel
  import opened SessionInvariants
  import opened SessionRuns
  import opened NetworkSafety

  function IdOf(a: Accepted): PacketId {
    PacketId(a.ssrc, a.index)
  }

  function RecordedIds(accepted: seq<Accepted>): set<PacketId> {
    set a | a in accepted && a.recorded :: IdOf(a)
  }

  /** No recorded index is accepted again. */
  ghost predicate NoneTwice(accepted: seq<Accepted>) {
    forall i, j | 0 <= i < j < |accepted| :: IdOf(accepted[i]) == IdOf(accepted[j]) ==> !accepted[i].recorded
  }

  /** A delivered packet goes through and laps onto a recorded index. */
  ghost predicate LapsOntoRecorded(prim: Primitives, y: System, a: Action)
    requires ValidSession(y.rx)
  {
    && a.Deliver? && Unprotect(prim, y.rx, a.pkt, a.useMki).status == Ok
    && ReceiveLapsOnto(y.rx, RecordedIds(y.accepted), a.pkt)
  }

  ghost predicate LapFreeRun(prim: Primitives, y: System, actions: seq<Action>)
    decreases |actions|
  {
    actions != [] && ValidSession(y.tx) && ValidSession(y.rx) ==>
      !LapsOntoRecorded(prim, y, actions[0]) && LapFreeRun(prim, Act(prim, y, actions[0]), actions[1..])
  }

  lemma RecordedIdsAdding(accepted: seq<Accepted>, a: Accepted)
    ensures RecordedIds(accepted + [a]) == RecordedIds(accepted) + if a.recorded then {IdOf(a)} else {}
  {
    var more := accepted + [a];
    assert a in more;
    forall b | b in accepted
      ensures b in more
    {
    }
    forall b | b in more
      ensures b in accepted || b == a
    {
    }
  }

  lemma NoneTwiceAdding(accepted: seq<Accepted>, a: Accepted)
    requires NoneTwice(accepted)
    ensures NoneTwice(accepted + [a]) <==> IdOf(a) !in RecordedIds(accepted)
  {
    hide IdOf;
    var more := accepted + [a];
    if IdOf(a) in RecordedIds(accepted) {
      var b :| b in accepted && b.recorded && IdOf(b) == IdOf(a);
      var i :| 0 <= i < |accepted| && accepted[i] == b;
      assert more[i] == b && more[|accepted|] == a;
    } else {
      forall i, j | 0 <= i < j < |more| && IdOf(more[i]) == IdOf(more[j])
        ensures !more[i].recorded
      {
        if j == |accepted| {
          assert accepted[i] in accepted;
        } else {
          assert IdOf(accepted[i]) == IdOf(accepted[j]);
        }
      }
    }
  }

  /** Each delivery. */
  lemma DeliverGuards(prim: Primitives, y: System, pkt: Octets, useMki: bool)
    requires GuardedSession(y.rx, RecordedIds(y.accepted)) && NoneTwice(y.accepted) && ValidSession(y.rx)
    ensures var y' := DeliverOne(prim, y, pkt, useMki);
            && (NoneTwice(y'.accepted) <==> !LapsOntoRecorded(prim, y, Deliver(pkt, useMki)))
            && (NoneTwice(y'.accepted) ==> GuardedSession(y'.rx, RecordedIds(y'.accepted)))
  {
    hide ValidSession, GuardedSession, NoneTwice, RecordedIds, Unprotect, ChooseReceive, ReceiveLapsOnto, ValidHeader,
         Ssrc, Sequence, Records;
    var used := RecordedIds(y.accepted);
    UnprotectGuards(prim, y.rx, used, pkt, useMki);
    if Unprotect(prim, y.rx, pkt, useMki).status == Ok {
      AcceptedWasChosen(prim, y.rx, pkt, useMki);
      var a := Accepted(Ssrc(pkt), ChooseReceive(y.rx, pkt, useMki).guess.est,
                        Unprotect(prim, y.rx, pkt, useMki).packet, Records(y.rx, pkt, useMki));
      RecordedIdsAdding(y.accepted, a);
      NoneTwiceAdding(y.accepted, a);
      assert used + {} == used;
    }
  }

  lemma ActGuards(prim: Primitives, y: System, a: Action)
    requires GuardedSession(y.rx, RecordedIds(y.accepted)) && NoneTwice(y.accepted)
    requires ValidSession(y.tx) && ValidSession(y.rx)
    ensures var y' := Act(prim, y, a);
            && (NoneTwice(y'.accepted) <==> !LapsOntoRecorded(prim, y, a))
            && (NoneTwice(y'.accepted) ==> GuardedSession(y'.rx, RecordedIds(y'.accepted)))
  {
    hide ValidSession, GuardedSession, NoneTwice, RecordedIds, SendOne, DeliverOne, Apply, Quiet;
    match a
    case Send(pkt, useMki, mkiIndex) =>
      SendLeavesReceiver(prim, y, pkt, useMki, mkiIndex);
    case Deliver(pkt, useMki) =>
      DeliverGuards(prim, y, pkt, useMki);
    case AtSender(op) =>
    case AtReceiver(op) =>
      QuietGuards(prim, y.rx, RecordedIds(y.accepted), op);
  }

  lemma SendLeavesReceiver(prim: Primitives, y: System, pkt: Octets, useMki: bool, mkiIndex: nat)
    requires ValidSession(y.tx)
    ensures var y' := SendOne(prim, y, pkt, useMki, mkiIndex); y'.rx == y.rx && y'.accepted == y.accepted
  {
    hide ValidSession, Protect, PrepareSend, Crypt, ConfigOf, ValidHeader;
    if Protect(prim, y.tx, pkt, useMki, mkiIndex).status == Ok {
      ProtectOk(prim, y.tx, pkt, useMki, mkiIndex);
    }
  }

  lemma LogGrows(prim: Primitives, y: System, a: Action)
    requires ValidSession(y.tx) && ValidSession(y.rx)
    ensures y.accepted <= Act(prim, y, a).accepted
  {
    hide ValidSession, SendOne, Apply, Quiet, Unprotect, ChooseReceive, Records, Ssrc;
    if a.Send? {
      SendLeavesReceiver(prim, y, a.pkt, a.useMki, a.mkiIndex);
    } else if a.Deliver? && Unprotect(prim, y.rx, a.pkt, a.useMki).status == Ok {
      AcceptedWasChosen(prim, y.rx, a.pkt, a.useMki);
    }
  }

  /** What was accepted twice stays so. */
  lemma {:induction false} TwiceForever(prim: Primitives, y: System, actions: seq<Action>)
    requires !NoneTwice(y.accepted)
    ensures !NoneTwice(After(prim, y, actions).accepted)
    decreases |actions|
  {
    hide ValidSession, Act;
    if actions != [] && ValidSession(y.tx) && ValidSession(y.rx) {
      LogGrows(prim, y, actions[0]);
      var more := Act(prim, y, actions[0]).accepted;
      var i, j :| 0 <= i < j < |y.accepted|
                  && IdOf(y.accepted[i]) == IdOf(y.accepted[j]) && y.accepted[i].recorded;
      assert more[i] == y.accepted[i] && more[j] == y.accepted[j];
      TwiceForever(prim, Act(prim, y, actions[0]), actions[1..]);
    }
  }

  /** A recorded index is accepted again in a run if and only if a packet that goes through laps onto it. */
  lemma {:induction false} AcceptedOnce(prim: Primitives, y: System, actions: seq<Action>)
    requires GuardedSession(y.rx, RecordedIds(y.accepted)) && NoneTwice(y.accepted)
    ensures NoneTwice(After(prim, y, actions).accepted) <==> LapFreeRun(prim, y, actions)
    decreases |actions|
  {
    hide ValidSession, Act, GuardedSession, NoneTwice, RecordedIds, LapsOntoRecorded;
    if actions != [] && ValidSession(y.tx) && ValidSession(y.rx) {
      ActGuards(prim, y, actions[0]);
      var y' := Act(prim, y, actions[0]);
      if NoneTwice(y'.accepted) {
        AcceptedOnce(prim, y', actions[1..]);
      } else {
        TwiceForever(prim, y', actions[1..]);
      }
    }
  }

  /** In every run from an empty log in which nobody but the sender makes valid tags: each accepted packet
      was sent, arrives with the octets and the index it was sent with, and unless one laps, no index is
      accepted again once the receiver has recorded it. */
  lemma NetworkIsSafe(
    prim: Primitives, tx: SessionState, rx: SessionState, actions: seq<Action>,
    sender: set<Config>, receiver: set<Config>)
    requires Agreed(sender, receiver)
    requires ValidSession(tx) && Configured(tx, sender)
    requires GuardedSession(rx, {}) && ValidSession(rx) && Configured(rx, receiver)
    requires PermittedRun(prim, System(tx, rx, [], []), actions)
    ensures var y := After(prim, System(tx, rx, [], []), actions);
            && AllSent(y)
            && (NoneTwice(y.accepted) <==> LapFreeRun(prim, System(tx, rx, [], []), actions))
  {
    hide Configured, Agreed, GuardedSession, ValidSession, PermittedRun, After, AllSent, LapFreeRun;
    NetworkIsAuthentic(prim, tx, rx, actions, sender, receiver);
    var y := System(tx, rx, [], []);
    assert RecordedIds(y.accepted) == {};
    AcceptedOnce(prim, y, actions);
  }
}
