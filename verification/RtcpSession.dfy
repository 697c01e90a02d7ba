/** RTCP on a live session: the list, the template and the packet buffer, in place. */
module RtcpSession {
  import opened Octets
  import opened SrtpStatus
  import opened Crypto
  import opened ReplayWindow
  import opened RtcpReplay
  import opened SessionKey
  import opened SessionModel
  import opened StreamObjects
  import opened LiveSession
  import opened RtcpPacket
  import opened RtcpInPlace
  import opened RtcpModel

  /** The stream to send on, cloned from the template if the SSRC is not listed. */
  method EnsureRtcp(s: Session, ssrc: nat) returns (t: Stream?, ghost at: nat)
    requires s.Valid() && ssrc < UINT32
    modifies s`model, s`spine, s`streamList, s.kernel`live
    ensures s.Valid()
    ensures match WithRtcpStream(old(s.model), ssrc)
            case None => t == null && s.model == old(s.model)
            case Some(m) => s.model == m && at == Find(m.streams, ssrc) && at < |s.spine| && t == s.spine[at]
    ensures s.spine == old(s.spine) || (|s.spine| > 0 && fresh(s.spine[0]) && s.spine == [s.spine[0]] + old(s.spine))
  {
    hide *;
    s.ValidParts();
    WithRtcpStreamIs(s.model, ssrc);
    t, at := s.GetStream(ssrc);
    if t == null {
      TemplateMirrored(s.template, s.model.template);
      if s.template != null {
        t := s.CloneAtHead(ssrc);
        at := 0;
      }
    }
  }

  lemma WithRtcpStreamIs(s: SessionState, ssrc: nat)
    ensures var r := WithRtcpStream(s, ssrc);
            if Find(s.streams, ssrc) < |s.streams| then r == Some(s)
            else if s.template.Some? then
              && r == Some(s.(streams := [Clone(s.template.value, ssrc)] + s.streams))
              && Find(r.value.streams, ssrc) == 0
            else r == None
  {
  }

  /** Marks the direction and counts up. */
  method CountRtcp(s: Session, t: Stream, ghost at: nat) returns (next: Option<Rdb>)
    requires s.Valid() && at < |s.spine| && t == s.spine[at]
    modifies s`model, t`direction, t`db, t`rtcpDb, t`pendingRoc
    ensures s.Valid() && s.spine == old(s.spine) && at < |old(s.model).streams|
    ensures var u := Mark(old(s.model).streams[at], Sender);
            && next == IncrementRdb(u.rtcpDb)
            && s.model == WithStream(old(s.model), at, if next.None? then u else u.(rtcpDb := next.value))
    ensures next.Some? ==> next.value.start <= MAX_RTCP_INDEX
  {
    hide *;
    s.ValidParts();
    StreamIs(s.spine, s.model.streams, at);
    ValidAt(s.model, at);
    MarkIs(s.model.streams[at], Sender);
    IncrementKeepsValid(t.rtcpDb);
    next := IncrementRdb(t.rtcpDb);
    var direction := if t.direction == Unknown then Sender else t.direction;
    s.Assign(t, at, direction, t.db, if next.None? then t.rtcpDb else next.value, t.pendingRoc);
  }

  lemma IncrementKeepsValid(db: Rdb)
    requires ValidRdb(db)
    ensures IncrementRdb(db).Some? ==> ValidRdb(IncrementRdb(db).value) && IncrementRdb(db).value.start <= MAX_RTCP_INDEX
  {
  }

  lemma ProtectRtcpMkiIs(prim: Primitives, s: SessionState, p: Octets, useMki: bool, mkiIndex: nat)
    requires ValidSession(s)
    ensures RTCP_HEADER == 8 && TRAILER == 4
    ensures |p| < 8 ==> ProtectRtcpMki(prim, s, p, useMki, mkiIndex) == Outcome(s, BadParam, [])
    ensures |p| >= 8 ==>
              var ssrc := RtcpSsrc(p);
              && ssrc < UINT32
              && match WithRtcpStream(s, ssrc)
                 case None => ProtectRtcpMki(prim, s, p, useMki, mkiIndex) == Outcome(s, NoCtx, [])
                 case Some(s1) =>
                   var at := Find(s1.streams, ssrc);
                   && at < |s1.streams| && ValidSession(s1) && s1.streams[at].keys != []
                   && var t := Mark(s1.streams[at], Sender);
                      && t.keys == s1.streams[at].keys && t.rtcp == s1.streams[at].rtcp
                      && var k := RtcpKeysOf(t.keys[SelectedSlot(|t.keys|, useMki, mkiIndex)]);
                         ProtectRtcpMki(prim, s, p, useMki, mkiIndex)
                         == match IncrementRdb(t.rtcpDb)
                            case None => Outcome(WithStream(s1, at, t), KeyExpired, [])
                            case Some(next) =>
                              Outcome(WithStream(s1, at, t.(rtcpDb := next)), Ok,
                                      SealRtcp(prim, k, t.rtcp.conf, p, next.start, useMki))
  {
    hide SealRtcp, RtcpKeysOf, SelectedSlot, ValidSession, WithRtcpStream;
    if |p| >= 8 && WithRtcpStream(s, RtcpSsrc(p)).Some? {
      WithRtcpStreamKeepsValid(s, RtcpSsrc(p));
      var s1 := WithRtcpStream(s, RtcpSsrc(p)).value;
      ValidAt(s1, Find(s1.streams, RtcpSsrc(p)));
    }
  }

  /** Protects the RTCP packet at the front of the buffer, in place. */
  method ProtectRtcpMkiLive(
    s: Session, prim: Primitives, pkt: array<Octet>, length: nat, useMki: bool, mkiIndex: nat)
    returns (status: Status, newLength: nat)
    requires s.Valid() && length + TRAILER + MAX_MKI_LEN + MAX_TAG_LEN <= pkt.Length
    modifies s`model, s`spine, s`streamList, s.kernel`live, s.spine, SessionObjects(s.model), pkt
    ensures s.Valid() && ValidSession(old(s.model))
    ensures var r := ProtectRtcpMki(prim, old(s.model), old(pkt[..length]), useMki, mkiIndex);
            && s.model == r.session && status == r.status
            && (status == Ok ==> newLength <= pkt.Length && pkt[..newLength] == r.packet)
  {
    hide *;
    s.ValidParts();
    newLength := length;
    ghost var p, was := pkt[..length], s.model;
    ProtectRtcpMkiIs(prim, was, p, useMki, mkiIndex);
    if length < RTCP_HEADER {
      return BadParam, length;
    }
    var ssrc := RtcpSsrc(pkt[..length]);
    var t, at := EnsureRtcp(s, ssrc);
    if t == null {
      return NoCtx, length;
    }
    s.ValidParts();
    StreamIs(s.spine, s.model.streams, at);
    RtcpObjects(was, ssrc);
    ghost var chosen := SelectedSlot(|t.table.content|, useMki, mkiIndex);
    SlotObjectsIn(s.model, at, chosen);
    RtcpObjectsIn(s.model, at, chosen);
    UsableAt(s.spine, s.template, at, chosen);
    var next := CountRtcp(s, t, at);
    if next.None? {
      return KeyExpired, length;
    }
    var slot := SelectedSlot(|t.table.content|, useMki, mkiIndex);
    newLength := SealRtcpInPlace(prim, t.table.content[slot].keys, t.rtcp.conf, pkt, length, next.value.start, useMki);
    status := Ok;
  }

  lemma RtcpObjects(s: SessionState, ssrc: nat)
    requires WithRtcpStream(s, ssrc).Some?
    ensures SessionObjects(WithRtcpStream(s, ssrc).value) <= SessionObjects(s)
  {
    hide TableObjects;
    var s' := WithRtcpStream(s, ssrc).value;
    forall t, o | t in s'.streams && o in TableObjects(t.keys)
      ensures o in SessionObjects(s)
    {
      if t !in s.streams {
        assert t.keys == s.template.value.keys;
      }
    }
  }

  lemma RtcpObjectsIn(s: SessionState, at: nat, slot: nat)
    requires at < |s.streams| && slot < |s.streams[at].keys|
    requires SlotObjects(s.streams[at].keys[slot]) <= SessionObjects(s)
    ensures s.streams[at].keys[slot].rtcpCipher in SessionObjects(s)
    ensures s.streams[at].keys[slot].rtcpAuth in SessionObjects(s)
  {
    hide SessionObjects;
  }

  // ----- Receiving

  lemma UnprotectRtcpMkiIs(prim: Primitives, s: SessionState, p: Octets, useMki: bool)
    requires ValidSession(s)
    ensures RTCP_HEADER == 8 && TRAILER == 4
    ensures |p| < 12 ==> UnprotectRtcpMki(prim, s, p, useMki) == Outcome(s, BadParam, p)
    ensures |p| >= 12 ==>
              var ssrc := RtcpSsrc(p);
              && ssrc < UINT32
              && (Find(s.streams, ssrc) == |s.streams| && s.template.None? ==>
                    UnprotectRtcpMki(prim, s, p, useMki) == Outcome(s, NoCtx, p))
              && (Find(s.streams, ssrc) < |s.streams| || s.template.Some? ==>
                    var t := ReceiverStream(s, ssrc);
                    && t.keys != [] && ValidRdb(t.rtcpDb)
                    && var found := if useMki then FindSlot(RtpKeysOfAll(t.keys), p, 0) else Some(0);
                       && (found.None? ==> UnprotectRtcpMki(prim, s, p, useMki) == Outcome(s, BadMki, p))
                       && (found.Some? ==> found.value < |t.keys|)
                       && (found.Some? ==>
                             UnprotectRtcpMki(prim, s, p, useMki)
                             == ReceiveRtcp(prim, s, p, found.value,
                                            if useMki then |t.keys[found.value].mki| else 0)))
  {
    hide ReceiveRtcp, RtpKeysOfAll, FindSlot, ValidSession, ValidRdb;
    if |p| >= 12 && (Find(s.streams, RtcpSsrc(p)) < |s.streams| || s.template.Some?) {
      ReceiverStreamValid(s, RtcpSsrc(p));
    }
  }

  lemma ReceiveRtcpIs(prim: Primitives, s: SessionState, p: Octets, slot: nat, mkiSize: nat)
    requires |p| >= RTCP_HEADER && (Find(s.streams, RtcpSsrc(p)) < |s.streams| || s.template.Some?)
    requires slot < |ReceiverStream(s, RtcpSsrc(p)).keys| && ValidRdb(ReceiverStream(s, RtcpSsrc(p)).rtcpDb)
    ensures var t := ReceiverStream(s, RtcpSsrc(p));
            var k := RtcpKeysOf(t.keys[slot]);
            var r := UnprotectRtcp(prim, k, t.rtcp.conf, t.rtcpDb, p, mkiSize);
            && (r.status != Ok ==> ReceiveRtcp(prim, s, p, slot, mkiSize) == Outcome(s, r.status, p))
            && (r.status == Ok ==>
                  var at := TrailerAt(k, |p|, mkiSize);
                  && 0 <= at && at + TRAILER <= |p| && t.rtcpDb.start <= TrailerIndex(p, at) <= MAX_RTCP_INDEX
                  && ReceiveRtcp(prim, s, p, slot, mkiSize)
                     == Outcome(CommitRtcp(s, RtcpSsrc(p), TrailerIndex(p, at)), Ok, r.packet))
  {
    hide UnprotectRtcp, RtcpKeysOf, CommitRtcp, AddRdb;
    var t := ReceiverStream(s, RtcpSsrc(p));
    var k := RtcpKeysOf(t.keys[slot]);
    if UnprotectRtcp(prim, k, t.rtcp.conf, t.rtcpDb, p, mkiSize).status == Ok {
      AcceptedIndex(prim, k, t.rtcp.conf, t.rtcpDb, p, mkiSize);
    }
  }

  lemma CommitRtcpIs(s: SessionState, ssrc: nat, index: nat)
    requires ValidSession(s) && (Find(s.streams, ssrc) < |s.streams| || s.template.Some?)
    requires ValidRdb(ReceiverStream(s, ssrc).rtcpDb)
    requires ReceiverStream(s, ssrc).rtcpDb.start <= index <= MAX_RTCP_INDEX
    ensures var at := Find(s.streams, ssrc);
            && (at < |s.streams| ==>
                  var t := s.streams[at];
                  && ValidRdb(t.rtcpDb) && t.rtcpDb.start <= index && ValidRdb(AddRdb(t.rtcpDb, index))
                  && CommitRtcp(s, ssrc, index)
                     == WithStream(s, at, t.(direction := if t.direction == Unknown then Receiver else t.direction,
                                             rtcpDb := AddRdb(t.rtcpDb, index))))
            && (at == |s.streams| ==>
                  && s.template.Some?
                  && var m := Mark(s.template.value, Receiver);
                     var c := Clone(m, ssrc);
                     && ValidRdb(c.rtcpDb) && c.rtcpDb.start <= index && ValidRdb(AddRdb(c.rtcpDb, index))
                     && m == s.template.value.(direction := if s.template.value.direction == Unknown then Receiver
                                                            else s.template.value.direction)
                     && CommitRtcp(s, ssrc, index)
                        == WithStream(s.(template := Some(m), streams := [c] + s.streams), 0,
                                      c.(rtcpDb := AddRdb(c.rtcpDb, index))))
  {
    hide AddRdb, ValidSession;
    var at := Find(s.streams, ssrc);
    if at == |s.streams| {
      var m := Mark(s.template.value, Receiver);
      var c := Clone(m, ssrc);
      var c' := c.(rtcpDb := AddRdb(c.rtcpDb, index));
      assert ([c] + s.streams)[0 := c'] == [c'] + s.streams;
    }
  }

  /** Direction, clone and replay database after an accepted packet. */
  method CommitRtcpLive(s: Session, t: Stream, ghost at: nat, ssrc: nat, index: nat)
    requires s.Valid() && ssrc < UINT32 && at == Find(s.model.streams, ssrc)
    requires if t != s.template then at < |s.spine| && t == s.spine[at] else at == |s.model.streams|
    requires Find(s.model.streams, ssrc) < |s.model.streams| || s.model.template.Some?
    requires ValidRdb(ReceiverStream(s.model, ssrc).rtcpDb)
    requires ReceiverStream(s.model, ssrc).rtcpDb.start <= index <= MAX_RTCP_INDEX
    modifies s`model, s`spine, s`streamList, s.kernel`live, t`direction, t`db, t`rtcpDb, t`pendingRoc
    ensures s.Valid()
    ensures Find(old(s.model).streams, ssrc) < |old(s.model).streams| || old(s.model).template.Some?
    ensures s.model == CommitRtcp(old(s.model), ssrc, index)
  {
    hide *;
    s.ValidParts();
    CommitRtcpIs(s.model, ssrc, index);
    TemplateMirrored(s.template, s.model.template);
    if t != s.template {
      StreamIs(s.spine, s.model.streams, at);
      ValidAt(s.model, at);
      var direction := if t.direction == Unknown then Receiver else t.direction;
      s.Assign(t, at, direction, t.db, AddRdb(t.rtcpDb, index), t.pendingRoc);
    } else {
      var direction := if t.direction == Unknown then Receiver else t.direction;
      s.AssignTemplate(direction);
      var c := s.CloneAtHead(ssrc);
      s.ValidParts();
      StreamIs(s.spine, s.model.streams, 0);
      ValidAt(s.model, 0);
      s.Assign(c, 0, c.direction, c.db, AddRdb(c.rtcpDb, index), c.pendingRoc);
    }
  }

  lemma ReceiverFields(
    spine: seq<Stream>, template: Stream?, s: SessionState, t: Stream, at: nat, ssrc: nat)
    requires Mirrors(spine, s.streams) && s.template == TemplateState(template) && template !in spine
    requires at == Find(s.streams, ssrc) && t == (if at < |spine| then spine[at] else template)
    ensures |spine| == |s.streams| && (t != template <==> at < |spine|)
    ensures Find(s.streams, ssrc) < |s.streams| || s.template.Some?
    ensures var u := ReceiverStream(s, ssrc);
            && u.keys == KeysOf(t.table.content) && u.rtcp == t.rtcp && u.rtcpDb == t.rtcpDb
            && |KeysOf(t.table.content)| == |t.table.content|
            && forall i :: 0 <= i < |t.table.content| ==> u.keys[i] == t.table.content[i].keys
  {
    if at < |spine| {
      assert spine[at].State() == s.streams[at];
    }
  }

  lemma ReceiverObjects(s: SessionState, ssrc: nat, slot: nat)
    requires Find(s.streams, ssrc) < |s.streams| || s.template.Some?
    requires slot < |ReceiverStream(s, ssrc).keys|
    ensures var keys := ReceiverStream(s, ssrc).keys[slot];
            keys.rtcpCipher in SessionObjects(s) && keys.rtcpAuth in SessionObjects(s)
  {
    hide SessionObjects;
    var at := Find(s.streams, ssrc);
    if at < |s.streams| {
      SlotObjectsIn(s, at, slot);
    } else {
      TemplateObjectsIn(s, slot);
    }
  }

  /** The listed stream, or else the template, that a packet of the SSRC is checked against. */
  method FindReceiver(s: Session, ssrc: nat) returns (t: Stream?, ghost at: nat)
    requires s.Valid()
    ensures at == Find(s.model.streams, ssrc) && t == (if at < |s.spine| then s.spine[at] else s.template)
    ensures |s.spine| == |s.model.streams|
    ensures t == null <==> Find(s.model.streams, ssrc) == |s.model.streams| && s.model.template.None?
    ensures t != null ==> KeysUsable(t)
  {
    hide *;
    s.ValidParts();
    TemplateMirrored(s.template, s.model.template);
    t, at := s.GetStream(ssrc);
    if t == null {
      t := s.template;
    }
    if t != null {
      KeysUsableAt(s.spine, s.template, t, at);
    }
  }

  /** Opens the packet and commits to it. */
  method ReceiveLive(
    s: Session, prim: Primitives, t: Stream, ghost at: nat, slot: nat, mkiSize: nat, pkt: array<Octet>, length: nat)
    returns (status: Status, newLength: nat)
    requires s.Valid() && length <= pkt.Length && |pkt[..length]| >= RTCP_HEADER
    requires at == Find(s.model.streams, RtcpSsrc(pkt[..length]))
    requires t == (if at < |s.spine| then s.spine[at] else s.template) && slot < |t.table.content|
    requires at < |s.model.streams| || s.model.template.Some?
    requires slot < |ReceiverStream(s.model, RtcpSsrc(pkt[..length])).keys|
    requires ValidRdb(ReceiverStream(s.model, RtcpSsrc(pkt[..length])).rtcpDb)
    modifies s`model, s`spine, s`streamList, s.kernel`live, t`direction, t`db, t`rtcpDb, t`pendingRoc,
             SessionObjects(s.model), pkt
    ensures s.Valid()
    ensures var r := ReceiveRtcp(prim, old(s.model), old(pkt[..length]), slot, mkiSize);
            && s.model == r.session && status == r.status
            && (status == Ok ==> newLength <= pkt.Length && pkt[..newLength] == r.packet)
            && (status != Ok ==> newLength == length && pkt[..] == old(pkt[..]))
  {
    hide *;
    s.ValidParts();
    ghost var p := pkt[..length];
    var ssrc := RtcpSsrc(pkt[..length]);
    SsrcFits(p);
    ReceiverFields(s.spine, s.template, s.model, t, at, ssrc);
    ReceiveRtcpIs(prim, s.model, p, slot, mkiSize);
    ReceiverObjects(s.model, ssrc, slot);
    var index;
    status, newLength, index :=
      OpenRtcpInPlace(prim, t.table.content[slot].keys, t.rtcp.conf, t.rtcpDb, pkt, length, mkiSize);
    if status == Ok {
      CommitRtcpLive(s, t, at, ssrc, index);
    }
  }

  lemma SsrcFits(p: Octets)
    requires |p| >= RTCP_HEADER
    ensures RtcpSsrc(p) < UINT32
  {
  }

  /** Unprotects the RTCP packet at the front of the buffer, in place. A refused packet leaves
      session and buffer as they were. */
  method UnprotectRtcpMkiLive(s: Session, prim: Primitives, pkt: array<Octet>, length: nat, useMki: bool)
    returns (status: Status, newLength: nat)
    requires s.Valid() && length <= pkt.Length && length < UINT32
    modifies s`model, s`spine, s`streamList, s.kernel`live, s.spine, s.template, SessionObjects(s.model), pkt
    ensures s.Valid() && ValidSession(old(s.model))
    ensures var r := UnprotectRtcpMki(prim, old(s.model), old(pkt[..length]), useMki);
            && s.model == r.session && status == r.status
            && (status == Ok ==> newLength <= pkt.Length && pkt[..newLength] == r.packet)
            && (status != Ok ==> newLength == length && pkt[..] == old(pkt[..]))
  {
    hide *;
    s.ValidParts();
    newLength := length;
    ghost var p := pkt[..length];
    UnprotectRtcpMkiIs(prim, s.model, p, useMki);
    if length < RTCP_HEADER + TRAILER {
      return BadParam, length;
    }
    var t, at := FindReceiver(s, RtcpSsrc(pkt[..length]));
    if t == null {
      return NoCtx, length;
    }
    ReceiverFields(s.spine, s.template, s.model, t, at, RtcpSsrc(p));
    var slot, mkiSize := ReceiveSlotLive(t, pkt, length, useMki);
    if slot.None? {
      return BadMki, length;
    }
    status, newLength := ReceiveLive(s, prim, t, at, slot.value, mkiSize, pkt, length);
  }
}
