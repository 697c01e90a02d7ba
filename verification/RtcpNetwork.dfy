/** SRTCP between a sender and a receiver: what is accepted was sent, if nobody else makes valid tags. */
module RtcpNetwork {
  import opened Octets
  import opened SrtpStatus
  import opened Crypto
  import opened RtcpReplay
  import opened SessionKey
  import opened SessionModel
  import opened RtcpPacket
  import opened RtcpModel
  import opened SessionRuns
  import opened NetworkSafety
  import opened RtcpRuns
  import opened RtcpRepeats

  // ----- What a tag covers

  /** What message authentication, or the authenticated cipher, is applied to. */
  datatype Covered = Mac(message: Octets) | Aead(iv: Octets, aad: Octets, text: Octets)

  function CoveredBy(k: RtcpKeys, conf: bool, body: Octets, trailer: Octets, index: nat): Covered
    requires |body| >= RTCP_HEADER
  {
    if !k.gcm then Mac(body + trailer)
    else if conf then
      Aead(RtcpIv(k, RtcpSsrc(body), index), body[..RTCP_HEADER] + trailer, body[RTCP_HEADER..])
    else
      Aead(RtcpIv(k, RtcpSsrc(body), index), body + trailer, [])
  }

  /** The tag is computed over that and nothing else. */
  lemma TagOfCovered(prim: Primitives, k: RtcpKeys, conf: bool, body: Octets, trailer: Octets, index: nat)
    requires |body| >= RTCP_HEADER
    ensures RtcpTag(prim, k, conf, body, trailer, index)
            == match CoveredBy(k, conf, body, trailer, index)
               case Mac(message) => Tag(prim, k.authKey, message, k.tagLen)
               case Aead(iv, aad, text) => AeadTag(prim, k.cipher.key, iv, aad, text, k.tagLen)
  {
  }

  /** A sent packet: its configuration, index and original octets. */
  datatype RtcpLog = RtcpLog(config: Config, index: nat, original: Octets)

  predicate ValidLog(l: RtcpLog) {
    |l.original| >= RTCP_HEADER && l.index <= MAX_RTCP_INDEX
  }

  function BodyOf(prim: Primitives, l: RtcpLog): (r: Octets)
    requires ValidLog(l)
    ensures |r| >= RTCP_HEADER
  {
    CryptRtcp(prim, l.config.rtcpKeys, l.config.rtcpConf, l.original, l.index)
  }

  function LogCovered(prim: Primitives, l: RtcpLog): Covered
    requires ValidLog(l)
  {
    CoveredBy(l.config.rtcpKeys, l.config.rtcpConf, BodyOf(prim, l), Trailer(l.config.rtcpConf, l.index), l.index)
  }

  /** The key that authenticates is the same. */
  predicate SameRtcpMac(k: RtcpKeys, l: RtcpKeys) {
    k.gcm == l.gcm && if l.gcm then k.cipher == l.cipher else k.authKey == l.authKey
  }

  /** What the tag of a received packet covers. */
  function PacketCovered(k: RtcpKeys, p: Octets, mkiSize: nat): Covered
    requires RtcpBodySize(k, |p|, mkiSize) >= RTCP_HEADER
  {
    var at := TrailerAt(k, |p|, mkiSize);
    CoveredBy(k, EBit(p, at), p[..RtcpBodySize(k, |p|, mkiSize)], p[at..at + TRAILER], TrailerIndex(p, at))
  }

  /** The sender has tagged exactly this under the key. */
  ghost predicate RtcpTagged(prim: Primitives, sent: seq<RtcpLog>, k: RtcpKeys, covered: Covered) {
    exists l | l in sent ::
      ValidLog(l) && SameRtcpMac(l.config.rtcpKeys, k) && LogCovered(prim, l) == covered
  }

  /** Equal trailers and equal covered octets come from equal bodies. */
  lemma CoveredDetermines(
    k: RtcpKeys, conf1: bool, body1: Octets, index1: nat, l: RtcpKeys, body2: Octets, p: Octets, at: nat)
    requires |body1| >= RTCP_HEADER && |body2| >= RTCP_HEADER && index1 <= MAX_RTCP_INDEX
    requires at + TRAILER <= |p| && k.gcm == l.gcm
    requires CoveredBy(k, conf1, body1, Trailer(conf1, index1), index1)
             == CoveredBy(l, EBit(p, at), body2, p[at..at + TRAILER], TrailerIndex(p, at))
    ensures body1 == body2 && EBit(p, at) == conf1 && TrailerIndex(p, at) == index1
  {
    hide RtcpIv, EBit, TrailerIndex, Trailer, RtcpSsrc;
    var t1, t2 := Trailer(conf1, index1), p[at..at + TRAILER];
    if !k.gcm {
      SplitAtEnd(body1, t1, body2, t2);
      TrailerReadBack(conf1, index1, p, at);
    } else {
      var a1 := if conf1 then body1[..RTCP_HEADER] else body1;
      var a2 := if EBit(p, at) then body2[..RTCP_HEADER] else body2;
      SplitAtEnd(a1, t1, a2, t2);
      TrailerReadBack(conf1, index1, p, at);
      if conf1 {
        assert body1 == body1[..RTCP_HEADER] + body1[RTCP_HEADER..];
        assert body2 == body2[..RTCP_HEADER] + body2[RTCP_HEADER..];
      }
    }
  }

  lemma SplitAtEnd(a: Octets, t: Octets, b: Octets, u: Octets)
    requires |t| == |u| == TRAILER && a + t == b + u
    ensures a == b && t == u
  {
    assert |a| == |b|;
    assert a == (a + t)[..|a|] && b == (b + u)[..|b|];
    assert t == (a + t)[|a|..] && u == (b + u)[|b|..];
  }

  /** A genuine packet that was tagged by the sender opens to what the sender was given, under its index. */
  lemma TaggedOpensToSent(
    prim: Primitives, l: RtcpLog, k: RtcpKeys, conf: bool, db: Rdb, p: Octets, mkiSize: nat)
    requires ValidLog(l) && ValidRdb(db) && l.config.rtcpKeys == k
    requires UnprotectRtcp(prim, k, conf, db, p, mkiSize).status == Ok
    requires RtcpBodySize(k, |p|, mkiSize) >= RTCP_HEADER && LogCovered(prim, l) == PacketCovered(k, p, mkiSize)
    ensures UnprotectRtcp(prim, k, conf, db, p, mkiSize).packet == l.original
    ensures TrailerIndex(p, TrailerAt(k, |p|, mkiSize)) == l.index
    ensures |p| >= RTCP_HEADER && RtcpSsrc(p) == RtcpSsrc(l.original)
  {
    hide CryptRtcp, RtcpTag, EBit, TrailerIndex, AddRdb, CheckRdb, CoveredBy, Trailer, RtcpSsrc;
    var at, size := TrailerAt(k, |p|, mkiSize), RtcpBodySize(k, |p|, mkiSize);
    var body := BodyOf(prim, l);
    CoveredDetermines(k, l.config.rtcpConf, body, l.index, k, p[..size], p, at);
    CryptRtcpTwice(prim, k, l.config.rtcpConf, l.original, l.index);
    SameRtcpSsrc(body, l.original);
    assert p[..RTCP_HEADER] == p[..size][..RTCP_HEADER];
    SameRtcpSsrc(p, p[..size]);
  }

  // ----- Sessions

  /** The configuration a received packet is checked with. */
  function CheckedConfigOf(s: SessionState, p: Octets, useMki: bool): Config
    requires |p| >= RTCP_HEADER && (Find(s.streams, RtcpSsrc(p)) < |s.streams| || s.template.Some?)
    requires ReceiverStream(s, RtcpSsrc(p)).keys != [] && ReceiveSlot(ReceiverStream(s, RtcpSsrc(p)), p, useMki).Some?
  {
    var t := ReceiverStream(s, RtcpSsrc(p));
    ConfigOf(t, ReceiveSlot(t, p, useMki).value)
  }

  /** Whoever presents a valid SRTCP tag got it from the sender. */
  ghost predicate RtcpUnforged(prim: Primitives, sent: seq<RtcpLog>, s: SessionState, p: Octets, useMki: bool) {
    |p| >= RTCP_HEADER && (Find(s.streams, RtcpSsrc(p)) < |s.streams| || s.template.Some?)
    && GenuineFor(prim, ReceiverStream(s, RtcpSsrc(p)), p, useMki) ==>
      var t := ReceiverStream(s, RtcpSsrc(p));
      var slot := ReceiveSlot(t, p, useMki).value;
      var k := RtcpKeysOf(t.keys[slot]);
      RtcpTagged(prim, sent, k, PacketCovered(k, p, if useMki then |t.keys[slot].mki| else 0))
  }

  /** Equal authenticating keys mean the same configuration for SRTCP. */
  ghost predicate RtcpAgreed(sender: set<Config>, receiver: set<Config>) {
    forall c, d | c in sender && d in receiver :: SameRtcpMac(c.rtcpKeys, d.rtcpKeys) ==> c.rtcpKeys == d.rtcpKeys
  }

  datatype RtcpAccepted = RtcpAccepted(ssrc: nat, index: nat, packet: Octets)

  ghost predicate RtcpCameFrom(a: RtcpAccepted, l: RtcpLog) {
    ValidLog(l) && a.packet == l.original && a.index == l.index && a.ssrc == RtcpSsrc(l.original)
  }

  /** An SRTCP packet that is accepted was sent, under the same index, and arrives with its octets. */
  lemma AcceptedRtcpWasSent(
    prim: Primitives, sent: seq<RtcpLog>, s: SessionState, p: Octets, useMki: bool,
    sender: set<Config>, receiver: set<Config>)
    requires ValidSession(s) && Configured(s, receiver) && RtcpAgreed(sender, receiver)
    requires forall l | l in sent :: l.config in sender
    requires RtcpUnforged(prim, sent, s, p, useMki) && UnprotectRtcpMki(prim, s, p, useMki).status == Ok
    ensures |p| >= RTCP_HEADER
    ensures var a := RtcpAccepted(RtcpSsrc(p), AcceptedUse(prim, s, p, useMki).index,
                                  UnprotectRtcpMki(prim, s, p, useMki).packet);
            exists l | l in sent :: RtcpCameFrom(a, l)
  {
    hide *;
    AcceptedIff(prim, s, p, useMki);
    var t := ReceiverStream(s, RtcpSsrc(p));
    var slot := SlotChosen(prim, s, p, useMki, receiver);
    var k, mkiSize := RtcpKeysOf(t.keys[slot]), if useMki then |t.keys[slot].mki| else 0;
    var l := OriginOf(prim, sent, s, p, useMki, slot);
    AgreedRtcpKeys(l.config, ConfigOf(t, slot), sender, receiver) by { RtcpPart(t, slot); }
    RtcpPart(t, slot);
    OpenedAs(prim, s, p, useMki, slot);
    TaggedOpensToSent(prim, l, k, t.rtcp.conf, t.rtcpDb, p, mkiSize);
    var a := RtcpAccepted(RtcpSsrc(p), AcceptedUse(prim, s, p, useMki).index,
                          UnprotectRtcpMki(prim, s, p, useMki).packet);
    RtcpCameFromIs(a, l);
  }

  lemma SlotChosen(prim: Primitives, s: SessionState, p: Octets, useMki: bool, configs: set<Config>)
    returns (slot: nat)
    requires |p| >= RTCP_HEADER && (Find(s.streams, RtcpSsrc(p)) < |s.streams| || s.template.Some?)
    requires GenuineFor(prim, ReceiverStream(s, RtcpSsrc(p)), p, useMki) && Configured(s, configs)
    ensures var t := ReceiverStream(s, RtcpSsrc(p));
            && t.keys != [] && ReceiveSlot(t, p, useMki) == Some(slot) && slot < |t.keys|
            && ConfigOf(t, slot) in configs
            && RtcpBodySize(RtcpKeysOf(t.keys[slot]), |p|, if useMki then |t.keys[slot].mki| else 0) >= RTCP_HEADER
  {
    hide RtcpSsrc, ReceiveSlot, RtcpKeysOf, Find, ConfigOf;
    var t := ReceiverStream(s, RtcpSsrc(p));
    slot := ReceiveSlot(t, p, useMki).value;
  }

  lemma OriginOf(prim: Primitives, sent: seq<RtcpLog>, s: SessionState, p: Octets, useMki: bool, slot: nat)
    returns (l: RtcpLog)
    requires |p| >= RTCP_HEADER && (Find(s.streams, RtcpSsrc(p)) < |s.streams| || s.template.Some?)
    requires RtcpUnforged(prim, sent, s, p, useMki)
    requires var t := ReceiverStream(s, RtcpSsrc(p));
             && GenuineFor(prim, t, p, useMki) && t.keys != [] && ReceiveSlot(t, p, useMki) == Some(slot)
             && slot < |t.keys|
             && RtcpBodySize(RtcpKeysOf(t.keys[slot]), |p|, if useMki then |t.keys[slot].mki| else 0) >= RTCP_HEADER
    ensures var t := ReceiverStream(s, RtcpSsrc(p));
            var k := RtcpKeysOf(t.keys[slot]);
            && l in sent && ValidLog(l) && SameRtcpMac(l.config.rtcpKeys, k)
            && LogCovered(prim, l) == PacketCovered(k, p, if useMki then |t.keys[slot].mki| else 0)
  {
    hide RtcpSsrc, ReceiveSlot, RtcpKeysOf, Find, GenuineRtcp, LogCovered, PacketCovered, ReceiverStream;
    var t := ReceiverStream(s, RtcpSsrc(p));
    var k := RtcpKeysOf(t.keys[slot]);
    var covered := PacketCovered(k, p, if useMki then |t.keys[slot].mki| else 0);
    assert RtcpTagged(prim, sent, k, covered);
    l :| l in sent && ValidLog(l) && SameRtcpMac(l.config.rtcpKeys, k) && LogCovered(prim, l) == covered;
  }

  lemma RtcpPart(t: StreamState, slot: nat)
    requires slot < |t.keys|
    ensures ConfigOf(t, slot).rtcpKeys == RtcpKeysOf(t.keys[slot]) && ConfigOf(t, slot).rtcpConf == t.rtcp.conf
  {
  }

  lemma AgreedRtcpKeys(c: Config, d: Config, sender: set<Config>, receiver: set<Config>)
    requires RtcpAgreed(sender, receiver) && c in sender && d in receiver && SameRtcpMac(c.rtcpKeys, d.rtcpKeys)
    ensures c.rtcpKeys == d.rtcpKeys
  {
  }

  /** The result of unprotecting, in terms of the packet operation. */
  lemma OpenedAs(prim: Primitives, s: SessionState, p: Octets, useMki: bool, slot: nat)
    requires ValidSession(s) && UnprotectRtcpMki(prim, s, p, useMki).status == Ok
    requires |p| >= RTCP_HEADER && (Find(s.streams, RtcpSsrc(p)) < |s.streams| || s.template.Some?)
    requires ReceiverStream(s, RtcpSsrc(p)).keys != []
    requires ReceiveSlot(ReceiverStream(s, RtcpSsrc(p)), p, useMki) == Some(slot)
    requires slot < |ReceiverStream(s, RtcpSsrc(p)).keys|
    ensures var t := ReceiverStream(s, RtcpSsrc(p));
            var k, mkiSize := RtcpKeysOf(t.keys[slot]), if useMki then |t.keys[slot].mki| else 0;
            && ValidRdb(t.rtcpDb)
            && var r := UnprotectRtcp(prim, k, t.rtcp.conf, t.rtcpDb, p, mkiSize);
               && r.status == Ok && r.packet == UnprotectRtcpMki(prim, s, p, useMki).packet
               && 0 <= TrailerAt(k, |p|, mkiSize) && TrailerAt(k, |p|, mkiSize) + TRAILER <= |p|
               && AcceptedUse(prim, s, p, useMki).index == TrailerIndex(p, TrailerAt(k, |p|, mkiSize))
  {
    hide UnprotectRtcp, ReceiveSlot, TrailerIndex, CommitRtcp, RtcpKeysOf, CheckRdb, ValidSession, RtcpSsrc, Find,
         ReceiverStream;
    ReceiverStreamValid(s, RtcpSsrc(p));
    var t := ReceiverStream(s, RtcpSsrc(p));
    AcceptedPasses(prim, RtcpKeysOf(t.keys[slot]), t.rtcp.conf, t.rtcpDb, p,
                   if useMki then |t.keys[slot].mki| else 0);
  }

  lemma RtcpCameFromIs(a: RtcpAccepted, l: RtcpLog)
    requires ValidLog(l) && a.packet == l.original && a.index == l.index && a.ssrc == RtcpSsrc(l.original)
    ensures RtcpCameFrom(a, l)
  {
  }

  // ----- Runs of sender, network and receiver

  type EpochOperation = op: Operation | KeepsKeys(op) witness SetCounter(0, 0)

  /** Any operation on either side; only SRTCP packets are logged. */
  datatype RtcpAction = OnSender(op: EpochOperation) | OnReceiver(op: EpochOperation)

  datatype RtcpSystem = RtcpSystem(
    tx: SessionState, rx: SessionState, sent: seq<RtcpLog>, accepted: seq<RtcpAccepted>)

  ghost function LogSent(prim: Primitives, s: SessionState, op: Operation): seq<RtcpLog> {
    if !op.SendRtcpPacket? || Perform(prim, s, op).status != Ok then []
    else
      SentIsListed(prim, s, op.pkt, op.useMki, op.mkiIndex);
      var t := ReceiverStream(s, RtcpSsrc(op.pkt));
      [RtcpLog(ConfigOf(t, SelectedSlot(|t.keys|, op.useMki, op.mkiIndex)), SentBy(prim, s, op)[0].index, op.pkt)]
  }

  ghost function LogAccepted(prim: Primitives, s: SessionState, op: Operation): seq<RtcpAccepted> {
    if !op.ReceiveRtcpPacket? || Perform(prim, s, op).status != Ok then []
    else
      AcceptedChanges(prim, s, op.pkt, op.useMki);
      [RtcpAccepted(RtcpSsrc(op.pkt), AcceptedUse(prim, s, op.pkt, op.useMki).index, Perform(prim, s, op).packet)]
  }

  ghost function RtcpAct(prim: Primitives, y: RtcpSystem, a: RtcpAction): RtcpSystem {
    match a
    case OnSender(op) => y.(tx := Apply(prim, y.tx, op), sent := y.sent + LogSent(prim, y.tx, op))
    case OnReceiver(op) => y.(rx := Apply(prim, y.rx, op), accepted := y.accepted + LogAccepted(prim, y.rx, op))
  }

  ghost predicate RtcpPermitted(prim: Primitives, y: RtcpSystem, a: RtcpAction) {
    a.OnReceiver? && a.op.ReceiveRtcpPacket? ==> RtcpUnforged(prim, y.sent, y.rx, a.op.pkt, a.op.useMki)
  }

  ghost predicate AllRtcpSent(y: RtcpSystem) {
    forall a | a in y.accepted :: exists l | l in y.sent :: RtcpCameFrom(a, l)
  }

  ghost predicate RtcpInvariant(prim: Primitives, y: RtcpSystem, sender: set<Config>, receiver: set<Config>) {
    && ValidSession(y.tx) && Configured(y.tx, sender)
    && ValidSession(y.rx) && Configured(y.rx, receiver)
    && (forall l | l in y.sent :: ValidLog(l) && l.config in sender)
    && AllRtcpSent(y)
  }

  /** What is logged is what was sealed. */
  lemma SentIsLogged(prim: Primitives, s: SessionState, op: Operation, configs: set<Config>)
    requires ValidSession(s) && Configured(s, configs) && LogSent(prim, s, op) != []
    ensures op.SendRtcpPacket?
    ensures var l := LogSent(prim, s, op)[0];
            && LogSent(prim, s, op) == [l] && ValidLog(l) && l.config in configs
            && Perform(prim, s, op).packet
               == SealRtcp(prim, l.config.rtcpKeys, l.config.rtcpConf, l.original, l.index, op.useMki)
  {
    hide SealRtcp, RtcpKeysOf, RtpKeysOf, SelectedSlot, RtcpSsrc, ValidSession, Configured, ReceiverStream, Find;
    SentIsListed(prim, s, op.pkt, op.useMki, op.mkiIndex);
    var ssrc := RtcpSsrc(op.pkt);
    var t := ReceiverStream(s, ssrc);
    SenderConfigured(s, ssrc, SelectedSlot(|t.keys|, op.useMki, op.mkiIndex), configs);
    SendingStreamIs(s, ssrc);
    WithRtcpStreamKeepsValid(s, ssrc) by { RtcpSsrcRange(op.pkt); }
    CountedWithin(BaseDb(s.streams, ssrc));
  }

  lemma SenderConfigured(s: SessionState, ssrc: nat, slot: nat, configs: set<Config>)
    requires Configured(s, configs) && (Find(s.streams, ssrc) < |s.streams| || s.template.Some?)
    requires slot < |ReceiverStream(s, ssrc).keys|
    ensures ConfigOf(ReceiverStream(s, ssrc), slot) in configs
  {
    hide ConfigOf;
  }

  /** The stream to send on has the keys and services of the one to receive on. */
  lemma SendingStreamIs(s: SessionState, ssrc: nat)
    requires Find(s.streams, ssrc) < |s.streams| || s.template.Some?
    ensures WithRtcpStream(s, ssrc).Some?
    ensures var s1 := WithRtcpStream(s, ssrc).value;
            && Find(s1.streams, ssrc) < |s1.streams|
            && var t, u := ReceiverStream(s, ssrc), s1.streams[Find(s1.streams, ssrc)];
               u.keys == t.keys && u.rtcp == t.rtcp && u.rtcpDb == BaseDb(s.streams, ssrc)
  {
    if Find(s.streams, ssrc) == |s.streams| {
      var s1 := WithRtcpStream(s, ssrc).value;
      assert s1.streams[0].ssrc == ssrc;
    }
  }

  lemma CountedWithin(db: Rdb)
    ensures IncrementRdb(db).Some? ==> IncrementRdb(db).value.start <= MAX_RTCP_INDEX
  {
  }

  lemma SenderActs(
    prim: Primitives, y: RtcpSystem, op: EpochOperation, sender: set<Config>, receiver: set<Config>)
    requires RtcpInvariant(prim, y, sender, receiver)
    ensures RtcpInvariant(prim, RtcpAct(prim, y, OnSender(op)), sender, receiver)
  {
    hide ValidSession, Configured, ValidLog, RtcpCameFrom, LogSent, Apply, KeepsKeys;
    ApplyKeepsConfig(prim, y.tx, op, sender);
    if LogSent(prim, y.tx, op) != [] {
      SentIsLogged(prim, y.tx, op, sender);
    }
    var y' := RtcpAct(prim, y, OnSender(op));
    forall a | a in y'.accepted
      ensures exists l | l in y'.sent :: RtcpCameFrom(a, l)
    {
      var l :| l in y.sent && RtcpCameFrom(a, l);
      assert l in y'.sent;
    }
  }

  lemma ReceiverActs(
    prim: Primitives, y: RtcpSystem, op: EpochOperation, sender: set<Config>, receiver: set<Config>)
    requires RtcpAgreed(sender, receiver) && RtcpInvariant(prim, y, sender, receiver)
    requires RtcpPermitted(prim, y, OnReceiver(op))
    ensures RtcpInvariant(prim, RtcpAct(prim, y, OnReceiver(op)), sender, receiver)
  {
    hide ValidSession, Configured, ValidLog, RtcpCameFrom, Apply, KeepsKeys, AcceptedUse, UnprotectRtcpMki, RtcpSsrc,
         RtcpAgreed, RtcpUnforged;
    ApplyKeepsConfig(prim, y.rx, op, receiver);
    if LogAccepted(prim, y.rx, op) != [] {
      AcceptedChanges(prim, y.rx, op.pkt, op.useMki);
      AcceptedRtcpWasSent(prim, y.sent, y.rx, op.pkt, op.useMki, sender, receiver);
    }
  }

  ghost function RtcpAfter(prim: Primitives, y: RtcpSystem, actions: seq<RtcpAction>): RtcpSystem
    decreases |actions|
  {
    if actions == [] then y else RtcpAfter(prim, RtcpAct(prim, y, actions[0]), actions[1..])
  }

  ghost predicate RtcpPermittedRun(prim: Primitives, y: RtcpSystem, actions: seq<RtcpAction>)
    decreases |actions|
  {
    actions != [] ==>
      RtcpPermitted(prim, y, actions[0]) && RtcpPermittedRun(prim, RtcpAct(prim, y, actions[0]), actions[1..])
  }

  /** Runs of any length keep it. */
  lemma {:induction false} RtcpRunKeeps(
    prim: Primitives, y: RtcpSystem, actions: seq<RtcpAction>, sender: set<Config>, receiver: set<Config>)
    requires RtcpAgreed(sender, receiver) && RtcpInvariant(prim, y, sender, receiver)
    requires RtcpPermittedRun(prim, y, actions)
    ensures RtcpInvariant(prim, RtcpAfter(prim, y, actions), sender, receiver)
    decreases |actions|
  {
    hide RtcpAgreed, RtcpInvariant, RtcpAct, RtcpPermitted;
    if actions != [] {
      if actions[0].OnSender? {
        SenderActs(prim, y, actions[0].op, sender, receiver);
      } else {
        ReceiverActs(prim, y, actions[0].op, sender, receiver);
      }
      RtcpRunKeeps(prim, RtcpAct(prim, y, actions[0]), actions[1..], sender, receiver);
    }
  }

  /** In every run each accepted SRTCP packet was sent, and arrives with its octets and its index. */
  lemma RtcpIsAuthentic(
    prim: Primitives, tx: SessionState, rx: SessionState, actions: seq<RtcpAction>,
    sender: set<Config>, receiver: set<Config>)
    requires RtcpAgreed(sender, receiver)
    requires ValidSession(tx) && Configured(tx, sender)
    requires ValidSession(rx) && Configured(rx, receiver)
    requires RtcpPermittedRun(prim, RtcpSystem(tx, rx, [], []), actions)
    ensures AllRtcpSent(RtcpAfter(prim, RtcpSystem(tx, rx, [], []), actions))
  {
    hide Configured, RtcpAgreed, ValidSession, RtcpPermittedRun, RtcpAfter, RtcpCameFrom, ValidLog;
    RtcpRunKeeps(prim, RtcpSystem(tx, rx, [], []), actions, sender, receiver);
  }
}
