/** A sender and a receiver joined by a network that may drop, reorder, duplicate and invent
    packets: what is accepted was sent, if nobody else makes valid tags, and when it is accepted twice. */
module NetworkSafety {
  import opened Octets
  import opened SrtpStatus
  import opened Crypto
  import opened ReplayWindow
  import opened InitVectors
  import opened RtpPacket
  import opened SessionKey
  import opened SessionModel
  import opened SessionInvariants
  import opened RtcpPacket
  import opened RtcpModel
  import opened SessionRuns

  // ----- Configuration: what never changes in a stream

  datatype Config = Config(
    keys: RtpKeys, svc: Services, ids: seq<int>, rtcpKeys: RtcpKeys, rtcpConf: bool)

  function ConfigOf(t: StreamState, slot: nat): Config
    requires slot < |t.keys|
  {
    Config(RtpKeysOf(t.keys[slot]), t.rtp, t.ids, RtcpKeysOf(t.keys[slot]), t.rtcp.conf)
  }

  /** The same as far as RTP packets are concerned. */
  predicate SameForRtp(c: Config, d: Config) {
    c.keys == d.keys && c.svc == d.svc && c.ids == d.ids
  }

  predicate StreamConfigured(t: StreamState, configs: set<Config>) {
    forall slot | 0 <= slot < |t.keys| :: ConfigOf(t, slot) in configs
  }

  predicate Configured(s: SessionState, configs: set<Config>) {
    && (forall i | 0 <= i < |s.streams| :: StreamConfigured(s.streams[i], configs))
    && (s.template.Some? ==> StreamConfigured(s.template.value, configs))
  }

  predicate SameConfig(t: StreamState, u: StreamState) {
    t.keys == u.keys && t.rtp == u.rtp && t.rtcp == u.rtcp && t.ids == u.ids
  }

  lemma SameConfigConfigured(t: StreamState, u: StreamState, configs: set<Config>)
    requires SameConfig(t, u) && StreamConfigured(t, configs)
    ensures StreamConfigured(u, configs)
  {
    forall slot | 0 <= slot < |u.keys|
      ensures ConfigOf(u, slot) in configs
    {
      assert ConfigOf(t, slot) in configs;
    }
  }

  // ----- The system

  /** A protected packet: its configuration, index, original octets and authenticated portion. */
  datatype Sent = Sent(config: Config, index: nat, original: Octets, body: Octets)

  /** An accepted packet, and whether the receiver recorded its index. */
  datatype Accepted = Accepted(ssrc: nat, index: nat, packet: Octets, recorded: bool)

  datatype System = System(tx: SessionState, rx: SessionState, sent: seq<Sent>, accepted: seq<Accepted>)

  type QuietOperation = op: Operation | Quiet(op) witness SetCounter(0, 0)

  /** RTCP packets and rollover counters may come in between on both sides. */
  datatype Action =
    | Send(pkt: Octets, useMki: bool, mkiIndex: nat)
    | Deliver(pkt: Octets, useMki: bool)
    | AtSender(op: QuietOperation)
    | AtReceiver(op: QuietOperation)

  ghost function SendOne(prim: Primitives, y: System, pkt: Octets, useMki: bool, mkiIndex: nat): System
    requires ValidSession(y.tx)
  {
    var r := Protect(prim, y.tx, pkt, useMki, mkiIndex);
    if r.status != Ok then y.(tx := r.session)
    else
      ProtectOk(prim, y.tx, pkt, useMki, mkiIndex);
      var p := PrepareSend(y.tx, pkt, useMki, mkiIndex);
      var c := ConfigOf(p.session.streams[p.at], p.slot);
      var body := Crypt(prim, c.keys, c.svc.conf || c.keys.cipher.algorithm.Gcm?, c.ids, pkt, p.index).packet;
      y.(tx := r.session, sent := y.sent + [Sent(c, p.index, pkt, body)])
  }

  lemma ProtectOk(prim: Primitives, s: SessionState, pkt: Octets, useMki: bool, mkiIndex: nat)
    requires ValidSession(s) && Protect(prim, s, pkt, useMki, mkiIndex).status == Ok
    ensures var p := PrepareSend(s, pkt, useMki, mkiIndex);
            && p.Ready? && ValidHeader(pkt) && p.at < |p.session.streams| && p.slot < |p.session.streams[p.at].keys|
            && Protect(prim, s, pkt, useMki, mkiIndex).session == p.session
            && var c := ConfigOf(p.session.streams[p.at], p.slot);
               Crypt(prim, c.keys, c.svc.conf || c.keys.cipher.algorithm.Gcm?, c.ids, pkt, p.index).status == Ok
  {
    hide PrepareSend, ValidHeader, Crypt, Seal, ValidSession;
    PrepareSendRefuses(s, pkt, useMki, mkiIndex);
    var p := PrepareSend(s, pkt, useMki, mkiIndex);
    PrepareSendReady(s, pkt, useMki, mkiIndex);
    var t := p.session.streams[p.at];
    SealIs(prim, RtpKeysOf(t.keys[p.slot]), t.rtp, t.ids, pkt, p.index, useMki);
  }

  lemma PrepareSendRefuses(s: SessionState, pkt: Octets, useMki: bool, mkiIndex: nat)
    requires ValidSession(s)
    ensures var p := PrepareSend(s, pkt, useMki, mkiIndex); p.Refused? ==> p.status != Ok
  {
    hide EnsureStream, ValidHeader, Charge;
  }

  ghost function DeliverOne(prim: Primitives, y: System, pkt: Octets, useMki: bool): System
    requires ValidSession(y.rx)
  {
    var r := Unprotect(prim, y.rx, pkt, useMki);
    if r.status != Ok then y.(rx := r.session)
    else
      AcceptedWasChosen(prim, y.rx, pkt, useMki);
      var index := ChooseReceive(y.rx, pkt, useMki).guess.est;
      var a := Accepted(Ssrc(pkt), index, r.packet, Records(y.rx, pkt, useMki));
      y.(rx := r.session, accepted := y.accepted + [a])
  }

  ghost function Act(prim: Primitives, y: System, a: Action): System
    requires ValidSession(y.tx) && ValidSession(y.rx)
  {
    match a
    case Send(pkt, useMki, mkiIndex) => SendOne(prim, y, pkt, useMki, mkiIndex)
    case Deliver(pkt, useMki) => DeliverOne(prim, y, pkt, useMki)
    case AtSender(op) => y.(tx := Apply(prim, y.tx, op))
    case AtReceiver(op) => y.(rx := Apply(prim, y.rx, op))
  }

  // ----- The ideal code

  /** The keys and the index a delivered packet is checked with. */
  ghost function CheckedWith(s: SessionState, pkt: Octets, useMki: bool): (Config, Choice)
    requires ValidSession(s) && ChooseReceive(s, pkt, useMki).Choose?
  {
    ChooseReceiveFacts(s, pkt, useMki);
    var c := ChooseReceive(s, pkt, useMki);
    (ConfigOf(ReceiverStream(s, Ssrc(pkt)), c.slot), c)
  }

  /** The key has authenticated exactly these octets with this rollover counter for the sender. */
  ghost predicate Tagged(sent: seq<Sent>, k: RtpKeys, body: Octets, index: nat) {
    exists sn | sn in sent ::
      sn.config.keys.authKey == k.authKey && sn.body + RocOctets(sn.index) == body + RocOctets(index)
  }

  /** `a` and `b` are the same associated data and the same ciphertext. */
  predicate SameParts(a: Octets, b: Octets) {
    && ValidHeader(a) && ValidHeader(b)
    && a[..EncStart(a)] == b[..EncStart(b)] && a[EncStart(a)..] == b[EncStart(b)..]
  }

  /** The authenticated cipher has sealed exactly these data under this vector for the sender. */
  ghost predicate AeadSealed(sent: seq<Sent>, k: RtpKeys, body: Octets, index: nat)
    requires ValidHeader(body)
  {
    exists sn | sn in sent ::
      && sn.config.keys.cipher == k.cipher && SameParts(sn.body, body)
      && PayloadIv(sn.config.keys, Ssrc(sn.body), sn.index) == PayloadIv(k, Ssrc(body), index)
  }

  predicate GcmTagged(prim: Primitives, k: RtpKeys, p: Octets, size: nat, index: nat)
    requires ValidHeader(p) && EncStart(p) <= size && size + k.tagLen <= |p|
  {
    PrefixKeepsHeader(p, size);
    GcmTag(prim, k, p[..size], index) == p[size..size + k.tagLen]
  }

  /** If the packet's tag is right, it came from the sender. */
  ghost predicate Genuine(
    prim: Primitives, sent: seq<Sent>, k: RtpKeys, p: Octets, index: nat, mkiSize: nat)
    requires ValidHeader(p)
  {
    var size := |p| - k.tagLen - mkiSize;
    if k.cipher.algorithm.Gcm? then
      EncStart(p) <= size && GcmTagged(prim, k, p, size, index) ==>
        (PrefixKeepsHeader(p, size);
         AeadSealed(sent, k, p[..size], index))
    else
      0 <= size && AuthTag(prim, k, p[..size], index) == p[|p| - k.tagLen..] ==> Tagged(sent, k, p[..size], index)
  }

  /** Whoever presents a valid tag got it from the sender. */
  ghost predicate Unforged(prim: Primitives, y: System, pkt: Octets, useMki: bool)
    requires ValidSession(y.rx)
  {
    ChooseReceive(y.rx, pkt, useMki).Choose? ==>
      (ChooseReceiveFacts(y.rx, pkt, useMki);
       var (config, c) := CheckedWith(y.rx, pkt, useMki);
       Genuine(prim, y.sent, config.keys, pkt, c.guess.est, c.mkiSize))
  }

  /** What the environment is held to. */
  ghost predicate Permitted(prim: Primitives, y: System, a: Action)
    requires ValidSession(y.rx)
  {
    a.Deliver? ==> Unforged(prim, y, a.pkt, a.useMki)
  }

  /** The key that authenticates is the same. */
  predicate SameMac(k: RtpKeys, l: RtpKeys) {
    if l.cipher.algorithm.Gcm? then k.cipher == l.cipher else k.authKey == l.authKey
  }

  /** Equal authenticating keys mean the same configuration for RTP, and every receiver configuration
      authenticates. */
  ghost predicate Agreed(sender: set<Config>, receiver: set<Config>) {
    && (forall c, d | c in sender && d in receiver :: SameMac(c.keys, d.keys) ==> SameForRtp(c, d))
    && (forall d | d in receiver :: d.svc.auth || d.keys.cipher.algorithm.Gcm?)
  }

  // ----- Invariant

  ghost predicate SentOk(prim: Primitives, sn: Sent, sender: set<Config>) {
    && sn.config in sender
    && ValidHeader(sn.original)
    && sn.index < INDEX_LIMIT && sn.index % SEQ_MAX == Sequence(sn.original)
    && Crypt(prim, sn.config.keys, sn.config.svc.conf || sn.config.keys.cipher.algorithm.Gcm?, sn.config.ids,
             sn.original, sn.index) == Result(sn.body, Ok)
  }

  ghost predicate CameFrom(a: Accepted, sn: Sent) {
    && |sn.original| >= RTP_HEADER
    && a.packet == sn.original && a.index == sn.index && a.ssrc == Ssrc(sn.original)
  }

  ghost predicate AllSent(y: System) {
    forall a | a in y.accepted :: exists sn | sn in y.sent :: CameFrom(a, sn)
  }

  ghost predicate Invariant(prim: Primitives, y: System, sender: set<Config>, receiver: set<Config>) {
    && ValidSession(y.tx) && Configured(y.tx, sender)
    && ValidSession(y.rx) && Configured(y.rx, receiver)
    && (forall sn | sn in y.sent :: SentOk(prim, sn, sender))
    && AllSent(y)
  }

  // ----- Sending

  lemma WithStreamKeepsConfig(s: SessionState, at: nat, t: StreamState, configs: set<Config>)
    requires ValidSession(s) && Configured(s, configs) && at < |s.streams|
    requires ValidStream(t, s.limits) && SameConfig(s.streams[at], t)
    ensures ValidSession(WithStream(s, at, t)) && Configured(WithStream(s, at, t), configs)
  {
    hide ValidStream, StreamConfigured, SameConfig;
    SameConfigConfigured(s.streams[at], t, configs);
  }

  lemma LimitsKeepConfig(s: SessionState, key: KeyLimit, limit: Limit, configs: set<Config>)
    requires ValidSession(s) && Configured(s, configs)
    ensures var s' := s.(limits := s.limits[key := limit]);
            ValidSession(s') && Configured(s', configs)
  {
    hide StreamConfigured;
  }

  lemma PrepareOnKeepsConfig(
    s: SessionState, at: nat, seqNo: nat, useMki: bool, mkiIndex: nat, configs: set<Config>)
    requires ValidSession(s) && Configured(s, configs) && at < |s.streams| && seqNo < SEQ_MAX
    ensures var p := PrepareOn(s, at, seqNo, useMki, mkiIndex);
            && ValidSession(p.session) && Configured(p.session, configs)
            && (p.Ready? ==>
                  && p.index < INDEX_LIMIT && p.index % SEQ_MAX == seqNo
                  && p.at < |p.session.streams| && p.slot < |p.session.streams[p.at].keys|
                  && ConfigOf(p.session.streams[p.at], p.slot) in configs)
  {
    hide StreamConfigured, SenderIndex, SelectedSlot, Charge;
    var t := Mark(s.streams[at], Sender);
    var slot := SelectedSlot(|t.keys|, useMki, mkiIndex);
    var key := t.keys[slot].limit;
    WithStreamKeepsConfig(s, at, t, configs);
    var s1 := WithStream(s, at, t).(limits := s.limits[key := Charge(s.limits[key]).0]);
    LimitsKeepConfig(WithStream(s, at, t), key, Charge(s.limits[key]).0, configs);
    var gcm := t.keys[slot].rtpCipher.algorithm.Gcm?;
    var d := SenderIndex(t, seqNo, gcm);
    if d.Use? {
      SenderIndexKeepsStream(t, seqNo, gcm, s1.limits);
      WithStreamKeepsConfig(s1, at, d.stream, configs);
      SlotConfigured(WithStream(s1, at, d.stream), at, slot, configs);
    }
  }

  lemma SlotConfigured(s: SessionState, at: nat, slot: nat, configs: set<Config>)
    requires Configured(s, configs) && at < |s.streams| && slot < |s.streams[at].keys|
    ensures ConfigOf(s.streams[at], slot) in configs
  {
  }

  lemma EnsureStreamKeepsConfig(s: SessionState, ssrc: nat, configs: set<Config>)
    requires ValidSession(s) && Configured(s, configs) && ssrc < UINT32 && EnsureStream(s, ssrc).Some?
    ensures Configured(EnsureStream(s, ssrc).value, configs)
  {
    var s' := EnsureStream(s, ssrc).value;
    if s' != s {
      SameConfigConfigured(s.template.value, s'.streams[0], configs);
      forall i | 0 <= i < |s'.streams|
        ensures StreamConfigured(s'.streams[i], configs)
      {
        assert i > 0 ==> s'.streams[i] == s.streams[i - 1];
      }
    }
  }

  lemma PrepareSendKeepsConfig(s: SessionState, pkt: Octets, useMki: bool, mkiIndex: nat, configs: set<Config>)
    requires ValidSession(s) && Configured(s, configs)
    ensures var p := PrepareSend(s, pkt, useMki, mkiIndex);
            && ValidSession(p.session) && Configured(p.session, configs)
            && (p.Ready? ==>
                  && ValidHeader(pkt)
                  && p.index < INDEX_LIMIT && p.index % SEQ_MAX == Sequence(pkt)
                  && p.at < |p.session.streams| && p.slot < |p.session.streams[p.at].keys|
                  && ConfigOf(p.session.streams[p.at], p.slot) in configs)
  {
    hide ValidSession, Configured, EnsureStream, PrepareOn, Ssrc, Sequence;
    if ValidHeader(pkt) && EnsureStream(s, Ssrc(pkt)).Some? {
      EnsureStreamKeepsValid(s, Ssrc(pkt));
      EnsureStreamKeepsConfig(s, Ssrc(pkt), configs);
      var s1 := EnsureStream(s, Ssrc(pkt)).value;
      PrepareOnKeepsConfig(s1, Find(s1.streams, Ssrc(pkt)), Sequence(pkt), useMki, mkiIndex, configs);
    }
  }

  /** Sending keeps the sender well-formed and logs a packet the invariant describes. */
  lemma SendKeeps(
    prim: Primitives, y: System, pkt: Octets, useMki: bool, mkiIndex: nat, sender: set<Config>)
    requires ValidSession(y.tx) && Configured(y.tx, sender)
    ensures var y' := SendOne(prim, y, pkt, useMki, mkiIndex);
            && ValidSession(y'.tx) && Configured(y'.tx, sender)
            && y'.rx == y.rx && y'.accepted == y.accepted
            && (y'.sent == y.sent
                || (|y'.sent| == |y.sent| + 1 && y'.sent[..|y.sent|] == y.sent
                    && SentOk(prim, y'.sent[|y.sent|], sender)))
  {
    hide ValidSession, Configured, PrepareSend, Protect, Crypt, ValidHeader, ConfigOf, Sequence;
    PrepareSendKeepsConfig(y.tx, pkt, useMki, mkiIndex, sender);
    ProtectSession(prim, y.tx, pkt, useMki, mkiIndex);
    if Protect(prim, y.tx, pkt, useMki, mkiIndex).status == Ok {
      ProtectOk(prim, y.tx, pkt, useMki, mkiIndex);
      var y' := SendOne(prim, y, pkt, useMki, mkiIndex);
      assert y'.sent[..|y.sent|] == y.sent;
    }
  }

  // ----- Delivering

  lemma CommitKeepsConfig(s: SessionState, ssrc: nat, guess: Guess, gcm: bool, configs: set<Config>)
    requires Configured(s, configs) && CommitAllowed(s, ssrc, guess)
    ensures Configured(Commit(s, ssrc, guess, gcm), configs)
  {
    hide AddIndex, SetRocSeq, StreamConfigured;
    var s' := Commit(s, ssrc, guess, gcm);
    var t := ReceiverStream(s, ssrc);
    var at := Find(s.streams, ssrc);
    if at < |s.streams| {
      SameConfigConfigured(t, s'.streams[at], configs);
    } else {
      SameConfigConfigured(t, s'.streams[0], configs);
      SameConfigConfigured(t, s'.template.value, configs);
      forall i | 0 <= i < |s'.streams|
        ensures StreamConfigured(s'.streams[i], configs)
      {
        assert i > 0 ==> s'.streams[i] == s.streams[i - 1];
      }
    }
  }

  lemma CommitKeepsValid(s: SessionState, ssrc: nat, guess: Guess, gcm: bool)
    requires ValidSession(s) && ssrc < UINT32 && CommitAllowed(s, ssrc, guess)
    ensures ValidSession(Commit(s, ssrc, guess, gcm))
  {
    hide AddIndex, SetRocSeq;
    var s', t := Commit(s, ssrc, guess, gcm), ReceiverStream(s, ssrc);
    SetRocSeqKeepsWindow(t.db, 0);
    var at := Find(s.streams, ssrc);
    forall i | 0 <= i < |s'.streams|
      ensures ValidStream(s'.streams[i], s'.limits)
    {
      assert at == |s.streams| && i > 0 ==> s'.streams[i] == s.streams[i - 1];
    }
  }

  lemma UnprotectKeepsConfig(prim: Primitives, s: SessionState, pkt: Octets, useMki: bool, configs: set<Config>)
    requires ValidSession(s) && Configured(s, configs)
    ensures var r := Unprotect(prim, s, pkt, useMki);
            ValidSession(r.session) && Configured(r.session, configs)
  {
    hide *;
    var c := ChooseReceive(s, pkt, useMki);
    if c.Reject? {
      UnprotectRejects(prim, s, pkt, useMki);
    } else {
      UnprotectUnfold(prim, s, pkt, useMki);
      HeaderBounds(pkt);
      var key := ReceiverStream(s, Ssrc(pkt)).keys[c.slot].limit;
      var limit := Charge(s.limits[key]).0;
      LimitsKeepConfig(s, key, limit, configs);
      if Unprotect(prim, s, pkt, useMki).status == Ok {
        var s1 := s.(limits := s.limits[key := limit]);
        CommitKeepsConfig(s1, Ssrc(pkt), c.guess, UsesGcm(s, pkt, useMki), configs);
        CommitKeepsValid(s1, Ssrc(pkt), c.guess, UsesGcm(s, pkt, useMki));
      }
    }
  }

  lemma CheckedConfig(s: SessionState, pkt: Octets, useMki: bool, configs: set<Config>)
    requires ValidSession(s) && Configured(s, configs) && ChooseReceive(s, pkt, useMki).Choose?
    ensures var (config, c) := CheckedWith(s, pkt, useMki);
            && config in configs && c == ChooseReceive(s, pkt, useMki)
            && |pkt| >= RTP_HEADER && c.slot < |ReceiverStream(s, Ssrc(pkt)).keys|
            && config == ConfigOf(ReceiverStream(s, Ssrc(pkt)), c.slot)
            && UsesGcm(s, pkt, useMki) == config.keys.cipher.algorithm.Gcm?
  {
    hide ValidSession, ChooseReceive, ValidHeader, Ssrc;
    ChooseReceiveFacts(s, pkt, useMki);
    HeaderBounds(pkt);
  }

  lemma VerdictImpliesTag(prim: Primitives, config: Config, p: Octets, index: nat, mkiSize: nat)
    requires ValidHeader(p) && config.svc.auth && !config.keys.cipher.algorithm.Gcm?
    requires Verdict(prim, config.keys, config.svc, p, index, mkiSize) == Ok
    ensures var size := |p| - config.keys.tagLen - mkiSize;
            && 0 <= size <= |p|
            && AuthTag(prim, config.keys, p[..size], index) == p[|p| - config.keys.tagLen..]
  {
    hide AuthTag, EncStart, ValidHeader;
  }

  lemma VerdictImpliesGcmTag(prim: Primitives, config: Config, p: Octets, index: nat, mkiSize: nat)
    requires ValidHeader(p) && config.keys.cipher.algorithm.Gcm?
    requires Verdict(prim, config.keys, config.svc, p, index, mkiSize) == Ok
    ensures var size := |p| - config.keys.tagLen - mkiSize;
            EncStart(p) <= size <= |p| && GcmTagged(prim, config.keys, p, size, index)
  {
    hide GcmTag, EncStart, ValidHeader;
  }

  /** Where a valid tag came from. */
  lemma TagOrigin(prim: Primitives, sent: seq<Sent>, k: RtpKeys, p: Octets, index: nat, mkiSize: nat)
    returns (sn: Sent)
    requires ValidHeader(p) && !k.cipher.algorithm.Gcm? && Genuine(prim, sent, k, p, index, mkiSize)
    requires var size := |p| - k.tagLen - mkiSize;
             0 <= size && AuthTag(prim, k, p[..size], index) == p[|p| - k.tagLen..]
    ensures && sn in sent && SameMac(sn.config.keys, k)
            && sn.body + RocOctets(sn.index) == p[..|p| - k.tagLen - mkiSize] + RocOctets(index)
  {
    hide AuthTag, RocOctets, EncStart, ValidHeader;
    var size := |p| - k.tagLen - mkiSize;
    sn :| && sn in sent && sn.config.keys.authKey == k.authKey
          && sn.body + RocOctets(sn.index) == p[..size] + RocOctets(index);
  }

  lemma SealOrigin(prim: Primitives, sent: seq<Sent>, k: RtpKeys, p: Octets, index: nat, mkiSize: nat)
    returns (sn: Sent)
    requires ValidHeader(p) && k.cipher.algorithm.Gcm? && Genuine(prim, sent, k, p, index, mkiSize)
    requires var size := |p| - k.tagLen - mkiSize;
             EncStart(p) <= size <= |p| && GcmTagged(prim, k, p, size, index)
    ensures var body := p[..|p| - k.tagLen - mkiSize];
            && sn in sent && SameMac(sn.config.keys, k)
            && SameParts(sn.body, body) && ValidHeader(body) && ValidHeader(sn.body)
            && |sn.body| >= RTP_HEADER && |body| >= RTP_HEADER
            && PayloadIv(sn.config.keys, Ssrc(sn.body), sn.index) == PayloadIv(k, Ssrc(body), index)
  {
    hide EncStart, ValidHeader, PayloadIv, GcmTagged;
    var size := |p| - k.tagLen - mkiSize;
    PrefixKeepsHeader(p, size);
    HeaderBounds(p[..size]);
    sn := SealedOne(sent, k, p[..size], index);
  }

  lemma SealedOne(sent: seq<Sent>, k: RtpKeys, body: Octets, index: nat) returns (sn: Sent)
    requires ValidHeader(body) && AeadSealed(sent, k, body, index)
    ensures |body| >= RTP_HEADER && |sn.body| >= RTP_HEADER
    ensures sn in sent && sn.config.keys.cipher == k.cipher && SameParts(sn.body, body)
    ensures PayloadIv(sn.config.keys, Ssrc(sn.body), sn.index) == PayloadIv(k, Ssrc(body), index)
  {
    hide EncStart, PayloadIv;
    sn :| && sn in sent && sn.config.keys.cipher == k.cipher && SameParts(sn.body, body)
          && PayloadIv(sn.config.keys, Ssrc(sn.body), sn.index) == PayloadIv(k, Ssrc(body), index);
  }

  lemma AgreedOn(prim: Primitives, sn: Sent, config: Config, sender: set<Config>, receiver: set<Config>)
    requires Agreed(sender, receiver) && SentOk(prim, sn, sender) && config in receiver
    requires SameMac(sn.config.keys, config.keys)
    ensures sn.config.keys == config.keys && sn.config.svc == config.svc && sn.config.ids == config.ids
  {
    hide Crypt, ValidHeader;
  }

  lemma AgreedReceiver(config: Config, sender: set<Config>, receiver: set<Config>)
    requires Agreed(sender, receiver) && config in receiver
    ensures config.svc.auth || config.keys.cipher.algorithm.Gcm?
  {
  }

  /** Tagged octets determine the packet they came from, and its index. */
  lemma SameTagged(prim: Primitives, sn: Sent, sender: set<Config>, p: Octets, size: nat, index: nat)
    requires SentOk(prim, sn, sender) && |p| >= RTP_HEADER && size <= |p|
    requires index < INDEX_LIMIT && index % SEQ_MAX == Sequence(p)
    requires sn.body + RocOctets(sn.index) == p[..size] + RocOctets(index)
    ensures sn.body == p[..size] && ValidHeader(sn.body) && |sn.original| >= RTP_HEADER
    ensures sn.index == index && Ssrc(sn.original) == Ssrc(p)
  {
    hide Crypt, RocOctets, EncStart;
    var k := sn.config.keys;
    CryptKeepsHeader(prim, k, sn.config.svc.conf || k.cipher.algorithm.Gcm?, sn.config.ids, sn.original, sn.index);
    SameHeaderFields(sn.original, sn.body);
    assert |sn.body| == size;
    assert sn.body == (sn.body + RocOctets(sn.index))[..size];
    assert RocOctets(sn.index) == (sn.body + RocOctets(sn.index))[size..];
    RocOctetsInjective(sn.index, index);
    assert forall i | 0 <= i < RTP_HEADER :: p[i] == sn.body[i];
  }

  /** So do sealed ones: the vector tells the SSRC and the index. */
  lemma SameSealed(prim: Primitives, sn: Sent, sender: set<Config>, p: Octets, size: nat, index: nat)
    requires SentOk(prim, sn, sender) && sn.config.keys.cipher.algorithm.Gcm?
    requires ValidHeader(p) && EncStart(p) <= size <= |p| && index < INDEX_LIMIT
    requires SameParts(sn.body, p[..size]) && |sn.body| >= RTP_HEADER
    requires ValidHeader(p[..size]) && |p[..size]| >= RTP_HEADER
    requires PayloadIv(sn.config.keys, Ssrc(sn.body), sn.index) == PayloadIv(sn.config.keys, Ssrc(p[..size]), index)
    ensures sn.body == p[..size] && |sn.original| >= RTP_HEADER && |p| >= RTP_HEADER
    ensures sn.index == index && Ssrc(sn.original) == Ssrc(p)
  {
    hide Crypt, EncStart, ValidHeader, GcmIv, Ssrc;
    var k := sn.config.keys;
    HeaderBounds(p);
    HeaderBounds(sn.original);
    CryptKeepsHeader(prim, k, sn.config.svc.conf || k.cipher.algorithm.Gcm?, sn.config.ids, sn.original, sn.index);
    SameHeaderFields(sn.original, sn.body);
    PrefixKeepsHeader(p, size);
    PartsJoin(sn.body, p[..size]);
    GcmIvInjective(k.salt, Ssrc(sn.body), sn.index, Ssrc(p[..size]), index);
  }

  lemma PartsJoin(a: Octets, b: Octets)
    requires SameParts(a, b)
    ensures a == b
  {
    hide EncStart, ValidHeader;
    assert a == a[..EncStart(a)] + a[EncStart(a)..] && b == b[..EncStart(b)] + b[EncStart(b)..];
  }

  lemma OpenedIsOriginal(
    prim: Primitives, sn: Sent, sender: set<Config>, p: Octets, size: nat, mkiSize: nat, packet: Octets)
    requires SentOk(prim, sn, sender)
    requires ValidHeader(p) && size == |p| - sn.config.keys.tagLen - mkiSize && p[..size] == sn.body
    requires Verdict(prim, sn.config.keys, sn.config.svc, p, sn.index, mkiSize) == Ok
    requires Open(prim, sn.config.keys, sn.config.svc, sn.config.ids, p, sn.index, mkiSize) == Result(packet, Ok)
    ensures packet == sn.original
  {
    hide Crypt, ValidHeader, Verdict, Open, EncStart;
    var k := sn.config.keys;
    var conf := sn.config.svc.conf || k.cipher.algorithm.Gcm?;
    CryptTwice(prim, k, conf, sn.config.ids, sn.original, sn.index);
    OpenIs(prim, k, sn.config.svc, sn.config.ids, sn.body, p, sn.index, mkiSize);
  }

  /** The tag covers the octets and the index or its rollover counter: whatever the receiver estimated,
      an accepted packet carries the sender's index, and opens to what the sender was given. */
  lemma AcceptedWasSent(
    prim: Primitives, y: System, pkt: Octets, useMki: bool, sender: set<Config>, receiver: set<Config>)
    requires ValidSession(y.rx) && Configured(y.rx, receiver) && Agreed(sender, receiver)
    requires forall sn | sn in y.sent :: SentOk(prim, sn, sender)
    requires Unforged(prim, y, pkt, useMki)
    requires var r := Unprotect(prim, y.rx, pkt, useMki); r.status == Ok
    ensures ChooseReceive(y.rx, pkt, useMki).Choose? && |pkt| >= RTP_HEADER
    ensures var r, c := Unprotect(prim, y.rx, pkt, useMki), ChooseReceive(y.rx, pkt, useMki);
            exists sn | sn in y.sent ::
              CameFrom(Accepted(Ssrc(pkt), c.guess.est, r.packet, Records(y.rx, pkt, useMki)), sn)
  {
    hide *;
    AcceptedWasChosen(prim, y.rx, pkt, useMki);
    CheckedConfig(y.rx, pkt, useMki, receiver);
    UnprotectUnfold(prim, y.rx, pkt, useMki);
    ChosenIndex(y.rx, pkt, useMki);
    UnforgedIs(prim, y, pkt, useMki);
    var (config, c) := CheckedWith(y.rx, pkt, useMki);
    var index, r := c.guess.est, Unprotect(prim, y.rx, pkt, useMki);
    ConfigParts(ReceiverStream(y.rx, Ssrc(pkt)), c.slot);
    AgreedReceiver(config, sender, receiver);
    var size := |pkt| - config.keys.tagLen - c.mkiSize;
    var sn: Sent;
    if config.keys.cipher.algorithm.Gcm? {
      VerdictImpliesGcmTag(prim, config, pkt, index, c.mkiSize);
      sn := SealOrigin(prim, y.sent, config.keys, pkt, index, c.mkiSize);
      AgreedOn(prim, sn, config, sender, receiver);
      SameSealed(prim, sn, sender, pkt, size, index);
    } else {
      VerdictImpliesTag(prim, config, pkt, index, c.mkiSize);
      sn := TagOrigin(prim, y.sent, config.keys, pkt, index, c.mkiSize);
      AgreedOn(prim, sn, config, sender, receiver);
      SameTagged(prim, sn, sender, pkt, size, index);
    }
    OpenedIsOriginal(prim, sn, sender, pkt, size, c.mkiSize, r.packet);
    CameFromIs(Accepted(Ssrc(pkt), index, r.packet, Records(y.rx, pkt, useMki)), sn);
  }

  lemma UnforgedIs(prim: Primitives, y: System, pkt: Octets, useMki: bool)
    requires ValidSession(y.rx) && ChooseReceive(y.rx, pkt, useMki).Choose? && ValidHeader(pkt)
    requires Unforged(prim, y, pkt, useMki)
    ensures var (config, c) := CheckedWith(y.rx, pkt, useMki);
            Genuine(prim, y.sent, config.keys, pkt, c.guess.est, c.mkiSize)
  {
    hide ChooseReceive, ValidSession, Genuine, ValidHeader;
  }

  lemma ChosenIndex(s: SessionState, pkt: Octets, useMki: bool)
    requires ValidSession(s) && ChooseReceive(s, pkt, useMki).Choose? && |pkt| >= RTP_HEADER
    ensures var c := ChooseReceive(s, pkt, useMki);
            c.guess.est < INDEX_LIMIT && c.guess.est % SEQ_MAX == Sequence(pkt)
  {
    hide ChooseReceive, ValidHeader, Ssrc, Sequence, GuessIndex, Check;
    ChooseReceiveFacts(s, pkt, useMki);
    var at := Find(s.streams, Ssrc(pkt));
    if at < |s.streams| {
      GuessIsPaced(s.streams[at], Sequence(pkt));
    }
  }

  lemma ConfigParts(t: StreamState, slot: nat)
    requires slot < |t.keys|
    ensures var c := ConfigOf(t, slot); c.keys == RtpKeysOf(t.keys[slot]) && c.svc == t.rtp && c.ids == t.ids
  {
  }

  lemma CameFromIs(a: Accepted, sn: Sent)
    requires |sn.original| >= RTP_HEADER
    requires a.packet == sn.original && a.index == sn.index && a.ssrc == Ssrc(sn.original)
    ensures CameFrom(a, sn)
  {
  }

  // ----- Authenticity of runs

  lemma SystemGrows(y: System, a: Accepted)
    requires AllSent(y) && exists sn | sn in y.sent :: CameFrom(a, sn)
    ensures AllSent(y.(accepted := y.accepted + [a]))
  {
    hide CameFrom;
  }

  /** Delivering, whatever the network made of the packet. */
  lemma DeliverKeeps(
    prim: Primitives, y: System, pkt: Octets, useMki: bool, sender: set<Config>, receiver: set<Config>)
    requires Agreed(sender, receiver) && Invariant(prim, y, sender, receiver)
    requires Unforged(prim, y, pkt, useMki)
    ensures Invariant(prim, DeliverOne(prim, y, pkt, useMki), sender, receiver)
  {
    hide ValidSession, Configured, Agreed, SentOk, AllSent, CameFrom, Unprotect, ChooseReceive, Unforged, Ssrc,
         Records;
    UnprotectKeepsConfig(prim, y.rx, pkt, useMki, receiver);
    if Unprotect(prim, y.rx, pkt, useMki).status == Ok {
      AcceptedWasSent(prim, y, pkt, useMki, sender, receiver);
      SystemGrows(y, Accepted(Ssrc(pkt), ChooseReceive(y.rx, pkt, useMki).guess.est,
                              Unprotect(prim, y.rx, pkt, useMki).packet, Records(y.rx, pkt, useMki)));
      AllSentIgnoresSessions(y, DeliverOne(prim, y, pkt, useMki));
    } else {
      AllSentIgnoresSessions(y, DeliverOne(prim, y, pkt, useMki));
    }
  }

  lemma AllSentIgnoresSessions(y: System, y': System)
    requires y'.sent == y.sent
    ensures AllSent(y') <==> AllSent(y.(accepted := y'.accepted))
  {
    hide CameFrom;
  }

  lemma RtcpChangeKeepsConfig(s: SessionState, s': SessionState, ssrc: nat, configs: set<Config>)
    requires ValidSession(s) && Configured(s, configs) && RtcpChange(s, s', ssrc) && ssrc < UINT32
    ensures ValidSession(s') && Configured(s', configs)
  {
    hide StreamConfigured;
    var at := Find(s.streams, ssrc);
    if s' == s {
    } else if at < |s.streams| {
      hide Configured;
      WithStreamKeepsConfig(s, at, s'.streams[at], configs);
    } else {
      SameConfigConfigured(s.template.value, s'.template.value, configs);
      SameConfigConfigured(s.template.value, s'.streams[0], configs);
      forall i | 0 <= i < |s'.streams|
        ensures ValidStream(s'.streams[i], s'.limits) && StreamConfigured(s'.streams[i], configs)
      {
        assert i > 0 ==> s'.streams[i] == s.streams[i - 1];
      }
    }
  }

  lemma QuietKeepsConfig(prim: Primitives, s: SessionState, op: Operation, configs: set<Config>)
    requires ValidSession(s) && Configured(s, configs) && Quiet(op)
    ensures ValidSession(Apply(prim, s, op)) && Configured(Apply(prim, s, op), configs)
  {
    hide Configured, ProtectRtcpMki, UnprotectRtcpMki, RtcpChange, SetRoc, RtcpSsrc, ValidSession;
    match op
    case SendRtcpPacket(pkt, useMki, mkiIndex) =>
      if |pkt| >= RTCP_HEADER {
        SendRtcpChange(prim, s, pkt, useMki, mkiIndex);
        RtcpSsrcRange(pkt);
        RtcpChangeKeepsConfig(s, Apply(prim, s, op), RtcpSsrc(pkt), configs);
      } else {
        ShortRtcpKeeps(prim, s, pkt, useMki, mkiIndex);
      }
    case ReceiveRtcpPacket(pkt, useMki) =>
      if |pkt| >= RTCP_HEADER {
        ReceiveRtcpChange(prim, s, pkt, useMki);
        RtcpSsrcRange(pkt);
        RtcpChangeKeepsConfig(s, Apply(prim, s, op), RtcpSsrc(pkt), configs);
      } else {
        ShortRtcpKeeps(prim, s, pkt, useMki, 0);
      }
    case SetCounter(ssrc, roc) =>
      SetRocKeepsConfig(s, ssrc, roc % UINT32, configs);
  }

  /** Within a key epoch a session stays well-formed and keeps to its configurations. */
  lemma ApplyKeepsConfig(prim: Primitives, s: SessionState, op: Operation, configs: set<Config>)
    requires ValidSession(s) && Configured(s, configs) && KeepsKeys(op)
    ensures ValidSession(Apply(prim, s, op)) && Configured(Apply(prim, s, op), configs)
  {
    hide ValidSession, Configured, Protect, Unprotect, ProtectRtcpMki, UnprotectRtcpMki, SetRoc;
    if op.SendRtpPacket? {
      PrepareSendKeepsConfig(s, op.pkt, op.useMki, op.mkiIndex, configs);
      ProtectSession(prim, s, op.pkt, op.useMki, op.mkiIndex);
    } else if op.ReceiveRtpPacket? {
      UnprotectKeepsConfig(prim, s, op.pkt, op.useMki, configs);
    } else {
      QuietKeepsConfig(prim, s, op, configs);
    }
  }

  lemma SetRocKeepsConfig(s: SessionState, ssrc: nat, roc: nat, configs: set<Config>)
    requires ValidSession(s) && Configured(s, configs) && roc < UINT32
    ensures ValidSession(SetRoc(s, ssrc, roc).session) && Configured(SetRoc(s, ssrc, roc).session, configs)
  {
    hide Configured;
    var at := Find(s.streams, ssrc);
    if at < |s.streams| {
      WithStreamKeepsConfig(s, at, s.streams[at].(pendingRoc := roc), configs);
    }
  }

  lemma SendKeepsInvariant(
    prim: Primitives, y: System, pkt: Octets, useMki: bool, mkiIndex: nat, sender: set<Config>, receiver: set<Config>)
    requires Invariant(prim, y, sender, receiver)
    ensures Invariant(prim, SendOne(prim, y, pkt, useMki, mkiIndex), sender, receiver)
  {
    hide ValidSession, Configured, SentOk, CameFrom, SendOne;
    SendKeeps(prim, y, pkt, useMki, mkiIndex, sender);
    var y' := SendOne(prim, y, pkt, useMki, mkiIndex);
    forall sn | sn in y.sent
      ensures sn in y'.sent
    {
      var i :| 0 <= i < |y.sent| && y.sent[i] == sn;
      assert y'.sent[..|y.sent|][i] == sn;
    }
    forall sn | sn in y'.sent
      ensures SentOk(prim, sn, sender)
    {
      var i :| 0 <= i < |y'.sent| && y'.sent[i] == sn;
      if i < |y.sent| {
        assert y'.sent[..|y.sent|][i] == y'.sent[i];
      }
    }
  }

  /** Every permitted action keeps the invariant. */
  lemma ActKeeps(prim: Primitives, y: System, a: Action, sender: set<Config>, receiver: set<Config>)
    requires Agreed(sender, receiver) && Invariant(prim, y, sender, receiver)
    requires ValidSession(y.rx) && Permitted(prim, y, a)
    ensures Invariant(prim, Act(prim, y, a), sender, receiver)
  {
    hide ValidSession, Configured, Agreed, SentOk, CameFrom, Apply, Unforged, SendOne, DeliverOne, Quiet;
    match a
    case Send(pkt, useMki, mkiIndex) =>
      SendKeepsInvariant(prim, y, pkt, useMki, mkiIndex, sender, receiver);
    case Deliver(pkt, useMki) =>
      DeliverKeeps(prim, y, pkt, useMki, sender, receiver);
    case AtSender(op) =>
      QuietKeepsConfig(prim, y.tx, op, sender);
    case AtReceiver(op) =>
      QuietKeepsConfig(prim, y.rx, op, receiver);
  }

  ghost function After(prim: Primitives, y: System, actions: seq<Action>): System
    decreases |actions|
  {
    if actions == [] || !ValidSession(y.tx) || !ValidSession(y.rx) then y
    else After(prim, Act(prim, y, actions[0]), actions[1..])
  }

  ghost predicate PermittedRun(prim: Primitives, y: System, actions: seq<Action>)
    decreases |actions|
  {
    actions != [] && ValidSession(y.tx) && ValidSession(y.rx) ==>
      Permitted(prim, y, actions[0]) && PermittedRun(prim, Act(prim, y, actions[0]), actions[1..])
  }

  lemma {:induction false} RunKeeps(
    prim: Primitives, y: System, actions: seq<Action>, sender: set<Config>, receiver: set<Config>)
    requires Agreed(sender, receiver) && Invariant(prim, y, sender, receiver) && PermittedRun(prim, y, actions)
    ensures Invariant(prim, After(prim, y, actions), sender, receiver)
    decreases |actions|
  {
    hide Configured, Agreed, Permitted, Act, Invariant, ValidSession;
    InvariantIsValid(prim, y, sender, receiver);
    if actions != [] {
      ActKeeps(prim, y, actions[0], sender, receiver);
      RunKeeps(prim, Act(prim, y, actions[0]), actions[1..], sender, receiver);
    }
  }

  lemma InvariantIsValid(prim: Primitives, y: System, sender: set<Config>, receiver: set<Config>)
    requires Invariant(prim, y, sender, receiver)
    ensures ValidSession(y.tx) && ValidSession(y.rx)
  {
    hide ValidSession;
  }

  /** In every run from an empty log each accepted packet was sent, and arrives with the octets and the
      index it was sent with. */
  lemma NetworkIsAuthentic(
    prim: Primitives, tx: SessionState, rx: SessionState, actions: seq<Action>,
    sender: set<Config>, receiver: set<Config>)
    requires Agreed(sender, receiver)
    requires ValidSession(tx) && Configured(tx, sender)
    requires ValidSession(rx) && Configured(rx, receiver)
    requires PermittedRun(prim, System(tx, rx, [], []), actions)
    ensures AllSent(After(prim, System(tx, rx, [], []), actions))
  {
    hide Configured, Agreed, ValidSession, PermittedRun, After, CameFrom, SentOk;
    RunKeeps(prim, System(tx, rx, [], []), actions, sender, receiver);
  }
}
