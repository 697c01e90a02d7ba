/** The session as the library keeps it: a linked list of stream contexts and a template, with
    every allocated object owned exactly once. The list represents a session state. */
module LiveSession {
  import opened Octets
  import opened SrtpStatus
  import opened Crypto
  import opened ReplayWindow
  import opened IndexEstimate
  import opened RtcpReplay
  import opened RtpPacket
  import opened RtpInPlace
  import opened SessionKey
  import opened SessionModel
  import opened StreamObjects
  import Erasure

  // ----- The list

  function Successor(spine: seq<Stream>, i: nat): Stream? {
    if i + 1 < |spine| then spine[i + 1] else null
  }

  /** `spine` lists the nodes that start at `head`, in order. */
  ghost predicate Linked(head: Stream?, spine: seq<Stream>)
    reads spine`next
  {
    && head == (if spine == [] then null else spine[0])
    && forall i | 0 <= i < |spine| :: spine[i].next == Successor(spine, i)
  }

  ghost predicate Distinct(spine: seq<Stream>) {
    forall i, j | 0 <= i < j < |spine| :: spine[i] != spine[j]
  }

  ghost predicate Mirrors(spine: seq<Stream>, streams: seq<StreamState>)
    reads spine`db, spine`rtcpDb, spine`direction, spine`pendingRoc
  {
    && |spine| == |streams|
    && forall i | 0 <= i < |spine| :: spine[i].State() == streams[i]
  }

  ghost function TemplateState(template: Stream?): Option<StreamState>
    reads template
  {
    if template == null then None else Some(template.State())
  }

  ghost predicate LimitsMirror(limits: map<KeyLimit, Limit>)
    reads limits.Keys
  {
    forall k | k in limits :: k.limit == limits[k]
  }

  /** What the packet operations rely on in a stream's constant parts. */
  predicate KeysUsable(t: Stream) {
    forall i | 0 <= i < |t.table.content| ::
      && DistinctCiphers(t.table.content[i].keys)
      && t.table.content[i].keys.rtpAuth.tagLen <= MAX_TAG_LEN
      && t.table.content[i].keys.rtcpAuth.tagLen <= MAX_TAG_LEN
      && |t.table.content[i].keys.mki| <= MAX_MKI_LEN
  }

  ghost predicate Usable(t: Stream)
    reads t`db
  {
    KeysUsable(t) && |t.db.window| == t.window.content
  }

  ghost predicate AllUsable(spine: seq<Stream>, template: Stream?)
    reads spine`db, template
  {
    && (forall i | 0 <= i < |spine| :: Usable(spine[i]))
    && (template != null ==> Usable(template))
  }

  ghost predicate AllRelated(spine: seq<Stream>, template: Stream?) {
    forall i | 0 <= i < |spine| :: Related(spine[i], template)
  }

  // ----- What the list owns

  ghost function Owners(spine: seq<Stream>, template: Stream?): seq<object>
    requires AllRelated(spine, template)
  {
    if spine == [] then []
    else
      RelatedFits(spine[0], template);
      Owned(spine[0], template) + Owners(spine[1..], template)
  }

  ghost function TemplateOwned(template: Stream?): seq<object> {
    if template == null then [] else Owned(template, null)
  }

  lemma OwnersUnfold(spine: seq<Stream>, template: Stream?)
    requires AllRelated(spine, template)
    ensures spine == [] ==> Owners(spine, template) == []
    ensures spine != [] ==>
              && SlotsFit(spine[0], template)
              && Owners(spine, template) == Owned(spine[0], template) + Owners(spine[1..], template)
  {
    if spine != [] {
      RelatedFits(spine[0], template);
    }
  }

  lemma {:induction false} OwnersConcat(a: seq<Stream>, b: seq<Stream>, template: Stream?)
    requires AllRelated(a, template) && AllRelated(b, template)
    ensures AllRelated(a + b, template)
    ensures Owners(a + b, template) == Owners(a, template) + Owners(b, template)
  {
    hide Owned, Related, Owners;
    OwnersUnfold(a, template);
    OwnersUnfold(a + b, template);
    if a == [] {
      assert a + b == b;
    } else {
      OwnersConcat(a[1..], b, template);
      assert (a + b)[1..] == a[1..] + b;
    }
  }

  lemma {:induction false} OwnersContain(spine: seq<Stream>, template: Stream?, i: nat)
    requires AllRelated(spine, template) && i < |spine|
    ensures spine[i] in Elements(Owners(spine, template))
    ensures SlotsFit(spine[i], template)
    ensures Elements(Owned(spine[i], template)) <= Elements(Owners(spine, template))
  {
    hide SlotsOwned, Related, Owners;
    OwnersUnfold(spine, template);
    if i > 0 {
      OwnersContain(spine[1..], template, i - 1);
    }
  }

  lemma FreeableMiddle(a: seq<object>, b: seq<object>, c: seq<object>, live: set<object>)
    requires Freeable(a + b + c, live)
    ensures Freeable(b, live) && Freeable(a + c, live - Elements(b))
    ensures live - Elements(b) - Elements(a + c) == live - Elements(a + b + c)
  {
    hide NoDuplicates, Elements;
    NoDuplicatesSplit(a + b, c);
    NoDuplicatesSplit(a, b);
    NoDuplicatesSplit(a, c);
    ElementsOfConcat(a + b, c);
    ElementsOfConcat(a, b);
    ElementsOfConcat(a, c);
  }

  lemma FreeableGrown(have: seq<object>, rest: seq<object>, base: set<object>, live: set<object>)
    requires Grown(have, base, live) && Freeable(rest, base)
    ensures Freeable(have + rest, live) && live - Elements(have + rest) == base - Elements(rest)
  {
    hide NoDuplicates, Elements;
    NoDuplicatesSplit(have, rest);
    ElementsOfConcat(have, rest);
  }

  /** Everything allocated for a session. */
  ghost function AllOwned(spine: seq<Stream>, template: Stream?, session: object): seq<object>
    requires AllRelated(spine, template)
  {
    Owners(spine, template) + TemplateOwned(template) + One(session)
  }

  /** The session's objects are live, each is owned once, and all others that are live are `others`. */
  ghost predicate Holds(owned: seq<object>, others: set<object>, live: set<object>) {
    Freeable(owned, live) && live - Elements(owned) == others
  }

  lemma HoldsIs(owned: seq<object>, others: set<object>, live: set<object>)
    ensures Holds(owned, others, live) <==> Freeable(owned, live) && live - Elements(owned) == others
  {
    hide Freeable, Elements;
  }

  // ----- The session

  /** `others` is what is live besides the objects allocated for this session. */
  class Session {
    const kernel: Kernel
    var streamList: Stream?
    var template: Stream?
    ghost var spine: seq<Stream>
    ghost var model: SessionState
    ghost var others: set<object>

    ghost predicate Valid()
      reads this, kernel, spine, template, model.limits.Keys
    {
      && Linked(streamList, spine) && Distinct(spine) && template !in spine
      && Mirrors(spine, model.streams) && model.template == TemplateState(template)
      && LimitsMirror(model.limits)
      && ValidSession(model)
      && AllUsable(spine, template)
      && AllRelated(spine, template)
      && Holds(AllOwned(spine, template, this), others, kernel.live)
    }

    constructor (kernel: Kernel)
      modifies kernel`live
      ensures Valid() && this.kernel == kernel
      ensures model == SessionState([], None, map[]) && spine == [] && template == null
      ensures kernel.live == old(kernel.live) + {this} && this !in old(kernel.live)
      ensures others == old(kernel.live)
    {
      this.kernel := kernel;
      others := kernel.live;
      streamList, template := null, null;
      spine, model := [], SessionState([], None, map[]);
      new;
      kernel.Register(this);
      assert AllOwned(spine, template, this) == One(this);
    }

    /** Walks the list for the first stream with the SSRC. */
    method GetStream(ssrc: nat) returns (t: Stream?, ghost at: nat)
      requires Valid()
      ensures at == Find(model.streams, ssrc)
      ensures if at < |model.streams| then t == spine[at] else t == null
    {
      hide ValidSession, Related, Holds, Owners, Usable;
      t := streamList;
      at := 0;
      while t != null
        invariant 0 <= at <= |spine|
        invariant t == if at < |spine| then spine[at] else null
        invariant forall i :: 0 <= i < at ==> model.streams[i].ssrc != ssrc
        decreases |spine| - at
      {
        if t.ssrc == ssrc {
          FindIs(model.streams, ssrc, at);
          return;
        }
        t := t.next;
        at := at + 1;
      }
      FindIs(model.streams, ssrc, at);
    }

    lemma ValidParts()
      requires Valid()
      ensures Linked(streamList, spine) && Distinct(spine) && template !in spine
      ensures Mirrors(spine, model.streams) && model.template == TemplateState(template)
      ensures |spine| == |model.streams|
      ensures LimitsMirror(model.limits) && ValidSession(model)
      ensures AllUsable(spine, template) && AllRelated(spine, template)
      ensures Holds(AllOwned(spine, template, this), others, kernel.live)
    {
      hide Linked, Distinct, TemplateState, LimitsMirror, ValidSession, AllUsable, AllRelated, Holds, AllOwned;
    }

    lemma ValidFrom()
      requires Linked(streamList, spine) && Distinct(spine) && template !in spine
      requires Mirrors(spine, model.streams) && model.template == TemplateState(template)
      requires LimitsMirror(model.limits) && ValidSession(model)
      requires AllUsable(spine, template) && AllRelated(spine, template)
      requires Holds(AllOwned(spine, template, this), others, kernel.live)
      ensures Valid()
    {
      hide Linked, Distinct, TemplateState, LimitsMirror, ValidSession, AllUsable, AllRelated, Holds, AllOwned;
    }

    /** Everything that the streams, the template and the abstract session refer to is live. */
    ghost predicate NothingDangles()
      reads this, kernel
    {
      && (forall i | 0 <= i < |spine| :: Referred(spine[i]) <= kernel.live)
      && (template != null ==> Referred(template) <= kernel.live)
      && SessionObjects(model) <= kernel.live
    }

    /** A valid session refers to live objects only. */
    lemma ValidNothingDangles()
      requires Valid()
      ensures NothingDangles()
    {
      hide *;
      ValidParts();
      ReferredLive(spine, template, this, others, kernel.live);
      SessionObjectsReferred(spine, template, model, kernel.live);
      NothingDanglesFrom();
    }

    lemma NothingDanglesFrom()
      requires forall i | 0 <= i < |spine| :: Referred(spine[i]) <= kernel.live
      requires template != null ==> Referred(template) <= kernel.live
      requires SessionObjects(model) <= kernel.live
      ensures NothingDangles()
    {
      hide Referred, SessionObjects;
    }

    /** Assigns the mutable fields of a listed stream. */
    method Assign(t: Stream, ghost at: nat, direction: Direction, db: Rdbx, rtcpDb: Rdb, pendingRoc: nat)
      requires Valid() && at < |spine| && spine[at] == t
      requires |db.window| == |t.db.window| && ValidRdb(rtcpDb) && pendingRoc < UINT32
      modifies this`model, t`direction, t`db, t`rtcpDb, t`pendingRoc
      ensures Valid() && at < |old(model).streams|
      ensures model == WithStream(old(model), at, old(model).streams[at].(
                         direction := direction, db := db, rtcpDb := rtcpDb, pendingRoc := pendingRoc))
    {
      hide *;
      ValidParts();
      StreamIs(spine, model.streams, at);
      AssignFields(t, direction, db, rtcpDb, pendingRoc, spine, at, model.streams, template);
      AssignKeepsValid(model, at, direction, db, rtcpDb, pendingRoc);
      model := WithStream(model, at, model.streams[at].(
        direction := direction, db := db, rtcpDb := rtcpDb, pendingRoc := pendingRoc));
      ValidFrom();
    }

    /** One more use of a key. */
    method ChargeKey(keys: SessionKeys) returns (event: KeyEvent)
      requires Valid() && keys.limit in model.limits
      modifies this`model, keys.limit
      ensures Valid() && keys.limit in old(model).limits
      ensures event == Charge(old(model).limits[keys.limit]).1
      ensures model == old(model).(limits := old(model).limits[
                         keys.limit := Charge(old(model).limits[keys.limit]).0])
    {
      hide *;
      ValidParts();
      ghost var limit := model.limits[keys.limit];
      event := ChargeLimit(keys.limit, model.limits);
      LimitKeepsValid(model, keys.limit, Charge(limit).0);
      model := model.(limits := model.limits[keys.limit := Charge(limit).0]);
      ValidFrom();
    }

    /** A clone of the template goes to the head of the list. */
    method CloneAtHead(ssrc: nat) returns (t: Stream)
      requires Valid() && template != null && ssrc < UINT32
      modifies this`model, this`spine, this`streamList, kernel`live
      ensures Valid() && fresh(t) && spine == [t] + old(spine)
      ensures old(model).template.Some?
      ensures model == old(model).(streams := [Clone(old(model).template.value, ssrc)] + old(model).streams)
    {
      hide *;
      ValidParts();
      TemplateUsable(spine, template);
      ghost var live := kernel.live;
      t := CloneStream(kernel, template, ssrc);
      CloneUsable(t, template);
      ClonePrepended(t, spine, template, this, others, live, kernel.live);
      CloneKeepsValid(model, ssrc);
      MirrorsPrepend(t, spine, model.streams, template);
      PushStream(t, streamList, spine);
      streamList := t;
      spine := [t] + spine;
      model := model.(streams := [Clone(model.template.value, ssrc)] + model.streams);
      ValidFrom();
    }

    /** Chooses and records the index of a packet to send. */
    method RecordSend(t: Stream, ghost at: nat, seqNo: nat, gcm: bool) returns (status: Status, index: nat)
      requires Valid() && at < |spine| && spine[at] == t && seqNo < SEQ_MAX
      modifies this`model, t`direction, t`db, t`rtcpDb, t`pendingRoc
      ensures Valid() && SenderIndexAllowed(old(model), at)
      ensures match SenderIndex(old(model).streams[at], seqNo, gcm)
              case Refuse(refused) => status == refused && status != Ok && model == old(model)
              case Use(used, stream) => status == Ok && index == used && model == WithStream(old(model), at, stream)
    {
      hide *;
      ValidParts();
      StreamIs(spine, model.streams, at);
      ValidAt(model, at);
      ghost var was := model.streams[at];
      SenderIndexIs(was, seqNo, gcm);
      WithStreamSame(model, at);
      var pending := if gcm then 0 else t.pendingRoc;
      var delta;
      if pending != 0 {
        var e := EstimateWithRoc(t.db.index, pending, seqNo);
        status, index, delta := e.status, e.est, e.delta;
      } else {
        var e := EstimateIndex(t.db, seqNo);
        status, index, delta := Ok, e.est, e.delta;
      }
      if status != Ok && status != IndexAdvance {
        return;
      }
      if status == IndexAdvance {
        var r := SetRocSeq(t.db, index / SEQ_MAX, index % SEQ_MAX);
        SetRocSeqWindow(t.db, index / SEQ_MAX, index % SEQ_MAX);
        Assign(t, at, t.direction, AddIndex(r.db, 0), t.rtcpDb, 0);
        status := Ok;
      } else {
        var check := Check(t.db, delta);
        CheckInWindow(t.db, delta);
        if check != Ok && (check != ReplayFail || !t.allowRepeatTx) {
          return check, index;
        }
        if check == Ok || !gcm {
          Assign(t, at, t.direction, AddIndex(t.db, delta), t.rtcpDb, t.pendingRoc);
        }
      }
    }

    /** Direction, key usage and index of a packet to send on a listed stream. */
    method PrepareStream(t: Stream, ghost at: nat, seqNo: nat, useMki: bool, mkiIndex: nat)
      returns (status: Status, slot: nat, index: nat)
      requires Valid() && at < |spine| && spine[at] == t && seqNo < SEQ_MAX && t.table.content != []
      modifies this`model, t`direction, t`db, t`rtcpDb, t`pendingRoc,
               t.table.content[SelectedSlot(|t.table.content|, useMki, mkiIndex)].keys.limit
      ensures Valid() && at < |old(model).streams|
      ensures var p := PrepareOn(old(model), at, seqNo, useMki, mkiIndex);
              && model == p.session
              && (p.Refused? ==> status == p.status && status != Ok)
              && (p.Ready? ==> status == Ok && slot == p.slot && index == p.index && p.at == at)
    {
      hide *;
      ValidParts();
      StreamIs(spine, model.streams, at);
      ValidAt(model, at);
      PrepareOnIs(model, at, seqNo, useMki, mkiIndex);
      ghost var was := model;
      if t.direction == Unknown {
        Assign(t, at, Sender, t.db, t.rtcpDb, t.pendingRoc);
      }
      MarkIs(was.streams[at], Sender);
      WithStreamSame(was, at);
      index := 0;
      slot := SelectedSlot(|t.table.content|, useMki, mkiIndex);
      var keys := t.table.content[slot].keys;
      var event := ChargeKey(keys);
      if event == HardLimit {
        return KeyExpired, slot, index;
      }
      status, index := RecordSend(t, at, seqNo, keys.rtpCipher.algorithm.Gcm?);
    }

    /** The stream to send on, cloned from the template if the SSRC is not listed. */
    method EnsureListed(ssrc: nat) returns (t: Stream?, ghost at: nat)
      requires Valid() && ssrc < UINT32
      modifies this`model, this`spine, this`streamList, kernel`live
      ensures Valid()
      ensures match EnsureStream(old(model), ssrc)
              case None => t == null && model == old(model)
              case Some(s) => model == s && at == Find(s.streams, ssrc) && at < |spine| && t == spine[at]
      ensures spine == old(spine) || (|spine| > 0 && fresh(spine[0]) && spine == [spine[0]] + old(spine))
      ensures model.limits == old(model).limits
    {
      hide *;
      ValidParts();
      EnsureStreamIs(model, ssrc);
      t, at := GetStream(ssrc);
      if t == null {
        TemplateMirrored(template, model.template);
        if template != null {
          ghost var was := model;
          t := CloneAtHead(ssrc);
          at := 0;
          ValidParts();
          StreamIs(spine, model.streams, 0);
          ValidAt(model, 0);
          Assign(t, 0, Sender, t.db, t.rtcpDb, t.pendingRoc);
          EnsureStreamCloned(was, ssrc, model);
        }
      }
    }

    /** Protects the packet at the front of the buffer on a listed stream, in place. */
    method ProtectListed(
      prim: Primitives, t: Stream, ghost at: nat, pkt: array<Octet>, length: nat, useMki: bool, mkiIndex: nat)
      returns (status: Status, newLength: nat)
      requires Valid() && at < |spine| && spine[at] == t && t.table.content != []
      requires length + MAX_MKI_LEN + MAX_TAG_LEN <= pkt.Length && ValidHeader(pkt[..length])
      modifies this`model, t`direction, t`db, t`rtcpDb, t`pendingRoc,
               SlotObjects(t.table.content[SelectedSlot(|t.table.content|, useMki, mkiIndex)].keys), pkt
      ensures Valid() && ValidSession(old(model)) && at < |old(model).streams| && others == old(others)
      ensures var r := ProtectOn(prim, old(model), at, old(pkt[..length]), useMki, mkiIndex);
              && model == r.session && status == r.status
              && (status == Ok ==> newLength <= pkt.Length && pkt[..newLength] == r.packet)
    {
      hide *;
      ValidParts();
      newLength := length;
      ghost var p, was := pkt[..length], model;
      HeaderBounds(p);
      StreamIs(spine, model.streams, at);
      ValidAt(model, at);
      SlotObjectsAre(t.table.content[SelectedSlot(|t.table.content|, useMki, mkiIndex)].keys);
      ProtectOnIs(prim, was, at, p, useMki, mkiIndex);
      var slot, index;
      status, slot, index := PrepareStream(t, at, Sequence(pkt[..length]), useMki, mkiIndex);
      PreparedSlot(was, at, Sequence(p), useMki, mkiIndex);
      if status != Ok {
        return;
      }
      ValidParts();
      StreamIs(spine, model.streams, at);
      UsableAt(spine, template, at, slot);
      status, newLength := SealPacket(prim, t.table.content[slot].keys, t.rtp, t.Ids(), pkt, length, index, useMki);
    }

    /** Protects the packet at the front of the buffer, in place. */
    method ProtectMki(prim: Primitives, pkt: array<Octet>, length: nat, useMki: bool, mkiIndex: nat)
      returns (status: Status, newLength: nat)
      requires Valid() && length + MAX_MKI_LEN + MAX_TAG_LEN <= pkt.Length
      modifies this, kernel`live, spine, SessionObjects(model), pkt
      ensures Valid()
      ensures ValidSession(old(model))
      ensures var r := Protect(prim, old(model), old(pkt[..length]), useMki, mkiIndex);
              && model == r.session && status == r.status
              && (status == Ok ==> newLength <= pkt.Length && pkt[..newLength] == r.packet)
      ensures others == old(others)
    {
      hide *;
      ValidParts();
      var p := pkt[..length];
      ghost var was := model;
      ProtectIs(prim, was, p, useMki, mkiIndex);
      if !ValidHeader(p) {
        return BadParam, length;
      }
      HeaderBounds(p);
      var t, at := EnsureListed(Ssrc(p));
      if t == null {
        return NoCtx, length;
      }
      ValidParts();
      StreamIs(spine, model.streams, at);
      ValidAt(model, at);
      EnsureStreamObjects(was, Ssrc(p));
      SlotObjectsIn(model, at, SelectedSlot(|t.table.content|, useMki, mkiIndex));
      status, newLength := ProtectListed(prim, t, at, pkt, length, useMki, mkiIndex);
    }

    /** Assigns the template's direction. */
    method AssignTemplate(direction: Direction)
      requires Valid() && template != null
      modifies this`model, template`direction
      ensures Valid() && old(model).template.Some?
      ensures model == old(model).(template := Some(old(model).template.value.(direction := direction)))
    {
      hide *;
      ValidParts();
      TemplateMirrored(template, model.template);
      TemplateKeepsValid(model, direction);
      AssignTemplateField(template, direction, spine, model.streams);
      model := model.(template := Some(model.template.value.(direction := direction)));
      ValidFrom();
    }

    /** Records a packet accepted on a listed stream: direction and replay database. */
    method CommitListed(t: Stream, ghost at: nat, ghost ssrc: nat, guess: Guess, gcm: bool)
      requires Valid() && CommitAllowed(model, ssrc, guess)
      requires at == Find(model.streams, ssrc) && at < |spine| && t == spine[at]
      modifies this`model, t`direction, t`db, t`rtcpDb, t`pendingRoc
      ensures Valid() && CommitAllowed(old(model), ssrc, guess)
      ensures model == Commit(old(model), ssrc, guess, gcm)
    {
      hide *;
      ValidParts();
      CommitIs(model, ssrc, guess, gcm);
      StreamIs(spine, model.streams, at);
      ValidAt(model, at);
      var direction := if t.direction == Unknown then Receiver else t.direction;
      if guess.status == IndexAdvance && !gcm {
        var r := SetRocSeq(t.db, guess.est / SEQ_MAX, guess.est % SEQ_MAX);
        SetRocSeqWindow(t.db, guess.est / SEQ_MAX, guess.est % SEQ_MAX);
        Assign(t, at, direction, AddIndex(r.db, 0), t.rtcpDb, 0);
      } else {
        Assign(t, at, direction, AddIndex(t.db, guess.delta), t.rtcpDb, t.pendingRoc);
      }
    }

    /** Records a packet accepted on the template's keys: direction, clone and replay database. */
    method CommitProvisional(ssrc: nat, guess: Guess, ghost gcm: bool)
      requires Valid() && CommitAllowed(model, ssrc, guess) && ssrc < UINT32
      requires Find(model.streams, ssrc) == |model.streams| && template != null
      modifies this`model, this`spine, this`streamList, kernel`live, template`direction
      ensures Valid() && CommitAllowed(old(model), ssrc, guess)
      ensures model == Commit(old(model), ssrc, guess, gcm)
    {
      hide *;
      ValidParts();
      ghost var was := model;
      TemplateMirrored(template, model.template);
      var direction := if template.direction == Unknown then Receiver else template.direction;
      CommitCloned(was, ssrc, guess, gcm, direction);
      AssignTemplate(direction);
      var stream := CloneAtHead(ssrc);
      ValidParts();
      StreamIs(spine, model.streams, 0);
      ValidAt(model, 0);
      Assign(stream, 0, stream.direction, AddIndex(stream.db, guess.delta), stream.rtcpDb, stream.pendingRoc);
    }

    /** The index a listed stream expects for a sequence number, or why it is refused. */
    method GuessListed(t: Stream, ghost at: nat, seqNo: nat) returns (guess: Guess)
      requires Valid() && at < |spine| && t == spine[at] && seqNo < SEQ_MAX && at == Find(model.streams, t.ssrc)
      ensures ValidSession(model) && guess == ReceiverGuess(model, t.ssrc, seqNo)
    {
      hide *;
      ValidParts();
      StreamIs(spine, model.streams, at);
      ValidAt(model, at);
      ReceiverGuessIs(model, t.ssrc, seqNo);
      if t.pendingRoc != 0 {
        var e := EstimateWithRoc(t.db.index, t.pendingRoc, seqNo);
        guess := Guess(e.status, e.est, e.delta);
      } else {
        var e := EstimateIndex(t.db, seqNo);
        guess := Guess(Ok, e.est, e.delta);
      }
      if guess.status == Ok {
        guess := guess.(status := Check(t.db, guess.delta));
      }
    }

    /** The stream, index and key slot for a received packet. */
    method ChooseLive(pkt: array<Octet>, length: nat, useMki: bool)
      returns (status: Status, t: Stream?, ghost at: nat, guess: Guess, slot: nat, mkiSize: nat)
      requires Valid() && length <= pkt.Length && length < UINT32
      ensures ValidSession(model)
      ensures var c := ChooseReceive(model, pkt[..length], useMki);
              && (c.Reject? ==> status == c.status && status != Ok)
              && (c.Choose? ==>
                    && status == Ok && guess == c.guess && slot == c.slot && mkiSize == c.mkiSize && at == c.at
                    && (if c.provisional then t == template && template != null else at < |spine| && t == spine[at]))
    {
      hide *;
      ValidParts();
      slot, mkiSize, at, guess, t := 0, 0, 0, Guess(Ok, 0, 0), null;
      var p := pkt[..length];
      ChooseReceiveIs(model, p, useMki);
      if !ValidHeader(p) {
        return BadParam, t, at, guess, slot, mkiSize;
      }
      HeaderBounds(p);
      var ssrc := Ssrc(p);
      t, at := GetStream(ssrc);
      TemplateMirrored(template, model.template);
      ReceiverGuessIs(model, ssrc, Sequence(p));
      if t != null {
        StreamIs(spine, model.streams, at);
        guess := GuessListed(t, at, Sequence(p));
      } else if template != null {
        t := template;
        guess := Guess(Ok, Sequence(p), Sequence(p));
      } else {
        return NoCtx, t, at, guess, slot, mkiSize;
      }
      if guess.status != Ok && guess.status != IndexAdvance {
        return guess.status, t, at, guess, slot, mkiSize;
      }
      KeysUsableAt(spine, template, t, at);
      var found;
      found, mkiSize := ReceiveSlotLive(t, pkt, length, useMki);
      if found.None? {
        return BadMki, t, at, guess, slot, mkiSize;
      }
      status, slot := Ok, found.value;
    }

    /** Unprotects the packet at the front of the buffer, in place. A packet that fails before or at
        the tag comparison leaves session and buffer as they were. */
    method UnprotectMki(prim: Primitives, pkt: array<Octet>, length: nat, useMki: bool)
      returns (status: Status, newLength: nat)
      requires Valid() && length <= pkt.Length && length < UINT32
      modifies this, kernel`live, spine, template, SessionObjects(model), pkt
      ensures Valid() && ValidSession(old(model))
      ensures var r := Unprotect(prim, old(model), old(pkt[..length]), useMki);
              && model == r.session && status == r.status
              && (status == Ok ==> newLength <= pkt.Length && pkt[..newLength] == r.packet)
      ensures others == old(others)
      ensures !Erasure.Passes(prim, old(model), old(pkt[..length]), useMki) ==>
                pkt[..] == old(pkt[..]) && newLength == length
    {
      hide *;
      ValidParts();
      UnprotectIs(prim, model, pkt[..length], useMki);
      var t, guess, slot, mkiSize;
      ghost var at;
      status, t, at, guess, slot, mkiSize := ChooseLive(pkt, length, useMki);
      if status != Ok {
        return status, length;
      }
      ChosenStream(spine, template, model, t, at, pkt[..length], useMki);
      status, newLength := UnprotectOn(prim, t, at, guess, slot, mkiSize, pkt, length, useMki);
    }

    /** The part of unprotecting after stream, index and key slot have been chosen. */
    method UnprotectOn(
      prim: Primitives, t: Stream, ghost at: nat, guess: Guess, slot: nat, mkiSize: nat,
      pkt: array<Octet>, length: nat, ghost useMki: bool)
      returns (status: Status, newLength: nat)
      requires Valid() && length <= pkt.Length && ValidSession(model)
      requires var c := ChooseReceive(model, pkt[..length], useMki);
               && c.Choose? && guess == c.guess && slot == c.slot && mkiSize == c.mkiSize && at == c.at
               && (if c.provisional then t == template else at < |spine| && t == spine[at])
      requires slot < |t.table.content|
      modifies this`model, this`spine, this`streamList, kernel`live, t`direction, t`db, t`rtcpDb, t`pendingRoc,
               SlotObjects(t.table.content[slot].keys), pkt
      ensures Valid() && ValidSession(old(model)) && others == old(others)
      ensures var r := Unprotect(prim, old(model), old(pkt[..length]), useMki);
              && model == r.session && status == r.status
              && (status == Ok ==> newLength <= pkt.Length && pkt[..newLength] == r.packet)
      ensures !Erasure.Passes(prim, old(model), old(pkt[..length]), useMki) ==>
                pkt[..] == old(pkt[..]) && newLength == length
    {
      hide *;
      ValidParts();
      newLength := length;
      ghost var p := pkt[..length];
      UnprotectIs(prim, model, p, useMki);
      ChosenStream(spine, template, model, t, at, p, useMki);
      var keys := t.table.content[slot].keys;
      SlotObjectsAre(keys);
      HeaderBounds(p);
      var ssrc := Ssrc(pkt[..length]);
      SetVectors(keys, ssrc, guess.est);
      status := VerifyFirst(prim, keys, t.rtp, pkt, length, guess.est, mkiSize);
      if status != Ok {
        return;
      }
      status, newLength := AcceptChosen(prim, t, at, keys, pkt, length, ssrc, guess, mkiSize);
    }

    /** Charges the key, opens the packet and records it. */
    method AcceptChosen(
      prim: Primitives, t: Stream, ghost at: nat, keys: SessionKeys,
      pkt: array<Octet>, length: nat, ssrc: nat, guess: Guess, mkiSize: nat)
      returns (status: Status, newLength: nat)
      requires Valid() && length <= pkt.Length && ValidHeader(pkt[..length]) && ssrc < UINT32
      requires at == Find(model.streams, ssrc)
      requires if t != template then at < |spine| && t == spine[at] else at == |model.streams|
      requires keys.limit in model.limits && DistinctCiphers(keys)
      requires CommitAllowed(model.(limits := model.limits[keys.limit := Charge(model.limits[keys.limit]).0]), ssrc, guess)
      requires |pkt[..length]| >= RTP_HEADER && VectorsSet(keys, Ssrc(pkt[..length]), guess.est)
      requires if keys.rtpCipher.algorithm.Gcm?
               then EncStart(pkt[..length]) <= length - keys.rtpAuth.tagLen - mkiSize
               else Verdict(prim, RtpKeysOf(keys), t.rtp, pkt[..length], guess.est, mkiSize) == Ok
      modifies this`model, this`spine, this`streamList, kernel`live, t`direction, t`db, t`rtcpDb, t`pendingRoc,
               keys.limit, keys.rtpCipher, keys.xtnCipher, pkt
      ensures Valid() && keys.limit in old(model).limits
      ensures var p := old(pkt[..length]);
              var s1 := old(model).(limits := old(model).limits[
                            keys.limit := Charge(old(model).limits[keys.limit]).0]);
              var verdict := Verdict(prim, RtpKeysOf(keys), t.rtp, p, guess.est, mkiSize);
              if Charge(old(model).limits[keys.limit]).1 == HardLimit then status == KeyExpired && model == s1
              else if verdict != Ok then status == verdict && model == s1
              else
                var o := Open(prim, RtpKeysOf(keys), t.rtp, t.Ids(), p, guess.est, mkiSize);
                if o.status != Ok then status == o.status && model == s1
                else
                  && status == Ok && CommitAllowed(s1, ssrc, guess)
                  && model == Commit(s1, ssrc, guess, keys.rtpCipher.algorithm.Gcm?)
                  && newLength <= pkt.Length && pkt[..newLength] == o.packet
    {
      hide *;
      newLength := length;
      var event := ChargeKey(keys);
      if event == HardLimit {
        return KeyExpired, length;
      }
      status, newLength := OpenVerified(prim, keys, t.rtp, t.Ids(), pkt, length, guess.est, mkiSize);
      if status != Ok {
        return;
      }
      ValidParts();
      if t != template {
        CommitListed(t, at, ssrc, guess, keys.rtpCipher.algorithm.Gcm?);
      } else {
        CommitProvisional(ssrc, guess, keys.rtpCipher.algorithm.Gcm?);
      }
    }

    /** Walks the list for the first stream with the SSRC and the node before it. */
    method FindWithLast(ssrc: nat) returns (last: Stream?, t: Stream?, ghost at: nat)
      requires Valid()
      ensures at == Find(model.streams, ssrc) && at <= |spine| == |model.streams|
      ensures t == (if at < |spine| then spine[at] else null) && last == (if at > 0 then spine[at - 1] else t)
    {
      hide *;
      ValidParts();
      last, t, at := streamList, streamList, 0;
      HeadIs(streamList, spine);
      while t != null && t.ssrc != ssrc
        invariant at <= |spine| && t == (if at < |spine| then spine[at] else null)
        invariant last == (if at > 0 then spine[at - 1] else t)
        invariant forall i :: 0 <= i < at ==> spine[i].ssrc != ssrc
        decreases |spine| - at
      {
        NextIs(streamList, spine, at);
        last, t := t, t.next;
        at := at + 1;
      }
      FoundAt(spine, model.streams, ssrc, at);
    }

    /** Unlinks and deallocates the first stream with the SSRC. */
    method RemoveStream(ssrc: nat) returns (status: Status)
      requires Valid()
      modifies this`model, this`spine, this`streamList, kernel`live, spine`next
      ensures Valid() && NothingDangles()
      ensures status == Remove(old(model), ssrc).status && model == Remove(old(model), ssrc).session
      ensures var at := Find(old(model).streams, ssrc);
              && at <= |old(spine)|
              && spine == (if at == |old(spine)| then old(spine) else Without(old(spine), at))
              && (at < |old(spine)| ==>
                    && SlotsFit(old(spine)[at], template)
                    && kernel.live == old(kernel.live) - Elements(Owned(old(spine)[at], template)))
    {
      hide *;
      ValidParts();
      RemoveIs(model, ssrc);
      var last, t, at := FindWithLast(ssrc);
      if t == null {
        ValidNothingDangles();
        return NoCtx;
      }
      RemovedOwns(spine, template, this, at, others, kernel.live);
      RemovedMirrors(spine, model.streams, template, at);
      RemovedKeepsValid(model, at);
      assert Mirrors(Without(spine, at), Without(model.streams, at)) && last != template;
      var head := Unlink(streamList, last, t, spine, at);
      assert Mirrors(Without(spine, at), Without(model.streams, at)) && AllUsable(Without(spine, at), template);
      streamList := head;
      spine := Without(spine, at);
      model := model.(streams := Without(model.streams, at));
      DeallocStream(kernel, t, template);
      ValidFrom();
      ValidNothingDangles();
      return Ok;
    }

    /** Sets the rollover counter the next packet indices are estimated from. */
    method SetStreamRoc(ssrc: nat, roc: nat) returns (status: Status)
      requires Valid() && roc < UINT32
      modifies this`model, spine
      ensures Valid()
      ensures status == SetRoc(old(model), ssrc, roc).status && model == SetRoc(old(model), ssrc, roc).session
    {
      hide *;
      ValidParts();
      SetRocIs(model, ssrc, roc);
      var t, at := GetStream(ssrc);
      if t == null {
        return BadParam;
      }
      StreamIs(spine, model.streams, at);
      ValidAt(model, at);
      Assign(t, at, t.direction, t.db, t.rtcpDb, roc);
      return Ok;
    }

    /** Frees the listed streams, the template and the session: each object allocated for the
        session once, and nothing else. */
    method Dealloc()
      requires Valid()
      modifies kernel`live
      ensures kernel.live == others
    {
      hide *;
      ValidParts();
      ghost var rest := TemplateOwned(template) + One(this);
      var t := streamList;
      ghost var at := 0;
      HeadIs(streamList, spine);
      AllOwnedFrom(spine, template, this);
      HoldsIs(AllOwned(spine, template, this), others, kernel.live);
      while t != null
        invariant at <= |spine| && t == (if at < |spine| then spine[at] else null)
        invariant AllRelated(spine[at..], template)
        invariant Freeable(Owners(spine[at..], template) + rest, kernel.live)
        invariant kernel.live - Elements(Owners(spine[at..], template) + rest) == others
        decreases |spine| - at
        modifies kernel`live
      {
        NextIs(streamList, spine, at);
        var next := t.next;
        OwnersNext(spine, template, at, rest, kernel.live);
        DeallocStream(kernel, t, template);
        t := next;
        at := at + 1;
      }
      OwnersEnd(spine, template, at, rest);
      FreeTemplate(kernel, template, this);
      OneIs(this, kernel.live);
      kernel.Free(this);
    }
  }

  /** The slot by the identifier in the packet, or the first one, and the size of that identifier. */
  method ReceiveSlotLive(t: Stream, pkt: array<Octet>, length: nat, useMki: bool)
    returns (slot: Option<nat>, mkiSize: nat)
    requires t.table.content != [] && KeysUsable(t) && length <= pkt.Length && length < UINT32
    ensures slot == if useMki then FindSlot(RtpKeysOfAll(KeysOf(t.table.content)), pkt[..length], 0) else Some(0)
    ensures slot.Some? ==>
              && slot.value < |t.table.content|
              && mkiSize == if useMki then |t.table.content[slot.value].keys.mki| else 0
  {
    hide FindSlot, RtpKeysOfAll;
    slot, mkiSize := Some(0), 0;
    if useMki {
      var keys := KeysOf(t.table.content);
      var outside;
      slot, outside := GetSessionKeys(keys, pkt, length);
      if slot.Some? {
        mkiSize := |keys[slot.value].mki|;
      }
    }
  }

  lemma KeysUsableAt(spine: seq<Stream>, template: Stream?, t: Stream, at: nat)
    requires AllUsable(spine, template) && t == (if at < |spine| then spine[at] else template)
    ensures KeysUsable(t)
  {
    hide KeysUsable;
    if at < |spine| {
      assert Usable(spine[at]);
    }
  }

  /** Frees the template, if there is one. */
  method FreeTemplate(kernel: Kernel, template: Stream?, ghost session: object)
    requires Freeable(TemplateOwned(template) + One(session), kernel.live)
    modifies kernel`live
    ensures Freeable(One(session), kernel.live)
    ensures kernel.live - Elements(One(session))
            == old(kernel.live) - Elements(TemplateOwned(template) + One(session))
  {
    hide Freeable, Elements, TemplateOwned;
    TemplateOwnedIs(template);
    FreeableSplit(TemplateOwned(template), One(session), kernel.live);
    if template != null {
      DeallocStream(kernel, template, null);
    } else {
      assert kernel.live - Elements(TemplateOwned(template)) == kernel.live;
    }
  }

  lemma SetRocIs(s: SessionState, ssrc: nat, roc: nat)
    ensures var at := Find(s.streams, ssrc);
            SetRoc(s, ssrc, roc)
            == if at == |s.streams| then Outcome(s, BadParam, [])
               else Outcome(WithStream(s, at, s.streams[at].(pendingRoc := roc)), Ok, [])
  {
  }

  lemma AllOwnedFrom(spine: seq<Stream>, template: Stream?, session: object)
    requires AllRelated(spine, template)
    ensures spine[0..] == spine
    ensures AllOwned(spine, template, session)
            == Owners(spine[0..], template) + (TemplateOwned(template) + One(session))
  {
    hide Owners, TemplateOwned;
    assert spine[0..] == spine;
  }

  lemma OwnersNext(spine: seq<Stream>, template: Stream?, at: nat, rest: seq<object>, live: set<object>)
    requires at < |spine| && AllRelated(spine[at..], template)
    requires Freeable(Owners(spine[at..], template) + rest, live)
    ensures AllRelated(spine[at + 1..], template)
    ensures SlotsFit(spine[at], template) && Freeable(Owned(spine[at], template), live)
    ensures var left := live - Elements(Owned(spine[at], template));
            && Freeable(Owners(spine[at + 1..], template) + rest, left)
            && left - Elements(Owners(spine[at + 1..], template) + rest)
               == live - Elements(Owners(spine[at..], template) + rest)
  {
    hide Owned, Owners, Related, Freeable, Elements;
    OwnersUnfold(spine[at..], template);
    assert spine[at..][1..] == spine[at + 1..] && spine[at..][0] == spine[at];
    var tail := Owners(spine[at + 1..], template) + rest;
    assert Owners(spine[at..], template) + rest == Owned(spine[at], template) + tail;
    FreeableSplit(Owned(spine[at], template), tail, live);
  }

  lemma OwnersEnd(spine: seq<Stream>, template: Stream?, at: nat, rest: seq<object>)
    requires at == |spine| && AllRelated(spine[at..], template)
    ensures Owners(spine[at..], template) + rest == rest
  {
  }

  lemma TemplateOwnedIs(template: Stream?)
    ensures template == null ==> TemplateOwned(template) == [] && Elements(TemplateOwned(template)) == {}
    ensures template != null ==> SlotsFit(template, null) && TemplateOwned(template) == Owned(template, null)
  {
    hide Owned;
  }

  lemma OneIs(o: object, live: set<object>)
    ensures Elements(One(o)) == {o}
    ensures Freeable(One(o), live) <==> o in live
  {
    assert One(o) == [o];
  }

  lemma RemoveIs(s: SessionState, ssrc: nat)
    ensures var at := Find(s.streams, ssrc);
            Remove(s, ssrc) == if at == |s.streams| then Outcome(s, NoCtx, [])
                               else Outcome(s.(streams := Without(s.streams, at)), Ok, [])
  {
  }

  lemma HeadIs(head: Stream?, spine: seq<Stream>)
    requires Linked(head, spine)
    ensures head == (if 0 < |spine| then spine[0] else null)
  {
  }

  lemma NextIs(head: Stream?, spine: seq<Stream>, at: nat)
    requires Linked(head, spine) && at < |spine|
    ensures spine[at].next == (if at + 1 < |spine| then spine[at + 1] else null)
  {
  }

  lemma FoundAt(spine: seq<Stream>, streams: seq<StreamState>, ssrc: nat, at: nat)
    requires Mirrors(spine, streams) && at <= |spine|
    requires forall i :: 0 <= i < at ==> spine[i].ssrc != ssrc
    requires at < |spine| ==> spine[at].ssrc == ssrc
    ensures Find(streams, ssrc) == at
  {
    forall i | 0 <= i < |spine|
      ensures streams[i].ssrc == spine[i].ssrc
    {
      assert spine[i].State() == streams[i];
    }
    FindIs(streams, ssrc, at);
  }

  /** Takes the node at position `at` out of the list; `last` is the node before it, if any. */
  method Unlink(head: Stream?, last: Stream, t: Stream, ghost spine: seq<Stream>, ghost at: nat)
    returns (newHead: Stream?)
    requires Linked(head, spine) && Distinct(spine) && at < |spine| && t == spine[at]
    requires last == (if at > 0 then spine[at - 1] else t)
    modifies last`next
    ensures Linked(newHead, Without(spine, at)) && Distinct(Without(spine, at))
  {
    ghost var shorter := Without(spine, at);
    if last == t {
      newHead := t.next;
    } else {
      last.next := t.next;
      newHead := head;
    }
    forall i | 0 <= i < |shorter|
      ensures shorter[i].next == Successor(shorter, i)
    {
      SuccessorWithout(spine, at, i);
      ghost var j := if i < at then i else i + 1;
      assert old(spine[j].next) == Successor(spine, j);
      assert old(spine[at].next) == Successor(spine, at);
    }
  }

  lemma SuccessorWithout(spine: seq<Stream>, at: nat, i: nat)
    requires at < |spine| && i < |spine| - 1
    ensures var j := if i < at then i else i + 1;
            && Without(spine, at)[i] == spine[j]
            && Successor(Without(spine, at), i)
               == if i + 1 == at then Successor(spine, at) else Successor(spine, j)
  {
  }

  lemma RemovedOwns(
    spine: seq<Stream>, template: Stream?, session: object, at: nat, others: set<object>, live: set<object>)
    requires at < |spine| && AllRelated(spine, template)
    requires Holds(AllOwned(spine, template, session), others, live)
    ensures SlotsFit(spine[at], template) && Freeable(Owned(spine[at], template), live)
    ensures AllRelated(Without(spine, at), template)
    ensures Holds(AllOwned(Without(spine, at), template, session), others, live - Elements(Owned(spine[at], template)))
  {
    hide Owned, Related, Freeable, Owners, TemplateOwned, Elements;
    var a, b := spine[..at], spine[at + 1..];
    OwnersConcat(a, spine[at..], template);
    OwnersUnfold(spine[at..], template);
    OwnersConcat(a, b, template);
    assert spine == a + spine[at..] && spine[at..][1..] == b && spine[at..][0] == spine[at];
    var rest := Owners(b, template) + TemplateOwned(template) + One(session);
    assert AllOwned(spine, template, session) == Owners(a, template) + Owned(spine[at], template) + rest;
    assert AllOwned(Without(spine, at), template, session) == Owners(a, template) + rest;
    FreeableMiddle(Owners(a, template), Owned(spine[at], template), rest, live);
  }

  lemma RemovedMirrors(spine: seq<Stream>, streams: seq<StreamState>, template: Stream?, at: nat)
    requires Mirrors(spine, streams) && AllUsable(spine, template) && template !in spine && at < |spine|
    ensures at < |streams|
    ensures Mirrors(Without(spine, at), Without(streams, at)) && AllUsable(Without(spine, at), template)
    ensures template !in Without(spine, at)
  {
    hide Usable;
    var s, u := Without(spine, at), Without(streams, at);
    forall i | 0 <= i < |s|
      ensures s[i].State() == u[i] && Usable(s[i])
    {
      var j := if i < at then i else i + 1;
      assert s[i] == spine[j] && u[i] == streams[j];
    }
  }

  lemma RemovedKeepsValid(s: SessionState, at: nat)
    requires ValidSession(s) && at < |s.streams|
    ensures ValidSession(s.(streams := Without(s.streams, at)))
  {
    hide ValidStream;
    var u := Without(s.streams, at);
    forall i | 0 <= i < |u|
      ensures ValidStream(u[i], s.limits)
    {
      assert u[i] == s.streams[if i < at then i else i + 1];
    }
  }

  /** What can be decided before the key is charged. */
  method VerifyFirst(
    prim: Primitives, keys: SessionKeys, svc: Services, pkt: array<Octet>, length: nat, index: nat, mkiSize: nat)
    returns (status: Status)
    requires length <= pkt.Length && ValidHeader(pkt[..length])
    modifies keys.rtpAuth
    ensures var verdict := Verdict(prim, RtpKeysOf(keys), svc, pkt[..length], index, mkiSize);
            && (status != Ok ==> verdict == status && (keys.rtpCipher.algorithm.Gcm? ==> status == ParseErr))
            && (status == Ok ==>
                  && verdict != ParseErr
                  && (if keys.rtpCipher.algorithm.Gcm?
                      then EncStart(pkt[..length]) <= length - keys.rtpAuth.tagLen - mkiSize
                      else verdict == Ok))
  {
    hide *;
    if keys.rtpCipher.algorithm.Gcm? {
      GcmParse(prim, keys, svc, pkt[..length], index, mkiSize);
      status := if EncStart(pkt[..length]) > length - keys.rtpAuth.tagLen - mkiSize then ParseErr else Ok;
    } else {
      status := VerifyPlain(prim, keys, svc, pkt, length, index, mkiSize);
    }
  }

  lemma GcmParse(prim: Primitives, keys: SessionKeys, svc: Services, p: Octets, index: nat, mkiSize: nat)
    requires ValidHeader(p) && keys.rtpCipher.algorithm.Gcm?
    ensures Verdict(prim, RtpKeysOf(keys), svc, p, index, mkiSize) == ParseErr
            <==> EncStart(p) > |p| - keys.rtpAuth.tagLen - mkiSize
  {
    hide GcmTag, EncStart, ValidHeader;
  }

  /** The authenticated cipher's comparison, if it is due, and decryption. */
  method OpenVerified(
    prim: Primitives, keys: SessionKeys, svc: Services, ids: seq<int>,
    pkt: array<Octet>, length: nat, index: nat, mkiSize: nat)
    returns (status: Status, newLength: nat)
    requires length <= pkt.Length && ValidHeader(pkt[..length]) && DistinctCiphers(keys)
    requires VectorsSet(keys, Ssrc(pkt[..length]), index)
    requires if keys.rtpCipher.algorithm.Gcm?
             then EncStart(pkt[..length]) <= length - keys.rtpAuth.tagLen - mkiSize
             else Verdict(prim, RtpKeysOf(keys), svc, pkt[..length], index, mkiSize) == Ok
    modifies keys.rtpCipher, keys.xtnCipher, pkt
    ensures var verdict := Verdict(prim, RtpKeysOf(keys), svc, old(pkt[..length]), index, mkiSize);
            && (verdict != Ok ==> status == verdict)
            && (verdict == Ok ==>
                  var r := Open(prim, RtpKeysOf(keys), svc, ids, old(pkt[..length]), index, mkiSize);
                  status == r.status && (status == Ok ==> newLength <= pkt.Length && pkt[..newLength] == r.packet))
  {
    hide *;
    HeaderBounds(pkt[..length]);
    newLength := length;
    if keys.rtpCipher.algorithm.Gcm? {
      status := VerifyGcm(prim, keys, svc, pkt, length, index, mkiSize);
      if status != Ok {
        return;
      }
    }
    status, newLength := OpenInPlace(prim, keys, svc, ids, pkt, length, index, mkiSize);
  }

  lemma ChosenStream(
    spine: seq<Stream>, template: Stream?, s: SessionState, t: Stream, at: nat, p: Octets, useMki: bool)
    requires ValidSession(s) && Mirrors(spine, s.streams) && s.template == TemplateState(template)
    requires AllUsable(spine, template) && template !in spine
    requires ChooseReceive(s, p, useMki).Choose? && at == ChooseReceive(s, p, useMki).at
    requires if ChooseReceive(s, p, useMki).provisional then t == template else at < |spine| && t == spine[at]
    ensures ValidHeader(p) && |p| >= RTP_HEADER
    ensures Find(s.streams, Ssrc(p)) < |s.streams| || s.template.Some?
    ensures var c, u := ChooseReceive(s, p, useMki), ReceiverStream(s, Ssrc(p));
            && c.slot < |u.keys| == |t.table.content|
            && u.keys[c.slot] == t.table.content[c.slot].keys
            && u.rtp == t.rtp && u.ids == t.Ids()
            && at == Find(s.streams, Ssrc(p))
            && (t != template <==> at < |spine|) && |spine| == |s.streams|
            && u.keys[c.slot].limit in s.limits
            && DistinctCiphers(u.keys[c.slot])
            && SlotObjects(u.keys[c.slot]) <= SessionObjects(s)
    ensures var c := ChooseReceive(s, p, useMki);
            var k := t.table.content[c.slot].keys;
            && k.rtpCipher in SessionObjects(s) && k.rtpAuth in SessionObjects(s) && k.limit in SessionObjects(s)
            && (k.xtnCipher != null ==> k.xtnCipher in SessionObjects(s))
            && c.guess.status == ReceiverGuess(s, Ssrc(p), Sequence(p)).status
            && Ssrc(p) < UINT32
  {
    hide ChooseReceive, SessionObjects, SlotObjects, ReceiverGuess, ValidStream, ValidHeader, Ssrc, Sequence;
    ChooseReceiveFacts(s, p, useMki);
    HeaderBounds(p);
    var c := ChooseReceive(s, p, useMki);
    if c.provisional {
      assert Usable(t);
      TemplateObjectsIn(s, c.slot);
    } else {
      assert Usable(spine[at]);
      SlotObjectsIn(s, at, c.slot);
    }
  }

  lemma TemplateObjectsIn(s: SessionState, slot: nat)
    requires s.template.Some? && slot < |s.template.value.keys|
    ensures SlotObjects(s.template.value.keys[slot]) <= SessionObjects(s)
    ensures var k := s.template.value.keys[slot];
            && k.rtpCipher in SessionObjects(s) && k.rtpAuth in SessionObjects(s) && k.limit in SessionObjects(s)
            && (k.xtnCipher != null ==> k.xtnCipher in SessionObjects(s))
  {
    var k := s.template.value.keys[slot];
    assert k in s.template.value.keys;
    assert SlotObjects(k) <= TableObjects(s.template.value.keys);
  }

  lemma UnprotectIs(prim: Primitives, s: SessionState, p: Octets, useMki: bool)
    requires ValidSession(s)
    ensures var c, r := ChooseReceive(s, p, useMki), Unprotect(prim, s, p, useMki);
            && (c.Reject? ==> r == Outcome(s, c.status, p))
            && (c.Choose? ==>
                  && ValidHeader(p) && |p| >= RTP_HEADER
                  && (Find(s.streams, Ssrc(p)) < |s.streams| || s.template.Some?)
                  && var t := ReceiverStream(s, Ssrc(p));
                     && c.slot < |t.keys|
                     && var keys := t.keys[c.slot];
                        && keys.limit in s.limits
                        && var k := RtpKeysOf(keys);
                           var gcm := keys.rtpCipher.algorithm.Gcm?;
                           var verdict := Verdict(prim, k, t.rtp, p, c.guess.est, c.mkiSize);
                           var s1 := s.(limits := s.limits[keys.limit := Charge(s.limits[keys.limit]).0]);
                           var event := Charge(s.limits[keys.limit]).1;
                           && CommitAllowed(s1, Ssrc(p), c.guess)
                           && s1.streams == s.streams
                           && (Erasure.Passes(prim, s, p, useMki) <==> gcm || verdict == Ok)
                           && r == if verdict == ParseErr || (verdict != Ok && !gcm) then Outcome(s, verdict, p)
                                   else if event == HardLimit then Outcome(s1, KeyExpired, p)
                                   else if verdict != Ok then Outcome(s1, verdict, p)
                                   else
                                     var o := Open(prim, k, t.rtp, t.ids, p, c.guess.est, c.mkiSize);
                                     if o.status != Ok then Outcome(s1, o.status, o.packet)
                                     else Outcome(Commit(s1, Ssrc(p), c.guess, gcm), Ok, o.packet))
    ensures ChooseReceive(s, p, useMki).Reject? ==> !Erasure.Passes(prim, s, p, useMki)
  {
    hide ChooseReceive, Verdict, Open, Commit, Charge, ReceiverGuess, ValidHeader, Ssrc, Sequence;
    if ChooseReceive(s, p, useMki).Choose? {
      ChooseReceiveFacts(s, p, useMki);
      HeaderBounds(p);
      ReceiverGuessInWindow(s, Ssrc(p), Sequence(p));
    }
  }

  lemma ReceiverGuessIs(s: SessionState, ssrc: nat, seqNo: nat)
    requires ValidSession(s) && seqNo < SEQ_MAX
    ensures var at := Find(s.streams, ssrc);
            ReceiverGuess(s, ssrc, seqNo)
            == if at < |s.streams| then
                 var t := s.streams[at];
                 var g := if t.pendingRoc != 0 then
                            var e := EstimateWithRoc(t.db.index, t.pendingRoc, seqNo);
                            Guess(e.status, e.est, e.delta)
                          else
                            Guess(Ok, EstimateIndex(t.db, seqNo).est, EstimateIndex(t.db, seqNo).delta);
                 if g.status == Ok then g.(status := Check(t.db, g.delta)) else g
               else if s.template.Some? then Guess(Ok, seqNo, seqNo)
               else Guess(NoCtx, 0, 0)
  {
    hide EstimateIndex;
  }

  lemma ChooseReceiveIs(s: SessionState, p: Octets, useMki: bool)
    requires ValidSession(s)
    ensures !ValidHeader(p) ==> ChooseReceive(s, p, useMki) == Reject(BadParam)
    ensures ValidHeader(p) ==> |p| >= RTP_HEADER
    ensures ValidHeader(p) ==>
              var ssrc := Ssrc(p);
              var at := Find(s.streams, ssrc);
              var g := ReceiverGuess(s, ssrc, Sequence(p));
              && (g.status != Ok && g.status != IndexAdvance ==> ChooseReceive(s, p, useMki) == Reject(g.status))
              && (g.status == Ok || g.status == IndexAdvance ==>
                    && (at < |s.streams| || s.template.Some?)
                    && var t := if at < |s.streams| then s.streams[at] else s.template.value;
                       && t.keys != []
                       && var found := FindSlot(RtpKeysOfAll(t.keys), p, 0);
                          && (found.Some? ==> found.value < |t.keys|)
                          && ChooseReceive(s, p, useMki)
                             == if !useMki then Choose(at == |s.streams|, at, g, 0, 0)
                                else if found.None? then Reject(BadMki)
                                else Choose(at == |s.streams|, at, g, found.value, |t.keys[found.value].mki|))
  {
    hide GuessIndex, Check, FindSlot, RtpKeysOfAll, Ssrc, Sequence;
  }

  lemma TemplateKeepsValid(s: SessionState, direction: Direction)
    requires ValidSession(s) && s.template.Some?
    ensures ValidSession(s.(template := Some(s.template.value.(direction := direction))))
  {
  }

  method AssignTemplateField(
    template: Stream, direction: Direction, ghost spine: seq<Stream>, ghost streams: seq<StreamState>)
    requires template !in spine && Mirrors(spine, streams) && AllUsable(spine, template)
    modifies template`direction
    ensures Mirrors(spine, streams) && AllUsable(spine, template)
    ensures TemplateState(template) == Some(old(template.State()).(direction := direction))
  {
    template.direction := direction;
  }

  lemma CommitIs(s: SessionState, ssrc: nat, guess: Guess, gcm: bool)
    requires CommitAllowed(s, ssrc, guess)
    ensures SEQ_MAX > 0
    ensures var at := Find(s.streams, ssrc);
            && (at < |s.streams| ==>
                  var t := s.streams[at];
                  var direction := if t.direction == Unknown then Receiver else t.direction;
                  && ValidWindow(t.db) && |t.db.window| - 1 + guess.delta >= 0
                  && ValidWindow(SetRocSeq(t.db, guess.est / SEQ_MAX, guess.est % SEQ_MAX).db)
                  && Commit(s, ssrc, guess, gcm)
                     == WithStream(s, at,
                          if guess.status == IndexAdvance && !gcm
                          then t.(direction := direction, pendingRoc := 0,
                                  db := AddIndex(SetRocSeq(t.db, guess.est / SEQ_MAX, guess.est % SEQ_MAX).db, 0))
                          else t.(direction := direction, db := AddIndex(t.db, guess.delta))))
            && (at == |s.streams| ==> s.template.Some? && guess.delta >= 0)
  {
    hide AddIndex;
  }

  lemma CommitCloned(s: SessionState, ssrc: nat, guess: Guess, gcm: bool, direction: Direction)
    requires CommitAllowed(s, ssrc, guess) && Find(s.streams, ssrc) == |s.streams|
    requires direction == if s.template.value.direction == Unknown then Receiver else s.template.value.direction
    ensures var m := s.template.value.(direction := direction);
            var c := Clone(m, ssrc);
            && ValidWindow(c.db) && |c.db.window| - 1 + guess.delta >= 0
            && |AddIndex(c.db, guess.delta).window| == |c.db.window|
            && Commit(s, ssrc, guess, gcm)
               == WithStream(s.(template := Some(m), streams := [c] + s.streams), 0,
                             c.(db := AddIndex(c.db, guess.delta)))
  {
    hide AddIndex;
    var m := s.template.value.(direction := direction);
    var c := Clone(m, ssrc);
    var c' := c.(db := AddIndex(c.db, guess.delta));
    assert ([c] + s.streams)[0 := c'] == [c'] + s.streams;
  }

  /** Sets the vectors and seals, by the cipher's kind. */
  method SealPacket(
    prim: Primitives, keys: SessionKeys, svc: Services, ids: seq<int>,
    pkt: array<Octet>, length: nat, index: nat, useMki: bool)
    returns (status: Status, newLength: nat)
    requires length + |keys.mki| + keys.rtpAuth.tagLen <= pkt.Length && ValidHeader(pkt[..length])
    requires DistinctCiphers(keys)
    modifies keys.rtpCipher, keys.xtnCipher, keys.rtpAuth, pkt
    ensures var r := Seal(prim, RtpKeysOf(keys), svc, ids, old(pkt[..length]), index, useMki);
            status == r.status && (status == Ok ==> newLength <= pkt.Length && pkt[..newLength] == r.packet)
  {
    hide *;
    HeaderBounds(pkt[..length]);
    SetVectors(keys, Ssrc(pkt[..length]), index);
    if keys.rtpCipher.algorithm.Gcm? {
      status, newLength := SealGcm(prim, keys, svc, ids, pkt, length, index, useMki);
    } else {
      status, newLength := SealPlain(prim, keys, svc, ids, pkt, length, index, useMki);
    }
  }

  // ----- What a session refers to

  lemma ReferredLive(
    spine: seq<Stream>, template: Stream?, session: object, others: set<object>, live: set<object>)
    requires AllRelated(spine, template) && Holds(AllOwned(spine, template, session), others, live)
    ensures forall i | 0 <= i < |spine| :: Referred(spine[i]) <= live
    ensures template != null ==> Referred(template) <= live
  {
    hide Owned, Owners, Related, Elements, Referred, TemplateOwned;
    ElementsOfConcat(Owners(spine, template) + TemplateOwned(template), One(session));
    ElementsOfConcat(Owners(spine, template), TemplateOwned(template));
    TemplateOwnedIs(template);
    ReferredIs(template);
    forall i | 0 <= i < |spine|
      ensures Referred(spine[i]) <= live
    {
      OwnersContain(spine, template, i);
      if template != null {
        ReferredIsOwned(spine[i], template);
      } else {
        ReferredIs(spine[i]);
      }
    }
  }

  lemma ReferredIs(t: Stream?)
    ensures t != null ==> Referred(t) == Elements(Owned(t, null))
  {
  }

  lemma SessionObjectsReferred(spine: seq<Stream>, template: Stream?, s: SessionState, live: set<object>)
    requires Mirrors(spine, s.streams) && s.template == TemplateState(template)
    requires forall i | 0 <= i < |spine| :: Referred(spine[i]) <= live
    requires template != null ==> Referred(template) <= live
    ensures SessionObjects(s) <= live
  {
    hide Referred, SlotObjects;
    forall t, o | t in s.streams && o in TableObjects(t.keys)
      ensures o in live
    {
      var i :| 0 <= i < |s.streams| && s.streams[i] == t;
      assert spine[i].State() == t;
      TableReferred(spine[i], live);
    }
    if template != null {
      TableReferred(template, live);
    }
  }

  lemma TableReferred(t: Stream, live: set<object>)
    requires Referred(t) <= live
    ensures TableObjects(KeysOf(t.table.content)) <= live
  {
    hide Referred, SlotObjects;
    var keys := KeysOf(t.table.content);
    forall k, o | k in keys && o in SlotObjects(k)
      ensures o in live
    {
      var j :| 0 <= j < |keys| && keys[j] == k;
      KeysReferred(t, j);
    }
  }

  // ----- The key objects of a session

  ghost function TableObjects(keys: seq<SessionKeys>): set<object> {
    set k, o | k in keys && o in SlotObjects(k) :: o
  }

  ghost function SessionObjects(s: SessionState): set<object> {
    (set t, o | t in s.streams && o in TableObjects(t.keys) :: o)
    + if s.template.None? then {} else TableObjects(s.template.value.keys)
  }

  lemma SlotObjectsIn(s: SessionState, at: nat, slot: nat)
    requires at < |s.streams| && slot < |s.streams[at].keys|
    ensures SlotObjects(s.streams[at].keys[slot]) <= SessionObjects(s)
    ensures var k := s.streams[at].keys[slot];
            && k.rtpCipher in SessionObjects(s) && k.rtpAuth in SessionObjects(s) && k.limit in SessionObjects(s)
            && (k.xtnCipher != null ==> k.xtnCipher in SessionObjects(s))
  {
    var t := s.streams[at];
    assert t in s.streams && t.keys[slot] in t.keys;
    assert SlotObjects(t.keys[slot]) <= TableObjects(t.keys);
  }

  lemma EnsureStreamObjects(s: SessionState, ssrc: nat)
    requires EnsureStream(s, ssrc).Some?
    ensures SessionObjects(EnsureStream(s, ssrc).value) <= SessionObjects(s)
  {
    hide TableObjects;
    var s' := EnsureStream(s, ssrc).value;
    forall t, o | t in s'.streams && o in TableObjects(t.keys)
      ensures o in SessionObjects(s)
    {
      if t !in s.streams {
        assert t.keys == s.template.value.keys;
      }
    }
  }

  // ----- Unfolding the session functions

  lemma EnsureStreamIs(s: SessionState, ssrc: nat)
    ensures EnsureStream(s, ssrc)
            == if Find(s.streams, ssrc) < |s.streams| then Some(s)
               else if s.template.Some? then
                 Some(s.(streams := [Clone(s.template.value, ssrc).(direction := Sender)] + s.streams))
               else None
  {
  }

  lemma TemplateMirrored(template: Stream?, state: Option<StreamState>)
    requires state == TemplateState(template)
    ensures state.Some? <==> template != null
    ensures template != null ==>
              && state.value == template.State() && state.value.direction == template.direction
              && state.value.keys == KeysOf(template.table.content) && state.value.rtp == template.rtp
              && state.value.ids == template.Ids()
  {
  }

  lemma EnsureStreamCloned(s: SessionState, ssrc: nat, now: SessionState)
    requires Find(s.streams, ssrc) == |s.streams| && s.template.Some?
    requires var c := Clone(s.template.value, ssrc);
             now == WithStream(s.(streams := [c] + s.streams), 0, c.(direction := Sender))
    ensures EnsureStream(s, ssrc) == Some(now) && Find(now.streams, ssrc) == 0
  {
    var c := Clone(s.template.value, ssrc);
    assert ([c] + s.streams)[0 := c.(direction := Sender)] == [c.(direction := Sender)] + s.streams;
  }

  /** Protecting on a listed stream. */
  ghost function ProtectOn(
    prim: Primitives, s: SessionState, at: nat, pkt: Octets, useMki: bool, mkiIndex: nat): Outcome
    requires ValidSession(s) && at < |s.streams| && ValidHeader(pkt)
  {
    match PrepareOn(s, at, Sequence(pkt), useMki, mkiIndex)
    case Refused(s', status) => Outcome(s', status, [])
    case Ready(s', _, slot, index) =>
      PreparedSlot(s, at, Sequence(pkt), useMki, mkiIndex);
      var t := s'.streams[at];
      var r := Seal(prim, RtpKeysOf(t.keys[slot]), t.rtp, t.ids, pkt, index, useMki);
      Outcome(s', r.status, r.packet)
  }

  lemma ProtectOnIs(prim: Primitives, s: SessionState, at: nat, p: Octets, useMki: bool, mkiIndex: nat)
    requires ValidSession(s) && at < |s.streams| && ValidHeader(p) && |p| >= RTP_HEADER
    ensures match PrepareOn(s, at, Sequence(p), useMki, mkiIndex)
            case Refused(s2, status) => ProtectOn(prim, s, at, p, useMki, mkiIndex) == Outcome(s2, status, [])
            case Ready(s2, _, slot, index) =>
              && at < |s2.streams| && slot < |s2.streams[at].keys|
              && var r := Seal(prim, RtpKeysOf(s2.streams[at].keys[slot]), s2.streams[at].rtp,
                               s2.streams[at].ids, p, index, useMki);
                 ProtectOn(prim, s, at, p, useMki, mkiIndex) == Outcome(s2, r.status, r.packet)
  {
    hide PrepareOn, Seal, Sequence, ValidSession, ValidHeader, RtpKeysOf;
    PreparedSlot(s, at, Sequence(p), useMki, mkiIndex);
  }

  lemma SlotObjectsAre(keys: SessionKeys)
    ensures var o := SlotObjects(keys);
            && keys.rtpCipher in o && keys.rtpAuth in o && keys.limit in o
            && (keys.xtnCipher != null ==> keys.xtnCipher in o)
  {
  }

  lemma ProtectIs(prim: Primitives, s: SessionState, p: Octets, useMki: bool, mkiIndex: nat)
    requires ValidSession(s)
    ensures !ValidHeader(p) ==> Protect(prim, s, p, useMki, mkiIndex) == Outcome(s, BadParam, [])
    ensures ValidHeader(p) ==> |p| >= RTP_HEADER
    ensures ValidHeader(p) && EnsureStream(s, Ssrc(p)).None? ==>
              Protect(prim, s, p, useMki, mkiIndex) == Outcome(s, NoCtx, [])
    ensures ValidHeader(p) && EnsureStream(s, Ssrc(p)).Some? ==>
              var s1 := EnsureStream(s, Ssrc(p)).value;
              var at := Find(s1.streams, Ssrc(p));
              && ValidSession(s1) && at < |s1.streams|
              && Protect(prim, s, p, useMki, mkiIndex) == ProtectOn(prim, s1, at, p, useMki, mkiIndex)
  {
    hide PrepareOn, Seal, EnsureStream, Ssrc, Sequence, ValidSession, RtpKeysOf;
    if ValidHeader(p) && EnsureStream(s, Ssrc(p)).Some? {
      EnsureStreamKeepsValid(s, Ssrc(p));
      var s1 := EnsureStream(s, Ssrc(p)).value;
      PreparedSlot(s1, Find(s1.streams, Ssrc(p)), Sequence(p), useMki, mkiIndex);
      if PrepareSend(s, p, useMki, mkiIndex).Ready? {
        PrepareSendReady(s, p, useMki, mkiIndex);
      }
    }
  }

  lemma PreparedSlot(s: SessionState, at: nat, seqNo: nat, useMki: bool, mkiIndex: nat)
    requires ValidSession(s) && at < |s.streams| && seqNo < SEQ_MAX
    ensures s.streams[at].keys != []
    ensures var p := PrepareOn(s, at, seqNo, useMki, mkiIndex);
            p.Ready? ==>
              && p.at == at && p.slot == SelectedSlot(|s.streams[at].keys|, useMki, mkiIndex)
              && at < |p.session.streams| && p.session.streams[at].keys == s.streams[at].keys
  {
    hide Charge, SelectedSlot, AddIndex, GuessIndex, SetRocSeq, Check;
    PrepareOnIs(s, at, seqNo, useMki, mkiIndex);
  }

  lemma UsableAt(spine: seq<Stream>, template: Stream?, at: nat, slot: nat)
    requires AllUsable(spine, template) && at < |spine| && slot < |spine[at].table.content|
    ensures var k := spine[at].table.content[slot].keys;
            && DistinctCiphers(k) && k.rtpAuth.tagLen <= MAX_TAG_LEN && k.rtcpAuth.tagLen <= MAX_TAG_LEN
            && |k.mki| <= MAX_MKI_LEN
  {
    assert Usable(spine[at]);
  }

  lemma MarkIs(t: StreamState, d: Direction)
    ensures Mark(t, d) == if t.direction == Unknown then t.(direction := d) else t
  {
  }

  /** The steps of preparing, spelled out. */
  lemma PrepareOnIs(s: SessionState, at: nat, seqNo: nat, useMki: bool, mkiIndex: nat)
    requires ValidSession(s) && at < |s.streams| && seqNo < SEQ_MAX
    ensures s.streams[at].keys != []
    ensures var t := Mark(s.streams[at], Sender);
            var slot := SelectedSlot(|s.streams[at].keys|, useMki, mkiIndex);
            && t.keys == s.streams[at].keys && t.pendingRoc < UINT32 && ValidWindow(t.db)
            && var keys := t.keys[slot];
               && keys.limit in s.limits
               && var s1 := WithStream(s, at, t).(limits := s.limits[keys.limit := Charge(s.limits[keys.limit]).0]);
                  && |s1.streams| == |s.streams| && s1.streams[at] == t && WithStream(s, at, t).limits == s.limits
                  && var p := PrepareOn(s, at, seqNo, useMki, mkiIndex);
                     if Charge(s.limits[keys.limit]).1 == HardLimit then p == Refused(s1, KeyExpired)
                     else match SenderIndex(t, seqNo, keys.rtpCipher.algorithm.Gcm?)
                          case Refuse(status) => p == Refused(s1, status)
                          case Use(index, t') => p == Ready(WithStream(s1, at, t'), at, slot, index)
  {
    hide SenderIndex, Charge, SelectedSlot;
    assert ValidStream(s.streams[at], s.limits);
  }

  predicate SenderIndexAllowed(s: SessionState, at: nat) {
    at < |s.streams| && s.streams[at].pendingRoc < UINT32 && ValidWindow(s.streams[at].db)
  }

  lemma ValidAt(s: SessionState, at: nat)
    requires ValidSession(s) && at < |s.streams|
    ensures ValidStream(s.streams[at], s.limits) && SenderIndexAllowed(s, at)
    ensures ValidRdb(s.streams[at].rtcpDb) && s.streams[at].keys != [] && s.streams[at].ssrc < UINT32
  {
  }

  lemma WithStreamSame(s: SessionState, at: nat)
    requires at < |s.streams|
    ensures WithStream(s, at, s.streams[at]) == s
  {
  }

  /** The sender's decision, spelled out over the stream's fields. */
  lemma SenderIndexIs(t: StreamState, s: nat, gcm: bool)
    requires s < SEQ_MAX && t.pendingRoc < UINT32 && ValidWindow(t.db)
    ensures var pending := if gcm then 0 else t.pendingRoc;
            var status := if pending != 0 then EstimateWithRoc(t.db.index, pending, s).status else Ok;
            var est := if pending != 0 then EstimateWithRoc(t.db.index, pending, s).est else EstimateIndex(t.db, s).est;
            var delta := if pending != 0 then EstimateWithRoc(t.db.index, pending, s).delta
                         else EstimateIndex(t.db, s).delta;
            && (status == Ok || status == IndexAdvance || status == IndexOld)
            && (status == IndexOld ==> SenderIndex(t, s, gcm) == Refuse(IndexOld))
            && ValidWindow(SetRocSeq(t.db, est / SEQ_MAX, est % SEQ_MAX).db)
            && (status == IndexAdvance ==>
                  SenderIndex(t, s, gcm)
                  == Use(est, t.(db := AddIndex(SetRocSeq(t.db, est / SEQ_MAX, est % SEQ_MAX).db, 0), pendingRoc := 0)))
            && (status == Ok && Check(t.db, delta) == ReplayOld ==> SenderIndex(t, s, gcm) == Refuse(ReplayOld))
            && (status == Ok && Check(t.db, delta) == ReplayFail && !t.allowRepeatTx ==>
                  SenderIndex(t, s, gcm) == Refuse(ReplayFail))
            && (status == Ok && Check(t.db, delta) == ReplayFail && t.allowRepeatTx && gcm ==>
                  SenderIndex(t, s, gcm) == Use(est, t))
            && (status == Ok && (Check(t.db, delta) == Ok
                                 || (Check(t.db, delta) == ReplayFail && t.allowRepeatTx && !gcm)) ==>
                  && |t.db.window| - 1 + delta >= 0
                  && SenderIndex(t, s, gcm) == Use(est, t.(db := AddIndex(t.db, delta))))
  {
    hide IndexGuess, AddIndex, LeftShift;
  }

  lemma SetRocSeqWindow(db: Rdbx, roc: nat, s: nat)
    requires ValidWindow(db)
    ensures var r := SetRocSeq(db, roc, s).db;
            ValidWindow(r) && |r.window| == |db.window| && |AddIndex(r, 0).window| == |db.window|
  {
  }

  lemma CheckInWindow(db: Rdbx, delta: int)
    requires ValidWindow(db)
    ensures Check(db, delta) == Ok || Check(db, delta) == ReplayFail || Check(db, delta) == ReplayOld
    ensures Check(db, delta) != ReplayOld ==>
              |db.window| - 1 + delta >= 0 && |AddIndex(db, delta).window| == |db.window|
  {
  }

  lemma TemplateUsable(spine: seq<Stream>, template: Stream?)
    requires AllUsable(spine, template) && template != null
    ensures Usable(template) && |template.db.window| == template.window.content
    ensures TemplateState(template) == Some(template.State())
  {
    hide KeysUsable;
  }

  /** A clone has its template's constant parts and a window of the same size. */
  lemma CloneUsable(t: Stream, template: Stream)
    requires CloneOf(t, template) && Usable(template)
    requires t.State() == Clone(template.State(), t.ssrc)
    ensures Usable(t)
  {
    forall i | 0 <= i < |t.table.content|
      ensures t.table.content[i].keys == template.table.content[i].keys && i < |template.table.content|
    {
      assert KeysOf(t.table.content)[i] == KeysOf(template.table.content)[i];
    }
  }

  lemma ClonePrepended(
    t: Stream, spine: seq<Stream>, template: Stream, session: object,
    others: set<object>, base: set<object>, live: set<object>)
    requires CloneOf(t, template) && AllRelated(spine, template)
    requires SlotsFit(t, template) && Grown(Owned(t, template), base, live)
    requires Holds(AllOwned(spine, template, session), others, base)
    ensures AllRelated([t] + spine, template)
    ensures Holds(AllOwned([t] + spine, template, session), others, live)
  {
    hide Owned, CloneOf, Independent, Freeable, Grown, Owners, Elements;
    OwnersUnfold([t] + spine, template);
    assert ([t] + spine)[1..] == spine;
    FreeableGrown(Owned(t, template), AllOwned(spine, template, session), base, live);
    assert AllOwned([t] + spine, template, session) == Owned(t, template) + AllOwned(spine, template, session);
  }

  lemma CloneKeepsValid(s: SessionState, ssrc: nat)
    requires ValidSession(s) && s.template.Some? && ssrc < UINT32
    ensures ValidSession(s.(streams := [Clone(s.template.value, ssrc)] + s.streams))
  {
    var s' := s.(streams := [Clone(s.template.value, ssrc)] + s.streams);
    forall i | 0 <= i < |s'.streams|
      ensures ValidStream(s'.streams[i], s'.limits)
    {
      assert i > 0 ==> s'.streams[i] == s.streams[i - 1];
    }
  }

  lemma MirrorsPrepend(t: Stream, spine: seq<Stream>, streams: seq<StreamState>, template: Stream?)
    requires Mirrors(spine, streams) && Usable(t) && AllUsable(spine, template)
    ensures Mirrors([t] + spine, [t.State()] + streams) && AllUsable([t] + spine, template)
  {
    hide Usable;
    forall i | 0 <= i < |spine| + 1
      ensures ([t] + spine)[i].State() == ([t.State()] + streams)[i] && (i > 0 ==> ([t] + spine)[i] == spine[i - 1])
    {
    }
  }

  /** Links a stream in front of the list. */
  method PushStream(t: Stream, head: Stream?, ghost spine: seq<Stream>)
    requires Linked(head, spine) && Distinct(spine) && t !in spine
    modifies t`next
    ensures Linked(t, [t] + spine) && Distinct([t] + spine)
  {
    t.next := head;
    ghost var longer := [t] + spine;
    forall i | 0 <= i < |longer|
      ensures longer[i].next == Successor(longer, i)
    {
      if i > 0 {
        assert longer[i] == spine[i - 1] && longer[i].next == old(spine[i - 1].next);
        assert Successor(longer, i) == Successor(spine, i - 1);
      }
    }
  }

  lemma StreamIs(spine: seq<Stream>, streams: seq<StreamState>, at: nat)
    requires Mirrors(spine, streams) && at < |spine|
    ensures |streams| == |spine|
    ensures var t, u := spine[at], streams[at];
            && u == t.State()
            && u.ssrc == t.ssrc && u.keys == KeysOf(t.table.content) && u.db == t.db && u.rtcpDb == t.rtcpDb
            && u.rtp == t.rtp && u.rtcp == t.rtcp && u.direction == t.direction
            && u.allowRepeatTx == t.allowRepeatTx && u.ids == t.Ids() && u.pendingRoc == t.pendingRoc
  {
  }

  method AssignFields(
    t: Stream, direction: Direction, db: Rdbx, rtcpDb: Rdb, pendingRoc: nat,
    ghost spine: seq<Stream>, ghost at: nat, ghost streams: seq<StreamState>, ghost template: Stream?)
    requires at < |spine| && spine[at] == t && Distinct(spine) && template !in spine
    requires Mirrors(spine, streams) && AllUsable(spine, template) && |db.window| == |t.db.window|
    modifies t`direction, t`db, t`rtcpDb, t`pendingRoc
    ensures |streams| == |spine|
    ensures Mirrors(spine, streams[at := streams[at].(
                      direction := direction, db := db, rtcpDb := rtcpDb, pendingRoc := pendingRoc)])
    ensures AllUsable(spine, template)
  {
    hide KeysUsable;
    t.direction, t.db, t.rtcpDb, t.pendingRoc := direction, db, rtcpDb, pendingRoc;
  }

  lemma AssignKeepsValid(
    s: SessionState, at: nat, direction: Direction, db: Rdbx, rtcpDb: Rdb, pendingRoc: nat)
    requires ValidSession(s) && at < |s.streams|
    requires |db.window| == |s.streams[at].db.window| && ValidRdb(rtcpDb) && pendingRoc < UINT32
    ensures var t := s.streams[at].(direction := direction, db := db, rtcpDb := rtcpDb, pendingRoc := pendingRoc);
            ValidSession(WithStream(s, at, t)) && WithStream(s, at, t) == s.(streams := s.streams[at := t])
  {
    assert ValidStream(s.streams[at], s.limits);
  }

  method ChargeLimit(limit: KeyLimit, ghost limits: map<KeyLimit, Limit>) returns (event: KeyEvent)
    requires limit in limits && LimitsMirror(limits)
    modifies limit
    ensures LimitsMirror(limits[limit := Charge(limits[limit]).0])
    ensures event == Charge(limits[limit]).1
  {
    hide Charge;
    event := limit.Update();
  }

  lemma LimitKeepsValid(s: SessionState, key: KeyLimit, limit: Limit)
    requires ValidSession(s)
    ensures ValidSession(s.(limits := s.limits[key := limit]))
  {
    hide ValidWindow, ValidRdb;
  }

  lemma FindIs(streams: seq<StreamState>, ssrc: nat, at: nat)
    requires at <= |streams| && (forall i :: 0 <= i < at ==> streams[i].ssrc != ssrc)
    requires at < |streams| ==> streams[at].ssrc == ssrc
    ensures Find(streams, ssrc) == at
  {
  }
}
