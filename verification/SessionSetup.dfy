/** Adding streams to a live session: specific streams at the head of the list, wildcard
    policies as the template. */
module SessionSetup {
  import opened SrtpStatus
  import opened ReplayWindow
  import opened RtcpReplay
  import opened SessionKey
  import opened SessionModel
  import opened StreamObjects
  import opened LiveSession

  // ----- What a new stream is, as a value

  /** The keys are set up for the policy's slots. */
  ghost predicate KeysFor(keys: seq<SessionKeys>, p: Policy) {
    && |keys| == |p.slots|
    && forall i | 0 <= i < |p.slots| ::
         && RtpKeysOf(keys[i]) == PolicyKeys(p.slots[i], p.ids != [])
         && CipherKeysOf(keys[i].rtcpCipher) == p.slots[i].rtcpCipher
         && keys[i].rtcpAuth.key == p.slots[i].rtcpAuthKey && keys[i].rtcpAuth.tagLen == p.slots[i].rtcpTagLen
         && keys[i].cSalt == p.slots[i].cSalt
  }

  /** A stream that was set up for the policy and has not seen a packet. */
  ghost predicate StateFor(t: StreamState, p: Policy, direction: Direction) {
    && ValidWindowSize(p.windowSize)
    && t.ssrc == p.ssrc && KeysFor(t.keys, p)
    && t.db == Empty(WindowLength(p.windowSize)) && t.rtcpDb == EmptyRdb()
    && t.rtp == p.rtp && t.rtcp == p.rtcp && t.direction == direction
    && t.allowRepeatTx == p.allowRepeatTx && t.ids == p.ids && t.pendingRoc == 0
  }

  ghost function LimitsOf(keys: seq<SessionKeys>): set<KeyLimit> {
    set i | 0 <= i < |keys| :: keys[i].limit
  }

  /** Every key starts with its full number of uses. */
  ghost function NewLimits(keys: seq<SessionKeys>): map<KeyLimit, Limit> {
    map k | k in LimitsOf(keys) :: Limit(INITIAL_LIMIT, Normal)
  }

  ghost function WithLimits(limits: map<KeyLimit, Limit>, keys: seq<SessionKeys>): map<KeyLimit, Limit> {
    limits + NewLimits(keys)
  }

  /** The session with a new stream at the head of the list, or else as the template. */
  ghost function WithNew(s: SessionState, t: StreamState, listed: bool): SessionState {
    (if listed then AddSpecific(s, t) else s.(template := Some(t))).(limits := WithLimits(s.limits, t.keys))
  }

  // ----- Callers' obligations

  /** Tags no longer than the maximum trailer, and a 32-bit SSRC. */
  predicate PolicyUsable(p: Policy) {
    && p.ssrc < UINT32
    && forall i | 0 <= i < |p.slots| :: p.slots[i].tagLen <= MAX_TAG_LEN && p.slots[i].rtcpTagLen <= MAX_TAG_LEN
  }

  predicate Wildcard(p: Policy) {
    p.ssrcType == AnyInbound || p.ssrcType == AnyOutbound
  }

  /** No stream has more master keys than the template. */
  predicate PolicyFits(p: Policy, spine: seq<Stream>, template: Stream?) {
    && (p.ssrcType == Specific && template != null ==> |p.slots| <= |template.table.content|)
    && (Wildcard(p) && template == null ==> forall i | 0 <= i < |spine| :: |spine[i].table.content| <= |p.slots|)
  }

  predicate PolicyAccepted(p: Policy, template: Stream?) {
    && ValidMasterKeys(p) && ValidWindowSize(p.windowSize)
    && (p.ssrcType == Specific || (p.ssrcType != Undefined && template == null))
  }

  function TemplateDirection(p: Policy): Direction {
    if p.ssrcType == AnyOutbound then Sender else Receiver
  }

  // ----- Adding

  /** Sets up a stream for the policy on new objects; `limits` are the ones already known. */
  method SetUp(kernel: Kernel, p: Policy, ghost limits: map<KeyLimit, Limit>) returns (t: Stream)
    requires ValidMasterKeys(p) && ValidWindowSize(p.windowSize) && PolicyUsable(p) && LimitsMirror(limits)
    modifies kernel`live
    ensures fresh(t) && t.next == null && |t.table.content| == |p.slots|
    ensures StateFor(t.State(), p, Unknown) && Joins(t, limits)
    ensures Grown(Owned(t, null), old(kernel.live), kernel.live)
  {
    hide *;
    t := AllocStream(kernel, p);
    StreamFacts(t, p);
    LimitsMirrorAdded(t, limits);
    JoinsFrom(t, limits);
  }

  lemma JoinsFrom(t: Stream, limits: map<KeyLimit, Limit>)
    requires Usable(t) && ValidStream(t.State(), NewLimits(KeysOf(t.table.content)))
    requires LimitsOf(KeysOf(t.table.content)) !! limits.Keys
    requires LimitsMirror(WithLimits(limits, KeysOf(t.table.content)))
    ensures Joins(t, limits)
  {
    hide Usable, ValidStream, LimitsMirror;
  }

  lemma StreamFacts(t: Stream, p: Policy)
    requires NewStreamFor(t, p) && ValidMasterKeys(p) && PolicyUsable(p)
    ensures t.next == null && |t.table.content| == |p.slots|
    ensures StateFor(t.State(), p, Unknown) && Usable(t) && ValidStream(t.State(), NewLimits(KeysOf(t.table.content)))
  {
    hide EntryFor, RtpKeysOf, PolicyKeys;
    forall i | 0 <= i < |p.slots|
      ensures EntryFacts(t.table.content[i].keys, p.slots[i], p.ids != [])
    {
      EntryHasFacts(t.table.content[i], p.slots[i], p.ids != []);
    }
  }

  ghost predicate EntryFacts(keys: SessionKeys, p: SlotPolicy, withXtn: bool) {
    && RtpKeysOf(keys) == PolicyKeys(p, withXtn)
    && CipherKeysOf(keys.rtcpCipher) == p.rtcpCipher
    && keys.rtcpAuth.key == p.rtcpAuthKey && keys.rtcpAuth.tagLen == p.rtcpTagLen && keys.cSalt == p.cSalt
    && keys.mki == p.mki && keys.rtpAuth.tagLen == p.tagLen
    && keys.xtnCipher != keys.rtpCipher
  }

  lemma EntryHasFacts(e: KeyEntry, p: SlotPolicy, withXtn: bool)
    requires EntryFor(e, p, withXtn)
    ensures EntryFacts(e.keys, p, withXtn)
  {
  }

  /** New limit objects are not among the known ones and hold the initial limit. */
  lemma LimitsMirrorAdded(t: Stream, limits: map<KeyLimit, Limit>)
    requires LimitsMirror(limits)
    requires forall i | 0 <= i < |t.table.content| ::
               && t.table.content[i].keys.limit !in limits
               && t.table.content[i].keys.limit.limit == Limit(INITIAL_LIMIT, Normal)
    ensures LimitsOf(KeysOf(t.table.content)) !! limits.Keys
    ensures LimitsMirror(WithLimits(limits, KeysOf(t.table.content)))
  {
    var keys := KeysOf(t.table.content);
    forall k | k in LimitsOf(keys)
      ensures k !in limits && k.limit == Limit(INITIAL_LIMIT, Normal)
    {
      var i :| 0 <= i < |keys| && keys[i].limit == k;
      assert keys[i] == t.table.content[i].keys;
    }
  }

  /** A stream just set up, whose limits are not among the known ones. */
  ghost predicate Joins(t: Stream, limits: map<KeyLimit, Limit>)
    reads t, limits.Keys, LimitsOf(KeysOf(t.table.content))
  {
    && Usable(t) && ValidStream(t.State(), NewLimits(KeysOf(t.table.content)))
    && LimitsOf(KeysOf(t.table.content)) !! limits.Keys
    && LimitsMirror(WithLimits(limits, KeysOf(t.table.content)))
  }

  lemma JoinsFacts(t: Stream, limits: map<KeyLimit, Limit>)
    requires Joins(t, limits)
    ensures Usable(t) && t.State().keys == KeysOf(t.table.content)
    ensures ValidStream(t.State(), NewLimits(t.State().keys))
    ensures NewLimits(t.State().keys).Keys !! limits.Keys && LimitsMirror(WithLimits(limits, t.State().keys))
  {
    hide Usable, ValidStream, LimitsMirror, LimitsOf;
  }

  /** New objects are not shared with a template that was there before. */
  lemma NewIndependent(
    t: Stream, spine: seq<Stream>, template: Stream?, session: object, base: set<object>, live: set<object>)
    requires AllRelated(spine, template) && Freeable(AllOwned(spine, template, session), base)
    requires Grown(Owned(t, null), base, live)
    requires template != null ==> |t.table.content| <= |template.table.content|
    ensures Independent(t, template)
  {
    hide Owned, Owners, Independent, NoDuplicates, Related;
    if template != null {
      assert Elements(Owned(template, null)) <= Elements(AllOwned(spine, template, session));
      DisjointIndependent(t, template);
    } else {
      AloneIndependent(t);
    }
  }

  lemma AloneIndependent(t: Stream)
    ensures Independent(t, null)
  {
  }

  lemma NewPrepended(
    t: Stream, spine: seq<Stream>, template: Stream?, session: object,
    others: set<object>, base: set<object>, live: set<object>)
    requires AllRelated(spine, template) && Holds(AllOwned(spine, template, session), others, base)
    requires Grown(Owned(t, null), base, live) && Independent(t, template)
    ensures AllRelated([t] + spine, template)
    ensures Holds(AllOwned([t] + spine, template, session), others, live)
  {
    hide Owned, CloneOf, Independent, Freeable, Grown, Owners, Elements;
    IndependentOwned(t, template);
    OwnersUnfold([t] + spine, template);
    assert ([t] + spine)[1..] == spine;
    FreeableGrown(Owned(t, template), AllOwned(spine, template, session), base, live);
    assert AllOwned([t] + spine, template, session) == Owned(t, template) + AllOwned(spine, template, session);
  }

  lemma ListedKeepsValid(s: SessionState, t: StreamState)
    requires ValidSession(s) && ValidStream(t, NewLimits(t.keys))
    ensures ValidSession(WithNew(s, t, true))
    ensures WithNew(s, t, true)
            == SessionState([t] + s.streams, s.template, WithLimits(s.limits, t.keys))
  {
    hide ValidWindow, ValidRdb, NewLimits;
    var s' := WithNew(s, t, true);
    forall i | 0 <= i < |s'.streams|
      ensures ValidStream(s'.streams[i], s'.limits)
    {
      assert i > 0 ==> s'.streams[i] == s.streams[i - 1];
    }
  }

  /** Lists a new stream at the head; its objects came on top of `base`. */
  method ListNew(s: Session, t: Stream, ghost others: set<object>, ghost base: set<object>)
    requires s.Valid() && t !in s.spine && t != s.template && Joins(t, s.model.limits)
    requires s.template != null ==> |t.table.content| <= |s.template.table.content|
    requires AllRelated(s.spine, s.template) && Holds(AllOwned(s.spine, s.template, s), others, base)
    requires Grown(Owned(t, null), base, s.kernel.live)
    modifies s`model, s`spine, s`streamList, s`others, t`next
    ensures s.Valid() && s.spine == [t] + old(s.spine) && s.others == others
    ensures s.model == WithNew(old(s.model), t.State(), true)
  {
    hide *;
    s.ValidParts();
    HoldsIs(AllOwned(s.spine, s.template, s), others, base);
    NewIndependent(t, s.spine, s.template, s, base, s.kernel.live);
    NewPrepended(t, s.spine, s.template, s, others, base, s.kernel.live);
    JoinsFacts(t, s.model.limits);
    MirrorsPrepend(t, s.spine, s.model.streams, s.template);
    ghost var u, limits := t.State(), WithLimits(s.model.limits, t.State().keys);
    ListedKeepsValid(s.model, u);
    assert LimitsMirror(limits);
    PushStream(t, s.streamList, s.spine);
    s.streamList := t;
    s.spine, s.others := [t] + s.spine, others;
    s.model := WithNew(s.model, u, true);
    s.ValidFrom();
  }

  ghost predicate AllIndependent(spine: seq<Stream>, template: Stream?) {
    forall i | 0 <= i < |spine| :: Independent(spine[i], template)
  }

  /** Streams that share nothing own the same against any two such templates. */
  lemma {:induction false} OwnersIndependent(spine: seq<Stream>, a: Stream?, b: Stream?)
    requires AllIndependent(spine, a) && AllRelated(spine, a) && AllIndependent(spine, b)
    ensures AllRelated(spine, b) && Owners(spine, a) == Owners(spine, b)
  {
    hide Independent, Owned, CloneOf, Owners;
    OwnersUnfold(spine, a);
    OwnersUnfold(spine, b);
    if spine != [] {
      OwnersIndependent(spine[1..], a, b);
      IndependentOwned(spine[0], a);
      IndependentOwned(spine[0], b);
    }
  }

  /** Streams listed before share nothing with a new template. */
  lemma NewTemplateIndependent(t: Stream, spine: seq<Stream>, template: Stream?)
    requires AllIndependent(spine, template) && AllRelated(spine, template)
    requires Elements(Owners(spine, template)) !! Elements(Owned(t, null))
    requires forall i | 0 <= i < |spine| :: |spine[i].table.content| <= |t.table.content|
    ensures AllIndependent(spine, t)
  {
    hide Owned, Owners, Independent, NoDuplicates, Related;
    forall i | 0 <= i < |spine|
      ensures Independent(spine[i], t)
    {
      OwnersContain(spine, template, i);
      IndependentOwned(spine[i], template);
      DisjointIndependent(spine[i], t);
    }
  }

  lemma WithoutTemplate(spine: seq<Stream>)
    ensures AllIndependent(spine, null) && AllRelated(spine, null)
  {
  }

  lemma TemplateAdded(
    t: Stream, spine: seq<Stream>, session: object, others: set<object>, base: set<object>, live: set<object>)
    requires AllRelated(spine, null) && Holds(AllOwned(spine, null, session), others, base)
    requires Grown(Owned(t, null), base, live)
    requires forall i | 0 <= i < |spine| :: |spine[i].table.content| <= |t.table.content|
    ensures AllRelated(spine, t) && Holds(AllOwned(spine, t, session), others, live)
  {
    hide Owned, Independent, Freeable, NoDuplicates, Owners, Related, Elements;
    WithoutTemplate(spine);
    FreeableOwners(spine, null, session, base);
    NewTemplateIndependent(t, spine, null);
    OwnersIndependent(spine, null, t);
    FreeableGrown(Owned(t, null), AllOwned(spine, null, session), base, live);
    assert AllOwned(spine, null, session) == Owners(spine, null) + One(session);
    TemplateOwnedIs(t);
    FreeableMoved(Owned(t, null), Owners(spine, null), One(session), live);
  }

  lemma FreeableOwners(spine: seq<Stream>, template: Stream?, session: object, live: set<object>)
    requires AllRelated(spine, template) && Freeable(AllOwned(spine, template, session), live)
    ensures Elements(Owners(spine, template)) <= live && Elements(TemplateOwned(template)) <= live
  {
    hide NoDuplicates, Owners, TemplateOwned;
  }

  lemma FreeableMoved(a: seq<object>, b: seq<object>, c: seq<object>, live: set<object>)
    requires Freeable(a + (b + c), live)
    ensures Freeable(b + a + c, live) && Elements(b + a + c) == Elements(a + (b + c))
  {
    hide NoDuplicates, Elements;
    NoDuplicatesSplit(a, b + c);
    NoDuplicatesSplit(b, c);
    NoDuplicatesSplit(b + a, c);
    NoDuplicatesSplit(b, a);
    ElementsOfConcat(a, b + c);
    ElementsOfConcat(b, c);
    ElementsOfConcat(b, a);
    ElementsOfConcat(b + a, c);
  }

  lemma InstalledKeepsValid(s: SessionState, t: StreamState, direction: Direction)
    requires ValidSession(s) && ValidStream(t, NewLimits(t.keys))
    ensures var u := t.(direction := direction);
            && ValidSession(WithNew(s, u, false))
            && WithNew(s, u, false) == SessionState(s.streams, Some(u), WithLimits(s.limits, t.keys))
  {
    hide ValidWindow, ValidRdb, NewLimits;
  }

  method DirectTemplate(t: Stream, direction: Direction, ghost spine: seq<Stream>, ghost streams: seq<StreamState>)
    requires t !in spine && Mirrors(spine, streams) && AllUsable(spine, null) && Usable(t)
    modifies t`direction
    ensures Mirrors(spine, streams) && AllUsable(spine, t)
    ensures TemplateState(t) == Some(old(t.State()).(direction := direction))
  {
    t.direction := direction;
  }

  /** Installs a new stream as the template, where there is none. */
  method InstallTemplate(
    s: Session, t: Stream, direction: Direction, ghost others: set<object>, ghost base: set<object>)
    requires s.Valid() && t !in s.spine && s.template == null && Joins(t, s.model.limits)
    requires forall i | 0 <= i < |s.spine| :: |s.spine[i].table.content| <= |t.table.content|
    requires AllRelated(s.spine, null) && Holds(AllOwned(s.spine, null, s), others, base)
    requires Grown(Owned(t, null), base, s.kernel.live)
    modifies s`model, s`template, s`others, t`direction
    ensures s.Valid() && s.template == t && s.others == others
    ensures s.model == WithNew(old(s.model), old(t.State()).(direction := direction), false)
  {
    hide *;
    s.ValidParts();
    TemplateAdded(t, s.spine, s, others, base, s.kernel.live);
    JoinsFacts(t, s.model.limits);
    ghost var u, limits := t.State().(direction := direction), WithLimits(s.model.limits, t.State().keys);
    InstalledKeepsValid(s.model, t.State(), direction);
    assert LimitsMirror(limits);
    DirectTemplate(t, direction, s.spine, s.model.streams);
    s.template, s.others := t, others;
    s.model := WithNew(s.model, u, false);
    s.ValidFrom();
  }

  /** What stays allocated when a policy is refused after its stream has been set up: all of it, or all
      but the stream itself if the kind of SSRC is undefined. */
  ghost function LeftBehind(p: Policy, left: Stream?): set<object> {
    if left == null then {} else Elements(Owned(left, null)) - if p.ssrcType == Undefined then {left} else {}
  }

  lemma OthersGrown(
    p: Policy, t: Stream, owned: seq<object>, others: set<object>, base: set<object>, live: set<object>)
    requires Holds(owned, others, base) && Grown(Owned(t, null), base, live)
    ensures p.ssrcType != Undefined ==> live - Elements(owned) == others + LeftBehind(p, t)
    ensures p.ssrcType == Undefined ==> live - {t} - Elements(owned) == others + LeftBehind(p, t)
    ensures LeftBehind(p, t) !! base
  {
    hide NoDuplicates, Owned;
    OwnedContains(t);
  }

  lemma NothingLeft(p: Policy, others: set<object>)
    ensures others + LeftBehind(p, null) == others
  {
  }

  /** A specific stream goes to the head of the list, whether or not its SSRC is there already;
      a wildcard policy becomes the template, if there is none. `left` is a stream that was set up for a
      policy that is then refused. */
  method AddStream(s: Session, p: Policy) returns (status: Status, ghost left: Stream?)
    requires s.Valid() && PolicyUsable(p) && PolicyFits(p, s.spine, s.template)
    modifies s, s.kernel`live
    ensures s.Valid() && s.others == old(s.others) + LeftBehind(p, left)
    ensures left != null <==> status != Ok && ValidMasterKeys(p) && ValidWindowSize(p.windowSize)
    ensures left != null ==> fresh(left) && LeftBehind(p, left) !! old(s.kernel.live)
    ensures status == if PolicyAccepted(p, old(s.template)) then Ok else BadParam
    ensures status == Ok <==>
              && 0 < |p.slots| <= 16 && (forall i | 0 <= i < |p.slots| :: |p.slots[i].mki| <= 128)
              && (p.windowSize == 0 || 64 <= p.windowSize < 0x8000)
              && (p.ssrcType == Specific || (p.ssrcType != Undefined && old(s.template) == null))
    ensures status != Ok ==> s.model == old(s.model) && s.spine == old(s.spine) && s.template == old(s.template)
    ensures status == Ok && p.ssrcType == Specific ==>
              && s.template == old(s.template)
              && s.spine != [] && fresh(s.spine[0]) && s.spine == [s.spine[0]] + old(s.spine)
              && s.model.streams != [] && StateFor(s.model.streams[0], p, Unknown)
              && s.model == WithNew(old(s.model), s.model.streams[0], true)
              && LimitsOf(s.model.streams[0].keys) !! old(s.model).limits.Keys
    ensures status == Ok && p.ssrcType != Specific ==>
              && s.spine == old(s.spine) && s.template != null && fresh(s.template)
              && s.model.template.Some?
              && StateFor(s.model.template.value, p, if p.ssrcType == AnyOutbound then Sender else Receiver)
              && s.model == WithNew(old(s.model), s.model.template.value, false)
              && LimitsOf(s.model.template.value.keys) !! old(s.model).limits.Keys
  {
    hide *;
    s.ValidParts();
    left := null;
    NothingLeft(p, s.others);
    AcceptedIs(p, s.spine, s.template);
    WellFormedIs(p);
    if !ValidMasterKeys(p) || !ValidWindowSize(p.windowSize) {
      return BadParam, null;
    }
    ghost var base, others, owned := s.kernel.live, s.others, AllOwned(s.spine, s.template, s);
    HoldsIs(owned, others, base);
    var t := SetUp(s.kernel, p, s.model.limits);
    GrownKeeps(t, s.spine, s.template, s, base, s.kernel.live);
    OthersGrown(p, t, owned, others, base, s.kernel.live);
    StateForFacts(t, p, s.model, TemplateDirection(p));
    if p.ssrcType == Undefined {
      s.kernel.Free(t);
      s.others := s.kernel.live - Elements(owned);
      HoldsIs(owned, s.others, s.kernel.live);
      s.ValidFrom();
      return BadParam, t;
    }
    SetOthers(s, t, s.kernel.live - Elements(owned));
    HoldsIs(owned, s.others, s.kernel.live);
    s.ValidFrom();
    if p.ssrcType == Specific {
      ListNew(s, t, others, base);
    } else if s.template != null {
      return BadParam, t;
    } else {
      InstallTemplate(s, t, TemplateDirection(p), others, base);
    }
    status := Ok;
  }

  lemma WellFormedIs(p: Policy)
    ensures ValidMasterKeys(p) <==> 0 < |p.slots| <= 16 && forall i | 0 <= i < |p.slots| :: |p.slots[i].mki| <= 128
    ensures ValidWindowSize(p.windowSize) <==> p.windowSize == 0 || 64 <= p.windowSize < 0x8000
    ensures TemplateDirection(p) == if p.ssrcType == AnyOutbound then Sender else Receiver
  {
  }

  ghost method SetOthers(s: Session, t: Stream, others: set<object>)
    requires Joins(t, s.model.limits)
    modifies s`others
    ensures s.others == others && Joins(t, s.model.limits)
  {
    hide Usable, ValidStream, LimitsOf, NewLimits, WithLimits, KeysOf;
    s.others := others;
  }

  lemma AcceptedIs(p: Policy, spine: seq<Stream>, template: Stream?)
    requires PolicyFits(p, spine, template)
    ensures PolicyAccepted(p, template)
            <==> ValidMasterKeys(p) && ValidWindowSize(p.windowSize)
                 && (p.ssrcType == Specific || (p.ssrcType != Undefined && template == null))
    ensures p.ssrcType == Specific && template != null ==> |p.slots| <= |template.table.content|
    ensures p.ssrcType != Specific && p.ssrcType != Undefined && template == null ==>
              forall i | 0 <= i < |spine| :: |spine[i].table.content| <= |p.slots|
  {
  }

  /** New objects do not disturb what was there, even if one of them is freed again. */
  lemma GrownKeeps(
    t: Stream, spine: seq<Stream>, template: Stream?, session: object, base: set<object>, live: set<object>)
    requires AllRelated(spine, template) && Freeable(AllOwned(spine, template, session), base)
    requires Grown(Owned(t, null), base, live)
    ensures t in live && base <= live
    ensures Freeable(AllOwned(spine, template, session), live)
    ensures Freeable(AllOwned(spine, template, session), live - {t}) && base <= live - {t}
  {
    hide NoDuplicates, Owners, Owned, AllOwned;
    OwnedContains(t);
  }

  lemma StateForFacts(t: Stream, p: Policy, s: SessionState, direction: Direction)
    requires StateFor(t.State(), p, Unknown) && Joins(t, s.limits)
    ensures var u := t.State();
            && StateFor(u.(direction := direction), p, direction)
            && LimitsOf(u.keys) !! s.limits.Keys
            && WithNew(s, u, true).streams == [u] + s.streams
            && WithNew(s, u.(direction := direction), false).template == Some(u.(direction := direction))
  {
    hide KeysFor, LimitsOf, NewLimits;
  }

  // ----- Creating a session from a list of policies

  /** A new stream for each specific policy among the first `n`, last one first. */
  ghost predicate StreamsFor(streams: seq<StreamState>, policies: seq<Policy>, n: nat)
    requires n <= |policies|
  {
    if n == 0 then streams == []
    else if policies[n - 1].ssrcType != Specific then StreamsFor(streams, policies, n - 1)
    else streams != [] && StateFor(streams[0], policies[n - 1], Unknown) && StreamsFor(streams[1..], policies, n - 1)
  }

  /** A new template for the wildcard policy among the first `n`, if there is one. */
  ghost predicate TemplateFor(template: Option<StreamState>, policies: seq<Policy>, n: nat)
    requires n <= |policies|
  {
    && (template.Some? <==> SomeWildcard(policies, n))
    && (template.Some? ==>
          exists i | 0 <= i < n ::
            && Wildcard(policies[i])
            && StateFor(template.value, policies[i], if policies[i].ssrcType == AnyOutbound then Sender else Receiver))
  }

  /** Every key still has its full number of uses. */
  ghost predicate AllUnused(limits: map<KeyLimit, Limit>) {
    forall k | k in limits :: limits[k] == Limit(INITIAL_LIMIT, Normal)
  }

  /** One of the first `n` policies sets the template. */
  predicate SomeWildcard(policies: seq<Policy>, n: nat)
    requires n <= |policies|
  {
    exists i | 0 <= i < n :: Wildcard(policies[i])
  }

  /** Well-formed policies with at most one wildcard. */
  predicate AllAccepted(policies: seq<Policy>, n: nat)
    requires n <= |policies|
  {
    && (forall i | 0 <= i < n :: ValidMasterKeys(policies[i]) && ValidWindowSize(policies[i].windowSize)
                                 && policies[i].ssrcType != Undefined)
    && (forall i, j | 0 <= i < j < n :: !(Wildcard(policies[i]) && Wildcard(policies[j])))
  }

  /** No policy has more master keys than a wildcard one. */
  predicate AllFit(policies: seq<Policy>) {
    forall i, j | 0 <= i < |policies| && 0 <= j < |policies| && Wildcard(policies[i]) ::
      |policies[j].slots| <= |policies[i].slots|
  }

  /** What is known of the session after `n` policies. */
  ghost predicate SetUpSoFar(policies: seq<Policy>, n: nat, spine: seq<Stream>, template: Stream?, s: SessionState)
    requires n <= |policies|
  {
    && AllAccepted(policies, n)
    && (template != null <==> s.template.Some?)
    && (template != null ==> forall j | 0 <= j < |policies| :: |policies[j].slots| <= |template.table.content|)
    && (forall i, j | 0 <= i < |spine| && 0 <= j < |policies| && Wildcard(policies[j]) ::
          |spine[i].table.content| <= |policies[j].slots|)
    && StreamsFor(s.streams, policies, n) && TemplateFor(s.template, policies, n) && AllUnused(s.limits)
  }

  lemma NextFits(policies: seq<Policy>, n: nat, spine: seq<Stream>, template: Stream?, s: SessionState)
    requires n < |policies| && SetUpSoFar(policies, n, spine, template, s) && AllFit(policies)
    ensures PolicyFits(policies[n], spine, template)
    ensures AllAccepted(policies, n + 1) <==> PolicyAccepted(policies[n], template)
  {
    hide ValidMasterKeys, ValidWindowSize, StreamsFor, StateFor, AllUnused;
  }

  lemma WithLimitsUnused(limits: map<KeyLimit, Limit>, keys: seq<SessionKeys>)
    requires AllUnused(limits)
    ensures AllUnused(WithLimits(limits, keys))
  {
  }

  lemma SpecificAdded(
    policies: seq<Policy>, n: nat, spine: seq<Stream>, template: Stream?, s: SessionState, t: Stream, u: StreamState)
    requires n < |policies| && SetUpSoFar(policies, n, spine, template, s) && AllFit(policies)
    requires policies[n].ssrcType == Specific && AllAccepted(policies, n + 1)
    requires StateFor(u, policies[n], Unknown) && u.keys == KeysOf(t.table.content)
    ensures SetUpSoFar(policies, n + 1, [t] + spine, template, WithNew(s, u, true))
  {
    hide AllAccepted, ValidWindowSize, WithLimits, AllUnused, NewLimits;
    WithLimitsUnused(s.limits, u.keys);
    assert |t.table.content| == |policies[n].slots|;
    assert ([u] + s.streams)[1..] == s.streams;
  }

  lemma TemplateInstalled(
    policies: seq<Policy>, n: nat, spine: seq<Stream>, s: SessionState, t: Stream, u: StreamState)
    requires n < |policies| && SetUpSoFar(policies, n, spine, null, s) && AllFit(policies)
    requires Wildcard(policies[n]) && AllAccepted(policies, n + 1)
    requires StateFor(u, policies[n], TemplateDirection(policies[n])) && u.keys == KeysOf(t.table.content)
    ensures SetUpSoFar(policies, n + 1, spine, t, WithNew(s, u, false))
  {
    hide AllAccepted, WithLimits, AllUnused, NewLimits;
    WithLimitsUnused(s.limits, u.keys);
    assert |t.table.content| == |policies[n].slots|;
  }

  /** One more policy of the list. */
  method AddNext(s: Session, ghost policies: seq<Policy>, ghost n: nat, p: Policy)
    returns (status: Status, ghost left: Stream?)
    requires s.Valid() && n < |policies| && p == policies[n] && PolicyUsable(p) && AllFit(policies)
    requires SetUpSoFar(policies, n, s.spine, s.template, s.model)
    modifies s, s.kernel`live
    ensures s.Valid() && s.others == old(s.others) + LeftBehind(p, left) && (status == Ok ==> left == null)
    ensures status == Ok || status == BadParam
    ensures status == Ok <==> AllAccepted(policies, n + 1)
    ensures status == Ok ==> SetUpSoFar(policies, n + 1, s.spine, s.template, s.model)
  {
    hide *;
    ghost var spine, template, was := s.spine, s.template, s.model;
    NextFits(policies, n, spine, template, was);
    NextKind(p, template);
    status, left := AddStream(s, p);
    if status == Ok {
      s.ValidParts();
      if p.ssrcType == Specific {
        StreamIs(s.spine, s.model.streams, 0);
        SpecificAdded(policies, n, spine, template, was, s.spine[0], s.model.streams[0]);
      } else {
        TemplateMirrored(s.template, s.model.template);
        WellFormedIs(p);
        TemplateInstalled(policies, n, spine, was, s.template, s.model.template.value);
      }
    }
  }

  lemma NextKind(p: Policy, template: Stream?)
    ensures PolicyAccepted(p, template) && p.ssrcType != Specific ==> Wildcard(p) && template == null
  {
    hide ValidMasterKeys, ValidWindowSize;
  }

  /** A session with a new stream for each specific policy and a new template for the wildcard one, all
      keys with their full number of uses. If a policy is refused, the session set up so far is freed; what
      stays allocated is what was left behind for the refused policy. */
  method Create(kernel: Kernel, policies: seq<Policy>)
    returns (status: Status, s: Session?, ghost refused: nat, ghost left: Stream?)
    requires (forall i | 0 <= i < |policies| :: PolicyUsable(policies[i])) && AllFit(policies)
    modifies kernel`live
    ensures status == if AllAccepted(policies, |policies|) then Ok else BadParam
    ensures status != Ok ==>
              && s == null && refused < |policies|
              && kernel.live == old(kernel.live) + LeftBehind(policies[refused], left)
    ensures status == Ok ==>
              && s != null && fresh(s) && s.kernel == kernel && s.Valid() && s.others == old(kernel.live)
              && StreamsFor(s.model.streams, policies, |policies|)
              && TemplateFor(s.model.template, policies, |policies|) && AllUnused(s.model.limits)
  {
    hide *;
    refused, left := 0, null;
    var session := new Session(kernel);
    NothingSetUp(policies, session);
    var i := 0;
    while i < |policies|
      invariant i <= |policies| && session.Valid() && session.kernel == kernel
      invariant session.others == old(kernel.live)
      invariant SetUpSoFar(policies, i, session.spine, session.template, session.model)
    {
      status, left := AddNext(session, policies, i, policies[i]);
      if status != Ok {
        Refused(policies, i);
        session.Dealloc();
        return BadParam, null, i, left;
      }
      NothingLeft(policies[i], session.others);
      NothingLeft(policies[i], old(kernel.live));
      i := i + 1;
    }
    AllSetUp(policies, session.spine, session.template, session.model);
    return Ok, session, refused, null;
  }

  lemma NothingSetUp(policies: seq<Policy>, s: Session)
    requires s.spine == [] && s.template == null && s.model == SessionState([], None, map[])
    ensures SetUpSoFar(policies, 0, s.spine, s.template, s.model)
  {
  }

  lemma Refused(policies: seq<Policy>, n: nat)
    requires n < |policies| && !AllAccepted(policies, n + 1)
    ensures !AllAccepted(policies, |policies|)
  {
  }

  lemma AllSetUp(policies: seq<Policy>, spine: seq<Stream>, template: Stream?, s: SessionState)
    requires SetUpSoFar(policies, |policies|, spine, template, s)
    ensures AllAccepted(policies, |policies|)
    ensures StreamsFor(s.streams, policies, |policies|) && TemplateFor(s.template, policies, |policies|)
    ensures AllUnused(s.limits)
  {
    hide AllAccepted, StreamsFor, TemplateFor, AllUnused;
  }
}
