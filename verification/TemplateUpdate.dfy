/** Re-keying a live session: every stream on the template's keys moves to a new template. */
module TemplateUpdate {
  import opened SrtpStatus
  import opened Crypto
  import opened ReplayWindow
  import opened RtcpReplay
  import opened SessionKey
  import opened SessionModel
  import opened StreamObjects
  import opened LiveSession
  import opened SessionSetup
  import opened Migration

  // ----- Finding the streams of the template

  /** The authentication object that tells the template's streams from others. */
  function FirstAuth(t: Stream): Auth
    requires t.table.content != []
  {
    t.table.content[0].keys.rtpAuth
  }

  /** Walks the list for the first stream on the template's keys. */
  method FindShared(s: Session) returns (t: Stream?, ghost at: nat)
    requires s.Valid() && s.template != null
    ensures s.template.table.content != []
    ensures at == FirstSharing(s.model.streams, FirstAuth(s.template)) && |s.spine| == |s.model.streams|
    ensures if at < |s.spine| then t == s.spine[at] else t == null
  {
    hide *;
    s.ValidParts();
    TemplateHasKeys(s.template, s.model);
    var auth := FirstAuth(s.template);
    t := s.streamList;
    at := 0;
    HeadIs(s.streamList, s.spine);
    while t != null
      invariant at <= |s.spine| && t == if at < |s.spine| then s.spine[at] else null
      invariant forall i :: 0 <= i < at ==> !Shares(s.model.streams[i], auth)
      decreases |s.spine| - at
    {
      SharesIs(s.spine, s.model, at, auth);
      if t.table.content[0].keys.rtpAuth == auth {
        FirstSharingIs(s.model.streams, auth, at);
        return;
      }
      NextIs(s.streamList, s.spine, at);
      t := t.next;
      at := at + 1;
    }
    FirstSharingIs(s.model.streams, auth, at);
  }

  lemma TemplateHasKeys(template: Stream, s: SessionState)
    requires s.template == TemplateState(template) && ValidSession(s)
    ensures template.table.content != []
  {
  }

  lemma SharesIs(spine: seq<Stream>, s: SessionState, at: nat, auth: Auth)
    requires Mirrors(spine, s.streams) && ValidSession(s) && at < |spine|
    ensures spine[at].table.content != []
    ensures Shares(s.streams[at], auth) <==> spine[at].table.content[0].keys.rtpAuth == auth
  {
    assert ValidStream(s.streams[at], s.limits);
    assert spine[at].State() == s.streams[at];
  }

  lemma FirstSharingIs(streams: seq<StreamState>, auth: Auth, at: nat)
    requires at <= |streams| && (forall i :: 0 <= i < at ==> !Shares(streams[i], auth))
    requires at < |streams| ==> Shares(streams[at], auth)
    ensures FirstSharing(streams, auth) == at
  {
    hide Shares;
  }

  // ----- The streams waiting on the new template

  /** The new list, its states and what may be relied on; all on keys of the new template. */
  ghost predicate Waiting(head: Stream?, moved: seq<Stream>, template: Stream, states: seq<StreamState>)
    reads moved, template
  {
    && Linked(head, moved) && Distinct(moved) && template !in moved
    && Mirrors(moved, states) && AllUsable(moved, template) && AllRelated(moved, template)
    && forall i | 0 <= i < |states| :: ValidStream(states[i], NewLimits(template.State().keys))
  }

  lemma WaitingParts(head: Stream?, moved: seq<Stream>, template: Stream, states: seq<StreamState>)
    requires Waiting(head, moved, template, states)
    ensures Linked(head, moved) && Distinct(moved) && template !in moved
    ensures Mirrors(moved, states) && AllUsable(moved, template) && AllRelated(moved, template)
    ensures forall i | 0 <= i < |states| :: ValidStream(states[i], NewLimits(template.State().keys))
  {
    hide Linked, Distinct, Mirrors, AllUsable, AllRelated, ValidStream, NewLimits;
  }

  lemma WaitingFrom(head: Stream?, moved: seq<Stream>, template: Stream, states: seq<StreamState>)
    requires Linked(head, moved) && Distinct(moved) && template !in moved
    requires Mirrors(moved, states) && AllUsable(moved, template) && AllRelated(moved, template)
    requires forall i | 0 <= i < |states| :: ValidStream(states[i], NewLimits(template.State().keys))
    ensures Waiting(head, moved, template, states)
  {
    hide Linked, Distinct, Mirrors, AllUsable, AllRelated, ValidStream, NewLimits;
  }

  /** What the new list and its template own. */
  ghost function NewOwned(moved: seq<Stream>, template: Stream): seq<object>
    requires AllRelated(moved, template)
  {
    Owners(moved, template) + Owned(template, null)
  }

  lemma UsableWindow(t: Stream)
    requires Usable(t)
    ensures |t.db.window| == t.window.content
  {
    hide KeysUsable;
  }

  lemma MovedOwns(
    t: Stream, moved: seq<Stream>, template: Stream, owned: seq<object>,
    others: set<object>, base: set<object>, live: set<object>)
    requires CloneOf(t, template) && AllRelated(moved, template)
    requires SlotsFit(t, template) && Grown(Owned(t, template), base, live)
    requires Holds(owned + NewOwned(moved, template), others, base)
    ensures AllRelated([t] + moved, template)
    ensures Holds(owned + NewOwned([t] + moved, template), others, live)
  {
    hide Owned, CloneOf, Independent, Freeable, Grown, Owners, Elements;
    OwnersUnfold([t] + moved, template);
    assert ([t] + moved)[1..] == moved;
    FreeableGrown(Owned(t, template), owned + NewOwned(moved, template), base, live);
    FreeableMoved(Owned(t, template), owned, NewOwned(moved, template), live);
    assert owned + NewOwned([t] + moved, template) == owned + Owned(t, template) + NewOwned(moved, template);
  }

  lemma MigratedKeepsValid(t: StreamState, template: StreamState, limits: map<KeyLimit, Limit>)
    requires ValidStream(template, limits) && t.ssrc < UINT32 && ValidRdb(t.rtcpDb)
    ensures ValidStream(Migrated(t, template), limits)
  {
  }

  /** Restores the index and the RTCP replay database. */
  method SetIndex(
    t: Stream, index: nat, rtcpDb: Rdb, ghost template: StreamState, ghost was: StreamState,
    ghost moved: seq<Stream>, ghost states: seq<StreamState>, ghost newTemplate: Stream)
    requires t.State() == Clone(template, was.ssrc) && Usable(t)
    requires index == was.db.index && rtcpDb == was.rtcpDb
    requires t !in moved && t != newTemplate && Mirrors(moved, states) && AllUsable(moved, newTemplate)
    modifies t`db, t`rtcpDb
    ensures t.State() == Migrated(was, template) && Usable(t)
    ensures Mirrors(moved, states) && AllUsable(moved, newTemplate)
  {
    hide KeysUsable;
    t.db := t.db.(index := index);
    t.rtcpDb := rtcpDb;
  }

  /** A stream on the new template's keys goes to the head of the new list, with the index and the
      RTCP replay database it had. */
  method MoveStream(
    kernel: Kernel, template: Stream, head: Stream?, ssrc: nat, index: nat, rtcpDb: Rdb,
    ghost was: StreamState, ghost moved: seq<Stream>, ghost states: seq<StreamState>,
    ghost owned: seq<object>, ghost others: set<object>)
    returns (t: Stream)
    requires Waiting(head, moved, template, states) && Usable(template)
    requires ValidStream(template.State(), NewLimits(template.State().keys))
    requires ssrc == was.ssrc < UINT32 && index == was.db.index && rtcpDb == was.rtcpDb && ValidRdb(rtcpDb)
    requires AllRelated(moved, template) && Holds(owned + NewOwned(moved, template), others, kernel.live)
    modifies kernel`live
    ensures fresh(t)
    ensures Waiting(t, [t] + moved, template, [Migrated(was, template.State())] + states)
    ensures AllRelated([t] + moved, template)
    ensures Holds(owned + NewOwned([t] + moved, template), others, kernel.live)
  {
    hide *;
    WaitingParts(head, moved, template, states);
    UsableWindow(template);
    ghost var base, u := kernel.live, template.State();
    MigratedKeepsValid(was, u, NewLimits(u.keys));
    t := CloneStream(kernel, template, ssrc);
    MovedOwns(t, moved, template, owned, others, base, kernel.live);
    CloneUsable(t, template);
    PushStream(t, head, moved);
    SetIndex(t, index, rtcpDb, u, was, moved, states, template);
    MirrorsPrepend(t, moved, states, template);
    WaitingFrom(t, [t] + moved, template, [Migrated(was, u)] + states);
  }

  // ----- Moving all of them

  ghost predicate Apart(a: seq<Stream>, b: seq<Stream>) {
    forall t | t in a :: t !in b
  }

  /** Removes a stream by its SSRC and moves the stream to the new template. */
  method MoveOne(
    s: Session, template: Stream, head: Stream?, t: Stream, ghost at: nat,
    ghost moved: seq<Stream>, ghost states: seq<StreamState>, ghost others: set<object>)
    returns (newHead: Stream)
    requires s.Valid() && s.template != template && template !in s.spine && Apart(moved, s.spine)
    requires at < |s.spine| == |s.model.streams| && t == s.spine[at]
    requires Waiting(head, moved, template, states) && Usable(template)
    requires ValidStream(template.State(), NewLimits(template.State().keys))
    requires AllRelated(s.spine, s.template) && AllRelated(moved, template)
    requires Holds(AllOwned(s.spine, s.template, s) + NewOwned(moved, template), others, s.kernel.live)
    modifies s`model, s`spine, s`streamList, s`others, s.kernel`live, s.spine`next
    ensures s.Valid() && fresh(newHead) && Find(old(s.model).streams, t.ssrc) < |old(s.spine)|
    ensures s.model == old(s.model).(streams := Without(old(s.model).streams, Find(old(s.model).streams, t.ssrc)))
    ensures s.spine == Without(old(s.spine), Find(old(s.model).streams, t.ssrc))
    ensures Waiting(newHead, [newHead] + moved, template,
                    [Migrated(old(s.model).streams[at], template.State())] + states)
    ensures AllRelated(s.spine, s.template) && AllRelated([newHead] + moved, template)
    ensures Holds(AllOwned(s.spine, s.template, s) + NewOwned([newHead] + moved, template), others, s.kernel.live)
  {
    hide *;
    s.ValidParts();
    StreamIs(s.spine, s.model.streams, at);
    ValidAt(s.model, at);
    FoundSome(s.model.streams, at);
    RemoveIs(s.model, t.ssrc);
    ghost var spine, streams, live := s.spine, s.model.streams, s.kernel.live;
    var ssrc, index, rtcpDb := t.ssrc, t.db.index, t.rtcpDb;
    RemovedWith(spine, s.template, s, Find(streams, ssrc), NewOwned(moved, template), others, live);
    RemoveApart(s, ssrc, template, head, moved, states);
    s.ValidParts();
    ghost var owned := AllOwned(s.spine, s.template, s);
    newHead := MoveStream(s.kernel, template, head, ssrc, index, rtcpDb, streams[at], moved, states,
                          owned, others);
    s.others := s.kernel.live - Elements(owned);
    HoldsFirst(owned, NewOwned([newHead] + moved, template), others, s.kernel.live);
    s.ValidFrom();
  }

  /** Removing a stream leaves the waiting streams alone. */
  method RemoveApart(
    s: Session, ssrc: nat, template: Stream, head: Stream?, ghost moved: seq<Stream>,
    ghost states: seq<StreamState>)
    requires s.Valid() && template !in s.spine && Apart(moved, s.spine)
    requires Find(s.model.streams, ssrc) < |s.spine| == |s.model.streams| && AllRelated(s.spine, s.template)
    requires Waiting(head, moved, template, states) && Usable(template)
    modifies s`model, s`spine, s`streamList, s.kernel`live, s.spine`next
    ensures s.Valid()
    ensures var at := Find(old(s.model).streams, ssrc);
            && at < |old(s.spine)| == |old(s.model).streams|
            && s.model == old(s.model).(streams := Without(old(s.model).streams, at))
            && s.spine == Without(old(s.spine), at)
            && SlotsFit(old(s.spine)[at], s.template)
            && s.kernel.live == old(s.kernel.live) - Elements(Owned(old(s.spine)[at], s.template))
    ensures Waiting(head, moved, template, states) && Usable(template)
  {
    hide *;
    RemoveIs(s.model, ssrc);
    ApartIs(moved, s.spine);
    assert Waiting(head, moved, template, states) && Usable(template);
    var status := s.RemoveStream(ssrc);
    assert forall t | t in moved :: t.next == old(t.next) && t.db == old(t.db);
  }

  lemma ApartIs(a: seq<Stream>, b: seq<Stream>)
    ensures Apart(a, b) <==> forall t | t in a :: t !in b
  {
  }

  /** Every stream on the template's keys is moved. */
  method MoveShared(s: Session, template: Stream, ghost others: set<object>)
    returns (head: Stream?, ghost moved: seq<Stream>, ghost states: seq<StreamState>)
    requires s.Valid() && s.template != null && s.template != template && template !in s.spine
    requires Usable(template) && ValidStream(template.State(), NewLimits(template.State().keys))
    requires AllRelated(s.spine, s.template)
    requires Holds(AllOwned(s.spine, s.template, s) + Owned(template, null), others, s.kernel.live)
    modifies s`model, s`spine, s`streamList, s`others, s.kernel`live, s.spine`next
    ensures s.Valid() && Waiting(head, moved, template, states)
    ensures AllRelated(s.spine, s.template) && AllRelated(moved, template)
    ensures Holds(AllOwned(s.spine, s.template, s) + NewOwned(moved, template), others, s.kernel.live)
    ensures forall t | t in moved :: fresh(t)
    ensures forall t | t in s.spine :: t in old(s.spine)
    ensures s.template.table.content != []
    ensures FirstSharing(s.model.streams, FirstAuth(s.template)) == |s.model.streams|
    ensures s.model.limits == old(s.model).limits && s.model.template == old(s.model).template
    ensures states + s.model.streams
            == Migrate(old(s.model).streams, FirstAuth(s.template), template.State(), [])
  {
    hide *;
    s.ValidParts();
    TemplateHasKeys(s.template, s.model);
    head, moved, states := null, [], [];
    NothingWaiting(template);
    ghost var u, auth := template.State(), FirstAuth(s.template);
    while true
      invariant s.Valid() && Waiting(head, moved, template, states)
      invariant AllRelated(s.spine, s.template) && AllRelated(moved, template)
      invariant Holds(AllOwned(s.spine, s.template, s) + NewOwned(moved, template), others, s.kernel.live)
      invariant forall t | t in moved :: fresh(t)
      invariant forall t | t in s.spine :: t in old(s.spine)
      invariant s.model.limits == old(s.model).limits && s.model.template == old(s.model).template
      invariant Migrate(s.model.streams, auth, u, states) == Migrate(old(s.model).streams, auth, u, [])
      decreases |s.spine|
    {
      var t, at := FindShared(s);
      MigrateUnfold(s.model.streams, auth, u, states);
      if t == null {
        return;
      }
      s.ValidParts();
      StreamIs(s.spine, s.model.streams, at);
      ApartIs(moved, s.spine);
      FoundSome(s.model.streams, at);
      WithoutSubset(s.spine, Find(s.model.streams, t.ssrc));
      ghost var was := s.model.streams[at];
      assert forall i | 0 <= i < |s.spine| :: s.spine[i] in old(s.spine);
      head := MoveOne(s, template, head, t, at, moved, states, others);
      moved, states := [head] + moved, [Migrated(was, u)] + states;
    }
  }

  lemma WithoutSubset(spine: seq<Stream>, at: nat)
    requires at < |spine|
    ensures forall t | t in Without(spine, at) :: t in spine
  {
  }

  lemma NothingWaiting(template: Stream)
    requires Usable(template)
    ensures Waiting(null, [], template, []) && AllRelated([], template)
    ensures NewOwned([], template) == Owned(template, null)
  {
    hide Usable, Owned;
  }

  lemma FoundSome(streams: seq<StreamState>, at: nat)
    requires at < |streams|
    ensures Find(streams, streams[at].ssrc) < |streams|
  {
  }

  lemma RemovedWith(
    spine: seq<Stream>, template: Stream?, session: object, at: nat, more: seq<object>,
    others: set<object>, live: set<object>)
    requires at < |spine| && AllRelated(spine, template)
    requires Holds(AllOwned(spine, template, session) + more, others, live)
    ensures SlotsFit(spine[at], template) && AllRelated(Without(spine, at), template)
    ensures Holds(AllOwned(Without(spine, at), template, session) + more, others,
                  live - Elements(Owned(spine[at], template)))
  {
    hide Owned, Related, Freeable, Owners, TemplateOwned, Elements;
    var a, b := spine[..at], spine[at + 1..];
    OwnersConcat(a, spine[at..], template);
    OwnersUnfold(spine[at..], template);
    OwnersConcat(a, b, template);
    assert spine == a + spine[at..] && spine[at..][1..] == b && spine[at..][0] == spine[at];
    var rest := Owners(b, template) + TemplateOwned(template) + One(session) + more;
    assert AllOwned(spine, template, session) + more == Owners(a, template) + Owned(spine[at], template) + rest;
    assert AllOwned(Without(spine, at), template, session) + more == Owners(a, template) + rest;
    FreeableMiddle(Owners(a, template), Owned(spine[at], template), rest, live);
  }

  lemma HoldsFirst(a: seq<object>, b: seq<object>, others: set<object>, live: set<object>)
    requires Holds(a + b, others, live)
    ensures Holds(a, live - Elements(a), live) && Freeable(b, live)
    ensures live - Elements(a) - Elements(b) == others
  {
    hide Elements, NoDuplicates;
    FreeableSplit(a, b, live);
    NoDuplicatesSplit(a, b);
    ElementsOfConcat(a, b);
  }

  // ----- Installing the new template and joining the lists

  lemma Rearrange(
    a: seq<object>, t: seq<object>, o: seq<object>, b: seq<object>, n: seq<object>,
    others: set<object>, live: set<object>)
    requires Holds(a + t + o + (b + n), others, live)
    ensures Freeable(t, live) && Holds(b + a + n + o, others, live - Elements(t))
    ensures Elements(a) !! Elements(n)
  {
    hide NoDuplicates, Elements;
    NoDuplicatesSplit(a + t + o, b + n);
    NoDuplicatesSplit(a + t, o);
    NoDuplicatesSplit(a, t);
    NoDuplicatesSplit(b, n);
    ElementsOfConcat(a + t + o, b + n);
    ElementsOfConcat(a + t, o);
    ElementsOfConcat(a, t);
    ElementsOfConcat(b, n);
    NoDuplicatesSplit(b + a + n, o);
    NoDuplicatesSplit(b + a, n);
    NoDuplicatesSplit(b, a);
    ElementsOfConcat(b + a + n, o);
    ElementsOfConcat(b + a, n);
    ElementsOfConcat(b, a);
  }

  /** The old template is freed and the new one owns the rest of what it brought. No stream that stays,
      and not the new template, refers to anything that is freed. */
  lemma Replaced(
    spine: seq<Stream>, template: Stream, moved: seq<Stream>, newTemplate: Stream, session: object,
    others: set<object>, live: set<object>)
    requires AllRelated(spine, template) && AllIndependent(spine, template) && AllRelated(moved, newTemplate)
    requires forall i | 0 <= i < |spine| :: |spine[i].table.content| <= |newTemplate.table.content|
    requires Holds(AllOwned(spine, template, session) + NewOwned(moved, newTemplate), others, live)
    ensures SlotsFit(template, null) && Freeable(Owned(template, null), live)
    ensures AllRelated(moved + spine, newTemplate)
    ensures Holds(AllOwned(moved + spine, newTemplate, session), others, live - Elements(Owned(template, null)))
    ensures forall t | t in moved + spine :: Referred(t) <= live - Elements(Owned(template, null))
    ensures Referred(newTemplate) <= live - Elements(Owned(template, null))
  {
    hide Owned, Owners, Holds, Freeable, Elements, AllIndependent, AllRelated, Referred;
    Rearrange(Owners(spine, template), Owned(template, null), One(session),
              Owners(moved, newTemplate), Owned(newTemplate, null), others, live);
    NewTemplateIndependent(newTemplate, spine, template);
    OwnersIndependent(spine, template, newTemplate);
    OwnersConcat(moved, spine, newTemplate);
    ReferredLive(moved + spine, newTemplate, session, others, live - Elements(Owned(template, null)));
  }

  lemma NotACloneBy(t: Stream, template: Stream)
    requires t.table.content != [] && template.table.content != [] && FirstAuth(t) != FirstAuth(template)
    ensures !CloneOf(t, template)
  {
    assert KeysOf(t.table.content)[0].rtpAuth != KeysOf(template.table.content)[0].rtpAuth;
  }

  /** What is left on the list when nothing shares the template's keys. */
  lemma RestIndependent(spine: seq<Stream>, template: Stream, s: SessionState)
    requires Mirrors(spine, s.streams) && ValidSession(s) && AllRelated(spine, template)
    requires template.table.content != []
    requires FirstSharing(s.streams, FirstAuth(template)) == |s.streams|
    ensures AllIndependent(spine, template)
    ensures forall i | 0 <= i < |spine| :: !CloneOf(spine[i], template)
  {
    hide Independent, Shares;
    forall i | 0 <= i < |spine|
      ensures !CloneOf(spine[i], template)
    {
      SharesIs(spine, s, i, FirstAuth(template));
      NotACloneBy(spine[i], template);
    }
  }

  /** Appends the rest of the list to the new list. */
  method JoinLists(head: Stream, rest: Stream?, ghost moved: seq<Stream>, ghost spine: seq<Stream>)
    requires moved != [] && Linked(head, moved) && Linked(rest, spine)
    requires Distinct(moved) && Distinct(spine) && Apart(moved, spine)
    modifies moved`next
    ensures Linked(head, moved + spine)
  {
    var tail := head;
    ghost var at := 0;
    while tail.next != null
      invariant at < |moved| && tail == moved[at]
      decreases |moved| - at
      modifies {}
    {
      tail := tail.next;
      at := at + 1;
    }
    tail.next := rest;
    assert forall i | 0 <= i < |spine| :: spine[i] !in moved && spine[i].next == old(spine[i].next) by {
      forall i | 0 <= i < |spine| ensures spine[i] !in moved {
        assert spine[i] in spine;
      }
    }
    JoinedLinks(moved, spine, at);
  }

  lemma JoinedLinks(moved: seq<Stream>, spine: seq<Stream>, last: nat)
    requires last == |moved| - 1 && Distinct(moved) && Apart(moved, spine)
    requires moved[last].next == (if spine == [] then null else spine[0])
    requires forall i | 0 <= i < last :: moved[i].next == moved[i + 1]
    requires forall i | 0 <= i < |spine| :: spine[i].next == Successor(spine, i)
    ensures Linked(moved[0], moved + spine)
  {
    var all := moved + spine;
    forall i | 0 <= i < |all|
      ensures all[i].next == Successor(all, i)
    {
      if i >= |moved| {
        assert all[i] == spine[i - |moved|];
      }
    }
  }

  lemma DistinctConcat(a: seq<Stream>, b: seq<Stream>)
    requires Distinct(a) && Distinct(b) && Apart(a, b)
    ensures Distinct(a + b)
  {
    var s := a + b;
    forall i, j | 0 <= i < j < |s|
      ensures s[i] != s[j]
    {
      if i < |a| <= j {
        assert s[i] in a && s[j] in b;
      }
    }
  }

  lemma MirrorsConcat(
    moved: seq<Stream>, states: seq<StreamState>, spine: seq<Stream>, streams: seq<StreamState>,
    template: Stream?, newTemplate: Stream)
    requires Mirrors(moved, states) && Mirrors(spine, streams)
    requires AllUsable(moved, newTemplate) && AllUsable(spine, template)
    ensures Mirrors(moved + spine, states + streams) && AllUsable(moved + spine, newTemplate)
  {
    hide Usable;
    forall i | 0 <= i < |moved| + |spine|
      ensures (moved + spine)[i].State() == (states + streams)[i] && Usable((moved + spine)[i])
    {
      if i >= |moved| {
        assert (moved + spine)[i] == spine[i - |moved|] && (states + streams)[i] == streams[i - |moved|];
      }
    }
  }

  /** The session on the new template, whose streams come first. */
  ghost function Rekeyed(s: SessionState, states: seq<StreamState>, template: StreamState): SessionState {
    SessionState(states + s.streams, Some(template), WithLimits(s.limits, template.keys))
  }

  lemma RekeyedKeepsValid(s: SessionState, states: seq<StreamState>, template: StreamState)
    requires ValidSession(s) && ValidStream(template, NewLimits(template.keys))
    requires forall i | 0 <= i < |states| :: ValidStream(states[i], NewLimits(template.keys))
    ensures ValidSession(Rekeyed(s, states, template))
    ensures Rekeyed(s, states, template)
            == SessionState(states + s.streams, Some(template), WithLimits(s.limits, template.keys))
  {
    hide ValidWindow, ValidRdb, NewLimits;
    var s' := Rekeyed(s, states, template);
    forall i | 0 <= i < |s'.streams|
      ensures ValidStream(s'.streams[i], s'.limits)
    {
      assert i >= |states| ==> s'.streams[i] == s.streams[i - |states|];
    }
  }

  // ----- The update

  /** No stream that stays on its own keys has more master keys than the new template. */
  ghost predicate UpdateFits(p: Policy, spine: seq<Stream>, template: Stream?) {
    template != null ==>
      forall i | 0 <= i < |spine| :: CloneOf(spine[i], template) || |spine[i].table.content| <= |p.slots|
  }

  lemma NewHeld(
    have: seq<object>, owned: seq<object>, others: set<object>, base: set<object>, live: set<object>)
    requires Holds(owned, others, base) && Grown(have, base, live)
    ensures Holds(owned + have, others, live) && Holds(owned, live - Elements(owned), live)
  {
    hide NoDuplicates, Elements;
    NoDuplicatesSplit(owned, have);
    ElementsOfConcat(owned, have);
  }

  lemma RestFits(p: Policy, before: seq<Stream>, spine: seq<Stream>, template: Stream)
    requires UpdateFits(p, before, template) && (forall t | t in spine :: t in before)
    requires forall i | 0 <= i < |spine| :: !CloneOf(spine[i], template)
    ensures forall i | 0 <= i < |spine| :: |spine[i].table.content| <= |p.slots|
  {
    hide CloneOf;
    forall i | 0 <= i < |spine|
      ensures spine[i] in before
    {
      assert spine[i] in spine;
    }
  }

  /** Sets up a new template and moves the streams of the old one to a list of their own. */
  method MoveToNew(s: Session, p: Policy)
    returns (template: Stream, head: Stream?, ghost moved: seq<Stream>, ghost states: seq<StreamState>)
    requires s.Valid() && s.template != null
    requires PolicyUsable(p) && ValidMasterKeys(p) && ValidWindowSize(p.windowSize)
    modifies s`model, s`spine, s`streamList, s`others, s.kernel`live, s.spine`next
    ensures s.Valid() && Waiting(head, moved, template, states)
    ensures AllRelated(s.spine, s.template) && AllRelated(moved, template)
    ensures Holds(AllOwned(s.spine, s.template, s) + NewOwned(moved, template), old(s.others), s.kernel.live)
    ensures fresh(template) && forall t | t in moved :: fresh(t)
    ensures forall t | t in s.spine :: t in old(s.spine)
    ensures s.template.table.content != []
    ensures FirstSharing(s.model.streams, FirstAuth(s.template)) == |s.model.streams|
    ensures s.model.limits == old(s.model).limits && s.model.template == old(s.model).template
    ensures states + s.model.streams
            == Migrate(old(s.model).streams, FirstAuth(s.template), template.State(), [])
    ensures |template.table.content| == |p.slots|
    ensures StateFor(template.State(), p, Unknown) && Joins(template, s.model.limits)
  {
    hide *;
    s.ValidParts();
    ghost var others, base, owned := s.others, s.kernel.live, AllOwned(s.spine, s.template, s);
    template := SetUp(s.kernel, p, s.model.limits);
    AloneOwned(template);
    NewHeld(Owned(template, null), owned, others, base, s.kernel.live);
    SetOthers(s, template, s.kernel.live - Elements(owned));
    s.ValidFrom();
    ghost var limits, u := s.model.limits, template.State();
    head, moved, states := MoveJoined(s, template, others);
  }

  /** Moving the streams leaves the new template ready to be installed. */
  method MoveJoined(s: Session, template: Stream, ghost others: set<object>)
    returns (head: Stream?, ghost moved: seq<Stream>, ghost states: seq<StreamState>)
    requires s.Valid() && s.template != null && s.template != template && template !in s.spine
    requires Joins(template, s.model.limits) && AllRelated(s.spine, s.template)
    requires Holds(AllOwned(s.spine, s.template, s) + Owned(template, null), others, s.kernel.live)
    modifies s`model, s`spine, s`streamList, s`others, s.kernel`live, s.spine`next
    ensures s.Valid() && Waiting(head, moved, template, states)
    ensures AllRelated(s.spine, s.template) && AllRelated(moved, template)
    ensures Holds(AllOwned(s.spine, s.template, s) + NewOwned(moved, template), others, s.kernel.live)
    ensures forall t | t in moved :: fresh(t)
    ensures forall t | t in s.spine :: t in old(s.spine)
    ensures s.template.table.content != []
    ensures FirstSharing(s.model.streams, FirstAuth(s.template)) == |s.model.streams|
    ensures s.model.limits == old(s.model).limits && s.model.template == old(s.model).template
    ensures states + s.model.streams
            == Migrate(old(s.model).streams, FirstAuth(s.template), template.State(), [])
    ensures template.State() == old(template.State()) && Joins(template, s.model.limits)
  {
    hide Usable, ValidStream, LimitsOf, NewLimits, WithLimits, KeysOf, AllOwned, Holds, Waiting, FirstSharing, Migrate,
         FirstAuth, AllRelated, NewOwned, Session.Valid;
    JoinsFacts(template, s.model.limits);
    ghost var known := WithLimits(s.model.limits, KeysOf(template.table.content));
    assert LimitsMirror(known);
    head, moved, states := MoveShared(s, template, others);
    assert LimitsMirror(known);
  }

  /** Sets up a new template and moves every stream of the old one to it; each keeps its SSRC, its
      index and its RTCP replay database. The old template is freed. */
  method UpdateTemplateStreams(s: Session, p: Policy) returns (status: Status)
    requires s.Valid() && PolicyUsable(p) && ValidMasterKeys(p) && UpdateFits(p, s.spine, s.template)
    modifies s, s.kernel`live, s.spine`next
    ensures s.Valid() && s.others == old(s.others) && s.NothingDangles()
    ensures status == if old(s.template) != null && ValidWindowSize(p.windowSize) then Ok else BadParam
    ensures status != Ok ==> s.model == old(s.model) && s.spine == old(s.spine) && s.template == old(s.template)
    ensures status == Ok ==>
              && s.template != null && fresh(s.template) && old(s.template).table.content != []
              && Elements(Owned(old(s.template), null)) !! s.kernel.live
              && s.model.template.Some? && StateFor(s.model.template.value, p, Unknown)
              && LimitsOf(s.model.template.value.keys) !! old(s.model).limits.Keys
              && s.model == SessionState(
                              Migrate(old(s.model).streams, FirstAuth(old(s.template)), s.model.template.value, []),
                              s.model.template,
                              WithLimits(old(s.model).limits, s.model.template.value.keys))
  {
    hide *;
    if s.template == null || !ValidWindowSize(p.windowSize) {
      s.ValidNothingDangles();
      return BadParam;
    }
    s.ValidParts();
    var template := s.template;
    TemplateHasKeys(template, s.model);
    ghost var others := s.others;
    var newTemplate, head, moved, states := MoveToNew(s, p);
    s.ValidParts();
    JoinsApart(newTemplate, s.model.limits);
    RestIndependent(s.spine, template, s.model);
    RestFits(p, old(s.spine), s.spine, template);
    Replaced(s.spine, template, moved, newTemplate, s, others, s.kernel.live);
    FreeOldTemplate(s.kernel, template, newTemplate, s.model.limits);
    ApartIs(moved, s.spine);
    assert forall t | t in moved :: t !in s.spine;
    forall i | 0 <= i < |moved| ensures fresh(moved[i]) { assert moved[i] in moved; }
    InstallRekeyed(s, newTemplate, head, moved, states);
    s.others := others;
    s.ValidFrom();
    s.ValidNothingDangles();
    return Ok;
  }

  lemma JoinsApart(t: Stream, limits: map<KeyLimit, Limit>)
    requires Joins(t, limits)
    ensures LimitsOf(t.State().keys) !! limits.Keys
  {
    hide Usable, ValidStream, LimitsMirror, LimitsOf;
  }

  method FreeOldTemplate(kernel: Kernel, template: Stream, newTemplate: Stream, ghost limits: map<KeyLimit, Limit>)
    requires SlotsFit(template, null) && Freeable(Owned(template, null), kernel.live)
    requires Joins(newTemplate, limits)
    modifies kernel`live
    ensures kernel.live == old(kernel.live) - Elements(Owned(template, null))
    ensures Joins(newTemplate, limits)
  {
    hide Usable, ValidStream, LimitsOf, NewLimits, WithLimits, KeysOf, Freeable, Elements, Owned;
    ghost var known := WithLimits(limits, KeysOf(newTemplate.table.content));
    assert LimitsMirror(known);
    DeallocStream(kernel, template, null);
    assert LimitsMirror(known);
  }

  lemma TemplateStateIs(template: Stream)
    ensures TemplateState(template) == Some(template.State())
  {
  }

  /** Puts the new template and the joined list in place. */
  method InstallRekeyed(
    s: Session, template: Stream, head: Stream?, ghost moved: seq<Stream>, ghost states: seq<StreamState>)
    requires Linked(s.streamList, s.spine) && Distinct(s.spine) && Mirrors(s.spine, s.model.streams)
    requires ValidSession(s.model) && AllUsable(s.spine, s.template)
    requires Waiting(head, moved, template, states) && Joins(template, s.model.limits)
    requires Apart(moved, s.spine) && template !in s.spine
    modifies s`template, s`spine, s`streamList, s`model, moved`next
    ensures s.template == template && s.spine == moved + old(s.spine)
    ensures template.State() == old(template.State()) && ValidSession(s.model)
    ensures s.model == SessionState(states + old(s.model).streams, Some(template.State()),
                                    WithLimits(old(s.model).limits, template.State().keys))
    ensures Linked(s.streamList, s.spine) && Distinct(s.spine) && template !in s.spine
    ensures Mirrors(s.spine, s.model.streams) && s.model.template == TemplateState(template)
    ensures LimitsMirror(s.model.limits) && AllUsable(s.spine, template)
  {
    hide *;
    WaitingParts(head, moved, template, states);
    JoinsFacts(template, s.model.limits);
    RekeyedKeepsValid(s.model, states, template.State());
    DistinctConcat(moved, s.spine);
    MirrorsConcat(moved, states, s.spine, s.model.streams, s.template, template);
    ghost var limits, u := WithLimits(s.model.limits, template.State().keys), template.State();
    TemplateStateIs(template);
    assert LimitsMirror(limits) && TemplateState(template) == Some(u);
    HeadIs(head, moved);
    if head != null {
      JoinLists(head, s.streamList, moved, s.spine);
      s.streamList := head;
    } else {
      assert moved + s.spine == s.spine;
    }
    s.template, s.spine := template, moved + s.spine;
    s.model := Rekeyed(s.model, states, u);
  }

  // ----- Re-keying one listed stream

  /** A stream on the policy's keys with the index and RTCP replay database of another. */
  ghost predicate RekeyedFrom(t: StreamState, was: StreamState, p: Policy) {
    && StateFor(t.(db := t.db.(index := 0), rtcpDb := EmptyRdb()), p, Unknown)
    && t.ssrc == was.ssrc && t.db.index == was.db.index && t.rtcpDb == was.rtcpDb
  }

  /** The specification of the update. */
  ghost predicate UpdatedListed(was: SessionState, s: SessionState, p: Policy, status: Status, accepted: bool) {
    var at := Find(was.streams, p.ssrc);
    if at == |was.streams| then status == BadParam && s == was
    else if !accepted then status == BadParam && s == was.(streams := Without(was.streams, at))
    else
      && status == Ok && s.streams != []
      && RekeyedFrom(s.streams[0], was.streams[at], p)
      && LimitsOf(s.streams[0].keys) !! was.limits.Keys
      && s == was.(streams := [s.streams[0]] + Without(was.streams, at),
                   limits := WithLimits(was.limits, s.streams[0].keys))
  }

  /** The listed stream is removed, set up again for the policy and put at the head with its index
      and RTCP replay database. If setting up fails, the stream is gone. */
  method UpdateListed(s: Session, p: Policy) returns (status: Status)
    requires s.Valid() && PolicyUsable(p) && p.ssrcType == Specific && PolicyFits(p, s.spine, s.template)
    modifies s, s.kernel`live, s.spine`next, s.spine
    ensures s.Valid() && s.others == old(s.others) && s.template == old(s.template) && s.NothingDangles()
    ensures UpdatedListed(old(s.model), s.model, p, status, PolicyAccepted(p, s.template))
  {
    hide *;
    s.ValidParts();
    var t, at := s.GetStream(p.ssrc);
    RemoveIs(s.model, p.ssrc);
    ghost var before := s.model;
    if t == null {
      s.ValidNothingDangles();
      NotListed(before, p, PolicyAccepted(p, s.template));
      return BadParam;
    }
    StreamIs(s.spine, s.model.streams, at);
    ValidAt(s.model, at);
    ghost var was := s.model.streams[at];
    var index, rtcpDb := t.db.index, t.rtcpDb;
    status := s.RemoveStream(p.ssrc);
    SpecificFits(p, old(s.spine), s.spine, s.template);
    ghost var removed := s.model;
    status := SetUpAgain(s, p, index, rtcpDb, was);
    s.ValidNothingDangles();
    ListedAgain(before, removed, s.model, p, status, PolicyAccepted(p, s.template), was);
  }

  lemma NotListed(was: SessionState, p: Policy, accepted: bool)
    requires Find(was.streams, p.ssrc) == |was.streams|
    ensures UpdatedListed(was, was, p, BadParam, accepted)
  {
  }

  lemma ListedAgain(
    before: SessionState, removed: SessionState, s: SessionState, p: Policy, status: Status, accepted: bool,
    was: StreamState)
    requires Find(before.streams, p.ssrc) < |before.streams| && was == before.streams[Find(before.streams, p.ssrc)]
    requires removed == before.(streams := Without(before.streams, Find(before.streams, p.ssrc)))
    requires SetUpFrom(removed, s, p, status, accepted, was)
    ensures UpdatedListed(before, s, p, status, accepted)
  {
    hide RekeyedFrom, LimitsOf, WithLimits;
  }

  ghost predicate SetUpFrom(
    removed: SessionState, s: SessionState, p: Policy, status: Status, accepted: bool, was: StreamState) {
    if !accepted then status == BadParam && s == removed
    else
      && status == Ok && s.streams != []
      && RekeyedFrom(s.streams[0], was, p)
      && LimitsOf(s.streams[0].keys) !! removed.limits.Keys
      && s == removed.(streams := [s.streams[0]] + removed.streams,
                       limits := WithLimits(removed.limits, s.streams[0].keys))
  }

  /** Adds a stream for the policy and restores index and RTCP replay database. */
  method SetUpAgain(s: Session, p: Policy, index: nat, rtcpDb: Rdb, ghost was: StreamState) returns (status: Status)
    requires s.Valid() && PolicyUsable(p) && p.ssrcType == Specific && PolicyFits(p, s.spine, s.template)
    requires was.ssrc == p.ssrc && index == was.db.index && rtcpDb == was.rtcpDb && ValidRdb(rtcpDb)
    modifies s, s.kernel`live
    ensures s.Valid() && s.others == old(s.others) && s.template == old(s.template)
    ensures SetUpFrom(old(s.model), s.model, p, status, PolicyAccepted(p, s.template), was)
  {
    hide *;
    ghost var removed := s.model;
    ghost var left;
    status, left := AddStream(s, p);
    SpecificLeavesNothing(p, left, old(s.others), status, s.template);
    if status != Ok {
      NotSetUp(removed, p, was);
      return;
    }
    AddedFirst(removed, s.model.streams[0], p);
    s.ValidParts();
    var t, at := s.GetStream(p.ssrc);
    StreamIs(s.spine, s.model.streams, 0);
    ValidAt(s.model, 0);
    ghost var added := s.model;
    s.Assign(t, at, t.direction, t.db.(index := index), rtcpDb, t.pendingRoc);
    RestoredFirst(removed, added.streams[0], was, p, rtcpDb);
    SetUpIs(removed, s.model, p, was);
  }

  /** A specific policy is refused before anything is allocated for it, or not at all. */
  lemma SpecificLeavesNothing(p: Policy, left: Stream?, others: set<object>, status: Status, template: Stream?)
    requires p.ssrcType == Specific && (status == if PolicyAccepted(p, template) then Ok else BadParam)
    requires left != null <==> status != Ok && ValidMasterKeys(p) && ValidWindowSize(p.windowSize)
    ensures others + LeftBehind(p, left) == others && (status == Ok <==> PolicyAccepted(p, template))
    ensures status == Ok || status == BadParam
  {
    hide ValidMasterKeys, ValidWindowSize;
  }

  lemma NotSetUp(s: SessionState, p: Policy, was: StreamState)
    ensures SetUpFrom(s, s, p, BadParam, false, was)
  {
  }

  lemma SetUpIs(removed: SessionState, s: SessionState, p: Policy, was: StreamState)
    requires s.streams != [] && RekeyedFrom(s.streams[0], was, p) && LimitsOf(s.streams[0].keys) !! removed.limits.Keys
    requires s == removed.(streams := [s.streams[0]] + removed.streams,
                           limits := WithLimits(removed.limits, s.streams[0].keys))
    ensures SetUpFrom(removed, s, p, Ok, true, was)
  {
    hide RekeyedFrom, LimitsOf, WithLimits;
  }

  lemma SpecificFits(p: Policy, before: seq<Stream>, spine: seq<Stream>, template: Stream?)
    requires p.ssrcType == Specific && PolicyFits(p, before, template)
    ensures PolicyFits(p, spine, template)
  {
  }

  lemma AddedFirst(s: SessionState, t: StreamState, p: Policy)
    requires StateFor(t, p, Unknown)
    ensures WithNew(s, t, true) == SessionState([t] + s.streams, s.template, WithLimits(s.limits, t.keys))
    ensures Find(WithNew(s, t, true).streams, p.ssrc) == 0
  {
    hide WithLimits, KeysFor;
  }

  lemma RestoredFirst(s: SessionState, t: StreamState, was: StreamState, p: Policy, rtcpDb: Rdb)
    requires StateFor(t, p, Unknown) && was.ssrc == p.ssrc && rtcpDb == was.rtcpDb
    ensures var u := t.(db := t.db.(index := was.db.index), rtcpDb := rtcpDb);
            && RekeyedFrom(u, was, p)
            && WithNew(s, t, true).streams != []
            && WithStream(WithNew(s, t, true), 0, u)
               == SessionState([u] + s.streams, s.template, WithLimits(s.limits, u.keys))
  {
    hide WithLimits, KeysFor;
    var u := t.(db := t.db.(index := was.db.index), rtcpDb := rtcpDb);
    assert ([t] + s.streams)[0 := u] == [u] + s.streams;
  }
}
