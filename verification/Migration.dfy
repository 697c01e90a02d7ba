/** Re-keying the streams of a template, as a function on session states. */
module Migration {
  import opened Crypto
  import opened ReplayWindow
  import opened SessionModel

  /** The stream's first key slot authenticates with this object, as a clone of its owner does. */
  predicate Shares(t: StreamState, auth: Auth) {
    t.keys != [] && t.keys[0].rtpAuth == auth
  }

  /** The position of the first stream on the keys of the template; the length if there is none. */
  function FirstSharing(streams: seq<StreamState>, auth: Auth): (r: nat)
    ensures r <= |streams|
    ensures r < |streams| ==> Shares(streams[r], auth)
    ensures forall i :: 0 <= i < r ==> !Shares(streams[i], auth)
  {
    if streams == [] || Shares(streams[0], auth) then 0 else 1 + FirstSharing(streams[1..], auth)
  }

  /** The stream on the new template's keys, with its index and its RTCP replay database. */
  function Migrated(t: StreamState, template: StreamState): StreamState {
    var c := Clone(template, t.ssrc);
    c.(db := c.db.(index := t.db.index), rtcpDb := t.rtcpDb)
  }

  /** While there is a stream on the old keys, it is removed by its SSRC and a migrated stream is put
      at the head of a new list; in the end the new list goes before the old one. */
  function Migrate(streams: seq<StreamState>, auth: Auth, template: StreamState, moved: seq<StreamState>)
    : seq<StreamState>
    decreases |streams|
  {
    var i := FirstSharing(streams, auth);
    if i == |streams| then moved + streams
    else
      var t := streams[i];
      Migrate(Without(streams, Find(streams, t.ssrc)), auth, template, [Migrated(t, template)] + moved)
  }

  // ----- The closed form

  /** Those on the old keys, migrated, last one first. */
  function MovedStreams(streams: seq<StreamState>, auth: Auth, template: StreamState): seq<StreamState> {
    if streams == [] then []
    else
      MovedStreams(streams[1..], auth, template)
      + if Shares(streams[0], auth) then [Migrated(streams[0], template)] else []
  }

  /** Those on other keys, in order. */
  function OtherStreams(streams: seq<StreamState>, auth: Auth): (r: seq<StreamState>)
    ensures forall i | 0 <= i < |r| :: r[i] in streams && !Shares(r[i], auth)
    ensures forall i | 0 <= i < |streams| && !Shares(streams[i], auth) :: streams[i] in r
  {
    if streams == [] then []
    else (if Shares(streams[0], auth) then [] else [streams[0]]) + OtherStreams(streams[1..], auth)
  }

  lemma ListsUnfold(streams: seq<StreamState>, auth: Auth, template: StreamState)
    requires streams != []
    ensures MovedStreams(streams, auth, template)
            == MovedStreams(streams[1..], auth, template)
               + if Shares(streams[0], auth) then [Migrated(streams[0], template)] else []
    ensures OtherStreams(streams, auth)
            == (if Shares(streams[0], auth) then [] else [streams[0]]) + OtherStreams(streams[1..], auth)
  {
    hide Migrated, Shares, Migrate;
  }

  lemma FirstSharingUnfold(streams: seq<StreamState>, auth: Auth)
    requires streams != []
    ensures FirstSharing(streams, auth) == if Shares(streams[0], auth) then 0 else 1 + FirstSharing(streams[1..], auth)
  {
    hide Shares;
  }

  lemma {:induction false} WithoutFirstSharing(streams: seq<StreamState>, auth: Auth, template: StreamState)
    requires FirstSharing(streams, auth) < |streams|
    ensures var i := FirstSharing(streams, auth);
            && MovedStreams(streams, auth, template)
               == MovedStreams(Without(streams, i), auth, template) + [Migrated(streams[i], template)]
            && OtherStreams(streams, auth) == OtherStreams(Without(streams, i), auth)
  {
    hide Migrated, Shares, MovedStreams, OtherStreams, FirstSharing;
    var i := FirstSharing(streams, auth);
    FirstSharingUnfold(streams, auth);
    ListsUnfold(streams, auth, template);
    if i == 0 {
      assert Without(streams, 0) == streams[1..];
    } else {
      WithoutFirstSharing(streams[1..], auth, template);
      var u := Without(streams, i);
      ListsUnfold(u, auth, template);
      assert u[1..] == Without(streams[1..], i - 1) && u[0] == streams[0];
    }
  }

  lemma UniqueFind(streams: seq<StreamState>, i: nat)
    requires UniqueSsrcs(streams) && i < |streams|
    ensures Find(streams, streams[i].ssrc) == i
    ensures UniqueSsrcs(Without(streams, i))
  {
    hide Find;
    var r := Find(streams, streams[i].ssrc);
    assert r <= i;
    WithoutUnique(streams, i);
  }

  lemma WithoutUnique(streams: seq<StreamState>, i: nat)
    requires UniqueSsrcs(streams) && i < |streams|
    ensures UniqueSsrcs(Without(streams, i))
  {
    var u := Without(streams, i);
    forall j, k | 0 <= j < k < |u|
      ensures u[j].ssrc != u[k].ssrc
    {
      assert u[j] == streams[if j < i then j else j + 1] && u[k] == streams[if k < i then k else k + 1];
    }
  }

  lemma MigrateUnfold(streams: seq<StreamState>, auth: Auth, template: StreamState, moved: seq<StreamState>)
    ensures var i := FirstSharing(streams, auth);
            && i <= |streams|
            && Migrate(streams, auth, template, moved)
               == if i == |streams| then moved + streams
                  else Migrate(Without(streams, Find(streams, streams[i].ssrc)), auth, template,
                               [Migrated(streams[i], template)] + moved)
  {
    hide Migrated, Shares;
  }

  /** The loop moves exactly the streams of the template, and leaves the others in their order. */
  lemma {:induction false} MigrateIs(
    streams: seq<StreamState>, auth: Auth, template: StreamState, moved: seq<StreamState>)
    requires UniqueSsrcs(streams)
    ensures Migrate(streams, auth, template, moved)
            == MovedStreams(streams, auth, template) + moved + OtherStreams(streams, auth)
    decreases |streams|
  {
    hide *;
    MigrateUnfold(streams, auth, template, moved);
    var i := FirstSharing(streams, auth);
    if i == |streams| {
      NothingShares(streams, auth, template);
      assert [] + moved + streams == moved + streams;
    } else {
      UniqueFind(streams, i);
      WithoutFirstSharing(streams, auth, template);
      MigrateIs(Without(streams, i), auth, template, [Migrated(streams[i], template)] + moved);
      assert MovedStreams(Without(streams, i), auth, template) + ([Migrated(streams[i], template)] + moved)
          == MovedStreams(streams, auth, template) + moved;
    }
  }

  lemma {:induction false} NothingShares(streams: seq<StreamState>, auth: Auth, template: StreamState)
    requires FirstSharing(streams, auth) == |streams|
    ensures MovedStreams(streams, auth, template) == [] && OtherStreams(streams, auth) == streams
  {
    hide Migrated, Shares;
    if streams != [] {
      NothingShares(streams[1..], auth, template);
    }
  }

  // ----- What an update means for each stream

  /** A stream is where it was if it was on other keys, and otherwise migrated. */
  function AfterUpdate(t: StreamState, auth: Auth, template: StreamState): StreamState {
    if Shares(t, auth) then Migrated(t, template) else t
  }

  function Ssrcs(streams: seq<StreamState>): set<nat> {
    set i | 0 <= i < |streams| :: streams[i].ssrc
  }

  lemma InsertUnique(a: seq<StreamState>, t: StreamState, b: seq<StreamState>)
    requires UniqueSsrcs(a + b) && t.ssrc !in Ssrcs(a + b)
    ensures UniqueSsrcs(a + [t] + b) && Ssrcs(a + [t] + b) == Ssrcs(a + b) + {t.ssrc}
  {
    var s, u := a + b, a + [t] + b;
    forall i | 0 <= i < |u|
      ensures i != |a| ==> u[i] == s[if i < |a| then i else i - 1]
      ensures i != |a| ==> u[i].ssrc in Ssrcs(s)
    {
    }
    forall i | 0 <= i < |s|
      ensures s[i] == u[if i < |a| then i else i + 1]
    {
    }
    assert u[|a|] == t;
  }

  /** The streams after the update are the streams before, rearranged, with each in its new form. */
  lemma {:induction false} Rearranged(streams: seq<StreamState>, auth: Auth, template: StreamState)
    requires UniqueSsrcs(streams)
    ensures var after := MovedStreams(streams, auth, template) + OtherStreams(streams, auth);
            && |after| == |streams| && UniqueSsrcs(after) && Ssrcs(after) == Ssrcs(streams)
            && forall t | t in streams :: AfterUpdate(t, auth, template) in after
  {
    hide Shares;
    if streams != [] {
      var h, tail := streams[0], streams[1..];
      assert UniqueSsrcs(tail) by {
        forall i, j | 0 <= i < j < |tail| ensures tail[i].ssrc != tail[j].ssrc {
          assert streams[i + 1].ssrc != streams[j + 1].ssrc;
        }
      }
      Rearranged(tail, auth, template);
      var m, o := MovedStreams(tail, auth, template), OtherStreams(tail, auth);
      RearrangedStep(streams, auth, template);
      assert h.ssrc !in Ssrcs(tail);
      InsertUnique([], h, tail);
      assert [] + [h] + tail == streams && [] + tail == tail;
      InsertUnique(m, AfterUpdate(h, auth, template), o);
    }
  }

  lemma RearrangedStep(streams: seq<StreamState>, auth: Auth, template: StreamState)
    requires streams != []
    ensures MovedStreams(streams, auth, template) + OtherStreams(streams, auth)
            == MovedStreams(streams[1..], auth, template) + [AfterUpdate(streams[0], auth, template)]
               + OtherStreams(streams[1..], auth)
  {
    hide Migrated, Shares, MovedStreams, OtherStreams;
    ListsUnfold(streams, auth, template);
  }

  /** The SSRCs stay the same and unique; looking one up gives its stream after the update. */
  lemma UpdateKeepsStreams(streams: seq<StreamState>, auth: Auth, template: StreamState)
    requires UniqueSsrcs(streams)
    ensures var after := Migrate(streams, auth, template, []);
            && |after| == |streams| && UniqueSsrcs(after)
            && forall ssrc ::
                 && (Find(after, ssrc) < |after| <==> Find(streams, ssrc) < |streams|)
                 && (Find(streams, ssrc) < |streams| ==>
                       after[Find(after, ssrc)] == AfterUpdate(streams[Find(streams, ssrc)], auth, template))
  {
    hide Migrated, Shares, UniqueSsrcs, Migrate, MovedStreams, OtherStreams;
    MigrateIs(streams, auth, template, []);
    Rearranged(streams, auth, template);
    var after := Migrate(streams, auth, template, []);
    assert after == MovedStreams(streams, auth, template) + OtherStreams(streams, auth);
    forall ssrc
      ensures Find(after, ssrc) < |after| <==> Find(streams, ssrc) < |streams|
      ensures Find(streams, ssrc) < |streams| ==>
                after[Find(after, ssrc)] == AfterUpdate(streams[Find(streams, ssrc)], auth, template)
    {
      FoundIffListed(after, ssrc);
      FoundIffListed(streams, ssrc);
      var at := Find(streams, ssrc);
      if at < |streams| {
        var t := AfterUpdate(streams[at], auth, template);
        var i :| 0 <= i < |after| && after[i] == t;
        UniqueFind(after, i);
        assert t.ssrc == ssrc by { AfterUpdateSsrc(streams[at], auth, template); }
      }
    }
  }

  lemma AfterUpdateSsrc(t: StreamState, auth: Auth, template: StreamState)
    ensures AfterUpdate(t, auth, template).ssrc == t.ssrc
  {
  }

  lemma FoundIffListed(streams: seq<StreamState>, ssrc: nat)
    ensures Find(streams, ssrc) < |streams| <==> ssrc in Ssrcs(streams)
  {
  }

  // ----- What an update means for the indices

  /** An update keeps the index but drops a pending rollover counter: without one, every packet gets the
      index it would have got. The authenticated cipher ignores the counter when sending. */
  lemma UpdateKeepsIndices(t: StreamState, auth: Auth, template: StreamState, seqNo: nat, gcm: bool)
    requires seqNo < SEQ_MAX && t.pendingRoc < UINT32 && ValidWindow(t.db) && ValidWindow(template.db)
    ensures var u := AfterUpdate(t, auth, template);
            && ValidWindow(u.db) && u.pendingRoc < UINT32 && u.rtcpDb == t.rtcpDb
            && (!Shares(t, auth) || t.pendingRoc == 0 ==> GuessIndex(u, seqNo) == GuessIndex(t, seqNo))
            && (!Shares(t, auth) || t.pendingRoc == 0 || gcm ==>
                  var d, e := SenderIndex(t, seqNo, gcm), SenderIndex(u, seqNo, gcm);
                  d.Use? && e.Use? ==> d.index == e.index)
  {
    hide Shares, IndexGuess, Check, AddIndex, SetRocSeq;
  }

  /** The sequence number at which the pending counter and the database disagree most. */
  function Disagreement(t: StreamState): (r: nat)
    ensures r < SEQ_MAX
  {
    if t.db.index / SEQ_MAX != t.pendingRoc then t.db.index % SEQ_MAX
    else if t.db.index % SEQ_MAX < MEDIAN then SEQ_MAX - 1
    else 0
  }

  /** With a counter pending some packet gets another index than it would have got, unless the counter is
      the current one and the index in the middle of its range. */
  lemma UpdateKeepsAllIndicesIff(t: StreamState, auth: Auth, template: StreamState)
    requires Shares(t, auth) && t.pendingRoc < UINT32 && t.db.index < INDEX_LIMIT
    ensures var u := AfterUpdate(t, auth, template);
            && u.pendingRoc < UINT32
            && ((forall seqNo: nat | seqNo < SEQ_MAX :: GuessIndex(u, seqNo).est == GuessIndex(t, seqNo).est)
                <==> t.pendingRoc == 0
                     || (t.db.index / SEQ_MAX == t.pendingRoc && MEDIAN - 1 <= t.db.index % SEQ_MAX <= MEDIAN))
  {
    hide Shares, Clone;
    var u, roc, low := AfterUpdate(t, auth, template), t.db.index / SEQ_MAX, t.db.index % SEQ_MAX;
    assert u.db.index == t.db.index && u.pendingRoc == 0 by { UpdatedIndex(t, auth, template); }
    assert t.db.index == roc * SEQ_MAX + low && roc < UINT32;
    if t.pendingRoc != 0 && !(roc == t.pendingRoc && MEDIAN - 1 <= low <= MEDIAN) {
      assert GuessIndex(u, Disagreement(t)).est != GuessIndex(t, Disagreement(t)).est;
    } else {
      forall seqNo: nat | seqNo < SEQ_MAX
        ensures GuessIndex(u, seqNo).est == GuessIndex(t, seqNo).est
      {
      }
    }
  }

  lemma UpdatedIndex(t: StreamState, auth: Auth, template: StreamState)
    requires Shares(t, auth)
    ensures var u := AfterUpdate(t, auth, template); u.db.index == t.db.index && u.pendingRoc == 0
  {
  }

  /** For instance counter 7, pending at index 100000, whose own counter is 1: no packet keeps its index. */
  lemma UpdateDropsCounter(t: StreamState, auth: Auth, template: StreamState, seqNo: nat)
    requires Shares(t, auth) && t.pendingRoc == 7 && t.db.index == 100000 && seqNo < SEQ_MAX
    ensures AfterUpdate(t, auth, template).pendingRoc < UINT32
    ensures GuessIndex(AfterUpdate(t, auth, template), seqNo).est != GuessIndex(t, seqNo).est
  {
    hide Shares, Clone;
    UpdatedIndex(t, auth, template);
  }
}
