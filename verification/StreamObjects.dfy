/** Streams as heap objects, what each allocates and shares, and freeing them exactly once. */
module StreamObjects {
  import opened Octets
  import opened SrtpStatus
  import opened Crypto
  import opened InitVectors
  import opened ReplayWindow
  import opened RtcpReplay
  import opened RtpPacket
  import opened SessionKey
  import opened SessionModel

  // ----- Sequences without repetition

  ghost predicate NoDuplicates(s: seq<object>) {
    forall i, j | 0 <= i < j < |s| :: s[i] != s[j]
  }

  function One(o: object): seq<object> {
    [o]
  }

  ghost function Elements(s: seq<object>): set<object> {
    set o | o in s
  }

  lemma ElementsOfConcat(a: seq<object>, b: seq<object>)
    ensures Elements(a + b) == Elements(a) + Elements(b)
  {
  }

  lemma NoDuplicatesSplit(a: seq<object>, b: seq<object>)
    ensures NoDuplicates(a + b) <==> NoDuplicates(a) && NoDuplicates(b) && Elements(a) !! Elements(b)
  {
    var s := a + b;
    if NoDuplicates(s) {
      forall i, j | 0 <= i < j < |a| ensures a[i] != a[j] { assert s[i] != s[j]; }
      forall i, j | 0 <= i < j < |b| ensures b[i] != b[j] { assert s[|a| + i] != s[|a| + j]; }
      forall i, j | 0 <= i < |a| && 0 <= j < |b| ensures a[i] != b[j] { assert s[i] != s[|a| + j]; }
    }
    if NoDuplicates(a) && NoDuplicates(b) && Elements(a) !! Elements(b) {
      forall i, j | 0 <= i < j < |s| ensures s[i] != s[j] {
        if i < |a| && j >= |a| {
          assert s[i] in Elements(a) && s[j] in Elements(b);
        }
      }
    }
  }

  // ----- Allocation

  /** The allocator; `live` holds what has been allocated and not yet freed. */
  class Kernel {
    ghost var live: set<object>

    constructor ()
      ensures live == {}
    {
      live := {};
    }

    method Register(o: object)
      requires o !in live
      modifies `live
      ensures live == old(live) + {o}
    {
      live := live + {o};
    }

    /** Only a live object may be freed. */
    method Free(o: object)
      requires o in live
      modifies `live
      ensures live == old(live) - {o}
    {
      live := live - {o};
    }
  }

  /** A block of memory whose content never changes after initialization. */
  class Block<T> {
    const content: T

    constructor (content: T)
      ensures this.content == content
    {
      this.content := content;
    }
  }

  // ----- Streams

  /** The keys of one slot and the block that holds their identifier, if they have one. */
  datatype KeyEntry = KeyEntry(keys: SessionKeys, mkiBlock: Block?<Octets>)

  function KeysOf(entries: seq<KeyEntry>): (r: seq<SessionKeys>)
    ensures |r| == |entries| && forall i :: 0 <= i < |entries| ==> r[i] == entries[i].keys
  {
    seq(|entries|, i requires 0 <= i < |entries| => entries[i].keys)
  }

  /** A stream context. Cloned streams share the objects their key entries refer to. */
  class Stream {
    const ssrc: nat
    const table: Block<seq<KeyEntry>>
    const window: Block<nat>
    const xtnIds: Block?<seq<int>>
    const rtp: Services
    const rtcp: Services
    const allowRepeatTx: bool
    var db: Rdbx
    var rtcpDb: Rdb
    var direction: Direction
    var pendingRoc: nat
    var next: Stream?

    constructor (
      ssrc: nat, table: Block<seq<KeyEntry>>, window: Block<nat>, xtnIds: Block?<seq<int>>,
      rtp: Services, rtcp: Services, allowRepeatTx: bool, direction: Direction)
      ensures this.ssrc == ssrc && this.table == table && this.window == window && this.xtnIds == xtnIds
      ensures this.rtp == rtp && this.rtcp == rtcp && this.allowRepeatTx == allowRepeatTx
      ensures db == Empty(window.content) && rtcpDb == EmptyRdb()
      ensures this.direction == direction && pendingRoc == 0 && next == null
    {
      this.ssrc, this.table, this.window, this.xtnIds := ssrc, table, window, xtnIds;
      this.rtp, this.rtcp, this.allowRepeatTx := rtp, rtcp, allowRepeatTx;
      this.db, this.rtcpDb := Empty(window.content), EmptyRdb();
      this.direction, this.pendingRoc, this.next := direction, 0, null;
    }

    function Ids(): seq<int> {
      if xtnIds == null then [] else xtnIds.content
    }

    ghost function State(): StreamState
      reads this`db, this`rtcpDb, this`direction, this`pendingRoc
    {
      StreamState(ssrc, KeysOf(table.content), db, rtcpDb, rtp, rtcp, direction, allowRepeatTx, Ids(), pendingRoc)
    }
  }

  // ----- Ownership

  /** The one object, if it is there and not the template's. */
  function Unshared(o: object?, shared: object?): seq<object> {
    if o == null || o == shared then [] else [o]
  }

  /** What deallocating a stream frees for one slot, in order; `t` is the template's slot. */
  function SlotOwned(e: KeyEntry, t: Option<KeyEntry>): seq<object> {
    Unshared(e.keys.rtpCipher, if t.None? then null else t.value.keys.rtpCipher)
    + (Unshared(e.keys.rtpAuth, if t.None? then null else t.value.keys.rtpAuth)
    + (Unshared(e.keys.xtnCipher, if t.None? then null else t.value.keys.xtnCipher)
    + (Unshared(e.keys.rtcpCipher, if t.None? then null else t.value.keys.rtcpCipher)
    + (Unshared(e.keys.rtcpAuth, if t.None? then null else t.value.keys.rtcpAuth)
    + (Unshared(e.mkiBlock, null)
    + Unshared(e.keys.limit, if t.None? then null else t.value.keys.limit))))))
  }

  function TemplateSlot(template: Stream?, i: nat): Option<KeyEntry>
    requires template != null ==> i < |template.table.content|
  {
    if template == null then None else Some(template.table.content[i])
  }

  /** No more slots than the template, which is indexed alongside. */
  predicate SlotsFit(t: Stream, template: Stream?) {
    template != null ==> |t.table.content| <= |template.table.content|
  }

  function SlotsOwned(t: Stream, template: Stream?, from: nat): seq<object>
    requires SlotsFit(t, template) && from <= |t.table.content|
    decreases |t.table.content| - from
  {
    if from == |t.table.content| then []
    else SlotOwned(t.table.content[from], TemplateSlot(template, from)) + SlotsOwned(t, template, from + 1)
  }

  /** What deallocating a stream frees after its slots. */
  function BlocksOwned(t: Stream, template: Stream?): seq<object> {
    [t.table, t.window] + Unshared(t.xtnIds, if template == null then null else template.xtnIds) + [t]
  }

  function Owned(t: Stream, template: Stream?): seq<object>
    requires SlotsFit(t, template)
  {
    SlotsOwned(t, template, 0) + BlocksOwned(t, template)
  }

  // ----- Deallocation

  /** `todo` can be freed in order: all of it is live and nothing occurs twice. */
  ghost predicate Freeable(todo: seq<object>, live: set<object>) {
    NoDuplicates(todo) && Elements(todo) <= live
  }

  lemma FreeableSplit(a: seq<object>, b: seq<object>, live: set<object>)
    requires Freeable(a + b, live)
    ensures Freeable(a, live) && Freeable(b, live - Elements(a))
    ensures live - Elements(a) - Elements(b) == live - Elements(a + b)
  {
    hide NoDuplicates;
    NoDuplicatesSplit(a, b);
    ElementsOfConcat(a, b);
  }

  method FreeUnlessShared(kernel: Kernel, o: object?, shared: object?, ghost rest: seq<object>)
    requires Freeable(Unshared(o, shared) + rest, kernel.live)
    modifies kernel`live
    ensures Freeable(rest, kernel.live)
    ensures kernel.live - Elements(rest) == old(kernel.live) - Elements(Unshared(o, shared) + rest)
  {
    FreeableSplit(Unshared(o, shared), rest, kernel.live);
    if o != null && o != shared {
      assert Elements(Unshared(o, shared)) == {o};
      kernel.Free(o);
    } else {
      assert Elements(Unshared(o, shared)) == {};
    }
  }

  method FreeSlot(kernel: Kernel, e: KeyEntry, t: Option<KeyEntry>, ghost rest: seq<object>)
    requires Freeable(SlotOwned(e, t) + rest, kernel.live)
    modifies kernel`live
    ensures Freeable(rest, kernel.live)
    ensures kernel.live - Elements(rest) == old(kernel.live) - Elements(SlotOwned(e, t) + rest)
  {
    hide Freeable, Elements, Unshared;
    ghost var r6 := Unshared(e.keys.limit, if t.None? then null else t.value.keys.limit) + rest;
    ghost var r5 := Unshared(e.mkiBlock, null) + r6;
    ghost var r4 := Unshared(e.keys.rtcpAuth, if t.None? then null else t.value.keys.rtcpAuth) + r5;
    ghost var r3 := Unshared(e.keys.rtcpCipher, if t.None? then null else t.value.keys.rtcpCipher) + r4;
    ghost var r2 := Unshared(e.keys.xtnCipher, if t.None? then null else t.value.keys.xtnCipher) + r3;
    ghost var r1 := Unshared(e.keys.rtpAuth, if t.None? then null else t.value.keys.rtpAuth) + r2;
    assert SlotOwned(e, t) + rest
        == Unshared(e.keys.rtpCipher, if t.None? then null else t.value.keys.rtpCipher) + r1;
    FreeUnlessShared(kernel, e.keys.rtpCipher, if t.None? then null else t.value.keys.rtpCipher, r1);
    FreeUnlessShared(kernel, e.keys.rtpAuth, if t.None? then null else t.value.keys.rtpAuth, r2);
    FreeUnlessShared(kernel, e.keys.xtnCipher, if t.None? then null else t.value.keys.xtnCipher, r3);
    FreeUnlessShared(kernel, e.keys.rtcpCipher, if t.None? then null else t.value.keys.rtcpCipher, r4);
    FreeUnlessShared(kernel, e.keys.rtcpAuth, if t.None? then null else t.value.keys.rtcpAuth, r5);
    FreeUnlessShared(kernel, e.mkiBlock, null, r6);
    FreeUnlessShared(kernel, e.keys.limit, if t.None? then null else t.value.keys.limit, rest);
  }

  /** Frees what the stream owns, sparing what it shares with the template. */
  method DeallocStream(kernel: Kernel, t: Stream, template: Stream?)
    requires SlotsFit(t, template) && Freeable(Owned(t, template), kernel.live)
    modifies kernel`live
    ensures kernel.live == old(kernel.live) - Elements(Owned(t, template))
  {
    hide Freeable, Elements, SlotOwned;
    ghost var blocks := BlocksOwned(t, template);
    var i := 0;
    while i < |t.table.content|
      invariant 0 <= i <= |t.table.content|
      invariant Freeable(SlotsOwned(t, template, i) + blocks, kernel.live)
      invariant kernel.live - Elements(SlotsOwned(t, template, i) + blocks)
                == old(kernel.live) - Elements(Owned(t, template))
    {
      ghost var rest := SlotsOwned(t, template, i + 1) + blocks;
      ConcatAssoc(SlotOwned(t.table.content[i], TemplateSlot(template, i)), SlotsOwned(t, template, i + 1), blocks);
      FreeSlot(kernel, t.table.content[i], TemplateSlot(template, i), rest);
      i := i + 1;
    }
    assert SlotsOwned(t, template, i) + blocks == blocks;
    FreeBlocks(kernel, t, template);
  }

  lemma ConcatAssoc(a: seq<object>, b: seq<object>, c: seq<object>)
    ensures a + b + c == a + (b + c)
  {
  }

  method FreeBlocks(kernel: Kernel, t: Stream, template: Stream?)
    requires Freeable(BlocksOwned(t, template), kernel.live)
    modifies kernel`live
    ensures kernel.live == old(kernel.live) - Elements(BlocksOwned(t, template))
  {
    hide Freeable, Elements;
    ghost var ids := Unshared(t.xtnIds, if template == null then null else template.xtnIds);
    ghost var r3 := [t] + [];
    ghost var r2 := ids + r3;
    ghost var r1 := [t.window] + r2;
    assert BlocksOwned(t, template) == [t.table] + r1;
    FreeUnlessShared(kernel, t.table, null, r1);
    FreeUnlessShared(kernel, t.window, null, r2);
    FreeUnlessShared(kernel, t.xtnIds, if template == null then null else template.xtnIds, r3);
    FreeUnlessShared(kernel, t, null, []);
    NoElements();
  }

  lemma NoElements()
    ensures Elements([]) == {}
  {
  }

  // ----- Allocation of clones

  /** `have` was allocated since the allocator held `base`, and nothing else. */
  ghost predicate Grown(have: seq<object>, base: set<object>, live: set<object>) {
    NoDuplicates(have) && Elements(have) !! base && live == base + Elements(have)
  }

  lemma GrownBy(have: seq<object>, o: object, base: set<object>, live: set<object>)
    requires Grown(have, base, live) && o !in live
    ensures Grown(have + One(o), base, live + {o})
  {
    hide NoDuplicates;
    NoDuplicatesSplit(have, One(o));
    ElementsOfConcat(have, One(o));
    assert Elements(One(o)) == {o};
    assert NoDuplicates(One(o)) by { OneObject(o); }
  }

  lemma OneObject(o: object)
    ensures NoDuplicates(One(o))
  {
  }

  function MkiBlocks(entries: seq<KeyEntry>): seq<object> {
    if entries == [] then [] else Unshared(entries[0].mkiBlock, null) + MkiBlocks(entries[1..])
  }

  lemma {:induction false} MkiBlocksSnoc(entries: seq<KeyEntry>, e: KeyEntry)
    ensures MkiBlocks(entries + [e]) == MkiBlocks(entries) + Unshared(e.mkiBlock, null)
  {
    if entries != [] {
      MkiBlocksSnoc(entries[1..], e);
      assert (entries + [e])[1..] == entries[1..] + [e];
    } else {
      assert MkiBlocks([e]) == Unshared(e.mkiBlock, null) + MkiBlocks([e][1..]);
    }
  }

  /** All key objects, the policy and the extension list are the template's. */
  ghost predicate CloneOf(t: Stream, template: Stream) {
    && KeysOf(t.table.content) == KeysOf(template.table.content)
    && t.xtnIds == template.xtnIds
    && t.window.content == template.window.content
    && t.rtp == template.rtp && t.rtcp == template.rtcp && t.allowRepeatTx == template.allowRepeatTx
  }

  lemma {:induction false} CloneSlotsOwned(t: Stream, template: Stream, from: nat)
    requires CloneOf(t, template) && from <= |t.table.content|
    ensures |t.table.content| == |template.table.content|
    ensures SlotsOwned(t, template, from) == MkiBlocks(t.table.content[from..])
    decreases |t.table.content| - from
  {
    hide MkiBlocks;
    assert |KeysOf(t.table.content)| == |t.table.content|;
    MkiBlocksUnfold(t.table.content[from..]);
    if from < |t.table.content| {
      CloneSlotsOwned(t, template, from + 1);
      CloneSlot(t.table.content[from], template.table.content[from]) by {
        assert KeysOf(t.table.content)[from] == KeysOf(template.table.content)[from];
      }
      assert t.table.content[from..][1..] == t.table.content[from + 1..];
    }
  }

  lemma MkiBlocksUnfold(entries: seq<KeyEntry>)
    ensures MkiBlocks(entries)
            == if entries == [] then [] else Unshared(entries[0].mkiBlock, null) + MkiBlocks(entries[1..])
  {
  }

  lemma CloneSlot(e: KeyEntry, te: KeyEntry)
    requires e.keys == te.keys
    ensures SlotOwned(e, Some(te)) == Unshared(e.mkiBlock, null)
  {
  }

  lemma CloneOwned(t: Stream, template: Stream)
    requires CloneOf(t, template)
    ensures SlotsFit(t, template)
    ensures Owned(t, template) == MkiBlocks(t.table.content) + One(t.table) + One(t.window) + One(t)
  {
    hide MkiBlocks, SlotsOwned;
    assert |KeysOf(t.table.content)| == |t.table.content|;
    CloneSlotsOwned(t, template, 0);
    assert t.table.content[0..] == t.table.content;
    assert BlocksOwned(t, template) == One(t.table) + One(t.window) + One(t);
  }

  method CloneEntries(kernel: Kernel, template: Stream) returns (entries: seq<KeyEntry>)
    modifies kernel`live
    ensures KeysOf(entries) == KeysOf(template.table.content)
    ensures Grown(MkiBlocks(entries), old(kernel.live), kernel.live)
  {
    hide MkiBlocks, Grown;
    entries := [];
    GrownNothing(kernel.live);
    var i := 0;
    while i < |template.table.content|
      invariant 0 <= i <= |template.table.content| && |entries| == i
      invariant forall k :: 0 <= k < i ==> entries[k].keys == template.table.content[k].keys
      invariant Grown(MkiBlocks(entries), old(kernel.live), kernel.live)
    {
      var keys := template.table.content[i].keys;
      var block: Block?<Octets> := null;
      ghost var have := MkiBlocks(entries);
      if |keys.mki| != 0 {
        block := new Block<Octets>(keys.mki);
        GrownBy(have, block, old(kernel.live), kernel.live);
        kernel.Register(block);
      }
      MkiBlocksSnoc(entries, KeyEntry(keys, block));
      assert block == null ==> have + Unshared(block, null) == have;
      entries := entries + [KeyEntry(keys, block)];
      i := i + 1;
    }
  }

  lemma GrownNothing(live: set<object>)
    ensures Grown(MkiBlocks([]), live, live)
  {
  }

  /** A new stream on the template's key objects, with its own identifiers and replay databases. */
  method CloneStream(kernel: Kernel, template: Stream, ssrc: nat) returns (t: Stream)
    modifies kernel`live
    ensures fresh(t) && CloneOf(t, template) && t.ssrc == ssrc && t.next == null
    ensures |template.db.window| == template.window.content ==> t.State() == Clone(template.State(), ssrc)
    ensures SlotsFit(t, template)
    ensures Grown(Owned(t, template), old(kernel.live), kernel.live)
  {
    hide MkiBlocks, Grown, SlotsOwned, Elements;
    var entries := CloneEntries(kernel, template);
    ghost var h0 := MkiBlocks(entries);
    var table := new Block<seq<KeyEntry>>(entries);
    GrownBy(h0, table, old(kernel.live), kernel.live);
    kernel.Register(table);
    var window := new Block<nat>(template.window.content);
    GrownBy(h0 + One(table), window, old(kernel.live), kernel.live);
    kernel.Register(window);
    t := new Stream(ssrc, table, window, template.xtnIds, template.rtp, template.rtcp, template.allowRepeatTx,
                    template.direction);
    GrownBy(h0 + One(table) + One(window), t, old(kernel.live), kernel.live);
    kernel.Register(t);
    CloneOwned(t, template);
  }

  // ----- Allocation from a policy

  /** One master key of a policy, after key derivation. */
  datatype SlotPolicy = SlotPolicy(
    cipher: CipherKeys, xtn: CipherKeys, authKey: Key, tagLen: nat,
    rtcpCipher: CipherKeys, rtcpAuthKey: Key, rtcpTagLen: nat,
    salt: Salt, cSalt: Salt, mki: Octets)

  datatype SsrcType = AnyOutbound | AnyInbound | Specific | Undefined

  datatype Policy = Policy(
    ssrcType: SsrcType, ssrc: nat, slots: seq<SlotPolicy>, rtp: Services, rtcp: Services,
    windowSize: nat, allowRepeatTx: bool, ids: seq<int>)

  /** The RTP keys that a slot of the policy stands for. */
  function PolicyKeys(p: SlotPolicy, withXtn: bool): RtpKeys {
    RtpKeys(p.cipher, if withXtn then Some(p.xtn) else None, p.authKey, p.tagLen, p.salt, p.mki)
  }

  const MAX_MASTER_KEYS: nat := 16
  const MAX_TAG_LEN: nat := 16

  predicate ValidMasterKeys(p: Policy) {
    && 0 < |p.slots| <= MAX_MASTER_KEYS
    && forall i | 0 <= i < |p.slots| :: |p.slots[i].mki| <= MAX_MKI_LEN
  }

  predicate ValidWindowSize(size: nat) {
    size == 0 || 64 <= size < 0x8000
  }

  /** The default for zero; bit vectors come in words of 32. */
  function WindowLength(size: nat): (r: nat)
    requires ValidWindowSize(size)
    ensures 0 < r <= MEDIAN
  {
    var n := if size == 0 then 128 else size;
    (n + 31) / 32 * 32
  }

  function EntriesOwned(entries: seq<KeyEntry>): seq<object> {
    if entries == [] then [] else SlotOwned(entries[0], None) + EntriesOwned(entries[1..])
  }

  lemma EntriesOwnedUnfold(entries: seq<KeyEntry>)
    ensures EntriesOwned(entries)
            == if entries == [] then [] else SlotOwned(entries[0], None) + EntriesOwned(entries[1..])
  {
  }

  lemma {:induction false} EntriesOwnedSnoc(entries: seq<KeyEntry>, e: KeyEntry)
    ensures EntriesOwned(entries + [e]) == EntriesOwned(entries) + SlotOwned(e, None)
  {
    hide SlotOwned, EntriesOwned;
    EntriesOwnedUnfold(entries + [e]);
    EntriesOwnedUnfold(entries);
    if entries != [] {
      EntriesOwnedSnoc(entries[1..], e);
      assert (entries + [e])[1..] == entries[1..] + [e];
    } else {
      EntriesOwnedUnfold([]);
      assert (entries + [e])[1..] == [];
    }
  }

  lemma {:induction false} AloneSlotsOwned(t: Stream, from: nat)
    requires from <= |t.table.content|
    ensures SlotsOwned(t, null, from) == EntriesOwned(t.table.content[from..])
    decreases |t.table.content| - from
  {
    hide SlotOwned, EntriesOwned;
    EntriesOwnedUnfold(t.table.content[from..]);
    if from < |t.table.content| {
      AloneSlotsOwned(t, from + 1);
      assert t.table.content[from..][1..] == t.table.content[from + 1..];
    }
  }

  lemma GrownTwice(a: seq<object>, b: seq<object>, base: set<object>, mid: set<object>, live: set<object>)
    requires Grown(a, base, mid) && Grown(b, mid, live)
    ensures Grown(a + b, base, live)
  {
    hide NoDuplicates;
    NoDuplicatesSplit(a, b);
    ElementsOfConcat(a, b);
  }

  lemma GrownMaybe(have: seq<object>, o: object?, base: set<object>, live: set<object>)
    requires Grown(have, base, live)
    ensures o == null ==> have + Unshared(o, null) == have
    ensures o != null ==> Unshared(o, null) == One(o)
  {
  }

  /** A key entry of the policy, on new objects. */
  ghost predicate EntryFor(e: KeyEntry, p: SlotPolicy, withXtn: bool) {
    && RtpKeysOf(e.keys) == PolicyKeys(p, withXtn)
    && CipherKeysOf(e.keys.rtcpCipher) == p.rtcpCipher
    && e.keys.rtcpAuth.key == p.rtcpAuthKey && e.keys.rtcpAuth.tagLen == p.rtcpTagLen
    && e.keys.cSalt == p.cSalt
    && DistinctXtnCipher(e.keys)
  }

  predicate DistinctXtnCipher(keys: SessionKeys) {
    keys.xtnCipher != keys.rtpCipher
  }

  method AllocRtp(kernel: Kernel, p: SlotPolicy, withXtn: bool)
    returns (rtpCipher: Cipher, rtpAuth: Auth, xtnCipher: Cipher?)
    modifies kernel`live
    ensures rtpCipher.algorithm == p.cipher.algorithm && rtpCipher.key == p.cipher.key
    ensures rtpAuth.key == p.authKey && rtpAuth.tagLen == p.tagLen
    ensures if withXtn
            then xtnCipher != null && xtnCipher != rtpCipher
                 && xtnCipher.algorithm == p.xtn.algorithm && xtnCipher.key == p.xtn.key
            else xtnCipher == null
    ensures Grown([] + One(rtpCipher) + One(rtpAuth) + Unshared(xtnCipher, null), old(kernel.live), kernel.live)
  {
    hide *;
    ghost var base := kernel.live;
    GrownFromNothing(base);
    rtpCipher := new Cipher(p.cipher.algorithm, p.cipher.key);
    Take(kernel, rtpCipher, [], base);
    rtpAuth := new Auth(p.authKey, p.tagLen);
    Take(kernel, rtpAuth, [] + One(rtpCipher), base);
    xtnCipher := null;
    if withXtn {
      xtnCipher := new Cipher(p.xtn.algorithm, p.xtn.key);
    }
    TakeMaybe(kernel, xtnCipher, [] + One(rtpCipher) + One(rtpAuth), base);
  }

  method AllocRtcp(kernel: Kernel, p: SlotPolicy)
    returns (rtcpCipher: Cipher, rtcpAuth: Auth, block: Block?<Octets>, limit: KeyLimit)
    modifies kernel`live
    ensures rtcpCipher.algorithm == p.rtcpCipher.algorithm && rtcpCipher.key == p.rtcpCipher.key
    ensures rtcpAuth.key == p.rtcpAuthKey && rtcpAuth.tagLen == p.rtcpTagLen
    ensures fresh(limit) && limit.limit == Limit(INITIAL_LIMIT, Normal)
    ensures Grown([] + One(rtcpCipher) + One(rtcpAuth) + Unshared(block, null) + One(limit),
                  old(kernel.live), kernel.live)
  {
    hide *;
    ghost var base := kernel.live;
    GrownFromNothing(base);
    rtcpCipher := new Cipher(p.rtcpCipher.algorithm, p.rtcpCipher.key);
    Take(kernel, rtcpCipher, [], base);
    rtcpAuth := new Auth(p.rtcpAuthKey, p.rtcpTagLen);
    Take(kernel, rtcpAuth, [] + One(rtcpCipher), base);
    block := null;
    if |p.mki| != 0 {
      block := new Block<Octets>(p.mki);
    }
    TakeMaybe(kernel, block, [] + One(rtcpCipher) + One(rtcpAuth), base);
    limit := new KeyLimit();
    Take(kernel, limit, [] + One(rtcpCipher) + One(rtcpAuth) + Unshared(block, null), base);
  }

  method AllocEntry(kernel: Kernel, p: SlotPolicy, withXtn: bool) returns (e: KeyEntry)
    modifies kernel`live
    ensures EntryFor(e, p, withXtn)
    ensures fresh(e.keys.limit) && e.keys.limit.limit == Limit(INITIAL_LIMIT, Normal)
    ensures Grown(SlotOwned(e, None), old(kernel.live), kernel.live)
  {
    hide *;
    var rtpCipher, rtpAuth, xtnCipher := AllocRtp(kernel, p, withXtn);
    ghost var mid := kernel.live;
    var rtcpCipher, rtcpAuth, block, limit := AllocRtcp(kernel, p);
    e := KeyEntry(SessionKeys(rtpCipher, xtnCipher, rtpAuth, rtcpCipher, rtcpAuth, p.salt, p.cSalt, p.mki, limit), block);
    GrownTwice([] + One(rtpCipher) + One(rtpAuth) + Unshared(xtnCipher, null),
               [] + One(rtcpCipher) + One(rtcpAuth) + Unshared(block, null) + One(limit),
               old(kernel.live), mid, kernel.live);
    SlotOwnedAlone(e);
    EntryIs(e, p, withXtn);
  }

  lemma GrownFromNothing(live: set<object>)
    ensures Grown([], live, live)
  {
  }

  lemma SlotOwnedAlone(e: KeyEntry)
    ensures SlotOwned(e, None)
            == ([] + One(e.keys.rtpCipher) + One(e.keys.rtpAuth) + Unshared(e.keys.xtnCipher, null))
               + ([] + One(e.keys.rtcpCipher) + One(e.keys.rtcpAuth) + Unshared(e.mkiBlock, null)
                  + One(e.keys.limit))
  {
  }

  lemma EntryIs(e: KeyEntry, p: SlotPolicy, withXtn: bool)
    requires e.keys.rtpCipher.algorithm == p.cipher.algorithm && e.keys.rtpCipher.key == p.cipher.key
    requires e.keys.rtpAuth.key == p.authKey && e.keys.rtpAuth.tagLen == p.tagLen
    requires if withXtn
             then e.keys.xtnCipher != null && e.keys.xtnCipher != e.keys.rtpCipher
                  && e.keys.xtnCipher.algorithm == p.xtn.algorithm && e.keys.xtnCipher.key == p.xtn.key
             else e.keys.xtnCipher == null
    requires e.keys.rtcpCipher.algorithm == p.rtcpCipher.algorithm && e.keys.rtcpCipher.key == p.rtcpCipher.key
    requires e.keys.rtcpAuth.key == p.rtcpAuthKey && e.keys.rtcpAuth.tagLen == p.rtcpTagLen
    requires e.keys.salt == p.salt && e.keys.cSalt == p.cSalt && e.keys.mki == p.mki
    ensures EntryFor(e, p, withXtn)
  {
  }

  /** Registers a new object. */
  method Take(kernel: Kernel, o: object, ghost have: seq<object>, ghost base: set<object>)
    requires o !in kernel.live && Grown(have, base, kernel.live)
    modifies kernel`live
    ensures kernel.live == old(kernel.live) + {o} && Grown(have + One(o), base, kernel.live)
  {
    hide Grown;
    GrownBy(have, o, base, kernel.live);
    kernel.Register(o);
  }

  method TakeMaybe(kernel: Kernel, o: object?, ghost have: seq<object>, ghost base: set<object>)
    requires (o == null || o !in kernel.live) && Grown(have, base, kernel.live)
    modifies kernel`live
    ensures Grown(have + Unshared(o, null), base, kernel.live)
  {
    hide Grown;
    GrownMaybe(have, o, base, kernel.live);
    if o != null {
      Take(kernel, o, have, base);
    }
  }

  method AllocEntries(kernel: Kernel, slots: seq<SlotPolicy>, withXtn: bool) returns (entries: seq<KeyEntry>)
    modifies kernel`live
    ensures |entries| == |slots|
    ensures forall i :: 0 <= i < |slots| ==> EntryFor(entries[i], slots[i], withXtn)
    ensures forall i :: 0 <= i < |slots| ==>
              fresh(entries[i].keys.limit) && entries[i].keys.limit.limit == Limit(INITIAL_LIMIT, Normal)
    ensures Grown(EntriesOwned(entries), old(kernel.live), kernel.live)
  {
    hide Grown, SlotOwned, EntryFor, EntriesOwned;
    entries := [];
    EntriesOwnedUnfold([]);
    GrownFromNothing(kernel.live);
    var i := 0;
    while i < |slots|
      invariant 0 <= i <= |slots| && |entries| == i
      invariant forall k :: 0 <= k < i ==> EntryFor(entries[k], slots[k], withXtn)
      invariant forall k :: 0 <= k < i ==>
                  fresh(entries[k].keys.limit) && entries[k].keys.limit.limit == Limit(INITIAL_LIMIT, Normal)
      invariant Grown(EntriesOwned(entries), old(kernel.live), kernel.live)
    {
      ghost var mid := kernel.live;
      var e := AllocEntry(kernel, slots[i], withXtn);
      GrownTwice(EntriesOwned(entries), SlotOwned(e, None), old(kernel.live), mid, kernel.live);
      EntriesOwnedSnoc(entries, e);
      entries := entries + [e];
      i := i + 1;
    }
  }

  /** A stream set up for the policy, on new objects only. */
  ghost predicate NewStreamFor(t: Stream, p: Policy)
    reads t
  {
    && t.ssrc == p.ssrc && t.rtp == p.rtp && t.rtcp == p.rtcp && t.allowRepeatTx == p.allowRepeatTx
    && t.Ids() == p.ids
    && ValidWindowSize(p.windowSize) && t.window.content == WindowLength(p.windowSize)
    && |t.table.content| == |p.slots|
    && (forall i | 0 <= i < |p.slots| :: EntryFor(t.table.content[i], p.slots[i], p.ids != []))
    && t.db == Empty(t.window.content) && t.rtcpDb == EmptyRdb()
    && t.direction == Unknown && t.pendingRoc == 0 && t.next == null
  }

  method AllocStream(kernel: Kernel, p: Policy) returns (t: Stream)
    requires ValidWindowSize(p.windowSize)
    modifies kernel`live
    ensures fresh(t) && NewStreamFor(t, p)
    ensures forall i | 0 <= i < |t.table.content| ::
              && fresh(t.table.content[i].keys.limit)
              && t.table.content[i].keys.limit.limit == Limit(INITIAL_LIMIT, Normal)
    ensures Grown(Owned(t, null), old(kernel.live), kernel.live)
  {
    hide *;
    var entries := AllocEntries(kernel, p.slots, p.ids != []);
    ghost var h0, base := EntriesOwned(entries), old(kernel.live);
    var table := new Block<seq<KeyEntry>>(entries);
    Take(kernel, table, h0, base);
    var window := new Block<nat>(WindowLength(p.windowSize));
    Take(kernel, window, h0 + One(table), base);
    var xtnIds: Block?<seq<int>> := null;
    if p.ids != [] {
      xtnIds := new Block<seq<int>>(p.ids);
    }
    TakeMaybe(kernel, xtnIds, h0 + One(table) + One(window), base);
    ghost var h3 := h0 + One(table) + One(window) + Unshared(xtnIds, null);
    t := new Stream(p.ssrc, table, window, xtnIds, p.rtp, p.rtcp, p.allowRepeatTx, Unknown);
    Take(kernel, t, h3, base);
    AloneOwned(t);
    NewStreamIs(t, p);
  }

  lemma AloneOwned(t: Stream)
    ensures SlotsFit(t, null)
    ensures Owned(t, null)
            == EntriesOwned(t.table.content) + One(t.table) + One(t.window) + Unshared(t.xtnIds, null) + One(t)
  {
    hide EntriesOwned, SlotsOwned;
    AloneSlotsOwned(t, 0);
    assert t.table.content[0..] == t.table.content;
    assert BlocksOwned(t, null) == One(t.table) + One(t.window) + Unshared(t.xtnIds, null) + One(t);
  }

  lemma NewStreamIs(t: Stream, p: Policy)
    requires t.ssrc == p.ssrc && t.rtp == p.rtp && t.rtcp == p.rtcp && t.allowRepeatTx == p.allowRepeatTx
    requires if p.ids == [] then t.xtnIds == null else t.xtnIds != null && t.xtnIds.content == p.ids
    requires ValidWindowSize(p.windowSize) && t.window.content == WindowLength(p.windowSize)
    requires |t.table.content| == |p.slots|
    requires forall i | 0 <= i < |p.slots| :: EntryFor(t.table.content[i], p.slots[i], p.ids != [])
    requires t.db == Empty(t.window.content) && t.rtcpDb == EmptyRdb()
    requires t.direction == Unknown && t.pendingRoc == 0 && t.next == null
    ensures NewStreamFor(t, p)
  {
    hide EntryFor, Empty, EmptyRdb, WindowLength;
  }

  // ----- Ownership of a whole list

  ghost predicate NothingShared(e: KeyEntry, te: KeyEntry) {
    && e.keys.rtpCipher != te.keys.rtpCipher && e.keys.rtpAuth != te.keys.rtpAuth
    && (e.keys.xtnCipher == null || e.keys.xtnCipher != te.keys.xtnCipher)
    && e.keys.rtcpCipher != te.keys.rtcpCipher && e.keys.rtcpAuth != te.keys.rtcpAuth
    && e.keys.limit != te.keys.limit
  }

  /** The stream shares nothing with the template. */
  ghost predicate Independent(t: Stream, template: Stream?) {
    template != null ==>
      && |t.table.content| <= |template.table.content|
      && (forall i | 0 <= i < |t.table.content| :: NothingShared(t.table.content[i], template.table.content[i]))
      && (t.xtnIds == null || t.xtnIds != template.xtnIds)
  }

  /** A stream is cloned from the template or shares nothing with it. */
  ghost predicate Related(t: Stream, template: Stream?) {
    if template != null && CloneOf(t, template) then true else Independent(t, template)
  }

  lemma RelatedFits(t: Stream, template: Stream?)
    requires Related(t, template)
    ensures SlotsFit(t, template)
  {
    if template != null && CloneOf(t, template) {
      assert |KeysOf(t.table.content)| == |t.table.content|;
    }
  }

  lemma IndependentSlot(e: KeyEntry, te: KeyEntry)
    requires NothingShared(e, te)
    ensures SlotOwned(e, Some(te)) == SlotOwned(e, None)
  {
  }

  lemma {:induction false} IndependentSlots(t: Stream, template: Stream, from: nat)
    requires Independent(t, template) && from <= |t.table.content|
    ensures SlotsOwned(t, template, from) == SlotsOwned(t, null, from)
    decreases |t.table.content| - from
  {
    hide SlotOwned, NothingShared;
    if from < |t.table.content| {
      IndependentSlots(t, template, from + 1);
      IndependentSlot(t.table.content[from], template.table.content[from]);
    }
  }

  /** Such a stream owns the same whichever template it is held against. */
  lemma IndependentOwned(t: Stream, template: Stream?)
    requires Independent(t, template)
    ensures SlotsFit(t, template) && Owned(t, template) == Owned(t, null)
  {
    hide SlotsOwned, NothingShared;
    if template != null {
      IndependentSlots(t, template, 0);
    }
  }

  /** Objects of disjoint origin are not shared. */
  lemma DisjointIndependent(t: Stream, template: Stream)
    requires |t.table.content| <= |template.table.content|
    requires Elements(Owned(t, null)) !! Elements(Owned(template, null))
    ensures Independent(t, template)
  {
    hide SlotsOwned, EntriesOwned, Owned, NothingShared, Elements, SlotOwned;
    OwnedContains(t);
    OwnedContains(template);
    forall i | 0 <= i < |t.table.content|
      ensures NothingShared(t.table.content[i], template.table.content[i])
    {
      EntryOwned(t.table.content, i);
      EntryOwned(template.table.content, i);
      DisjointSlots(t.table.content[i], template.table.content[i]);
    }
  }

  lemma OwnedContains(t: Stream)
    ensures Elements(EntriesOwned(t.table.content)) <= Elements(Owned(t, null))
    ensures t.xtnIds != null ==> t.xtnIds in Elements(Owned(t, null))
    ensures t in Elements(Owned(t, null))
  {
    hide EntriesOwned, Owned;
    AloneOwned(t);
  }

  lemma DisjointSlots(e: KeyEntry, te: KeyEntry)
    requires Elements(SlotOwned(e, None)) !! Elements(SlotOwned(te, None))
    ensures NothingShared(e, te)
  {
    hide SlotOwned, Elements;
    SlotElements(e);
    SlotElements(te);
  }

  lemma {:induction false} EntryOwned(entries: seq<KeyEntry>, i: nat)
    requires i < |entries|
    ensures Elements(SlotOwned(entries[i], None)) <= Elements(EntriesOwned(entries))
  {
    hide SlotOwned, EntriesOwned;
    EntriesOwnedUnfold(entries);
    if i > 0 {
      EntryOwned(entries[1..], i - 1);
    }
  }

  lemma SlotElements(e: KeyEntry)
    ensures var s := Elements(SlotOwned(e, None));
            && e.keys.rtpCipher in s && e.keys.rtpAuth in s && e.keys.rtcpCipher in s && e.keys.rtcpAuth in s
            && e.keys.limit in s && (e.keys.xtnCipher != null ==> e.keys.xtnCipher in s)
  {
    hide SlotOwned;
    SlotOwnedAlone(e);
  }

  // ----- What a stream refers to

  ghost function SlotObjects(keys: SessionKeys): set<object> {
    {keys.rtpCipher, keys.rtpAuth, keys.rtcpCipher, keys.rtcpAuth, keys.limit}
    + if keys.xtnCipher == null then {} else {keys.xtnCipher}
  }

  /** Everything the stream refers to: what it would own if it shared nothing. */
  ghost function Referred(t: Stream): set<object> {
    Elements(Owned(t, null))
  }

  lemma SlotReferred(e: KeyEntry, te: KeyEntry)
    ensures Elements(SlotOwned(e, None)) <= Elements(SlotOwned(e, Some(te))) + Elements(SlotOwned(te, None))
  {
  }

  lemma {:induction false} SlotsReferred(t: Stream, template: Stream, from: nat)
    requires SlotsFit(t, template) && from <= |t.table.content|
    ensures Elements(SlotsOwned(t, null, from))
            <= Elements(SlotsOwned(t, template, from)) + Elements(SlotsOwned(template, null, from))
    decreases |t.table.content| - from
  {
    hide SlotOwned;
    if from < |t.table.content| {
      SlotsReferred(t, template, from + 1);
      SlotReferred(t.table.content[from], template.table.content[from]);
      ElementsOfConcat(SlotOwned(t.table.content[from], None), SlotsOwned(t, null, from + 1));
      ElementsOfConcat(SlotOwned(t.table.content[from], Some(template.table.content[from])),
                       SlotsOwned(t, template, from + 1));
      ElementsOfConcat(SlotOwned(template.table.content[from], None), SlotsOwned(template, null, from + 1));
    }
  }

  /** All of it is owned, by the stream or by the template. */
  lemma ReferredIsOwned(t: Stream, template: Stream)
    requires SlotsFit(t, template)
    ensures Referred(t) <= Elements(Owned(t, template)) + Referred(template)
  {
    hide SlotsOwned, Elements;
    SlotsReferred(t, template, 0);
    BlocksReferred(t, template);
    ElementsOfConcat(SlotsOwned(t, null, 0), BlocksOwned(t, null));
    ElementsOfConcat(SlotsOwned(t, template, 0), BlocksOwned(t, template));
    ElementsOfConcat(SlotsOwned(template, null, 0), BlocksOwned(template, null));
  }

  lemma BlocksReferred(t: Stream, template: Stream)
    ensures Elements(BlocksOwned(t, null)) <= Elements(BlocksOwned(t, template)) + Elements(BlocksOwned(template, null))
  {
  }

  /** The key objects of every slot are among it. */
  lemma KeysReferred(t: Stream, slot: nat)
    requires slot < |t.table.content|
    ensures SlotObjects(t.table.content[slot].keys) <= Referred(t)
    ensures t.xtnIds != null ==> t.xtnIds in Referred(t)
  {
    hide SlotsOwned, Owned, SlotOwned, EntriesOwned, Elements;
    OwnedContains(t);
    EntryOwned(t.table.content, slot);
    SlotElements(t.table.content[slot]);
  }
}
