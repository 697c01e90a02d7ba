/** The RTP replay database: a 48-bit packet index and a window of recently recorded indices. */
module ReplayWindow {
  import opened SrtpStatus

  const MEDIAN: int := 0x8000
  const SEQ_MAX: int := 0x1_0000
  const INDEX_LIMIT: int := 0x1_0000_0000_0000
  const UINT32: int := 0x1_0000_0000
  const UINT64: int := 0x1_0000_0000_0000_0000

  /** The last position of `window` stands for `index`, the one before it for `index - 1`, and so on. */
  datatype Rdbx = Rdbx(index: nat, window: seq<bool>)

  function Empty(size: nat): Rdbx {
    Rdbx(0, Zeros(size))
  }

  function Zeros(size: nat): seq<bool> {
    seq(size, _ => false)
  }

  /** The window sizes that stream initialization can produce. */
  predicate ValidWindow(db: Rdbx) {
    0 < |db.window| <= MEDIAN
  }

  // ----- Index estimation

  datatype Estimate = Estimate(est: nat, delta: int)

  function IndexGuess(local: nat, s: nat): Estimate
    requires s < SEQ_MAX
  {
    var localRoc, localSeq := local / SEQ_MAX % UINT32, local % SEQ_MAX;
    if localSeq < MEDIAN then
      if s - localSeq > MEDIAN then
        Estimate((localRoc - 1) % UINT32 * SEQ_MAX + s, s - localSeq - SEQ_MAX)
      else
        Estimate(localRoc * SEQ_MAX + s, s - localSeq)
    else
      if localSeq - MEDIAN > s then
        Estimate((localRoc + 1) % UINT32 * SEQ_MAX + s, s - localSeq + SEQ_MAX)
      else
        Estimate(localRoc * SEQ_MAX + s, s - localSeq)
  }

  function EstimateIndex(db: Rdbx, s: nat): Estimate
    requires s < SEQ_MAX
  {
    if db.index > MEDIAN then IndexGuess(db.index, s) else Estimate(s, s - db.index % SEQ_MAX)
  }

  /** The rollover counter is at its maximum and the sequence number asks for the next one. */
  predicate RocWraps(index: nat, s: nat) {
    index / SEQ_MAX == UINT32 - 1 && index % SEQ_MAX - MEDIAN > s
  }

  /** Past the start-up range the estimate is the 64-bit index plus the difference, without what is
      beyond 48 bits, however often the rollover counter has wrapped. */
  lemma EstimateIsTruncated(db: Rdbx, s: nat)
    requires s < SEQ_MAX && db.index > MEDIAN
    ensures var e := EstimateIndex(db, s);
            && -MEDIAN <= e.delta <= MEDIAN && db.index + e.delta >= 0
            && e.est == (db.index + e.delta) % INDEX_LIMIT
  {
    var roc, low := db.index / SEQ_MAX, db.index % SEQ_MAX;
    assert db.index == roc * SEQ_MAX + low;
    var e := EstimateIndex(db, s);
    var lap := if low < MEDIAN && s - low > MEDIAN then -1 else if low >= MEDIAN && low - MEDIAN > s then 1 else 0;
    assert db.index + e.delta == (roc + lap) * SEQ_MAX + s;
    TruncatedRoc(roc, lap);
    Truncated(roc + lap, s);
  }

  lemma TruncatedRoc(roc: nat, lap: int)
    ensures (roc % UINT32 + lap) % UINT32 == (roc + lap) % UINT32
  {
    var q := roc / UINT32;
    assert roc + lap == q * UINT32 + (roc % UINT32 + lap);
  }

  lemma Truncated(roc: int, s: nat)
    requires s < SEQ_MAX
    ensures (roc * SEQ_MAX + s) % INDEX_LIMIT == roc % UINT32 * SEQ_MAX + s
  {
    var q, r := roc / UINT32, roc % UINT32;
    assert roc * SEQ_MAX + s == q * INDEX_LIMIT + (r * SEQ_MAX + s);
  }

  lemma EstimateRange(db: Rdbx, s: nat)
    requires s < SEQ_MAX
    ensures EstimateIndex(db, s).est < INDEX_LIMIT && EstimateIndex(db, s).est % SEQ_MAX == s
  {
  }

  /** The index passes the 48-bit range exactly where the rollover counter wraps. */
  lemma WrapIsOverrun(db: Rdbx, s: nat)
    requires s < SEQ_MAX && db.index < INDEX_LIMIT
    ensures RocWraps(db.index, s) <==> db.index + EstimateIndex(db, s).delta >= INDEX_LIMIT
  {
    var roc, low := db.index / SEQ_MAX, db.index % SEQ_MAX;
    assert db.index == roc * SEQ_MAX + low && 0 <= roc < UINT32;
  }

  /** The estimate has the packet's sequence number, fits 48 bits, and agrees with the returned
      difference exactly when the rollover counter does not wrap. */
  lemma EstimateIsIndexPlusDelta(db: Rdbx, s: nat)
    requires s < SEQ_MAX && db.index < INDEX_LIMIT
    ensures var e := EstimateIndex(db, s);
            && e.est < INDEX_LIMIT && e.est % SEQ_MAX == s
            && -SEQ_MAX < e.delta < SEQ_MAX
            && (e.est == db.index + e.delta <==> !RocWraps(db.index, s))
  {
    hide IndexGuess, RocWraps;
    EstimateRange(db, s);
    WrapIsOverrun(db, s);
    if db.index > MEDIAN {
      EstimateIsTruncated(db, s);
      BelowLimit(db.index + EstimateIndex(db, s).delta);
    }
  }

  lemma BelowLimit(n: nat)
    ensures n % INDEX_LIMIT == n <==> n < INDEX_LIMIT
  {
  }

  /** No index with the packet's sequence number is closer to the current index than the estimate
      (section 3.3.1 of RFC 3711). Past the start-up range it is at most half a sequence space away; up to
      there it is the lowest such index. */
  lemma EstimateIsClosest(db: Rdbx, s: nat, c: nat)
    requires s < SEQ_MAX && db.index < INDEX_LIMIT && !RocWraps(db.index, s)
    requires c % SEQ_MAX == s
    ensures var e := EstimateIndex(db, s);
            && Distance(e.est, db.index) <= Distance(c, db.index)
            && (if db.index > MEDIAN then Distance(e.est, db.index) <= MEDIAN else e.est <= c)
  {
    EstimateIsIndexPlusDelta(db, s);
    var e := EstimateIndex(db, s);
    var k := c / SEQ_MAX - e.est / SEQ_MAX;
    assert c - e.est == k * SEQ_MAX;
  }

  /** Index `i` is less than half a sequence space from the current one; of the two that are exactly half
      a sequence space away, it is the one in the current range of sequence numbers. */
  predicate Near(index: nat, i: nat) {
    || Distance(i, index) < MEDIAN
    || (Distance(i, index) == MEDIAN && i / SEQ_MAX == index / SEQ_MAX)
  }

  /** Exactly when a packet that was sent under index `i` is taken for what it is. */
  lemma EstimateIsTheIndexIff(db: Rdbx, i: nat)
    requires i < INDEX_LIMIT && db.index < INDEX_LIMIT
    ensures EstimateIndex(db, i % SEQ_MAX).est == i
            <==> if db.index <= MEDIAN || RocWraps(db.index, i % SEQ_MAX) then i < SEQ_MAX else Near(db.index, i)
  {
    var s, k := i % SEQ_MAX, i / SEQ_MAX - db.index / SEQ_MAX;
    var e := EstimateIndex(db, s);
    EstimateIsIndexPlusDelta(db, s);
    assert i - db.index == k * SEQ_MAX + s - db.index % SEQ_MAX;
    if db.index > MEDIAN && !RocWraps(db.index, s) {
      EstimateIsClosest(db, s, i);
    }
  }

  function Distance(a: int, b: int): nat {
    if a < b then b - a else a - b
  }

  // ----- Replay check and update

  function Check(db: Rdbx, delta: int): Status {
    if delta > 0 then Ok
    else if |db.window| - 1 + delta < 0 then ReplayOld
    else if db.window[|db.window| - 1 + delta] then ReplayFail
    else Ok
  }

  function LeftShift(window: seq<bool>, shift: nat): (r: seq<bool>)
    ensures |r| == |window|
  {
    seq(|window|, i requires 0 <= i < |window| => i + shift < |window| && window[i + shift])
  }

  function AddIndex(db: Rdbx, delta: int): (r: Rdbx)
    requires ValidWindow(db) && |db.window| - 1 + delta >= 0
    ensures |r.window| == |db.window|
  {
    if delta > 0 then
      Rdbx((db.index + delta % SEQ_MAX) % UINT64,
           LeftShift(db.window, delta)[|db.window| - 1 := true])
    else
      db.(window := db.window[|db.window| - 1 + delta := true])
  }

  datatype SetResult = SetResult(db: Rdbx, status: Status)

  function SetRocSeq(db: Rdbx, roc: nat, s: nat): SetResult {
    if roc < db.index / SEQ_MAX then SetResult(db, ReplayOld)
    else SetResult(Rdbx(roc * SEQ_MAX + s, Zeros(|db.window|)), Ok)
  }

  // ----- What the window remembers

  predicate Marked(db: Rdbx, i: int) {
    i <= db.index && db.index - i < |db.window| && db.window[|db.window| - 1 - (db.index - i)]
  }

  /** Every index of `used` is behind the database, and marked if the window reaches it. */
  ghost predicate Covers(db: Rdbx, used: set<nat>) {
    forall i | i in used :: i <= db.index && (db.index - i < |db.window| ==> Marked(db, i))
  }

  /** Every mark of the window stands for an index of `used`. */
  ghost predicate MarksOnly(db: Rdbx, used: set<nat>) {
    forall i: int | Marked(db, i) :: i in used
  }

  /** The check accepts exactly the indices that are new and not older than the window, and says which of
      the two the others are. */
  lemma CheckIsExact(db: Rdbx, used: set<nat>, i: nat)
    requires ValidWindow(db) && Covers(db, used) && MarksOnly(db, used)
    ensures Check(db, i - db.index) == Ok <==> i !in used && i > db.index - |db.window|
    ensures Check(db, i - db.index) == ReplayOld <==> i <= db.index - |db.window|
    ensures Check(db, i - db.index) == ReplayFail <==> i in used && i > db.index - |db.window|
  {
    assert i in used ==> i <= db.index;
    assert Marked(db, i) ==> i in used;
  }

  /** A new window remembers nothing. */
  lemma EmptyTracks(size: nat)
    ensures Empty(size).index == 0 && |Empty(size).window| == size
    ensures Covers(Empty(size), {}) && MarksOnly(Empty(size), {})
  {
  }

  lemma AddIndexMarks(db: Rdbx, i: nat, j: int)
    requires ValidWindow(db) && i < UINT64
    requires -|db.window| < i - db.index < SEQ_MAX
    ensures var db' := AddIndex(db, i - db.index);
            && db'.index == (if i > db.index then i else db.index)
            && (Marked(db', j) <==> j == i || (Marked(db, j) && db'.index - j < |db.window|))
  {
    var delta := i - db.index;
    if delta > 0 {
      assert (db.index + delta % SEQ_MAX) % UINT64 == i;
    }
  }

  lemma AddIndexTracks(db: Rdbx, used: set<nat>, i: nat)
    requires ValidWindow(db) && Covers(db, used) && i < UINT64
    requires -|db.window| < i - db.index < SEQ_MAX
    ensures var db' := AddIndex(db, i - db.index);
            && Covers(db', used + {i})
            && db'.index == (if i > db.index then i else db.index)
            && (MarksOnly(db, used) ==> MarksOnly(db', used + {i}))
  {
    forall j: int { AddIndexMarks(db, i, j); }
  }

  /** Jumping more than half a sequence space ahead forgets no index the check would still need. */
  lemma AdvanceTracks(db: Rdbx, used: set<nat>, i: nat)
    requires ValidWindow(db) && Covers(db, used)
    requires db.index + MEDIAN < i < INDEX_LIMIT
    ensures i !in used
    ensures var r := SetRocSeq(db, i / SEQ_MAX, i % SEQ_MAX);
            && r.status == Ok
            && r.db.index == i && ValidWindow(r.db)
            && Covers(AddIndex(r.db, 0), used + {i})
            && MarksOnly(AddIndex(r.db, 0), used + {i})
  {
    var db' := SetRocSeq(db, i / SEQ_MAX, i % SEQ_MAX).db;
    assert db'.index == i;
    forall j: int { AddIndexMarks(db', i, j); }
  }
}
