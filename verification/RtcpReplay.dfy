/** The SRTCP replay database: a 31-bit counter and the 128 indices that start with it. */
module RtcpReplay {
  import opened SrtpStatus
  import opened ReplayWindow

  const RDB_BITS: nat := 128
  const MAX_RTCP_INDEX: nat := 0x7fff_ffff

  /** Position `k` of `bits` stands for index `start + k`. */
  datatype Rdb = Rdb(start: nat, bits: seq<bool>)

  function EmptyRdb(): Rdb {
    Rdb(0, Zeros(RDB_BITS))
  }

  predicate ValidRdb(db: Rdb) {
    |db.bits| == RDB_BITS && db.start <= MAX_RTCP_INDEX
  }

  function CheckRdb(db: Rdb, i: nat): Status
    requires ValidRdb(db)
  {
    if i >= db.start + RDB_BITS then Ok
    else if i < db.start then ReplayOld
    else if db.bits[i - db.start] then ReplayFail
    else Ok
  }

  function AddRdb(db: Rdb, i: nat): (r: Rdb)
    requires ValidRdb(db) && db.start <= i <= MAX_RTCP_INDEX
    ensures ValidRdb(r)
  {
    if i - db.start < RDB_BITS then db.(bits := db.bits[i - db.start := true])
    else
      var shift := i - db.start - (RDB_BITS - 1);
      Rdb(db.start + shift, LeftShift(db.bits, shift)[RDB_BITS - 1 := true])
  }

  /** The sender's use of the database: a plain counter. */
  function IncrementRdb(db: Rdb): Option<Rdb> {
    if db.start >= MAX_RTCP_INDEX then None else Some(db.(start := db.start + 1))
  }

  predicate MarkedRdb(db: Rdb, i: int)
    requires ValidRdb(db)
  {
    db.start <= i < db.start + RDB_BITS && db.bits[i - db.start]
  }

  /** Every used index is below the window or marked in it, and only used indices are marked. */
  ghost predicate TracksRdb(db: Rdb, used: set<nat>) {
    && ValidRdb(db)
    && (forall i | i in used :: i < db.start || MarkedRdb(db, i))
    && (forall i: int | MarkedRdb(db, i) :: i in used)
  }

  /** The check accepts exactly the unused indices from the window's start on. */
  lemma CheckRdbIsExact(db: Rdb, used: set<nat>, i: nat)
    requires TracksRdb(db, used)
    ensures CheckRdb(db, i) == Ok <==> i !in used && i >= db.start
    ensures CheckRdb(db, i) == ReplayOld <==> i < db.start
    ensures CheckRdb(db, i) == ReplayFail <==> i in used && i >= db.start
  {
    assert MarkedRdb(db, i) ==> i in used;
  }

  /** The 128 positions reach up to the highest index. */
  lemma AddRdbTracks(db: Rdb, used: set<nat>, i: nat)
    requires TracksRdb(db, used) && db.start <= i <= MAX_RTCP_INDEX
    ensures TracksRdb(AddRdb(db, i), used + {i})
    ensures AddRdb(db, i).start == if i < db.start + 128 then db.start else i - 127
  {
    var db' := AddRdb(db, i);
    forall j: int
      ensures MarkedRdb(db', j) <==> j == i || (MarkedRdb(db, j) && j >= db'.start)
    {
    }
  }
}
