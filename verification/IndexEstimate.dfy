/** Packet index estimation from an externally supplied rollover counter. */
module IndexEstimate {
  import opened SrtpStatus
  import opened ReplayWindow

  datatype RocEstimate = RocEstimate(status: Status, est: nat, delta: int)

  /** The value of a 64-bit unsigned difference after a cast to a 32-bit signed integer. */
  function Int32(n: int): int {
    var low := n % UINT32;
    if low >= UINT32 / 2 then low - UINT32 else low
  }

  function EstimateWithRoc(index: nat, roc: nat, s: nat): RocEstimate
    requires roc < UINT32 && s < SEQ_MAX
  {
    var est := roc * SEQ_MAX + s;
    if est > index && est - index > MEDIAN then RocEstimate(IndexAdvance, est, 0)
    else if est < index && index - est > MEDIAN then RocEstimate(IndexOld, est, 0)
    else RocEstimate(Ok, est, Int32(est - index))
  }

  /** The three verdicts split the line at distance MEDIAN from the current index, and an
      accepted difference survives the narrowing cast. */
  lemma EstimateWithRocIsExact(index: nat, roc: nat, s: nat)
    requires roc < UINT32 && s < SEQ_MAX
    ensures var e := EstimateWithRoc(index, roc, s);
            && e.est < INDEX_LIMIT && e.est % SEQ_MAX == s && e.est / SEQ_MAX == roc
            && (e.status == Ok <==> Distance(e.est, index) <= MEDIAN)
            && (e.status == IndexAdvance <==> e.est > index + MEDIAN)
            && (e.status == IndexOld <==> index > e.est + MEDIAN)
            && (e.status == Ok ==> index + e.delta == e.est)
            && (e.status != Ok ==> e.delta == 0)
  {
  }

  /** The verdict computed with 32-bit arithmetic only, from the rollover counter gap. */
  function ReducedVerdict(index: nat, roc: nat, s: nat): Status
    requires roc < UINT32 && s < SEQ_MAX
  {
    var est := roc * SEQ_MAX + s;
    var internalRoc := index / SEQ_MAX % UINT32;
    if est > index then
      var gap := (roc - internalRoc) % UINT32;
      if gap > 1 then IndexAdvance
      else if (gap * SEQ_MAX + s - index % SEQ_MAX) % UINT32 > MEDIAN then IndexAdvance
      else Ok
    else if est < index then
      var gap := (internalRoc - roc) % UINT32;
      if gap > 1 then IndexAdvance
      else if (gap * SEQ_MAX + index % SEQ_MAX - s) % UINT32 > MEDIAN then IndexOld
      else Ok
    else
      Ok
  }

  /** Both computations accept the same packets; their verdicts differ exactly when the
      external counter is more than one behind. */
  lemma ReducedVerdictAgrees(index: nat, roc: nat, s: nat)
    requires index < INDEX_LIMIT && roc < UINT32 && s < SEQ_MAX
    ensures ReducedVerdict(index, roc, s) == Ok <==> EstimateWithRoc(index, roc, s).status == Ok
    ensures ReducedVerdict(index, roc, s) == EstimateWithRoc(index, roc, s).status
            <==> index / SEQ_MAX - roc <= 1
  {
    var internalRoc, low := index / SEQ_MAX, index % SEQ_MAX;
    assert index == internalRoc * SEQ_MAX + low && internalRoc < UINT32;
    var est := roc * SEQ_MAX + s;
    if est < index {
      assert roc <= internalRoc;
    }
  }
}
