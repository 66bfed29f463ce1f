/**
 * Log sequence numbers: a (view id, sequence number) pair, ordered by view
 * first and sequence number second. They mark positions in the write-ahead
 * log and the state an on-disk snapshot holds.
 */
module Lsns {

  datatype Lsn = Lsn(viewId: int, sequenceNo: int)

  /** The on-disk LSN of a database that has no snapshot yet. */
  const NoDbLsn: Lsn := Lsn(0, 0)

  /** `a` comes strictly before `b`. */
  predicate Before(a: Lsn, b: Lsn) {
    a.viewId < b.viewId || (a.viewId == b.viewId && a.sequenceNo < b.sequenceNo)
  }

  /** `LSN.compareTo`: negative, zero or positive as `a` is before, equal to or after `b`. */
  function CompareTo(a: Lsn, b: Lsn): (r: int)
    ensures r < 0 <==> Before(a, b)
    ensures r == 0 <==> a == b
    ensures r > 0 <==> Before(b, a)
  {
    if a.viewId > b.viewId then 1
    else if a.viewId < b.viewId then -1
    else if a.sequenceNo > b.sequenceNo then 1
    else if a.sequenceNo < b.sequenceNo then -1
    else 0
  }

  /** The LSN right after `a` in the same view. */
  function Next(a: Lsn): (r: Lsn)
    ensures Before(a, r) && r.viewId == a.viewId
  {
    Lsn(a.viewId, a.sequenceNo + 1)
  }

  function Max(a: Lsn, b: Lsn): (r: Lsn)
    ensures (r == a || r == b) && !Before(r, a) && !Before(r, b)
  {
    if Before(a, b) then b else a
  }

  lemma {:induction false} BeforeStrictTotalOrder(a: Lsn, b: Lsn, c: Lsn)
    ensures !Before(a, a)
    ensures Before(a, b) && Before(b, c) ==> Before(a, c)
    ensures a == b || Before(a, b) || Before(b, a)
  {
  }
}
