/** rocsolver_geqr2_batched_impl: the argument checks of batched xGEQR2, whose
    matrices are given as an array of pointers, and the four-region workspace
    lifecycle around its template. */
module Geqr2Batched {
  import opened Common
  import opened Workspace
  import Geqr2

  /** The early returns of the entry point, in source order: pointers before
      sizes, and the batch count among the sizes. */
  function Checks(handle: Ptr, m: int, n: int, A: Ptr, lda: int, ipiv: Ptr, batchCount: int): seq<Check>
  {
    [ Check(handle != Null, InvalidHandle),
      Check(A != Null && ipiv != Null, InvalidPointer),
      Check(m >= 0 && n >= 0 && lda >= m && batchCount >= 0, InvalidSize) ]
  }

  /** The status of the argument checks: a null handle first, then the
      pointers, then the sizes and the batch count. */
  function Validate(handle: Ptr, m: int, n: int, A: Ptr, lda: int, ipiv: Ptr, batchCount: int): (r: Status)
    ensures r == InvalidHandle <==> handle == Null
    ensures r == InvalidPointer <==> handle != Null && (A == Null || ipiv == Null)
    ensures r == InvalidSize <==>
      handle != Null && A != Null && ipiv != Null && (m < 0 || n < 0 || lda < m || batchCount < 0)
    ensures r == Success <==>
      handle != Null && A != Null && ipiv != Null && m >= 0 && n >= 0 && lda >= m && batchCount >= 0
  {
    var cs := Checks(handle, m, n, A, lda, ipiv, batchCount);
    var r := FirstFailing(cs);
    assert !cs[0].ok ==> r == cs[0].failure;
    assert cs[0].ok && !cs[1].ok ==> r == cs[1].failure;
    assert cs[0].ok && cs[1].ok && !cs[2].ok ==> r == cs[2].failure;
    r
  }

  /** With a batch of one, the batched checks agree with the single-matrix
      ones; a negative batch count is the only extra failure. */
  lemma AgreesWithSingle(handle: Ptr, m: int, n: int, A: Ptr, lda: int, ipiv: Ptr, batchCount: int)
    ensures batchCount >= 0 ==>
      Validate(handle, m, n, A, lda, ipiv, batchCount) == Geqr2.Validate(handle, m, n, A, lda, ipiv)
    ensures batchCount < 0 && Geqr2.Validate(handle, m, n, A, lda, ipiv) == Success ==>
      Validate(handle, m, n, A, lda, ipiv, batchCount) == InvalidSize
  {
  }

  /** The template gets the caller's pointer array unshifted with stride 0, the
      caller's stride between the tau vectors, and the caller's batch count. */
  function Args(stridep: int, batchCount: int): (a: LaunchArgs)
    ensures a.shiftA == 0 && a.strideA == 0 && a.strideP == stridep && a.batchCount == batchCount
  {
    LaunchArgs(0, 0, 0, stridep, 0, 0, batchCount)
  }

  /** rocsolver_geqr2_batched_impl. The planner is asked for the batched sizes
      of the whole batch. */
  method Geqr2BatchedImpl(
    mem: Memory, t: ScalarType, handle: Ptr, m: int, n: int, A: Ptr, lda: int, ipiv: Ptr,
    stridep: int, batchCount: int,
    plan: (ScalarType, Geqr2.SizeQuery) -> seq<nat>, grants: seq<bool>, copyStatus: Status, templateStatus: Status)
    returns (st: Status, session: Option<Session>)
    requires mem.Valid() && |grants| == 4
    requires |plan(t, Geqr2.Geqr2Query(true, m, n, batchCount))| == 4
    requires plan(t, Geqr2.Geqr2Query(true, m, n, batchCount))[0] >= 3
    modifies mem
    ensures mem.Valid()
    ensures var v := Validate(handle, m, n, A, lda, ipiv, batchCount);
      v != Success ==> st == v && session == None && mem.live == old(mem.live) && mem.contents == old(mem.contents)
    ensures Validate(handle, m, n, A, lda, ipiv, batchCount) == Success ==>
      && session.Some?
      && session.value.sizes == plan(t, Geqr2.Geqr2Query(true, m, n, batchCount))
      && Followed(t, session.value, st, grants, copyStatus, templateStatus, Args(stridep, batchCount),
                  old(mem.live), mem.live, old(mem.contents), mem.contents)
  {
    st := Validate(handle, m, n, A, lda, ipiv, batchCount);
    if st != Success {
      session := None;
      return;
    }
    var sizes := plan(t, Geqr2.Geqr2Query(true, m, n, batchCount));
    var s;
    st, s := RunSession(mem, t, sizes, grants, copyStatus, templateStatus, Args(stridep, batchCount));
    session := Some(s);
  }
}
