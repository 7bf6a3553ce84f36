/** rocsolver_potf2_strided_batched_impl: the argument checks of strided
    batched xPOTF2 and the three-region workspace lifecycle around its
    template. */
module Potf2StridedBatched {
  import opened Common
  import opened Workspace

  /** The early returns of the entry point, in source order: pointers before
      sizes. */
  function Checks(handle: Ptr, n: int, A: Ptr, lda: int, info: Ptr, batchCount: int): seq<Check>
  {
    [ Check(handle != Null, InvalidHandle),
      Check(A != Null && info != Null, InvalidPointer),
      Check(n >= 0 && lda >= n && batchCount >= 0, InvalidSize) ]
  }

  /** The status of the argument checks: a null handle first, then the
      pointers, then the sizes and the batch count. */
  function Validate(handle: Ptr, n: int, A: Ptr, lda: int, info: Ptr, batchCount: int): (r: Status)
    ensures r == InvalidHandle <==> handle == Null
    ensures r == InvalidPointer <==> handle != Null && (A == Null || info == Null)
    ensures r == InvalidSize <==>
      handle != Null && A != Null && info != Null && (n < 0 || lda < n || batchCount < 0)
    ensures r == Success <==>
      handle != Null && A != Null && info != Null && n >= 0 && lda >= n && batchCount >= 0
  {
    var cs := Checks(handle, n, A, lda, info, batchCount);
    var r := FirstFailing(cs);
    assert !cs[0].ok ==> r == cs[0].failure;
    assert cs[0].ok && !cs[1].ok ==> r == cs[1].failure;
    assert cs[0].ok && cs[1].ok && !cs[2].ok ==> r == cs[2].failure;
    r
  }

  /** A null pointer is reported whatever the sizes are: the pointers are
      checked before the sizes. */
  lemma PointersBeforeSizes(handle: Ptr, n: int, lda: int, batchCount: int,
                            n': int, lda': int, batchCount': int, A: Ptr, info: Ptr)
    requires Validate(handle, n, A, lda, info, batchCount) == InvalidPointer
    ensures Validate(handle, n', A, lda', info, batchCount') == InvalidPointer
  {
  }

  /** The planner's questions, answered by rocsolver_potf2_getMemorySize. */
  datatype SizeQuery = Potf2Query(n: int, batchCount: int)

  /** The template gets the caller's stride between matrices and the caller's
      batch count, with shift 0. */
  function Args(strideA: int, batchCount: int): (a: LaunchArgs)
    ensures a.shiftA == 0 && a.strideA == strideA && a.batchCount == batchCount
  {
    LaunchArgs(0, strideA, 0, 0, 0, 0, batchCount)
  }

  /** rocsolver_potf2_strided_batched_impl. `plan` answers getMemorySize,
      `grants` the three hipMalloc calls (constants, work, pivotGPU),
      `copyStatus` the hipMemcpy of the constants, and `templateStatus` is what
      the template returns. */
  method Potf2StridedBatchedImpl(
    mem: Memory, t: ScalarType, handle: Ptr, uplo: Fill, n: int, A: Ptr, lda: int, strideA: int,
    info: Ptr, batchCount: int,
    plan: (ScalarType, SizeQuery) -> seq<nat>, grants: seq<bool>, copyStatus: Status, templateStatus: Status)
    returns (st: Status, session: Option<Session>)
    requires mem.Valid() && |grants| == 3
    requires |plan(t, Potf2Query(n, batchCount))| == 3 && plan(t, Potf2Query(n, batchCount))[0] >= 3
    modifies mem
    ensures mem.Valid()
    ensures var v := Validate(handle, n, A, lda, info, batchCount);
      v != Success ==> st == v && session == None && mem.live == old(mem.live) && mem.contents == old(mem.contents)
    ensures Validate(handle, n, A, lda, info, batchCount) == Success ==>
      && session.Some?
      && session.value.sizes == plan(t, Potf2Query(n, batchCount))
      && Followed(t, session.value, st, grants, copyStatus, templateStatus, Args(strideA, batchCount),
                  old(mem.live), mem.live, old(mem.contents), mem.contents)
  {
    st := Validate(handle, n, A, lda, info, batchCount);
    if st != Success {
      session := None;
      return;
    }
    var sizes := plan(t, Potf2Query(n, batchCount));
    var s;
    st, s := RunSession(mem, t, sizes, grants, copyStatus, templateStatus, Args(strideA, batchCount));
    session := Some(s);
  }
}
