/** rocsolver_geqr2_impl: the argument checks of xGEQR2 for one matrix and the
    four-region workspace lifecycle around its template. */
module Geqr2 {
  import opened Common
  import opened Workspace

  /** The early returns of the entry point, in source order: pointers before
      sizes, and no batch count to check. */
  function Checks(handle: Ptr, m: int, n: int, A: Ptr, lda: int, ipiv: Ptr): seq<Check>
  {
    [ Check(handle != Null, InvalidHandle),
      Check(A != Null && ipiv != Null, InvalidPointer),
      Check(m >= 0 && n >= 0 && lda >= m, InvalidSize) ]
  }

  /** The status of the argument checks: a null handle first, then the
      pointers, then the sizes. */
  function Validate(handle: Ptr, m: int, n: int, A: Ptr, lda: int, ipiv: Ptr): (r: Status)
    ensures r == InvalidHandle <==> handle == Null
    ensures r == InvalidPointer <==> handle != Null && (A == Null || ipiv == Null)
    ensures r == InvalidSize <==>
      handle != Null && A != Null && ipiv != Null && (m < 0 || n < 0 || lda < m)
    ensures r == Success <==>
      handle != Null && A != Null && ipiv != Null && m >= 0 && n >= 0 && lda >= m
  {
    var cs := Checks(handle, m, n, A, lda, ipiv);
    var r := FirstFailing(cs);
    assert !cs[0].ok ==> r == cs[0].failure;
    assert cs[0].ok && !cs[1].ok ==> r == cs[1].failure;
    assert cs[0].ok && cs[1].ok && !cs[2].ok ==> r == cs[2].failure;
    r
  }

  /** A null pointer is reported whatever the sizes are: the pointers are
      checked before the sizes. */
  lemma PointersBeforeSizes(handle: Ptr, m: int, n: int, lda: int, m': int, n': int, lda': int, A: Ptr, ipiv: Ptr)
    requires Validate(handle, m, n, A, lda, ipiv) == InvalidPointer
    ensures Validate(handle, m', n', A, lda', ipiv) == InvalidPointer
  {
  }

  /** The planner's questions, answered by rocsolver_geqr2_getMemorySize. */
  datatype SizeQuery = Geqr2Query(batched: bool, m: int, n: int, batchCount: int)

  /** The template gets one matrix: batch count 1, both strides 0, shift 0. */
  const Args: LaunchArgs := LaunchArgs(0, 0, 0, 0, 0, 0, 1)

  /** rocsolver_geqr2_impl. `plan` answers getMemorySize, `grants` the four
      hipMalloc calls, `copyStatus` the hipMemcpy of the constants, and
      `templateStatus` is what the template returns. */
  method Geqr2Impl(
    mem: Memory, t: ScalarType, handle: Ptr, m: int, n: int, A: Ptr, lda: int, ipiv: Ptr,
    plan: (ScalarType, SizeQuery) -> seq<nat>, grants: seq<bool>, copyStatus: Status, templateStatus: Status)
    returns (st: Status, session: Option<Session>)
    requires mem.Valid() && |grants| == 4
    requires |plan(t, Geqr2Query(false, m, n, 1))| == 4 && plan(t, Geqr2Query(false, m, n, 1))[0] >= 3
    modifies mem
    ensures mem.Valid()
    ensures var v := Validate(handle, m, n, A, lda, ipiv);
      v != Success ==> st == v && session == None && mem.live == old(mem.live) && mem.contents == old(mem.contents)
    ensures Validate(handle, m, n, A, lda, ipiv) == Success ==>
      && session.Some?
      && session.value.sizes == plan(t, Geqr2Query(false, m, n, 1))
      && Followed(t, session.value, st, grants, copyStatus, templateStatus, Args,
                  old(mem.live), mem.live, old(mem.contents), mem.contents)
  {
    st := Validate(handle, m, n, A, lda, ipiv);
    if st != Success {
      session := None;
      return;
    }
    var batchCount := 1;
    var sizes := plan(t, Geqr2Query(false, m, n, batchCount));
    var s;
    st, s := RunSession(mem, t, sizes, grants, copyStatus, templateStatus, Args);
    session := Some(s);
  }
}
