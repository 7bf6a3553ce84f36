/** rocsolver_getrf_impl: the argument checks of xGETRF for one matrix and the
    three-region workspace lifecycle around its template. */
module Getrf {
  import opened Common
  import opened Workspace

  /** The early returns of the entry point, in source order: sizes before
      pointers. */
  function Checks(handle: Ptr, m: int, n: int, A: Ptr, lda: int, ipiv: Ptr, info: Ptr): seq<Check>
  {
    [ Check(handle != Null, InvalidHandle),
      Check(m >= 0 && n >= 0 && lda >= m, InvalidSize),
      Check(A != Null && ipiv != Null && info != Null, InvalidPointer) ]
  }

  /** The status of the argument checks: a null handle first, then the sizes,
      then the pointers. */
  function Validate(handle: Ptr, m: int, n: int, A: Ptr, lda: int, ipiv: Ptr, info: Ptr): (r: Status)
    ensures r == InvalidHandle <==> handle == Null
    ensures r == InvalidSize <==> handle != Null && (m < 0 || n < 0 || lda < m)
    ensures r == InvalidPointer <==>
      handle != Null && m >= 0 && n >= 0 && lda >= m && (A == Null || ipiv == Null || info == Null)
    ensures r == Success <==>
      handle != Null && m >= 0 && n >= 0 && lda >= m && A != Null && ipiv != Null && info != Null
  {
    var cs := Checks(handle, m, n, A, lda, ipiv, info);
    var r := FirstFailing(cs);
    assert !cs[0].ok ==> r == cs[0].failure;
    assert cs[0].ok && !cs[1].ok ==> r == cs[1].failure;
    assert cs[0].ok && cs[1].ok && !cs[2].ok ==> r == cs[2].failure;
    r
  }

  /** A size error is reported whatever the pointers are: the sizes are checked
      before the pointers. */
  lemma SizesBeforePointers(handle: Ptr, m: int, n: int, lda: int,
                            A: Ptr, ipiv: Ptr, info: Ptr, A': Ptr, ipiv': Ptr, info': Ptr)
    requires Validate(handle, m, n, A, lda, ipiv, info) == InvalidSize
    ensures Validate(handle, m, n, A', lda, ipiv', info') == InvalidSize
  {
  }

  /** The planner's questions, answered by rocsolver_getrf_getMemorySize. */
  datatype SizeQuery = GetrfQuery(m: int, n: int, batchCount: int)

  /** The template gets one matrix: batch count 1, both strides 0, and shift 0
      for the matrix and for the pivot vector. */
  const Args: LaunchArgs := LaunchArgs(0, 0, 0, 0, 0, 0, 1)

  /** rocsolver_getrf_impl. `plan` answers getMemorySize, `grants` the three
      hipMalloc calls (constants, pivotGPU, iinfo), `copyStatus` the hipMemcpy
      of the constants, and `templateStatus` is what the template returns. */
  method GetrfImpl(
    mem: Memory, t: ScalarType, handle: Ptr, m: int, n: int, A: Ptr, lda: int, ipiv: Ptr, info: Ptr,
    plan: (ScalarType, SizeQuery) -> seq<nat>, grants: seq<bool>, copyStatus: Status, templateStatus: Status)
    returns (st: Status, session: Option<Session>)
    requires mem.Valid() && |grants| == 3
    requires |plan(t, GetrfQuery(m, n, 1))| == 3 && plan(t, GetrfQuery(m, n, 1))[0] >= 3
    modifies mem
    ensures mem.Valid()
    ensures var v := Validate(handle, m, n, A, lda, ipiv, info);
      v != Success ==> st == v && session == None && mem.live == old(mem.live) && mem.contents == old(mem.contents)
    ensures Validate(handle, m, n, A, lda, ipiv, info) == Success ==>
      && session.Some?
      && session.value.sizes == plan(t, GetrfQuery(m, n, 1))
      && Followed(t, session.value, st, grants, copyStatus, templateStatus, Args,
                  old(mem.live), mem.live, old(mem.contents), mem.contents)
  {
    st := Validate(handle, m, n, A, lda, ipiv, info);
    if st != Success {
      session := None;
      return;
    }
    var batchCount := 1;
    var sizes := plan(t, GetrfQuery(m, n, batchCount));
    var s;
    st, s := RunSession(mem, t, sizes, grants, copyStatus, templateStatus, Args);
    session := Some(s);
  }
}
