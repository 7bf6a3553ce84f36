/** rocsolver_ormbr_unmbr_impl: the argument checks of xORMBR/xUNMBR and the
    four-region workspace lifecycle around its template. */
module OrmbrUnmbr {
  import opened Common
  import opened Workspace

  /** The size conditions, all checked before any pointer. */
  predicate SizesOk(storev: Storev, side: Side, m: int, n: int, k: int, lda: int, ldc: int)
  {
    && m >= 0 && n >= 0 && k >= 0 && ldc >= m
    && (storev == ColumnWise ==> lda >= Nq(side, m, n))
    && (storev == RowWise ==> lda >= Min(Nq(side, m, n), k))
  }

  /** A transpose for complex scalars, or a conjugate transpose for real ones,
      is not a valid operation. */
  predicate OperationOk(t: ScalarType, trans: Operation)
  {
    && !(t.IsComplex() && trans == Transpose)
    && !(!t.IsComplex() && trans == ConjugateTranspose)
  }

  /** The early returns of the entry point, in source order. */
  function Checks(t: ScalarType, handle: Ptr, storev: Storev, side: Side, trans: Operation,
                  m: int, n: int, k: int, A: Ptr, lda: int, ipiv: Ptr, C: Ptr, ldc: int): seq<Check>
  {
    var nq := Nq(side, m, n);
    [ Check(handle != Null, InvalidHandle),
      Check(m >= 0 && n >= 0 && k >= 0 && ldc >= m, InvalidSize),
      Check(!(storev == ColumnWise && lda < nq), InvalidSize),
      Check(!(storev == RowWise && lda < Min(nq, k)), InvalidSize),
      Check(A != Null && ipiv != Null && C != Null, InvalidPointer),
      Check(!(t.IsComplex() && trans == Transpose), InvalidValue),
      Check(!(!t.IsComplex() && trans == ConjugateTranspose), InvalidValue) ]
  }

  /** The status of the argument checks: a null handle first, then every size,
      then the pointers, then the operation against the scalar type. */
  function Validate(t: ScalarType, handle: Ptr, storev: Storev, side: Side, trans: Operation,
                    m: int, n: int, k: int, A: Ptr, lda: int, ipiv: Ptr, C: Ptr, ldc: int): (r: Status)
    ensures r == InvalidHandle <==> handle == Null
    ensures r == InvalidSize <==> handle != Null && !SizesOk(storev, side, m, n, k, lda, ldc)
    ensures r == InvalidPointer <==>
      handle != Null && SizesOk(storev, side, m, n, k, lda, ldc) && (A == Null || ipiv == Null || C == Null)
    ensures r == InvalidValue <==>
      handle != Null && SizesOk(storev, side, m, n, k, lda, ldc) && A != Null && ipiv != Null && C != Null
      && !OperationOk(t, trans)
    ensures r == Success <==>
      handle != Null && SizesOk(storev, side, m, n, k, lda, ldc) && A != Null && ipiv != Null && C != Null
      && OperationOk(t, trans)
  {
    var cs := Checks(t, handle, storev, side, trans, m, n, k, A, lda, ipiv, C, ldc);
    var r := FirstFailing(cs);
    assert !cs[0].ok ==> r == cs[0].failure;
    assert cs[0].ok && !cs[1].ok ==> r == cs[1].failure;
    assert cs[0].ok && cs[1].ok && !cs[2].ok ==> r == cs[2].failure;
    assert cs[0].ok && cs[1].ok && cs[2].ok && !cs[3].ok ==> r == cs[3].failure;
    assert cs[0].ok && cs[1].ok && cs[2].ok && cs[3].ok && !cs[4].ok ==> r == cs[4].failure;
    assert cs[0].ok && cs[1].ok && cs[2].ok && cs[3].ok && cs[4].ok && !cs[5].ok ==> r == cs[5].failure;
    assert cs[0].ok && cs[1].ok && cs[2].ok && cs[3].ok && cs[4].ok && cs[5].ok && !cs[6].ok ==> r == cs[6].failure;
    r
  }

  /** A size error is reported whatever the pointers are: the sizes are checked
      before the pointers. */
  lemma SizesBeforePointers(t: ScalarType, handle: Ptr, storev: Storev, side: Side, trans: Operation,
                            m: int, n: int, k: int, lda: int, ldc: int,
                            A: Ptr, ipiv: Ptr, C: Ptr, A': Ptr, ipiv': Ptr, C': Ptr)
    requires Validate(t, handle, storev, side, trans, m, n, k, A, lda, ipiv, C, ldc) == InvalidSize
    ensures Validate(t, handle, storev, side, trans, m, n, k, A', lda, ipiv', C', ldc) == InvalidSize
  {
  }

  /** What the entry point asks the planner: the non-batched sizes for one
      matrix. */
  function Query(storev: Storev, side: Side, m: int, n: int, k: int): SizeQuery
  {
    OrmbrQuery(false, storev, side, m, n, k, 1)
  }

  /** The template gets one matrix: batch count 1, every stride and shift 0. */
  const Args: LaunchArgs := LaunchArgs(0, 0, 0, 0, 0, 0, 1)

  /** The planner's questions, answered by the routine's getMemorySize. */
  datatype SizeQuery = OrmbrQuery(batched: bool, storev: Storev, side: Side, m: int, n: int, k: int, batchCount: int)

  /** rocsolver_ormbr_unmbr_impl. `plan` answers getMemorySize, `grants` the
      four hipMalloc calls, `copyStatus` the hipMemcpy of the constants, and
      `templateStatus` is what the template returns. */
  method OrmbrUnmbrImpl(
    mem: Memory, t: ScalarType, handle: Ptr, storev: Storev, side: Side, trans: Operation,
    m: int, n: int, k: int, A: Ptr, lda: int, ipiv: Ptr, C: Ptr, ldc: int,
    plan: (ScalarType, SizeQuery) -> seq<nat>, grants: seq<bool>, copyStatus: Status, templateStatus: Status)
    returns (st: Status, session: Option<Session>)
    requires mem.Valid() && |grants| == 4
    requires |plan(t, Query(storev, side, m, n, k))| == 4 && plan(t, Query(storev, side, m, n, k))[0] >= 3
    modifies mem
    ensures mem.Valid()
    ensures var v := Validate(t, handle, storev, side, trans, m, n, k, A, lda, ipiv, C, ldc);
      v != Success ==> st == v && session == None && mem.live == old(mem.live) && mem.contents == old(mem.contents)
    ensures Validate(t, handle, storev, side, trans, m, n, k, A, lda, ipiv, C, ldc) == Success ==>
      && session.Some?
      && session.value.sizes == plan(t, Query(storev, side, m, n, k))
      && Followed(t, session.value, st, grants, copyStatus, templateStatus, Args,
                  old(mem.live), mem.live, old(mem.contents), mem.contents)
  {
    st := Validate(t, handle, storev, side, trans, m, n, k, A, lda, ipiv, C, ldc);
    if st != Success {
      session := None;
      return;
    }
    var sizes := plan(t, Query(storev, side, m, n, k));
    var s;
    st, s := RunSession(mem, t, sizes, grants, copyStatus, templateStatus, Args);
    session := Some(s);
  }
}
