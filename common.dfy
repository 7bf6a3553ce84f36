/** Shared vocabulary of the rocSOLVER API shell: call statuses, the enumerations
    the entry points take, the scalar types, and the ordered argument checks
    every entry point runs as a chain of early returns. */
module Common {

  datatype Option<+T> = None | Some(value: T)

  /** rocblas_status values the modelled routines can return. */
  datatype Status =
    | Success
    | InvalidHandle
    | InvalidPointer
    | InvalidSize
    | InvalidValue
    | MemoryError
    | InternalError

  datatype Side = Left | Right

  datatype Operation = NoTranspose | Transpose | ConjugateTranspose

  /** Storage direction of the Householder vectors (rocblas_storev). */
  datatype Storev = ColumnWise | RowWise

  datatype Fill = Upper | Lower

  /** The four scalar types of the per-type entry points. */
  datatype ScalarType = Real32 | Real64 | Complex32 | Complex64 {
    predicate IsComplex() {
      Complex32? || Complex64?
    }

    /** sizeof(T) in bytes. */
    function ByteSize(): (r: nat)
      ensures r >= 4
      ensures IsComplex() ==> r >= 8
    {
      match this
      case Real32 => 4
      case Real64 => 8
      case Complex32 => 8
      case Complex64 => 16
    }
  }

  /** The order of Q: the rows of C when Q applies from the left, its
      columns when it applies from the right. */
  function Nq(side: Side, m: int, n: int): (nq: int)
    ensures side == Left ==> nq == m
    ensures side == Right ==> nq == n
  {
    if side == Left then m else n
  }

  /** sizeof(rocblas_int): rocblas_int is a 32-bit integer. */
  const IntBytes: nat := 4

  function Min(a: int, b: int): (r: int)
    ensures r <= a && r <= b
    ensures r == a || r == b
  {
    if a < b then a else b
  }

  /** One argument check of an entry point: the condition that lets the call
      go on, and the status returned when it does not hold. */
  datatype Check = Check(ok: bool, failure: Status)

  /** The result of running `checks` in order as a chain of early returns:
      the status of the first check that does not hold, or Success. */
  function FirstFailing(checks: seq<Check>): (r: Status)
    requires forall c :: 0 <= c < |checks| ==> checks[c].failure != Success
    ensures r == Success <==> forall c :: 0 <= c < |checks| ==> checks[c].ok
    ensures r != Success ==>
      exists c :: 0 <= c < |checks| && !checks[c].ok && r == checks[c].failure &&
        forall e :: 0 <= e < c ==> checks[e].ok
    ensures forall c :: 0 <= c < |checks| && !checks[c].ok && (forall e :: 0 <= e < c ==> checks[e].ok) ==>
      r == checks[c].failure
  {
    if checks == [] then Success
    else if !checks[0].ok then checks[0].failure
    else
      var r := FirstFailing(checks[1..]);
      assert forall c :: 1 <= c < |checks| ==> checks[c] == checks[1..][c - 1];
      r
  }
}
