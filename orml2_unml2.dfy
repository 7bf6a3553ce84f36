/** rocsolver_orml2_unml2_template: applies Q or Q' (Q^H for complex types),
    the product of k elementary reflectors stored row-wise in A and tau (ipiv),
    to a batch of m-by-n matrices C from the left or the right, one reflector
    at a time, as LAPACK xORML2/xUNML2 does.

    The scalar type is abstract: `conj` is its conjugation, an involution, and
    `one` its unit. larf, the numerical kernel that applies one reflector, is
    an oracle: each entry of its target block gets a new value determined by
    the reflector, the entry's position in the block and its old value. The
    template records each larf call it makes, with the vector and scalar it
    passes, so that the calls can be compared with the reflectors stored on
    entry. */
module Orml2Unml2 {
  import opened Common

  /** `transpose` in the template: true for transpose and for conjugate
      transpose alike. */
  predicate Transposing(trans: Operation)
  {
    trans != NoTranspose
  }

  /** The loop runs i = start + step * j for j = 1 .. k. */
  datatype Direction = Direction(start: int, step: int)

  /** Forward passes start before reflector 0 and step up; backward passes
      start after reflector k - 1 and step down. */
  function DirectionOf(side: Side, trans: Operation, k: nat): (d: Direction)
    ensures d.step == 1 || d.step == -1
    ensures d.step == 1 <==> Forward(side, trans)
    ensures d.start == if d.step == 1 then -1 else k
  {
    if side == Left then
      if !Transposing(trans) then Direction(-1, 1) else Direction(k, -1)
    else
      if !Transposing(trans) then Direction(k, -1) else Direction(-1, 1)
  }

  function ReflectorIndex(d: Direction, j: int): (i: int)
    ensures d.step == 1 ==> i == d.start + j
    ensures d.step == -1 ==> i == d.start - j
  {
    d.start + d.step * j
  }

  /** The reflectors in the order the template applies them. */
  function Order(side: Side, trans: Operation, k: nat): seq<int>
  {
    seq(k, t => ReflectorIndex(DirectionOf(side, trans, k), t + 1))
  }

  /** Q from the left and Q' from the right apply the reflectors first to
      last; Q' from the left and Q from the right apply them last to first. */
  predicate Forward(side: Side, trans: Operation)
  {
    (side == Left) != Transposing(trans)
  }

  predicate Visits(order: seq<int>, x: int)
  {
    exists t :: 0 <= t < |order| && order[t] == x
  }

  /** The order is 0, 1, .., k - 1 or k - 1, .., 0, depending on the side and
      the transpose flag; either way every reflector is applied exactly once. */
  lemma OrderVisitsEachOnce(side: Side, trans: Operation, k: nat)
    ensures var o := Order(side, trans, k);
      && |o| == k
      && (Forward(side, trans) ==> forall t :: 0 <= t < k ==> o[t] == t)
      && (!Forward(side, trans) ==> forall t :: 0 <= t < k ==> o[t] == k - 1 - t)
      && (forall t :: 0 <= t < k ==> 0 <= o[t] < k)
      && (forall t, t' :: 0 <= t < k && 0 <= t' < k && o[t] == o[t'] ==> t == t')
      && (forall x :: 0 <= x < k ==> Visits(o, x))
  {
    var o := Order(side, trans, k);
    var d := DirectionOf(side, trans, k);
    assert d == if Forward(side, trans) then Direction(-1, 1) else Direction(k, -1);
    assert forall t :: 0 <= t < k ==> o[t] == ReflectorIndex(d, t + 1);
    forall x | 0 <= x < k
      ensures Visits(o, x)
    {
      if Forward(side, trans) {
        assert o[x] == x;
      } else {
        assert o[k - 1 - x] == x;
      }
    }
  }

  function Reverse(s: seq<int>): (r: seq<int>)
    ensures |r| == |s| && forall t :: 0 <= t < |s| ==> r[t] == s[|s| - 1 - t]
  {
    seq(|s|, t requires 0 <= t < |s| => s[|s| - 1 - t])
  }

  /** Applying Q' visits the reflectors in the reverse of the order of Q, and
      the conjugate transpose takes the same order as the transpose. */
  lemma TransposeReverses(side: Side, k: nat)
    ensures Order(side, Transpose, k) == Reverse(Order(side, NoTranspose, k))
    ensures Order(side, ConjugateTranspose, k) == Order(side, Transpose, k)
  {
    OrderVisitsEachOnce(side, Transpose, k);
    OrderVisitsEachOnce(side, NoTranspose, k);
    var o, r := Order(side, Transpose, k), Reverse(Order(side, NoTranspose, k));
    assert forall t :: 0 <= t < k ==> o[t] == r[t];
    assert DirectionOf(side, ConjugateTranspose, k) == DirectionOf(side, Transpose, k);
  }

  /** The part of C one larf call works on: nrow by ncol from (ic, jc). */
  datatype Block = Block(nrow: int, ncol: int, ic: int, jc: int)

  /** Reflector i acts on rows i .. m - 1 from the left and on columns
      i .. n - 1 from the right. */
  function TargetBlock(side: Side, m: nat, n: nat, i: int): Block
  {
    if side == Left then Block(m - i, n, i, 0) else Block(m, n - i, 0, i)
  }

  predicate InBlock(blk: Block, r: int, c: int)
  {
    blk.ic <= r < blk.ic + blk.nrow && blk.jc <= c < blk.jc + blk.ncol
  }

  /** For a stored reflector the block is the part of C whose extent
      on the applied side is the length of the reflector, nq - i, and that
      spans all of C on the other side. */
  lemma TargetBlockInC(side: Side, m: nat, n: nat, i: int)
    requires 0 <= i < Nq(side, m, n)
    ensures var blk := TargetBlock(side, m, n, i);
      && 0 <= blk.ic && blk.ic + blk.nrow == m && 0 <= blk.jc && blk.jc + blk.ncol == n
      && blk.nrow >= 0 && blk.ncol >= 0
    ensures var blk := TargetBlock(side, m, n, i);
      && (side == Left ==> blk.nrow == Nq(side, m, n) - i && blk.ncol == n && blk.jc == 0)
      && (side == Right ==> blk.ncol == Nq(side, m, n) - i && blk.nrow == m && blk.ic == 0)
    ensures forall r, c :: InBlock(TargetBlock(side, m, n, i), r, c) <==>
      0 <= r < m && 0 <= c < n && (side == Left ==> r >= i) && (side == Right ==> c >= i)
  {
  }

  /** What larf gets for one batch member: the side, the block, the vector x
      (A(i, i .. nq - 1) as it is in memory at the call) and the scalar alpha
      (ipiv[i] as it is in memory at the call). */
  datatype Reflection<T> = Reflection(side: Side, block: Block, v: seq<T>, tau: T)

  /** One larf call for the whole batch: a vector and a scalar per member. */
  datatype LarfCall<T> = LarfCall(side: Side, block: Block, v: seq<seq<T>>, tau: seq<T>)

  /** The new value of the entry (r, c) of the block, relative to its corner. */
  type LarfOracle<!T> = (Reflection<T>, int, int, T) -> T

  /** Conjugating twice gives the value back. */
  ghost predicate Involution<T(!new)>(conj: T -> T)
  {
    forall x :: conj(conj(x)) == x
  }

  function ConjIf<T>(cond: bool, conj: T -> T, x: T): T
  {
    if cond then conj(x) else x
  }

  /** The larf call that applies reflector i as stored in A and ipiv: the
      vector is 1 followed by the rest of row i of A, conjugated for complex
      types, and the scalar is tau(i), conjugated for complex types unless Q'
      is applied. */
  function ExpectedCall<T>(side: Side, trans: Operation, m: nat, n: nat, isComplex: bool,
                           conj: T -> T, one: T, A: array3<T>, ipiv: array2<T>, i: nat): (call: LarfCall<T>)
    requires i < Nq(side, m, n) <= A.Length2 && i < A.Length1 && i < ipiv.Length1
    requires ipiv.Length0 == A.Length0
    reads A, ipiv
    ensures call.side == side && call.block == TargetBlock(side, m, n, i)
    ensures |call.v| == |call.tau| == A.Length0
    ensures forall b :: 0 <= b < A.Length0 ==> |call.v[b]| == Nq(side, m, n) - i && call.v[b][0] == one
    ensures forall b, c :: 0 <= b < A.Length0 && 0 < c < Nq(side, m, n) - i ==>
      call.v[b][c] == ConjIf(isComplex, conj, A[b, i, i + c])
    ensures forall b :: 0 <= b < A.Length0 ==>
      call.tau[b] == ConjIf(isComplex && !Transposing(trans), conj, ipiv[b, i])
  {
    var nq := Nq(side, m, n);
    LarfCall(side, TargetBlock(side, m, n, i),
      seq(A.Length0, b requires 0 <= b < A.Length0 reads A =>
        [one] + seq(nq - i - 1, c requires 0 <= c < nq - i - 1 reads A => ConjIf(isComplex, conj, A[b, i, i + 1 + c]))),
      seq(A.Length0, b requires 0 <= b < A.Length0 reads ipiv =>
        ConjIf(isComplex && !Transposing(trans), conj, ipiv[b, i])))
  }

  /** The larf calls that apply the stored reflectors in the order of the
      direction table. */
  function ExpectedCalls<T>(side: Side, trans: Operation, m: nat, n: nat, k: nat, isComplex: bool,
                            conj: T -> T, one: T, A: array3<T>, ipiv: array2<T>): (calls: seq<LarfCall<T>>)
    requires k <= Nq(side, m, n) <= A.Length2 && k <= A.Length1 && k <= ipiv.Length1
    requires ipiv.Length0 == A.Length0
    reads A, ipiv
    ensures |calls| == k
    ensures forall t :: 0 <= t < k ==> 0 <= Order(side, trans, k)[t] < k
    ensures forall t :: 0 <= t < k ==>
      calls[t] == ExpectedCall(side, trans, m, n, isComplex, conj, one, A, ipiv, Order(side, trans, k)[t])
  {
    OrderVisitsEachOnce(side, trans, k);
    seq(k, t requires 0 <= t < k reads A, ipiv =>
      ExpectedCall(side, trans, m, n, isComplex, conj, one, A, ipiv, Order(side, trans, k)[t]))
  }

  /** The entry (r, c) of member b after the larf calls `calls`, in order,
      starting from the value x. */
  function Replay<T>(calls: seq<LarfCall<T>>, larf: LarfOracle<T>, b: nat, r: int, c: int, x: T): T
  {
    if calls == [] then x
    else
      var y := Replay(calls[..|calls| - 1], larf, b, r, c, x);
      var call := calls[|calls| - 1];
      if InBlock(call.block, r, c) && b < |call.v| && b < |call.tau| then
        larf(Reflection(call.side, call.block, call.v[b], call.tau[b]), r - call.block.ic, c - call.block.jc, y)
      else y
  }

  /** One more call acts on the result of the previous ones. */
  lemma ReplaySnoc<T>(calls: seq<LarfCall<T>>, call: LarfCall<T>, larf: LarfOracle<T>)
    ensures forall b: nat, r, c, x ::
      Replay(calls + [call], larf, b, r, c, x) == Replay([call], larf, b, r, c, Replay(calls, larf, b, r, c, x))
  {
    assert (calls + [call])[..|calls|] == calls;
    assert [call][..0] == [];
  }

  /** An entry outside the blocks of all calls keeps its value. */
  lemma {:induction false} ReplayOutsideBlocks<T>(calls: seq<LarfCall<T>>, larf: LarfOracle<T>, b: nat, r: int, c: int, x: T)
    requires forall t :: 0 <= t < |calls| ==> !InBlock(calls[t].block, r, c)
    ensures Replay(calls, larf, b, r, c, x) == x
  {
    if calls != [] {
      ReplayOutsideBlocks(calls[..|calls| - 1], larf, b, r, c, x);
    }
  }

  /** Two larf calls agree when they agree on the side, the block, and every
      member's vector and scalar. */
  lemma SameCall<T>(x: LarfCall<T>, y: LarfCall<T>)
    requires x.side == y.side && x.block == y.block && |x.v| == |y.v| && |x.tau| == |y.tau|
    requires forall b :: 0 <= b < |x.v| ==> |x.v[b]| == |y.v[b]|
    requires forall b, c :: 0 <= b < |x.v| && 0 <= c < |x.v[b]| ==> x.v[b][c] == y.v[b][c]
    requires forall b :: 0 <= b < |x.tau| ==> x.tau[b] == y.tau[b]
    ensures x == y
  {
    assert forall b :: 0 <= b < |x.v| ==> x.v[b] == y.v[b];
  }

  /** rocsolver_larf_getMemorySize's answer for a side, an m-by-n block and a
      batch count, and the template's own. */
  datatype LarfSizes = LarfSizes(size1: nat, size2: nat, size3: nat)
  datatype Orml2Sizes = Orml2Sizes(size1: nat, size2: nat, size3: nat, size4: nat)

  /** Workspace of the template: what larf needs for the whole m-by-n matrix,
      and a fourth region for the saved diagonal entries, one scalar per
      batch member. */
  function Orml2MemorySize(t: ScalarType, side: Side, m: nat, n: nat, bc: nat,
                           larfSizes: (Side, nat, nat, nat) -> LarfSizes): (r: Orml2Sizes)
    ensures Within(larfSizes(side, m, n, bc), r)
    ensures r.size4 >= t.ByteSize() * bc
  {
    var s := larfSizes(side, m, n, bc);
    Orml2Sizes(s.size1, s.size2, s.size3, t.ByteSize() * bc)
  }

  /** larf asks for no less workspace for a larger block. */
  ghost predicate LarfGrows(larfSizes: (Side, nat, nat, nat) -> LarfSizes, side: Side, bc: nat)
  {
    forall r: nat, c: nat, r': nat, c': nat {:trigger larfSizes(side, r, c, bc), larfSizes(side, r', c', bc)} ::
      r <= r' && c <= c' ==>
        && larfSizes(side, r, c, bc).size1 <= larfSizes(side, r', c', bc).size1
        && larfSizes(side, r, c, bc).size2 <= larfSizes(side, r', c', bc).size2
        && larfSizes(side, r, c, bc).size3 <= larfSizes(side, r', c', bc).size3
  }

  predicate Within(need: LarfSizes, have: Orml2Sizes)
  {
    need.size1 <= have.size1 && need.size2 <= have.size2 && need.size3 <= have.size3
  }

  /** When larf's workspace grows with the block, the template's workspace is
      enough for every larf call it makes, and the fourth region holds the
      diagonal entry set_one_diag saves for each member. */
  lemma MemorySizeSuffices(t: ScalarType, side: Side, m: nat, n: nat, k: nat, bc: nat,
                           larfSizes: (Side, nat, nat, nat) -> LarfSizes)
    requires k <= Nq(side, m, n)
    requires LarfGrows(larfSizes, side, bc)
    ensures forall i :: 0 <= i < k ==>
      var blk := TargetBlock(side, m, n, i);
      0 <= blk.nrow && 0 <= blk.ncol &&
      Within(larfSizes(side, blk.nrow, blk.ncol, bc), Orml2MemorySize(t, side, m, n, bc, larfSizes))
    ensures Orml2MemorySize(t, side, m, n, bc, larfSizes).size4 >= t.ByteSize() * bc
  {
    var have := Orml2MemorySize(t, side, m, n, bc, larfSizes);
    forall i | 0 <= i < k
      ensures var blk := TargetBlock(side, m, n, i);
        0 <= blk.nrow && 0 <= blk.ncol && Within(larfSizes(side, blk.nrow, blk.ncol, bc), have)
    {
      var blk := TargetBlock(side, m, n, i);
      var small := larfSizes(side, blk.nrow, blk.ncol, bc);
      var large := larfSizes(side, m, n, bc);
      assert blk.nrow <= m && blk.ncol <= n;
      assert small.size1 <= large.size1 && small.size2 <= large.size2 && small.size3 <= large.size3;
    }
  }

  /** lacgv on row i of A: conjugates columns from .. to - 1 of every member. */
  method ConjRowTail<T>(A: array3<T>, i: nat, from: nat, to: nat, conj: T -> T)
    requires i < A.Length1 && from <= to <= A.Length2
    modifies A
    ensures forall b, r, c :: 0 <= b < A.Length0 && 0 <= r < A.Length1 && 0 <= c < A.Length2 ==>
      A[b, r, c] == if r == i && from <= c < to then conj(old(A[b, r, c])) else old(A[b, r, c])
  {
    forall b, c | 0 <= b < A.Length0 && from <= c < to {
      A[b, i, c] := conj(A[b, i, c]);
    }
  }

  /** lacgv on tau: conjugates the first k scalars of every member. */
  method ConjTau<T>(ipiv: array2<T>, k: nat, conj: T -> T)
    requires k <= ipiv.Length1
    modifies ipiv
    ensures forall b, t :: 0 <= b < ipiv.Length0 && 0 <= t < ipiv.Length1 ==>
      ipiv[b, t] == if t < k then conj(old(ipiv[b, t])) else old(ipiv[b, t])
  {
    forall b, t | 0 <= b < ipiv.Length0 && 0 <= t < k {
      ipiv[b, t] := conj(ipiv[b, t]);
    }
  }

  /** set_one_diag: saves A(i, i) of every member in diag and sets it to 1. */
  method SetOneDiag<T>(diag: array<T>, A: array3<T>, i: nat, one: T)
    requires i < A.Length1 && i < A.Length2 && diag.Length == A.Length0
    modifies diag, A
    ensures forall b :: 0 <= b < diag.Length ==> diag[b] == old(A[b, i, i])
    ensures forall b, r, c :: 0 <= b < A.Length0 && 0 <= r < A.Length1 && 0 <= c < A.Length2 ==>
      A[b, r, c] == if r == i && c == i then one else old(A[b, r, c])
  {
    forall b | 0 <= b < diag.Length {
      diag[b] := A[b, i, i];
    }
    forall b | 0 <= b < A.Length0 {
      A[b, i, i] := one;
    }
  }

  /** restore_diag: puts the saved values back into A(i, i). */
  method RestoreDiag<T>(diag: array<T>, A: array3<T>, i: nat)
    requires i < A.Length1 && i < A.Length2 && diag.Length == A.Length0
    modifies A
    ensures forall b, r, c :: 0 <= b < A.Length0 && 0 <= r < A.Length1 && 0 <= c < A.Length2 ==>
      A[b, r, c] == if r == i && c == i then diag[b] else old(A[b, r, c])
  {
    forall b | 0 <= b < A.Length0 {
      A[b, i, i] := diag[b];
    }
  }

  /** larf: every entry of the call's block, in every member, gets the
      oracle's value; nothing else in C changes. */
  method Larf<T>(C: array3<T>, call: LarfCall<T>, larf: LarfOracle<T>)
    requires |call.v| == |call.tau| == C.Length0
    modifies C
    ensures forall b, r, c :: 0 <= b < C.Length0 && 0 <= r < C.Length1 && 0 <= c < C.Length2 ==>
      C[b, r, c] == Replay([call], larf, b, r, c, old(C[b, r, c]))
  {
    forall b, r, c | 0 <= b < C.Length0 && 0 <= r < C.Length1 && 0 <= c < C.Length2 && InBlock(call.block, r, c) {
      C[b, r, c] := larf(Reflection(call.side, call.block, call.v[b], call.tau[b]),
                         r - call.block.ic, c - call.block.jc, C[b, r, c]);
    }
  }

  /** One iteration of the loop for reflector i: conjugate the tail of row i,
      put 1 on the diagonal, apply larf with row i of A and ipiv[i] as they
      now are in memory, restore the diagonal, conjugate the tail back. */
  method ApplyReflector<T(!new)>(side: Side, m: nat, n: nat, i: nat,
                           A: array3<T>, ipiv: array2<T>, C: array3<T>, diag: array<T>,
                           isComplex: bool, conj: T -> T, one: T, larf: LarfOracle<T>,
                           ghost expected: LarfCall<T>)
    returns (call: LarfCall<T>)
    requires A != C
    requires A.Length0 == ipiv.Length0 == C.Length0 == diag.Length
    requires i < Nq(side, m, n) <= A.Length2 && i < A.Length1 && i < ipiv.Length1
    requires Involution(conj)
    requires expected.side == side && expected.block == TargetBlock(side, m, n, i)
    requires |expected.v| == |expected.tau| == A.Length0
    requires forall b :: 0 <= b < A.Length0 ==> |expected.v[b]| == Nq(side, m, n) - i && expected.v[b][0] == one
    requires forall b, c :: 0 <= b < A.Length0 && 0 < c < Nq(side, m, n) - i ==>
      expected.v[b][c] == ConjIf(isComplex, conj, A[b, i, i + c])
    requires forall b :: 0 <= b < A.Length0 ==> expected.tau[b] == ipiv[b, i]
    modifies A, C, diag
    ensures forall b, r, c :: 0 <= b < A.Length0 && 0 <= r < A.Length1 && 0 <= c < A.Length2 ==>
      A[b, r, c] == old(A[b, r, c])
    ensures call == expected
    ensures forall b, r, c :: 0 <= b < C.Length0 && 0 <= r < C.Length1 && 0 <= c < C.Length2 ==>
      C[b, r, c] == Replay([call], larf, b, r, c, old(C[b, r, c]))
  {
    var nq := Nq(side, m, n);
    var bc := A.Length0;
    var tail := isComplex && i < nq - 1;
    if tail {
      ConjRowTail(A, i, i + 1, nq, conj);
    }
    SetOneDiag(diag, A, i, one);
    var v := seq(bc, b requires 0 <= b < bc reads A =>
      seq(nq - i, c requires 0 <= c < nq - i reads A => A[b, i, i + c]));
    var tau := seq(bc, b requires 0 <= b < bc reads ipiv => ipiv[b, i]);
    call := LarfCall(side, TargetBlock(side, m, n, i), v, tau);
    SameCall(call, expected);
    Larf(C, call, larf);
    RestoreDiag(diag, A, i);
    if tail {
      ConjRowTail(A, i, i + 1, nq, conj);
    }
  }

  /** The loop `for j = 1 .. k` of the template, with tau already in the form
      larf takes it: reflector i = start + step * j is applied for each j in
      turn. `expected` describes the calls the stored reflectors call for. */
  method ApplyAll<T(!new)>(side: Side, trans: Operation, m: nat, n: nat, k: nat,
                           A: array3<T>, ipiv: array2<T>, C: array3<T>, diag: array<T>,
                           isComplex: bool, conj: T -> T, one: T, larf: LarfOracle<T>,
                           ghost expected: seq<LarfCall<T>>)
    returns (calls: seq<LarfCall<T>>)
    requires A != C
    requires A.Length0 == ipiv.Length0 == C.Length0 == diag.Length
    requires k <= Nq(side, m, n) <= A.Length2 && k <= A.Length1 && k <= ipiv.Length1
    requires Involution(conj)
    requires |expected| == k
    requires forall t :: 0 <= t < k ==> 0 <= Order(side, trans, k)[t] < k
    requires forall t :: 0 <= t < k ==>
      expected[t].side == side && expected[t].block == TargetBlock(side, m, n, Order(side, trans, k)[t]) &&
      |expected[t].v| == |expected[t].tau| == A.Length0
    requires forall t, b :: 0 <= t < k && 0 <= b < A.Length0 ==>
      |expected[t].v[b]| == Nq(side, m, n) - Order(side, trans, k)[t] && expected[t].v[b][0] == one
    requires forall t, b, c :: 0 <= t < k && 0 <= b < A.Length0 && 0 < c < Nq(side, m, n) - Order(side, trans, k)[t] ==>
      expected[t].v[b][c] == ConjIf(isComplex, conj, A[b, Order(side, trans, k)[t], Order(side, trans, k)[t] + c])
    requires forall t, b :: 0 <= t < k && 0 <= b < A.Length0 ==> expected[t].tau[b] == ipiv[b, Order(side, trans, k)[t]]
    modifies A, C, diag
    ensures calls == expected
    ensures forall b, r, c :: 0 <= b < A.Length0 && 0 <= r < A.Length1 && 0 <= c < A.Length2 ==>
      A[b, r, c] == old(A[b, r, c])
    ensures forall b, r, c :: 0 <= b < C.Length0 && 0 <= r < C.Length1 && 0 <= c < C.Length2 ==>
      C[b, r, c] == Replay(calls, larf, b, r, c, old(C[b, r, c]))
  {
    calls := [];
    var d := DirectionOf(side, trans, k);
    for j := 1 to k + 1
      invariant calls == expected[..j - 1]
      invariant forall b, r, c :: 0 <= b < A.Length0 && 0 <= r < A.Length1 && 0 <= c < A.Length2 ==>
        A[b, r, c] == old(A[b, r, c])
      invariant forall b, r, c :: 0 <= b < C.Length0 && 0 <= r < C.Length1 && 0 <= c < C.Length2 ==>
        C[b, r, c] == Replay(calls, larf, b, r, c, old(C[b, r, c]))
    {
      var i := ReflectorIndex(d, j);
      assert i == Order(side, trans, k)[j - 1];
      var call := ApplyReflector(side, m, n, i, A, ipiv, C, diag, isComplex, conj, one, larf, expected[j - 1]);
      ReplaySnoc(calls, call, larf);
      calls := calls + [call];
    }
  }

  /** rocsolver_orml2_unml2_template. Only C changes: the conjugations of tau
      and of each reflector's row come in pairs, and the diagonal entry that
      larf sees as 1 is saved and put back. The larf calls are the stored
      reflectors, in the order of the direction table. */
  method Orml2Unml2Template<T(!new)>(side: Side, trans: Operation, m: nat, n: nat, k: nat,
                               A: array3<T>, ipiv: array2<T>, C: array3<T>, diag: array<T>,
                               isComplex: bool, conj: T -> T, one: T, larf: LarfOracle<T>)
    returns (st: Status, calls: seq<LarfCall<T>>)
    requires A != C
    requires A.Length0 == ipiv.Length0 == C.Length0 == diag.Length
    requires k <= Nq(side, m, n) <= A.Length2 && k <= A.Length1 && k <= ipiv.Length1
    requires Involution(conj)
    modifies A, ipiv, C, diag
    ensures st == Success
    ensures forall b, r, c :: 0 <= b < A.Length0 && 0 <= r < A.Length1 && 0 <= c < A.Length2 ==>
      A[b, r, c] == old(A[b, r, c])
    ensures forall b, t :: 0 <= b < ipiv.Length0 && 0 <= t < ipiv.Length1 ==> ipiv[b, t] == old(ipiv[b, t])
    ensures m == 0 || n == 0 || k == 0 || C.Length0 == 0 ==> calls == []
    ensures m > 0 && n > 0 && k > 0 && C.Length0 > 0 ==>
      calls == old(ExpectedCalls(side, trans, m, n, k, isComplex, conj, one, A, ipiv))
    ensures forall b, r, c :: 0 <= b < C.Length0 && 0 <= r < C.Length1 && 0 <= c < C.Length2 ==>
      C[b, r, c] == Replay(calls, larf, b, r, c, old(C[b, r, c]))
  {
    calls := [];
    st := Success;
    if n == 0 || m == 0 || k == 0 || C.Length0 == 0 {
      return;
    }
    ghost var expected := ExpectedCalls(side, trans, m, n, k, isComplex, conj, one, A, ipiv);
    ghost var order := Order(side, trans, k);
    var conjTau := isComplex && !Transposing(trans);
    if conjTau {
      ConjTau(ipiv, k, conj);
    }
    assert forall t, b :: 0 <= t < k && 0 <= b < A.Length0 ==> expected[t].tau[b] == ipiv[b, order[t]];
    calls := ApplyAll(side, trans, m, n, k, A, ipiv, C, diag, isComplex, conj, one, larf, expected);
    if conjTau {
      ConjTau(ipiv, k, conj);
    }
  }
}
