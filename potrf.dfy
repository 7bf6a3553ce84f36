/** rocsolver_potrf_template: the blocked Cholesky driver, derived from LAPACK
    xPOTRF. Columns are split into panels of at most `sw` columns (the
    POTRF_POTF2_SWITCHSIZE tuning constant, a positive parameter here); each
    panel's diagonal block is factorised by potf2, its failure index is merged
    into `info` by chk_positive, and every panel but the last is followed by a
    triangular solve per batch member and a rank-k update of the trailing
    matrix.

    potf2, trsm and herk are numerical kernels outside this model: potf2 is an
    oracle giving each member's local failure index, and every kernel call is
    recorded, with the blocks it works on, in the handle's queue. */
module Potrf {
  import opened Common

  /** rocblas_pointer_mode: where the kernels read their scalar arguments. */
  datatype PointerMode = HostMode | DeviceMode

  /** A position (row, column) in a batch member's matrix, relative to shiftA. */
  datatype Cell = Cell(row: nat, col: nat)

  /** A kernel call issued on the handle's stream. */
  datatype Op =
    | Factor(uplo: Fill, at: Cell, size: nat)
    | Solve(member: nat, side: Side, uplo: Fill, trans: Operation, rows: nat, cols: nat, tri: Cell, rhs: Cell)
    | Update(uplo: Fill, trans: Operation, order: nat, rank: nat, src: Cell, dst: Cell)

  /** The rocblas handle: its pointer mode, and the kernel calls issued on its
      stream, in order. */
  class Handle {
    var pointerMode: PointerMode
    var queue: seq<Op>

    constructor (mode: PointerMode)
      ensures pointerMode == mode && queue == []
    {
      pointerMode := mode;
      queue := [];
    }
  }

  /** What potf2 reports for batch member `b` when it factorises the diagonal
      block of width `jb` starting at column `j`: 0, or the 1-based column of
      the block where the matrix is found not positive definite. */
  type Potf2Oracle = (nat, nat, nat) -> nat

  /** Columns start .. start + width - 1. */
  datatype Panel = Panel(start: nat, width: nat)

  predicate Covers(p: Panel, c: int)
  {
    p.start <= c < p.start + p.width
  }

  /** Column `c` lies in one of the panels `ps`. */
  predicate Covered(ps: seq<Panel>, c: int)
  {
    exists i :: 0 <= i < |ps| && Covers(ps[i], c)
  }

  /** The panels visited by `for (j = from; j < n; j += sw)`, each of width
      jb = min(n - j, sw). */
  function PanelsFrom(n: nat, sw: nat, from: nat): seq<Panel>
    requires sw > 0
    decreases if from < n then n - from else 0
  {
    if from >= n then [] else [Panel(from, Min(n - from, sw))] + PanelsFrom(n, sw, from + sw)
  }

  function Panels(n: nat, sw: nat): seq<Panel>
    requires sw > 0
  {
    PanelsFrom(n, sw, 0)
  }

  /** The panels from column `from` on exist exactly when from < n; each is
      non-empty, at most `sw` wide and inside from .. n - 1; the first starts
      at `from` and the last ends at n. */
  lemma {:induction false} PanelsFromBounds(n: nat, sw: nat, from: nat)
    requires sw > 0
    ensures var ps := PanelsFrom(n, sw, from);
      && (from < n <==> |ps| > 0)
      && (forall i :: 0 <= i < |ps| ==>
            1 <= ps[i].width <= sw && from <= ps[i].start && ps[i].start + ps[i].width <= n)
      && (from < n ==> ps[0].start == from && ps[|ps| - 1].start + ps[|ps| - 1].width == n)
    decreases if from < n then n - from else 0
  {
    if from < n {
      var ps := PanelsFrom(n, sw, from);
      var rest := PanelsFrom(n, sw, from + sw);
      PanelsFromBounds(n, sw, from + sw);
      assert ps == [Panel(from, Min(n - from, sw))] + rest;
      assert forall i :: 1 <= i < |ps| ==> ps[i] == rest[i - 1];
    }
  }

  /** Consecutive panels are contiguous, and every panel but the last is
      exactly `sw` wide. */
  lemma {:induction false} PanelsFromContiguous(n: nat, sw: nat, from: nat)
    requires sw > 0
    ensures var ps := PanelsFrom(n, sw, from);
      forall i :: 0 <= i < |ps| - 1 ==> ps[i].width == sw && ps[i + 1].start == ps[i].start + ps[i].width
    decreases if from < n then n - from else 0
  {
    if from < n {
      var ps := PanelsFrom(n, sw, from);
      var rest := PanelsFrom(n, sw, from + sw);
      PanelsFromContiguous(n, sw, from + sw);
      PanelsFromBounds(n, sw, from + sw);
      assert ps == [Panel(from, Min(n - from, sw))] + rest;
      assert forall i :: 1 <= i < |ps| ==> ps[i] == rest[i - 1];
    }
  }

  /** A panel ends before any later panel starts. */
  lemma {:induction false} PanelsFromOrdered(n: nat, sw: nat, from: nat)
    requires sw > 0
    ensures var ps := PanelsFrom(n, sw, from);
      forall i, i' :: 0 <= i < i' < |ps| ==> ps[i].start + ps[i].width <= ps[i'].start
    decreases if from < n then n - from else 0
  {
    if from < n {
      var ps := PanelsFrom(n, sw, from);
      var rest := PanelsFrom(n, sw, from + sw);
      PanelsFromOrdered(n, sw, from + sw);
      PanelsFromBounds(n, sw, from + sw);
      assert ps == [Panel(from, Min(n - from, sw))] + rest;
      assert forall i :: 1 <= i < |ps| ==> ps[i] == rest[i - 1];
    }
  }

  /** Every column from `from` to n - 1 lies in one of the panels. */
  lemma {:induction false} PanelsFromCover(n: nat, sw: nat, from: nat)
    requires sw > 0
    ensures forall c :: from <= c < n ==> Covered(PanelsFrom(n, sw, from), c)
    decreases if from < n then n - from else 0
  {
    if from < n {
      var ps := PanelsFrom(n, sw, from);
      var rest := PanelsFrom(n, sw, from + sw);
      PanelsFromCover(n, sw, from + sw);
      var jb := Min(n - from, sw);
      assert ps == [Panel(from, jb)] + rest;
      forall c | from <= c < n
        ensures Covered(ps, c)
      {
        if c < from + jb {
          assert Covers(ps[0], c);
        } else {
          assert Covered(rest, c);
          var i' :| 0 <= i' < |rest| && Covers(rest[i'], c);
          assert ps[i' + 1] == rest[i'];
        }
      }
    }
  }

  /** The panels partition the columns 0 .. n - 1: every column lies in
      exactly one panel, and no panel reaches outside the matrix. */
  lemma PanelsPartition(n: nat, sw: nat)
    requires sw > 0
    ensures var ps := Panels(n, sw);
      && (forall i :: 0 <= i < |ps| ==> 1 <= ps[i].width <= sw)
      && (forall c :: 0 <= c < n ==> Covered(ps, c))
      && (forall i, i', c :: 0 <= i < |ps| && 0 <= i' < |ps| && Covers(ps[i], c) && Covers(ps[i'], c) ==> i == i')
      && (forall i, c :: 0 <= i < |ps| && Covers(ps[i], c) ==> 0 <= c < n)
  {
    PanelsFromBounds(n, sw, 0);
    PanelsFromOrdered(n, sw, 0);
    PanelsFromCover(n, sw, 0);
  }

  /** j + jb < n, the condition of the trailing update, holds for every panel
      except the last. */
  lemma TrailingUpdateExceptLast(n: nat, sw: nat)
    requires sw > 0
    ensures var ps := Panels(n, sw);
      forall i :: 0 <= i < |ps| ==> (ps[i].start + ps[i].width < n <==> i < |ps| - 1)
  {
    var ps := Panels(n, sw);
    PanelsFromBounds(n, sw, 0);
    PanelsFromContiguous(n, sw, 0);
    forall i | 0 <= i < |ps| - 1
      ensures ps[i].start + ps[i].width < n
    {
      assert ps[i].start + ps[i].width == ps[i + 1].start;
    }
  }

  /** Below the switch size the driver has a single panel: the whole matrix. */
  lemma SinglePanel(n: nat, sw: nat)
    requires 0 < n < sw
    ensures Panels(n, sw) == [Panel(0, n)]
  {
    assert PanelsFrom(n, sw, sw) == [];
  }

  /** chk_positive for one batch member: the first recorded failure is kept; a
      failure of the panel starting at column `j` is recorded as a column of
      the whole matrix. */
  function MergeInfo(current: int, local: int, j: nat): (r: int)
    ensures current != 0 ==> r == current
    ensures current == 0 && local > 0 ==> r == local + j
    ensures current == 0 && local <= 0 ==> r == 0
  {
    if current == 0 && local > 0 then local + j else current
  }

  function Local(potf2: Potf2Oracle, p: Panel, b: nat): nat
  {
    potf2(p.start, p.width, b)
  }

  /** info[b] after chk_positive has merged the local results of the panels
      `ps`, in order, into a zero-reset info. */
  function InfoAfter(ps: seq<Panel>, potf2: Potf2Oracle, b: nat): int
  {
    if ps == [] then 0
    else MergeInfo(InfoAfter(ps[..|ps| - 1], potf2, b), Local(potf2, ps[|ps| - 1], b), ps[|ps| - 1].start)
  }

  /** The merged info is 0 exactly when no panel failed, and otherwise it is the
      local failure index of the first failing panel, shifted by that panel's
      start column. */
  lemma {:induction false} InfoIsFirstFailure(ps: seq<Panel>, potf2: Potf2Oracle, b: nat)
    ensures InfoAfter(ps, potf2, b) == 0 <==> forall i :: 0 <= i < |ps| ==> Local(potf2, ps[i], b) == 0
    ensures forall i :: 0 <= i < |ps| && Local(potf2, ps[i], b) > 0 &&
                        (forall e :: 0 <= e < i ==> Local(potf2, ps[e], b) == 0) ==>
              InfoAfter(ps, potf2, b) == Local(potf2, ps[i], b) + ps[i].start
  {
    if ps != [] {
      var init := ps[..|ps| - 1];
      InfoIsFirstFailure(init, potf2, b);
      assert forall i :: 0 <= i < |init| ==> init[i] == ps[i];
      if InfoAfter(init, potf2, b) != 0 {
        var f :| 0 <= f < |init| && Local(potf2, init[f], b) != 0;
        assert Local(potf2, ps[f], b) > 0;
      }
    }
  }

  /** Once info[b] is nonzero, later panels never change it. */
  lemma {:induction false} FirstFailureWins(ps: seq<Panel>, more: seq<Panel>, potf2: Potf2Oracle, b: nat)
    requires InfoAfter(ps, potf2, b) != 0
    ensures InfoAfter(ps + more, potf2, b) == InfoAfter(ps, potf2, b)
    decreases |more|
  {
    if more != [] {
      var init := more[..|more| - 1];
      FirstFailureWins(ps, init, potf2, b);
      var all := ps + more;
      assert all[..|all| - 1] == ps + init;
      assert InfoAfter(all, potf2, b) ==
        MergeInfo(InfoAfter(ps + init, potf2, b), Local(potf2, all[|all| - 1], b), all[|all| - 1].start);
    } else {
      assert ps + more == ps;
    }
  }

  /** When potf2 reports a column of its own block, the final info is 0 or a
      1-based column of the matrix that lies in a failing panel. */
  lemma InfoNamesFailingColumn(n: nat, sw: nat, potf2: Potf2Oracle, b: nat)
    requires sw > 0
    requires forall p :: p in Panels(n, sw) ==> Local(potf2, p, b) <= p.width
    ensures var info := InfoAfter(Panels(n, sw), potf2, b);
      && 0 <= info <= n
      && (info != 0 ==> exists i :: 0 <= i < |Panels(n, sw)| && FailsAt(Panels(n, sw)[i], potf2, b, info))
  {
    var ps := Panels(n, sw);
    var info := InfoAfter(ps, potf2, b);
    InfoIsFirstFailure(ps, potf2, b);
    if info != 0 {
      var f := FirstFailed(ps, potf2, b);
      assert info == Local(potf2, ps[f], b) + ps[f].start;
      PanelsFromBounds(n, sw, 0);
      assert ps[f] in ps;
      assert FailsAt(ps[f], potf2, b, info);
    }
  }

  /** Panel `p` failed for member `b`, and the 1-based column `info` is one of
      its columns. */
  predicate FailsAt(p: Panel, potf2: Potf2Oracle, b: nat, info: int)
  {
    Local(potf2, p, b) > 0 && Covers(p, info - 1)
  }

  /** The index of the first panel whose local info is nonzero. */
  function FirstFailed(ps: seq<Panel>, potf2: Potf2Oracle, b: nat): (f: nat)
    requires exists i :: 0 <= i < |ps| && Local(potf2, ps[i], b) > 0
    ensures f < |ps| && Local(potf2, ps[f], b) > 0
    ensures forall e :: 0 <= e < f ==> Local(potf2, ps[e], b) == 0
  {
    if Local(potf2, ps[0], b) > 0 then 0
    else
      assert exists i :: 0 <= i < |ps[1..]| && Local(potf2, ps[1..][i], b) > 0 by {
        var i :| 0 <= i < |ps| && Local(potf2, ps[i], b) > 0;
        assert ps[1..][i - 1] == ps[i];
      }
      1 + FirstFailed(ps[1..], potf2, b)
  }

  /** The triangular solve issued for member `b` after the panel `p`. */
  function SolveOp(uplo: Fill, n: nat, p: Panel, b: nat): (op: Op)
    requires p.start + p.width <= n
    ensures op.Solve? && op.member == b && InMatrix(op, n)
    ensures op.trans == ConjugateTranspose && op.tri == Cell(p.start, p.start)
    ensures (if uplo == Upper then op.side == Left && op.rows == p.width
             else op.side == Right && op.cols == p.width)
  {
    var j, jb := p.start, p.width;
    if uplo == Upper then Solve(b, Left, uplo, ConjugateTranspose, jb, n - j - jb, Cell(j, j), Cell(j, j + jb))
    else Solve(b, Right, uplo, ConjugateTranspose, n - j - jb, jb, Cell(j, j), Cell(j + jb, j))
  }

  /** The solves for members 0 .. count - 1, in order. */
  function Solves(uplo: Fill, n: nat, p: Panel, count: nat): (ops: seq<Op>)
    requires p.start + p.width <= n
    ensures |ops| == count
    ensures forall b :: 0 <= b < count ==> ops[b] == SolveOp(uplo, n, p, b)
  {
    if count == 0 then [] else Solves(uplo, n, p, count - 1) + [SolveOp(uplo, n, p, count - 1)]
  }

  /** The rank-jb update of the trailing matrix issued after the panel `p`. */
  function UpdateOp(uplo: Fill, n: nat, p: Panel): (op: Op)
    requires p.start + p.width <= n
    ensures op.Update? && InMatrix(op, n)
    ensures op.order == n - p.start - p.width && op.rank == p.width
    ensures op.dst == Cell(p.start + p.width, p.start + p.width)
  {
    var j, jb := p.start, p.width;
    if uplo == Upper then Update(uplo, ConjugateTranspose, n - j - jb, jb, Cell(j, j + jb), Cell(j + jb, j + jb))
    else Update(uplo, NoTranspose, n - j - jb, jb, Cell(j + jb, j), Cell(j + jb, j + jb))
  }

  /** The kernel calls of one panel: potf2 on its diagonal block and, unless it
      is the last, one solve per member and one trailing update. */
  function PanelOps(uplo: Fill, n: nat, bc: nat, p: Panel): seq<Op>
    requires p.start + p.width <= n
  {
    [Factor(uplo, Cell(p.start, p.start), p.width)] +
    if p.start + p.width < n then Solves(uplo, n, p, bc) + [UpdateOp(uplo, n, p)] else []
  }

  function Schedule(uplo: Fill, n: nat, bc: nat, ps: seq<Panel>): seq<Op>
    requires forall i :: 0 <= i < |ps| ==> ps[i].start + ps[i].width <= n
  {
    if ps == [] then []
    else Schedule(uplo, n, bc, ps[..|ps| - 1]) + PanelOps(uplo, n, bc, ps[|ps| - 1])
  }

  /** The blocks a kernel call reads and writes lie inside the n-by-n matrix. */
  predicate InMatrix(op: Op, n: nat)
  {
    match op
    case Factor(_, at, size) => at.row + size <= n && at.col + size <= n
    case Solve(_, side, _, _, rows, cols, tri, rhs) =>
      var order := if side == Left then rows else cols;
      && tri.row + order <= n && tri.col + order <= n
      && rhs.row + rows <= n && rhs.col + cols <= n
    case Update(_, trans, order, rank, src, dst) =>
      && dst.row + order <= n && dst.col + order <= n
      && if trans == NoTranspose then src.row + order <= n && src.col + rank <= n
         else src.row + rank <= n && src.col + order <= n
  }

  /** Every block of every kernel call the driver issues lies inside the
      matrix, and no solve or update works on an empty block. */
  lemma {:induction false} ScheduleInMatrix(uplo: Fill, n: nat, bc: nat, ps: seq<Panel>)
    requires forall i :: 0 <= i < |ps| ==> 1 <= ps[i].width && ps[i].start + ps[i].width <= n
    ensures forall op :: op in Schedule(uplo, n, bc, ps) ==> InMatrix(op, n)
    ensures forall op :: op in Schedule(uplo, n, bc, ps) && op.Solve? ==> op.rows >= 1 && op.cols >= 1
    ensures forall op :: op in Schedule(uplo, n, bc, ps) && op.Update? ==> op.order >= 1 && op.rank >= 1
  {
    if ps != [] {
      var init := ps[..|ps| - 1];
      ScheduleInMatrix(uplo, n, bc, init);
      var p := ps[|ps| - 1];
      var ops := PanelOps(uplo, n, bc, p);
      forall op | op in ops
        ensures InMatrix(op, n)
        ensures op.Solve? ==> op.rows >= 1 && op.cols >= 1
        ensures op.Update? ==> op.order >= 1 && op.rank >= 1
      {
        if op != ops[0] && op != UpdateOp(uplo, n, p) {
          var b :| 0 <= b < bc && Solves(uplo, n, p, bc)[b] == op;
        }
      }
    }
  }

  /** rocsolver_potrf_getMemorySize's answer, and potf2's. */
  datatype PotrfSizes = PotrfSizes(size1: nat, size2: nat, size3: nat, size4: nat)
  datatype Potf2Sizes = Potf2Sizes(size1: nat, size2: nat, size3: nat)

  /** Workspace of the driver: potf2's at n below the switch size (potf2 does
      all the work), potf2's at the switch size and bc integers for iinfo
      otherwise. */
  function PotrfMemorySize(n: nat, bc: nat, sw: nat, potf2Sizes: (nat, nat) -> Potf2Sizes): (r: PotrfSizes)
    ensures Fits(potf2Sizes(Min(n, sw), bc), r)
    ensures r.size4 == if n < sw then 0 else IntBytes * bc
  {
    if n < sw then
      var s := potf2Sizes(n, bc);
      PotrfSizes(s.size1, s.size2, s.size3, 0)
    else
      var s := potf2Sizes(sw, bc);
      PotrfSizes(s.size1, s.size2, s.size3, IntBytes * bc)
  }

  predicate Within(a: Potf2Sizes, b: Potf2Sizes)
  {
    a.size1 <= b.size1 && a.size2 <= b.size2 && a.size3 <= b.size3
  }

  predicate Fits(need: Potf2Sizes, have: PotrfSizes)
  {
    need.size1 <= have.size1 && need.size2 <= have.size2 && need.size3 <= have.size3
  }

  /** When potf2's workspace grows with the matrix order, the driver's
      workspace is enough for each potf2 call it makes, and the blocked path
      has room for one integer per member in iinfo. */
  lemma MemorySizeSuffices(n: nat, bc: nat, sw: nat, potf2Sizes: (nat, nat) -> Potf2Sizes)
    requires sw > 0
    requires forall x: nat, y: nat :: x <= y ==> Within(potf2Sizes(x, bc), potf2Sizes(y, bc))
    ensures var have := PotrfMemorySize(n, bc, sw, potf2Sizes);
      && (n < sw ==> Fits(potf2Sizes(n, bc), have) && have.size4 == 0)
      && (n >= sw ==> have.size4 == IntBytes * bc)
      && (n >= sw ==> forall p :: p in Panels(n, sw) ==> Fits(potf2Sizes(p.width, bc), have))
  {
    PanelsFromBounds(n, sw, 0);
  }

  /** reset_info: every entry of `a` set to 0. */
  method ResetInfo(a: array<int>)
    modifies a
    ensures forall b :: 0 <= b < a.Length ==> a[b] == 0
  {
    forall b | 0 <= b < a.Length {
      a[b] := 0;
    }
  }

  /** rocsolver_potf2_template on the diagonal block of width `jb` at column
      `j`: writes each member's local info into `out` and returns `status`. */
  method Potf2(h: Handle, uplo: Fill, j: nat, jb: nat, out: array<int>, potf2: Potf2Oracle, status: Status)
    returns (st: Status)
    modifies h, out
    ensures h.pointerMode == old(h.pointerMode)
    ensures h.queue == old(h.queue) + [Factor(uplo, Cell(j, j), jb)]
    ensures forall b :: 0 <= b < out.Length ==> out[b] == potf2(j, jb, b)
    ensures st == status
  {
    h.queue := h.queue + [Factor(uplo, Cell(j, j), jb)];
    forall b | 0 <= b < out.Length {
      out[b] := potf2(j, jb, b);
    }
    st := status;
  }

  /** The number of thread blocks of gridReset, (batch_count - 1) / BLOCKSIZE
      + 1, for a batch of `bc` members and blocks of `bs` threads. */
  function GridBlocks(bc: nat, bs: nat): (g: nat)
    requires bc > 0 && bs > 0
    ensures 1 <= g <= bc
    ensures bc <= bs ==> g == 1
    ensures bs == 1 ==> g == bc
  {
    (bc - 1) / bs + 1
  }

  /** chk_positive launched on a grid of `blocks` thread blocks: block `b`
      works on member b, whose info takes the panel's failure, shifted by the
      panel's start column `j`, unless it already holds one. Members without a
      block keep their info. */
  method ChkPositive(iinfo: array<int>, info: array<int>, j: nat, blocks: nat)
    requires iinfo != info && iinfo.Length == info.Length && blocks <= info.Length
    modifies info
    ensures forall b :: 0 <= b < info.Length ==>
      info[b] == if b < blocks then MergeInfo(old(info[b]), iinfo[b], j) else old(info[b])
  {
    forall b | 0 <= b < blocks {
      info[b] := MergeInfo(info[b], iinfo[b], j);
    }
  }

  /** The trailing update after panel `p`: one trsm per batch member, then a
      batched herk. */
  method UpdateTrailing(h: Handle, uplo: Fill, n: nat, bc: nat, p: Panel)
    requires p.start + p.width < n
    modifies h
    ensures h.pointerMode == old(h.pointerMode)
    ensures h.queue == old(h.queue) + Solves(uplo, n, p, bc) + [UpdateOp(uplo, n, p)]
  {
    ghost var q0 := h.queue;
    for b := 0 to bc
      invariant h.pointerMode == old(h.pointerMode)
      invariant h.queue == q0 + Solves(uplo, n, p, b)
    {
      h.queue := h.queue + [SolveOp(uplo, n, p, b)];
    }
    h.queue := h.queue + [UpdateOp(uplo, n, p)];
  }

  /** One iteration of the panel loop: reset iinfo, factor the diagonal block
      of panel `p`, merge its failures into info, and update the trailing
      matrix unless `p` is the last panel. */
  method FactorPanel(h: Handle, uplo: Fill, n: nat, p: Panel, info: array<int>, iinfo: array<int>,
                     blocks: nat, potf2: Potf2Oracle, potf2Status: Status)
    requires info != iinfo && info.Length == iinfo.Length && blocks <= info.Length && p.start + p.width <= n
    modifies h, info, iinfo
    ensures h.pointerMode == old(h.pointerMode)
    ensures h.queue == old(h.queue) + PanelOps(uplo, n, info.Length, p)
    ensures forall b :: 0 <= b < info.Length ==>
      info[b] == if b < blocks then MergeInfo(old(info[b]), Local(potf2, p, b), p.start) else old(info[b])
  {
    ResetInfo(iinfo);
    var _ := Potf2(h, uplo, p.start, p.width, iinfo, potf2, potf2Status);
    ChkPositive(iinfo, info, p.start, blocks);
    if p.start + p.width < n {
      UpdateTrailing(h, uplo, n, info.Length, p);
    }
  }

  /** Schedule and InfoAfter extend panel by panel. */
  lemma Snoc(uplo: Fill, n: nat, bc: nat, done: seq<Panel>, p: Panel, potf2: Potf2Oracle)
    requires forall i :: 0 <= i < |done| ==> done[i].start + done[i].width <= n
    requires p.start + p.width <= n
    ensures forall i :: 0 <= i < |done + [p]| ==> (done + [p])[i].start + (done + [p])[i].width <= n
    ensures Schedule(uplo, n, bc, done + [p]) == Schedule(uplo, n, bc, done) + PanelOps(uplo, n, bc, p)
    ensures forall b :: InfoAfter(done + [p], potf2, b) == MergeInfo(InfoAfter(done, potf2, b), Local(potf2, p, b), p.start)
  {
    assert (done + [p])[..|done|] == done;
  }

  /** The loop variable j walks through the panels: the one at j comes next. */
  lemma LoopStep(n: nat, sw: nat, j: nat, done: seq<Panel>)
    requires sw > 0 && j < n && done + PanelsFrom(n, sw, j) == Panels(n, sw)
    ensures (done + [Panel(j, Min(n - j, sw))]) + PanelsFrom(n, sw, j + sw) == Panels(n, sw)
  {
    assert PanelsFrom(n, sw, j) == [Panel(j, Min(n - j, sw))] + PanelsFrom(n, sw, j + sw);
  }

  /** Once j reaches n, every panel is done. */
  lemma LoopExit(n: nat, sw: nat, j: nat, done: seq<Panel>)
    requires sw > 0 && j >= n && done + PanelsFrom(n, sw, j) == Panels(n, sw)
    ensures done == Panels(n, sw)
  {
    assert PanelsFrom(n, sw, j) == [];
    assert done + [] == done;
  }

  /** What the panel loop has done once the panels `done` are behind it and j
      is the start of the next one. */
  ghost predicate LoopDone(h: Handle, q0: seq<Op>, uplo: Fill, n: nat, sw: nat, j: nat,
                           info: array<int>, blocks: nat, potf2: Potf2Oracle, done: seq<Panel>)
    reads h, info
  {
    && sw > 0
    && done + PanelsFrom(n, sw, j) == Panels(n, sw)
    && (forall i :: 0 <= i < |done| ==> done[i].start + done[i].width <= n)
    && h.queue == q0 + Schedule(uplo, n, info.Length, done)
    && forall b :: 0 <= b < info.Length ==> info[b] == if b < blocks then InfoAfter(done, potf2, b) else 0
  }

  /** One turn of the panel loop: the panel at j is factored and merged, and
      the loop goes on from j + sw. */
  method LoopTurn(h: Handle, ghost q0: seq<Op>, uplo: Fill, n: nat, sw: nat, j: nat,
                  info: array<int>, iinfo: array<int>, blocks: nat, potf2: Potf2Oracle, potf2Status: Status,
                  ghost done: seq<Panel>)
    returns (ghost done': seq<Panel>)
    requires info != iinfo && info.Length == iinfo.Length && blocks <= info.Length && j < n
    requires LoopDone(h, q0, uplo, n, sw, j, info, blocks, potf2, done)
    modifies h, info, iinfo
    ensures h.pointerMode == old(h.pointerMode)
    ensures LoopDone(h, q0, uplo, n, sw, j + sw, info, blocks, potf2, done')
  {
    var p := Panel(j, Min(n - j, sw));
    LoopStep(n, sw, j, done);
    FactorPanel(h, uplo, n, p, info, iinfo, blocks, potf2, potf2Status);
    Snoc(uplo, n, info.Length, done, p, potf2);
    done' := done + [p];
  }

  /** The blocked path: reset info, then for each panel reset iinfo, factor the
      diagonal block, merge its failures into info with chk_positive launched
      on `blocks` thread blocks, and update the trailing matrix unless it is
      the last panel. */
  method Blocked(h: Handle, uplo: Fill, n: nat, sw: nat, info: array<int>, iinfo: array<int>,
                 blocks: nat, potf2: Potf2Oracle, potf2Status: Status)
    requires sw > 0 && info != iinfo && info.Length == iinfo.Length && blocks <= info.Length
    modifies h, info, iinfo
    ensures h.pointerMode == old(h.pointerMode)
    ensures forall p :: p in Panels(n, sw) ==> p.start + p.width <= n
    ensures h.queue == old(h.queue) + Schedule(uplo, n, info.Length, Panels(n, sw))
    ensures forall b :: 0 <= b < info.Length ==>
      info[b] == if b < blocks then InfoAfter(Panels(n, sw), potf2, b) else 0
  {
    ResetInfo(info);
    ghost var q0 := h.queue;
    ghost var done: seq<Panel> := [];
    var j := 0;
    assert done + PanelsFrom(n, sw, j) == Panels(n, sw);
    while j < n
      invariant LoopDone(h, q0, uplo, n, sw, j, info, blocks, potf2, done)
      invariant h.pointerMode == old(h.pointerMode)
      decreases n - j
    {
      done := LoopTurn(h, q0, uplo, n, sw, j, info, iinfo, blocks, potf2, potf2Status, done);
      j := j + sw;
    }
    LoopExit(n, sw, j, done);
  }

  /** rocsolver_potrf_template as written, with thread blocks of `bs` threads.
      The unblocked path returns potf2's status while the pointer mode is
      still set to host, so a caller that had set device mode gets its handle
      back in host mode. On the blocked path chk_positive runs on gridReset,
      one block per `bs` members, and block b merges member b only: members
      from GridBlocks(bc, bs) on keep info 0 whatever potf2 reports. */
  method PotrfTemplateAsWritten(h: Handle, uplo: Fill, n: nat, sw: nat, bs: nat, info: array<int>, iinfo: array<int>,
                                potf2: Potf2Oracle, potf2Status: Status)
    returns (st: Status)
    requires sw > 0 && bs > 0 && info != iinfo && info.Length == iinfo.Length
    modifies h, info, iinfo
    ensures n == 0 || info.Length == 0 ==>
      st == Success && h.pointerMode == old(h.pointerMode) && h.queue == old(h.queue) && info[..] == old(info[..])
    ensures n > 0 && info.Length > 0 ==>
      && (forall p :: p in Panels(n, sw) ==> p.start + p.width <= n)
      && h.queue == old(h.queue) + Schedule(uplo, n, info.Length, Panels(n, sw))
    ensures n > 0 && info.Length > 0 && n < sw ==>
      && st == potf2Status && h.pointerMode == HostMode
      && forall b :: 0 <= b < info.Length ==> info[b] == InfoAfter(Panels(n, sw), potf2, b)
    ensures n > 0 && info.Length > 0 && n >= sw ==>
      && st == Success && h.pointerMode == old(h.pointerMode)
      && forall b :: 0 <= b < info.Length ==>
           info[b] == if b < GridBlocks(info.Length, bs) then InfoAfter(Panels(n, sw), potf2, b) else 0
  {
    if n == 0 || info.Length == 0 {
      return Success;
    }
    var oldMode := h.pointerMode;
    h.pointerMode := HostMode;
    if n < sw {
      st := Potf2(h, uplo, 0, n, info, potf2, potf2Status);
      SinglePanel(n, sw);
      assert Panels(n, sw)[..0] == [];
      return;
    }
    Blocked(h, uplo, n, sw, info, iinfo, GridBlocks(info.Length, bs), potf2, potf2Status);
    h.pointerMode := oldMode;
    st := Success;
  }

  /** A handle in device mode comes back in host mode from a small matrix. */
  method PointerModeLeaks() returns (before: PointerMode, after: PointerMode)
    ensures before == DeviceMode && after == HostMode
  {
    var h := new Handle(DeviceMode);
    var info := new int[1];
    var iinfo := new int[1];
    before := h.pointerMode;
    var _ := PotrfTemplateAsWritten(h, Upper, 1, 2, 64, info, iinfo, (j, jb, b) => 0, Success);
    after := h.pointerMode;
  }

  /** Two members, two panels of one column: potf2 finds member 1 not positive
      definite in the first column. The first failing column of member 1 is 1,
      yet as written its info stays 0, because the grid of chk_positive has a
      single block. */
  method UnmergedMemberAsWritten() returns (reported: int, firstFailure: int)
    ensures reported == 0 && firstFailure == 1
  {
    var potf2: Potf2Oracle := (j, jb, b) => if b == 1 && j == 0 then 1 else 0;
    var h := new Handle(HostMode);
    var info := new int[2];
    var iinfo := new int[2];
    var _ := PotrfTemplateAsWritten(h, Lower, 2, 1, 64, info, iinfo, potf2, Success);
    reported := info[1];
    assert PanelsFrom(2, 1, 2) == [];
    assert PanelsFrom(2, 1, 1) == [Panel(1, 1)];
    assert Panels(2, 1) == [Panel(0, 1), Panel(1, 1)];
    firstFailure := InfoAfter([Panel(0, 1), Panel(1, 1)], potf2, 1);
    assert [Panel(0, 1), Panel(1, 1)][..1] == [Panel(0, 1)];
    assert [Panel(0, 1)][..0] == [];
  }

  /** rocsolver_potrf_template with the saved pointer mode restored on both
      paths and chk_positive launched with one block per member. Unblocked and
      blocked paths leave the same info for every member: 0, or the first
      failing column; the kernels issued are the panels' schedule. */
  method PotrfTemplate(h: Handle, uplo: Fill, n: nat, sw: nat, info: array<int>, iinfo: array<int>,
                       potf2: Potf2Oracle, potf2Status: Status)
    returns (st: Status)
    requires sw > 0 && info != iinfo && info.Length == iinfo.Length
    modifies h, info, iinfo
    ensures h.pointerMode == old(h.pointerMode)
    ensures n == 0 || info.Length == 0 ==>
      st == Success && h.queue == old(h.queue) && info[..] == old(info[..])
    ensures n > 0 && info.Length > 0 ==>
      && st == (if n < sw then potf2Status else Success)
      && (forall p :: p in Panels(n, sw) ==> p.start + p.width <= n)
      && h.queue == old(h.queue) + Schedule(uplo, n, info.Length, Panels(n, sw))
      && forall b :: 0 <= b < info.Length ==> info[b] == InfoAfter(Panels(n, sw), potf2, b)
  {
    if n == 0 || info.Length == 0 {
      return Success;
    }
    var oldMode := h.pointerMode;
    h.pointerMode := HostMode;
    if n < sw {
      st := Potf2(h, uplo, 0, n, info, potf2, potf2Status);
      h.pointerMode := oldMode;
      SinglePanel(n, sw);
      assert Panels(n, sw)[..0] == [];
      return;
    }
    Blocked(h, uplo, n, sw, info, iinfo, info.Length, potf2, potf2Status);
    h.pointerMode := oldMode;
    st := Success;
  }
}
