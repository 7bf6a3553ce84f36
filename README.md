# rocSOLVER control logic in Dafny

This project models the integer control logic of a slice of rocSOLVER, AMD's
LAPACK implementation for GPUs. The floating-point numerics are not modelled.
The slice has three parts.

- **Entry points.** These are the `*_impl` functions of xORMBR/xUNMBR, xGEQR2,
  batched xGEQR2, xGETRF and strided-batched xPOTF2.
  - Each runs a chain of early returns that maps its arguments to a
    `rocblas_status`. The order of the checks differs between routines, and
    the model keeps each routine's order.
  - Each then runs the same workspace lifecycle: ask the planner for the
    region sizes, allocate the regions, check the allocations, fill and copy
    the constants `{-1, 0, 1}`, run the template, free the regions.
  - The lifecycle keeps the code's order and its early returns: the
    memory-error return and a failed copy leave without freeing anything.
    The constants region is sized in scalars rather than in bytes as written
    (see Findings).
- **The blocked Cholesky driver** `rocsolver_potrf_template`, derived from
  LAPACK xPOTRF.
  - It covers the workspace sizing, the quick return and the unblocked/blocked
    switch.
  - It splits the columns into panels of width `min(n - j, SWITCHSIZE)`.
  - `chk_positive` merges each panel's failures into `info`, and the first
    failure wins. It is launched on `(batch_count - 1) / BLOCKSIZE + 1` thread
    blocks and block b merges member b, so as written only that many members
    are merged (see Findings).
  - It schedules a triangular solve per batch member and a trailing update
    after every panel except the last.
- **The reflector replay** `rocsolver_orml2_unml2_template`, derived from
  LAPACK xORML2/xUNML2.
  - It covers the `{start, step}` direction table and the target block of
    each reflector.
  - `A(i, i)` is saved and restored around each larf call.
  - tau and each reflector's tail are conjugated in pairs, so only `C`
    changes.

## Layout

| file | module | contents |
|---|---|---|
| `common.dfy` | `Common` | statuses, enumerations, scalar types, the chain of early returns (`FirstFailing`) |
| `workspace.dfy` | `Workspace` | device memory as a class; the allocate / check / copy / launch / free session |
| `ormbr_unmbr.dfy` | `OrmbrUnmbr` | checks and entry point of xORMBR/xUNMBR |
| `geqr2.dfy` | `Geqr2` | checks and entry point of xGEQR2 |
| `geqr2_batched.dfy` | `Geqr2Batched` | checks and entry point of batched xGEQR2 |
| `getrf.dfy` | `Getrf` | checks and entry point of xGETRF |
| `potf2_strided_batched.dfy` | `Potf2StridedBatched` | checks and entry point of strided-batched xPOTF2 |
| `potrf.dfy` | `Potrf` | the blocked Cholesky driver |
| `orml2_unml2.dfy` | `Orml2Unml2` | the reflector replay of xORML2/xUNML2 |

### Parameters of the model

The code calls things it cannot see from here. The model takes each of them
as a parameter.

- **The planner** (`*_getMemorySize`) is a function from a query to region
  sizes.
- **The allocator and the copy.** Whether each `hipMalloc` succeeds is a
  sequence of booleans. The `hipMemcpy` outcome is a status, already
  translated by `RETURN_IF_HIP_ERROR`.
- **Template status.** The status a template returns is an input of the entry
  point.
- **potf2** is an oracle that gives each batch member's local failure index
  for a diagonal block.
- **trsm and herk** are recorded, with the blocks they work on, in the
  handle's queue.
- **larf** is an oracle that gives each entry of its target block a new value,
  from the reflector, the entry's position and the entry's old value.
- **Conjugation** is an abstract involution on an abstract scalar type.
- **`POTRF_POTF2_SWITCHSIZE`** is a positive parameter `sw`.

## Model

| member | source | states |
|---|---|---|
| Common.Nq | rocsolver/library/src/auxiliary/rocauxiliary_ormbr_unmbr.cpp:21 | the order of Q is m from the left and n from the right |
| Common.FirstFailing | rocsolver/library/src/auxiliary/rocauxiliary_ormbr_unmbr.cpp:12-32 | a chain of early returns yields Success iff every check holds, and otherwise the status of the first check that fails |
| OrmbrUnmbr.Validate | rocsolver/library/src/auxiliary/rocauxiliary_ormbr_unmbr.cpp:12-32 | each status comes back iff its condition holds and every earlier check passed. Null handle gives invalid_handle. Negative m/n/k, ldc < m, or lda below nq (column-wise) or below min(nq, k) (row-wise) gives invalid_size. A null A/ipiv/C gives invalid_pointer. Transpose on a complex type or conjugate transpose on a real type gives invalid_value |
| OrmbrUnmbr.SizesBeforePointers | rocsolver/library/src/auxiliary/rocauxiliary_ormbr_unmbr.cpp:18-28 | a size error is reported whatever the pointers are |
| OrmbrUnmbr.OrmbrUnmbrImpl | rocsolver/library/src/auxiliary/rocauxiliary_ormbr_unmbr.cpp:34-85 | a failed check returns its status and leaves memory alone. Otherwise the planner is asked for the non-batched sizes, and the session follows the workspace protocol with batch count 1 and every stride and shift 0 |
| Geqr2.Validate | rocsolver/library/src/lapack/roclapack_geqr2.cpp:12-21 | null handle, then null A/ipiv (invalid_pointer), then m < 0, n < 0 or lda < m (invalid_size); each iff |
| Geqr2.PointersBeforeSizes | rocsolver/library/src/lapack/roclapack_geqr2.cpp:18-21 | a pointer error is reported whatever the sizes are |
| Geqr2.Geqr2Impl | rocsolver/library/src/lapack/roclapack_geqr2.cpp:23-68 | a failed check changes nothing. Otherwise the non-batched sizes for one matrix are used, and the four-region protocol runs with batch count 1, strides 0 and shift 0 |
| Geqr2Batched.Validate | rocsolver/library/src/lapack/roclapack_geqr2_batched.cpp:13-22 | null handle, then null A/ipiv, then m < 0, n < 0, lda < m or batch_count < 0; each iff |
| Geqr2Batched.AgreesWithSingle | rocsolver/library/src/lapack/roclapack_geqr2_batched.cpp:19-22 | for batch_count >= 0 the batched checks give the single-matrix status; a negative batch count on otherwise valid arguments is invalid_size |
| Geqr2Batched.Geqr2BatchedImpl | rocsolver/library/src/lapack/roclapack_geqr2_batched.cpp:24-67 | a failed check changes nothing. Otherwise the batched sizes for the whole batch are used, and the four-region protocol runs with the forwarded stride and count |
| Getrf.Validate | rocsolver/library/src/lapack/roclapack_getrf.cpp:11-20 | null handle, then m < 0, n < 0 or lda < m (invalid_size), then null A/ipiv/info (invalid_pointer); each iff |
| Getrf.SizesBeforePointers | rocsolver/library/src/lapack/roclapack_getrf.cpp:17-20 | a size error is reported whatever the pointers are |
| Getrf.GetrfImpl | rocsolver/library/src/lapack/roclapack_getrf.cpp:22-63 | a failed check changes nothing. Otherwise the three-region protocol (constants, pivotGPU, iinfo) runs with batch count 1, strides 0 and shift 0 |
| Potf2StridedBatched.Validate | rocsolver/library/src/lapack/roclapack_potf2_strided_batched.cpp:12-21 | null handle, then null A/info, then n < 0, lda < n or batch_count < 0; each iff |
| Potf2StridedBatched.PointersBeforeSizes | rocsolver/library/src/lapack/roclapack_potf2_strided_batched.cpp:18-21 | a pointer error is reported whatever the sizes are |
| Potf2StridedBatched.Potf2StridedBatchedImpl | rocsolver/library/src/lapack/roclapack_potf2_strided_batched.cpp:23-58 | a failed check changes nothing. Otherwise the three-region protocol (constants, work, pivotGPU) runs with the forwarded stride and count |
| Workspace.Memory.Malloc | rocsolver/library/src/lapack/roclapack_getrf.cpp:34-36 | a granted request yields a fresh non-null region of the requested size; a refused one yields null and changes nothing |
| Workspace.Memory.Free | rocsolver/library/src/lapack/roclapack_getrf.cpp:60-62 | the region, and what was copied into it, is gone; freeing null changes nothing |
| Workspace.Memory.Upload | rocsolver/library/src/lapack/roclapack_getrf.cpp:46 | the copy must fit the destination; on success the region holds the values, otherwise nothing changes and the error is returned |
| Workspace.Constants | rocsolver/library/src/auxiliary/rocauxiliary_ormbr_unmbr.cpp:57-60 | the constants vector has size_1 entries: -1, 0, 1, then zeros |
| Workspace.FillConstants | rocsolver/library/src/auxiliary/rocauxiliary_ormbr_unmbr.cpp:57-60 | the freshly filled host vector is exactly the constants vector |
| Workspace.ScalarsBytes | rocsolver/library/src/auxiliary/rocauxiliary_ormbr_unmbr.cpp:48 | corrected: the constants region is sized in scalars, at least 4 bytes per constant |
| Workspace.ScalarsBytesAsWritten | rocsolver/library/src/auxiliary/rocauxiliary_ormbr_unmbr.cpp:48 | as written, the request for size_1 constants is short of size_1 scalars for every scalar type |
| Workspace.Requested | rocsolver/library/src/auxiliary/rocauxiliary_ormbr_unmbr.cpp:47-51 | corrected: the bytes requested per region: size_1 scalars for the constants, the planner's size for the others |
| Workspace.ConstantsOverrunAsWritten | rocsolver/library/src/auxiliary/rocauxiliary_ormbr_unmbr.cpp:48-61 | as written, the copy of the constants writes at least 3 * size_1 bytes more than the size_1 bytes allocated, for every scalar type |
| Workspace.ConstantsFit | rocsolver/library/src/auxiliary/rocauxiliary_ormbr_unmbr.cpp:48-61 | with the region sized in scalars, the copy of the constants fits exactly |
| Workspace.AllocationFailedIff | rocsolver/library/src/auxiliary/rocauxiliary_ormbr_unmbr.cpp:52-53 | memory_error iff the constants allocation was refused or an allocation of nonzero size was refused; a refused zero-size allocation is accepted |
| Workspace.Allocate | rocsolver/library/src/auxiliary/rocauxiliary_ormbr_unmbr.cpp:47-51 | the regions are allocated in order; a region is null iff its request was refused; the granted ones are pairwise distinct, new and of the requested size; older regions keep their sizes and all contents are unchanged |
| Workspace.AllocateAsWritten | rocsolver/library/src/auxiliary/rocauxiliary_ormbr_unmbr.cpp:47-61 | as written, the constants region gets size_1 bytes; once granted it is smaller than the sizeof(T) * size_1 bytes the copy writes, so the copy's precondition is false |
| Workspace.Release | rocsolver/library/src/auxiliary/rocauxiliary_ormbr_unmbr.cpp:81-84 | every region of the session is freed, together with its contents |
| Workspace.RunSession | rocsolver/library/src/auxiliary/rocauxiliary_ormbr_unmbr.cpp:44-85 | three outcomes. A failed allocation returns memory_error and leaves the granted regions live, each of its requested size, with older regions and all contents unchanged. A failed copy returns its error and leaves memory the same way. Otherwise the template is launched with the fixed arguments, the constants {-1, 0, 1, 0, ...} and the regions this call allocated (new, pairwise distinct, of the sizes asked for), every region is freed so memory is as before, and the template's status is returned |
| Workspace.LaunchedRegionsAreNew | rocsolver/library/src/auxiliary/rocauxiliary_ormbr_unmbr.cpp:47-80 | in a session that reaches the template, each workspace pointer it gets is null iff its allocation was refused; the others were not live before the call and are pairwise distinct, so no region the caller holds is passed and no two pointers alias |
| Potrf.PanelsFromBounds | rocsolver/library/src/lapack/roclapack_potrf.hpp:92-94 | the loop from column j visits panels iff j < n; each is 1..sw wide and inside the matrix; the first starts at j and the last ends at n |
| Potrf.PanelsFromContiguous | rocsolver/library/src/lapack/roclapack_potrf.hpp:92-94 | each panel starts where the previous one ends, and every panel but the last is sw wide |
| Potrf.PanelsFromOrdered | rocsolver/library/src/lapack/roclapack_potrf.hpp:92-94 | a panel ends before any later panel starts |
| Potrf.PanelsFromCover | rocsolver/library/src/lapack/roclapack_potrf.hpp:92-94 | every column from j to n - 1 lies in some panel |
| Potrf.PanelsPartition | rocsolver/library/src/lapack/roclapack_potrf.hpp:117-119 | the panels partition 0 .. n - 1: widths 1..sw, every column in exactly one panel, none outside the matrix |
| Potrf.TrailingUpdateExceptLast | rocsolver/library/src/lapack/roclapack_potrf.hpp:101 | j + jb < n holds exactly for the panels other than the last |
| Potrf.SinglePanel | rocsolver/library/src/lapack/roclapack_potrf.hpp:62-63 | below the switch size the only panel is the whole matrix, so the unblocked path computes what a single blocked step would |
| Potrf.MergeInfo | rocsolver/library/src/lapack/roclapack_potrf.hpp:24-25 | a nonzero info is kept; a zero info takes a positive local failure shifted by j, and stays 0 otherwise |
| Potrf.InfoIsFirstFailure | rocsolver/library/src/lapack/roclapack_potrf.hpp:86-99 | the fold of the merge over the panels (what each member gets when chk_positive reaches it) is 0 iff no panel failed for member b; otherwise it is the first failing panel's local index plus its start column |
| Potrf.FirstFailureWins | rocsolver/library/src/lapack/roclapack_potrf.hpp:20-26 | once info[b] is nonzero, later panels never change it |
| Potrf.InfoNamesFailingColumn | rocsolver/library/src/lapack/roclapack_potrf.hpp:95-99 | when potf2 reports columns of its own block, the merged info of member b is 0 or a 1-based column, at most n, that lies in a failing panel |
| Potrf.FirstFailed | rocsolver/library/src/lapack/roclapack_potrf.hpp:99 | the panel it names failed and no earlier panel did |
| Potrf.Solves | rocsolver/library/src/lapack/roclapack_potrf.hpp:103-108 | one triangular solve per batch member, in member order |
| Potrf.SolveOp | rocsolver/library/src/lapack/roclapack_potrf.hpp:102-131 | the trsm for member b: the triangle is the panel's diagonal block, conjugate-transposed, on the left with panel-width rows (upper) or on the right with panel-width columns (lower), inside the matrix |
| Potrf.UpdateOp | rocsolver/library/src/lapack/roclapack_potrf.hpp:109-136 | the herk after a panel: rank the panel's width, on the trailing square of order n - j - jb at (j + jb, j + jb), inside the matrix |
| Potrf.ScheduleInMatrix | rocsolver/library/src/lapack/roclapack_potrf.hpp:91-139 | every block that potf2, trsm or herk is given lies inside the n-by-n matrix, and no solve or update is on an empty block |
| Potrf.PotrfMemorySize | rocsolver/library/src/lapack/roclapack_potrf.hpp:29-39 | the first three sizes cover potf2's at min(n, SWITCHSIZE); size_4 is 0 below the switch size and one int per member otherwise |
| Potrf.MemorySizeSuffices | rocsolver/library/src/lapack/roclapack_potrf.hpp:29-39 | below the switch size, potf2's sizes at n with size_4 = 0; otherwise potf2's sizes at the switch size suffice for every panel (potf2's sizes growing with n), and size_4 holds one int per member |
| Potrf.ResetInfo | rocsolver/library/src/lapack/roclapack_potrf.hpp:86 | every entry of the array is 0 |
| Potrf.Potf2 | rocsolver/library/src/lapack/roclapack_potrf.hpp:96 | the diagonal block of the panel is factored and each member's local info written; the pointer mode is untouched |
| Potrf.GridBlocks | rocsolver/library/src/lapack/roclapack_potrf.hpp:79-80 | gridReset has between 1 and batch_count blocks; exactly one when batch_count <= BLOCKSIZE |
| Potrf.ChkPositive | rocsolver/library/src/lapack/roclapack_potrf.hpp:20-26 | on a grid of `blocks` thread blocks, member b < blocks has info[b] become iinfo[b] + j exactly when it was 0 and iinfo[b] > 0, and keep it otherwise; members without a block keep their info |
| Potrf.UpdateTrailing | rocsolver/library/src/lapack/roclapack_potrf.hpp:101-113 | one trsm per member, in order, then one herk, on the blocks right of (upper) or below (lower) the panel |
| Potrf.FactorPanel | rocsolver/library/src/lapack/roclapack_potrf.hpp:93-113 | one loop iteration: its kernels are the panel's schedule, and info[b] of each member that chk_positive's grid reaches takes the panel's failure by the first-failure merge |
| Potrf.Blocked | rocsolver/library/src/lapack/roclapack_potrf.hpp:85-140 | after the loop, the kernels issued are the schedule of every panel in order; for a member that chk_positive's grid reaches, info[b] is the merge of all panels' failures, i.e. the first failure (by the lemmas above); every other member keeps the 0 of the reset |
| Potrf.PotrfTemplateAsWritten | rocsolver/library/src/lapack/roclapack_potrf.hpp:49-143 | as written: the quick return changes nothing. Both other paths issue the panels' schedule. The unblocked path returns potf2's status with the pointer mode left on host and info[b] the first failure of every member. The blocked path restores the mode, returns success, and gives the first failure only to members below (batch_count - 1) / BLOCKSIZE + 1, leaving 0 in the others |
| Potrf.UnmergedMemberAsWritten | rocsolver/library/src/lapack/roclapack_potrf.hpp:79-99 | two members, one-column panels, potf2 failing member 1 in column 1: as written its info is 0 though its first failing column is 1 |
| Potrf.PointerModeLeaks | rocsolver/library/src/lapack/roclapack_potrf.hpp:57-63 | a handle in device mode comes back in host mode after a small matrix |
| Potrf.PotrfTemplate | rocsolver/library/src/lapack/roclapack_potrf.hpp:49-143 | the pointer mode is restored on every path. The quick return changes nothing. Otherwise both paths issue the panels' schedule and leave info[b] as the first failure; the unblocked path returns potf2's status and the blocked path success |
| Orml2Unml2.DirectionOf | rocsolver/library/src/auxiliary/rocauxiliary_orml2_unml2.hpp:47-72 | the step is 1 or -1; it is 1 exactly for the forward cases (left without transpose, right with transpose), which start at -1; the backward ones start at k |
| Orml2Unml2.OrderVisitsEachOnce | rocsolver/library/src/auxiliary/rocauxiliary_orml2_unml2.hpp:47-80 | left/no-transpose and right/transpose visit 0 .. k - 1; the other two visit k - 1 .. 0; each index in [0, k) exactly once |
| Orml2Unml2.TransposeReverses | rocsolver/library/src/auxiliary/rocauxiliary_orml2_unml2.hpp:48-72 | applying Q' visits the reflectors in the reverse order of Q, and conjugate transpose takes the transpose's order |
| Orml2Unml2.TargetBlockInC | rocsolver/library/src/auxiliary/rocauxiliary_orml2_unml2.hpp:81-87 | left: rows i .. m - 1 and all columns; right: all rows and columns i .. n - 1. The block is nq - i long on the applied side and lies inside C |
| Orml2Unml2.ExpectedCall | rocsolver/library/src/auxiliary/rocauxiliary_orml2_unml2.hpp:89-101 | larf for reflector i gets a vector of 1 followed by the rest of row i, conjugated for complex types, and tau(i), conjugated for complex types unless transposing |
| Orml2Unml2.ExpectedCalls | rocsolver/library/src/auxiliary/rocauxiliary_orml2_unml2.hpp:79-101 | k larf calls, the t-th for the t-th reflector of the direction table |
| Orml2Unml2.ReplayOutsideBlocks | rocsolver/library/src/auxiliary/rocauxiliary_orml2_unml2.hpp:96-105 | an entry of C outside every call's block keeps its value |
| Orml2Unml2.Orml2MemorySize | rocsolver/library/src/auxiliary/rocauxiliary_orml2_unml2.hpp:20-28 | the first three sizes cover larf's for the whole m-by-n matrix; size_4 holds at least one scalar per member |
| Orml2Unml2.MemorySizeSuffices | rocsolver/library/src/auxiliary/rocauxiliary_orml2_unml2.hpp:20-28 | larf's sizes for the whole m-by-n matrix suffice for every reflector's block (larf's sizes growing with the block); size_4 holds one scalar per member |
| Orml2Unml2.ConjRowTail | rocsolver/library/src/auxiliary/rocauxiliary_orml2_unml2.hpp:89-90 | exactly the given columns of row i are conjugated, in every member |
| Orml2Unml2.ConjTau | rocsolver/library/src/auxiliary/rocauxiliary_orml2_unml2.hpp:75-76 | exactly the first k scalars of tau are conjugated, in every member |
| Orml2Unml2.SetOneDiag | rocsolver/library/src/auxiliary/rocauxiliary_orml2_unml2.hpp:93 | diag holds each member's old A(i, i), which is now 1; nothing else in A changes |
| Orml2Unml2.RestoreDiag | rocsolver/library/src/auxiliary/rocauxiliary_orml2_unml2.hpp:108 | A(i, i) gets the saved value back; nothing else in A changes |
| Orml2Unml2.Larf | rocsolver/library/src/auxiliary/rocauxiliary_orml2_unml2.hpp:96-105 | every entry of the target block gets larf's value; every other entry of C is unchanged |
| Orml2Unml2.ApplyReflector | rocsolver/library/src/auxiliary/rocauxiliary_orml2_unml2.hpp:80-111 | one iteration: larf sees the stored reflector (1 on the diagonal, tail conjugated for complex types), and A is unchanged afterwards |
| Orml2Unml2.ApplyAll | rocsolver/library/src/auxiliary/rocauxiliary_orml2_unml2.hpp:79-112 | the loop makes exactly the expected larf calls, in direction-table order; A is unchanged and C is their replay |
| Orml2Unml2.Orml2Unml2Template | rocsolver/library/src/auxiliary/rocauxiliary_orml2_unml2.hpp:39-118 | success. A and ipiv are unchanged on exit. With m, n, k or batch_count 0 no larf call is made. Otherwise the calls are the reflectors stored on entry, in direction-table order, and C is their replay |

## Left out

- Numerical kernels: the potf2 column computation, larf, lacgv's arithmetic, trsm and herk. They are oracles or recorded calls, so nothing is said about the factor or the product computed.
- Orml2Unml2.Larf: the larf update is modelled entrywise, as a function of the reflector, the entry's position and its old value. A larf whose result at one entry depends on other entries of C is not captured.
- Streams and device synchronisation: every kernel is modelled as finishing before the next starts.
- Launch grids other than chk_positive's: reset_info is modelled as resetting every member, since its kernel is not part of this model. The value of BLOCKSIZE is not part of this model either; it is the positive parameter `bs`.
- The device-to-host copy of the pointer array in batched potrf (roclapack_potrf.hpp:67-72): synchronisation plumbing. The model treats every member alike.
- The `extern "C"` per-type wrappers: they only forward. The scalar type is a parameter of the model (`ScalarType`, or `isComplex` with an abstract `T`).
- Logging: the entry points have none.
- The templates behind the five entry points (ormbr, geqr2, getrf, potf2) and their `*_getMemorySize`: their headers are not part of this model. Their status and the planner's answer are inputs.
- Potrf.Blocked: `j += SWITCHSIZE` is computed on unbounded integers. The 32-bit wrap-around of rocblas_int for n near 2^31 is not modelled.
- Potrf.PotrfTemplate: the value of POTRF_POTF2_SWITCHSIZE is not part of this model. It is the positive parameter `sw`.
- Orml2Unml2.Orml2Unml2Template: requires k <= nq, which LAPACK demands of the caller. The template itself does not check it.
- Orml2Unml2.Orml2Unml2Template: shiftA/shiftC, the leading dimensions and strides are not modelled. A, ipiv and C are three-dimensional arrays indexed by member.
- Workspace.RunSession: the allocation of the constants region uses the corrected size (see Findings). The as-written size cannot satisfy the copy's precondition, as Workspace.AllocateAsWritten shows.
- Workspace.ScalarsBytes: states the corrected size of the constants region, sizeof(T) * size_1 bytes, not the size_1 bytes of the code (see Findings).
- Workspace.Allocate: is called with the corrected size of the constants region (see Findings); Workspace.AllocateAsWritten is the as-written call.
- OrmbrUnmbr.OrmbrUnmbrImpl: follows the workspace protocol with the corrected size of the constants region (see Findings).
- Geqr2.Geqr2Impl: follows the workspace protocol with the corrected size of the constants region (see Findings).
- Geqr2Batched.Geqr2BatchedImpl: follows the workspace protocol with the corrected size of the constants region (see Findings).
- Getrf.GetrfImpl: follows the workspace protocol with the corrected size of the constants region (see Findings).
- Potf2StridedBatched.Potf2StridedBatchedImpl: follows the workspace protocol with the corrected size of the constants region (see Findings).
- Potrf.PotrfTemplate: launches chk_positive with one block per member, not the grid of the code, and restores the saved pointer mode on the unblocked path too, where the code returns at roclapack_potrf.hpp:63 before the restore at line 142 (see Findings).
- Workspace.Requested: asks for the corrected size of the constants region, sizeof(T) * size_1 bytes, not the size_1 bytes of the code (see Findings).
- Workspace.Memory.Upload: only the byte count of the copy is checked. The values are modelled as integers, whatever the scalar type.

## Findings

| source | as written | input that shows it | evidently intended | confidence | as-written member | corrected member |
|---|---|---|---|---|---|---|
| rocsolver/library/src/auxiliary/rocauxiliary_ormbr_unmbr.cpp:48-61 | `hipMalloc(&scalars, size_1)` allocates size_1 bytes, then `hipMemcpy` copies `sizeof(T)*size_1` bytes into it; the geqr2, batched geqr2, getrf and strided-batched potf2 entry points do the same | size_1 = 3 with float: 12 bytes are copied into a 3-byte region | allocate `sizeof(T)*size_1` bytes | not executed | Workspace.AllocateAsWritten | Workspace.RunSession |
| rocsolver/library/src/lapack/roclapack_potrf.hpp:57-63 | the unblocked path returns at line 63, before the pointer-mode restore at line 142 | a handle in device pointer mode, n = 1 < SWITCHSIZE: the handle comes back in host mode | restore the saved pointer mode before returning potf2's status | not executed | Potrf.PointerModeLeaks | Potrf.PotrfTemplate |
| rocsolver/library/src/lapack/roclapack_potrf.hpp:20-26, 79-80, 99, 124 | chk_positive runs on gridReset, `(batch_count - 1) / BLOCKSIZE + 1` blocks of BLOCKSIZE threads, and takes its member from `hipBlockIdx_x` alone, so members from that block count on are never merged | batch_count = 2, n = 2, SWITCHSIZE = 1, potf2 reports member 1 failing at j = 0: info[1] stays 0 though it should be 1 | index members by `hipBlockIdx_x * hipBlockDim_x + hipThreadIdx_x`, guarded by `id < batch_count`, so every member is merged | not executed | Potrf.UnmergedMemberAsWritten | Potrf.PotrfTemplate |
