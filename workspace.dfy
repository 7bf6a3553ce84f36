/** The workspace lifecycle every entry point runs after its argument checks:
    ask the planner for the region sizes, allocate each region, check the
    allocations, fill the constants buffer {-1, 0, 1}, copy it to the device,
    run the routine's template, free every region.

    The device allocator and the host-to-device copy belong to the HIP runtime;
    whether an allocation or a copy succeeds is an input of the model. */
module Workspace {
  import opened Common

  /** A device address; 0 is the null pointer. */
  type Ptr = nat

  const Null: Ptr := 0

  /** Device memory as the API shell sees it: the live allocations with their
      sizes in bytes, and the values copied into them from the host. */
  class Memory {
    var live: map<Ptr, nat>
    var contents: map<Ptr, seq<int>>
    var next: Ptr

    ghost predicate Valid()
      reads this
    {
      && Null < next
      && (forall p :: p in live ==> Null < p < next)
      && contents.Keys <= live.Keys
    }

    constructor ()
      ensures Valid() && live == map[] && contents == map[]
    {
      live := map[];
      contents := map[];
      next := 1;
    }

    /** hipMalloc: a fresh region of `bytes` bytes, or null when the runtime
        does not grant the request. */
    method Malloc(bytes: nat, granted: bool) returns (p: Ptr)
      requires Valid()
      modifies this
      ensures Valid() && contents == old(contents)
      ensures granted ==> p != Null && p !in old(live) && live == old(live)[p := bytes]
      ensures !granted ==> p == Null && live == old(live)
    {
      if granted {
        p := next;
        live := live[p := bytes];
        next := next + 1;
      } else {
        p := Null;
      }
    }

    /** hipFree: releases the region at `p`; freeing null does nothing. */
    method Free(p: Ptr)
      requires Valid()
      modifies this
      ensures Valid()
      ensures live == old(live) - {p} && contents == old(contents) - {p}
    {
      live := live - {p};
      contents := contents - {p};
    }

    /** hipMemcpy host-to-device of `values`, `elemBytes` bytes each, into the
        region at `dst`, which must be large enough to hold them. `outcome` is
        the runtime's answer, already translated to a rocblas_status. */
    method Upload(dst: Ptr, values: seq<int>, elemBytes: nat, outcome: Status) returns (st: Status)
      requires Valid() && dst in live && elemBytes * |values| <= live[dst]
      modifies this
      ensures Valid() && live == old(live)
      ensures st == outcome
      ensures contents == if outcome == Success then old(contents)[dst := values] else old(contents)
    {
      st := outcome;
      if outcome == Success {
        contents := contents[dst := values];
      }
    }
  }

  /** The host vector of `count` scalars after the entry point has set its
      first three entries; the rest keep their value-initialised zero. */
  function Constants(count: nat): (s: seq<int>)
    requires count >= 3
    ensures |s| == count && s[0] == -1 && s[1] == 0 && s[2] == 1
    ensures forall e :: 3 <= e < count ==> s[e] == 0
  {
    [-1, 0, 1] + seq(count - 3, _ => 0)
  }

  /** Fills a new host vector of `count` scalars: -1, 0 and 1 in the first
      three entries, 0 in the others. */
  method FillConstants(count: nat) returns (sca: array<int>)
    requires count >= 3
    ensures fresh(sca) && sca[..] == Constants(count)
  {
    sca := new int[count](_ => 0);
    sca[0] := -1;
    sca[1] := 0;
    sca[2] := 1;
  }

  /** Bytes needed for the constants region: one scalar of type `t` per
      element of the constants vector. */
  function ScalarsBytes(t: ScalarType, count: nat): (bytes: nat)
    ensures bytes >= 4 * count
  {
    t.ByteSize() * count
  }

  /** The request the entry points make for the constants region as written:
      hipMalloc is given size_1, a count of scalars, as a number of bytes. It
      is short of the scalars it must hold for every scalar type. */
  function ScalarsBytesAsWritten(count: nat): (bytes: nat)
    ensures forall t: ScalarType :: count > 0 ==> bytes < ScalarsBytes(t, count)
  {
    count
  }

  /** As written, the copy of the constants vector, sizeof(T) bytes per
      element, writes at least 3 * size_1 bytes past the end of the region
      allocated for it, whatever the scalar type. */
  lemma ConstantsOverrunAsWritten(t: ScalarType, count: nat)
    requires count >= 3
    ensures t.ByteSize() * |Constants(count)| >= ScalarsBytesAsWritten(count) + 3 * count
  {
  }

  /** With the request sized in scalars of type T, the copy of the constants
      vector fits the region exactly. */
  lemma ConstantsFit(t: ScalarType, count: nat)
    requires count >= 3
    ensures t.ByteSize() * |Constants(count)| == ScalarsBytes(t, count)
  {
  }

  /** The fixed arguments an entry point passes to its template. A field that a
      routine's template does not take is 0. */
  datatype LaunchArgs = LaunchArgs(
    shiftA: int, strideA: int,
    shiftP: int, strideP: int,
    shiftC: int, strideC: int,
    batchCount: int)

  /** One call of a template: its fixed arguments, the values the constants
      region held when it was called, and the workspace pointers it got. */
  datatype Launch = Launch(args: LaunchArgs, constants: seq<int>, workspace: seq<Ptr>)

  /** What happened after the argument checks passed: the planner's sizes, the
      pointers the allocations returned (constants region first), and the
      template call if it was reached. */
  datatype Session = Session(sizes: seq<nat>, regions: seq<Ptr>, launch: Option<Launch>)

  /** The entry points' allocation check: the constants region is null, or a
      region of nonzero size is null. A null region of size 0 is accepted. */
  predicate AllocationFailed(sizes: seq<nat>, regions: seq<Ptr>)
    requires |sizes| == |regions| >= 1
  {
    regions[0] == Null || exists r :: 1 <= r < |regions| && sizes[r] > 0 && regions[r] == Null
  }

  /** The allocation check in terms of the runtime's answers. */
  lemma AllocationFailedIff(sizes: seq<nat>, regions: seq<Ptr>, grants: seq<bool>)
    requires |sizes| == |regions| == |grants| >= 1
    requires forall r :: 0 <= r < |grants| ==> (regions[r] == Null <==> !grants[r])
    ensures AllocationFailed(sizes, regions) <==>
      !grants[0] || exists r :: 1 <= r < |grants| && sizes[r] > 0 && !grants[r]
  {
    if !AllocationFailed(sizes, regions) {
      forall r | 1 <= r < |grants| && sizes[r] > 0
        ensures grants[r]
      {
        assert regions[r] != Null;
      }
    }
  }

  /** The regions an allocation sequence obtained. */
  function Acquired(regions: seq<Ptr>): set<Ptr>
  {
    set p | p in regions && p != Null
  }

  /** The bytes each hipMalloc of a session asks for: the constants region
      sized in scalars of type `t`, then the planner's sizes. */
  function Requested(t: ScalarType, sizes: seq<nat>): (bytes: seq<nat>)
    requires |sizes| >= 1
    ensures |bytes| == |sizes| && bytes[0] == ScalarsBytes(t, sizes[0])
    ensures forall r :: 1 <= r < |sizes| ==> bytes[r] == sizes[r]
  {
    [ScalarsBytes(t, sizes[0])] + sizes[1..]
  }

  /** `live` is `live0` grown by the regions `regions`, obtained in order with
      the runtime's answers `grants` to requests of `bytes` bytes: the
      regions granted are new and distinct, have the size asked for, and
      every region that was live keeps its size. */
  ghost predicate Grown(live0: map<Ptr, nat>, live: map<Ptr, nat>, regions: seq<Ptr>, grants: seq<bool>,
                        bytes: seq<nat>)
  {
    && |regions| == |grants| == |bytes|
    && (forall r :: 0 <= r < |regions| ==> (regions[r] == Null <==> !grants[r]))
    && (forall a, b :: 0 <= a < b < |regions| && regions[a] != Null ==> regions[a] != regions[b])
    && Acquired(regions) !! live0.Keys
    && live.Keys == live0.Keys + Acquired(regions)
    && (forall q :: q in live0 ==> live[q] == live0[q])
    && (forall r :: 0 <= r < |regions| && regions[r] != Null ==> live[regions[r]] == bytes[r])
  }

  /** The workspace protocol as the entry points run it. The allocation check
      and a failed copy return at once without freeing anything: the regions
      granted stay live with the sizes asked for, and nothing else in device
      memory changes. Only a call that reaches the template releases every
      region, and the regions it hands the template are the ones this call
      allocated: new, pairwise distinct, and of the sizes asked for. */
  ghost predicate Followed(
    t: ScalarType, s: Session, st: Status, grants: seq<bool>, copyStatus: Status, templateStatus: Status,
    args: LaunchArgs,
    live0: map<Ptr, nat>, live1: map<Ptr, nat>,
    contents0: map<Ptr, seq<int>>, contents1: map<Ptr, seq<int>>)
  {
    && |s.regions| == |s.sizes| == |grants| >= 1 && s.sizes[0] >= 3
    && if AllocationFailed(s.sizes, s.regions) then
         && st == MemoryError && s.launch == None
         && Grown(live0, live1, s.regions, grants, Requested(t, s.sizes))
         && contents1 == contents0
       else if copyStatus != Success then
         && st == copyStatus && s.launch == None
         && Grown(live0, live1, s.regions, grants, Requested(t, s.sizes))
         && contents1 == contents0
       else
         && (exists live :: Grown(live0, live, s.regions, grants, Requested(t, s.sizes)))
         && st == templateStatus
         && s.launch == Some(Launch(args, Constants(s.sizes[0]), s.regions))
         && live1 == live0 && contents1 == contents0
  }

  /** The workspace a launched template gets was allocated by this session:
      each pointer is null iff its request was refused, and the others were
      not live before the call and are pairwise distinct. */
  lemma LaunchedRegionsAreNew(
    t: ScalarType, s: Session, st: Status, grants: seq<bool>, copyStatus: Status, templateStatus: Status,
    args: LaunchArgs,
    live0: map<Ptr, nat>, live1: map<Ptr, nat>,
    contents0: map<Ptr, seq<int>>, contents1: map<Ptr, seq<int>>)
    requires Followed(t, s, st, grants, copyStatus, templateStatus, args, live0, live1, contents0, contents1)
    requires s.launch.Some?
    ensures forall r :: 0 <= r < |grants| ==> (s.regions[r] == Null <==> !grants[r])
    ensures forall r :: 0 <= r < |s.regions| && s.regions[r] != Null ==> s.regions[r] !in live0
    ensures forall a, b :: 0 <= a < b < |s.regions| && s.regions[a] != Null ==> s.regions[a] != s.regions[b]
  {
    var live :| Grown(live0, live, s.regions, grants, Requested(t, s.sizes));
    forall r | 0 <= r < |s.regions| && s.regions[r] != Null
      ensures s.regions[r] !in live0
    {
      assert s.regions[r] in Acquired(s.regions);
    }
  }

  /** Removing every region that was added since `m0`, and nothing of `m0`,
      gives `m0` back. */
  lemma RemoveAdded<V>(m0: map<Ptr, V>, m1: map<Ptr, V>, freed: set<Ptr>)
    requires forall q :: q in m1 && q !in freed <==> q in m0
    requires forall q :: q in m0 ==> q in m1 && m1[q] == m0[q]
    ensures m1 - freed == m0
  {
    assert (m1 - freed).Keys == m0.Keys;
  }

  /** One hipMalloc of an entry point's allocation sequence. */
  method AllocateNext(mem: Memory, bytes: nat, granted: bool, ghost live0: map<Ptr, nat>,
                      regions: seq<Ptr>, ghost grants: seq<bool>, ghost asked: seq<nat>)
    returns (regions': seq<Ptr>)
    requires mem.Valid() && Grown(live0, mem.live, regions, grants, asked)
    modifies mem
    ensures mem.Valid() && mem.contents == old(mem.contents)
    ensures Grown(live0, mem.live, regions', grants + [granted], asked + [bytes])
    ensures regions' == regions + [regions'[|regions|]]
  {
    var p := mem.Malloc(bytes, granted);
    regions' := regions + [p];
    assert Acquired(regions') == Acquired(regions) + (if p != Null then {p} else {});
    forall a | 0 <= a < |regions| && regions[a] != Null
      ensures regions[a] != p
    {
      assert regions[a] in Acquired(regions);
    }
    forall r | 0 <= r < |regions| && regions[r] != Null
      ensures mem.live[regions[r]] == asked[r]
    {
      assert regions[r] in Acquired(regions);
    }
  }

  /** The allocations of an entry point, in order, constants region first:
      region r is asked for bytes[r] bytes. */
  method Allocate(mem: Memory, bytes: seq<nat>, grants: seq<bool>) returns (regions: seq<Ptr>)
    requires mem.Valid() && (|bytes| == 3 || |bytes| == 4) && |grants| == |bytes|
    modifies mem
    ensures mem.Valid() && mem.contents == old(mem.contents)
    ensures Grown(old(mem.live), mem.live, regions, grants, bytes)
  {
    ghost var live0 := mem.live;
    assert Acquired([]) == {};
    regions := AllocateNext(mem, bytes[0], grants[0], live0, [], [], []);
    assert [] + [grants[0]] == grants[..1] && [] + [bytes[0]] == bytes[..1];
    regions := AllocateNext(mem, bytes[1], grants[1], live0, regions, grants[..1], bytes[..1]);
    assert grants[..1] + [grants[1]] == grants[..2] && bytes[..1] + [bytes[1]] == bytes[..2];
    regions := AllocateNext(mem, bytes[2], grants[2], live0, regions, grants[..2], bytes[..2]);
    assert grants[..2] + [grants[2]] == grants[..3] && bytes[..2] + [bytes[2]] == bytes[..3];
    if |bytes| == 4 {
      regions := AllocateNext(mem, bytes[3], grants[3], live0, regions, grants[..3], bytes[..3]);
      assert grants[..3] + [grants[3]] == grants && bytes[..3] + [bytes[3]] == bytes;
    } else {
      assert grants[..3] == grants && bytes[..3] == bytes;
    }
  }

  /** The allocations as the entry points write them: the constants region
      gets size_1 bytes. Once it is granted, it is too small for the copy of
      the constants that follows, so that copy's precondition cannot hold. */
  method AllocateAsWritten(mem: Memory, t: ScalarType, sizes: seq<nat>, grants: seq<bool>)
    returns (regions: seq<Ptr>)
    requires mem.Valid() && (|sizes| == 3 || |sizes| == 4) && |grants| == |sizes| && sizes[0] >= 3
    modifies mem
    ensures mem.Valid() && mem.contents == old(mem.contents)
    ensures Grown(old(mem.live), mem.live, regions, grants, [ScalarsBytesAsWritten(sizes[0])] + sizes[1..])
    ensures grants[0] ==> regions[0] in mem.live
    ensures grants[0] ==> t.ByteSize() * |Constants(sizes[0])| > mem.live[regions[0]]
  {
    regions := Allocate(mem, [ScalarsBytesAsWritten(sizes[0])] + sizes[1..], grants);
    ConstantsOverrunAsWritten(t, sizes[0]);
    if grants[0] {
      assert regions[0] in Acquired(regions);
    }
  }

  /** The releases of an entry point, in allocation order. */
  method Release(mem: Memory, regions: seq<Ptr>)
    requires mem.Valid() && (|regions| == 3 || |regions| == 4)
    modifies mem
    ensures mem.Valid()
    ensures mem.live == old(mem.live) - set r | 0 <= r < |regions| :: regions[r]
    ensures mem.contents == old(mem.contents) - set r | 0 <= r < |regions| :: regions[r]
  {
    mem.Free(regions[0]);
    mem.Free(regions[1]);
    mem.Free(regions[2]);
    if |regions| == 4 {
      mem.Free(regions[3]);
      assert (set r | 0 <= r < |regions| :: regions[r]) == {regions[0], regions[1], regions[2], regions[3]};
    } else {
      assert (set r | 0 <= r < |regions| :: regions[r]) == {regions[0], regions[1], regions[2]};
    }
  }

  /** Allocate, check, fill, copy, launch, free. `sizes` has three entries
      (constants and two scratch regions, as in getrf and potf2) or four
      (constants, work, array of pointers and a small fixed-purpose buffer, as
      in ormbr and geqr2). The constants region is sized in scalars of type
      `t`, so that the copy fits. */
  method RunSession(
    mem: Memory, t: ScalarType, sizes: seq<nat>, grants: seq<bool>,
    copyStatus: Status, templateStatus: Status, args: LaunchArgs)
    returns (st: Status, s: Session)
    requires mem.Valid() && (|sizes| == 3 || |sizes| == 4) && |grants| == |sizes| && sizes[0] >= 3
    modifies mem
    ensures mem.Valid() && s.sizes == sizes
    ensures Followed(t, s, st, grants, copyStatus, templateStatus, args,
                     old(mem.live), mem.live, old(mem.contents), mem.contents)
  {
    ghost var live0, contents0 := mem.live, mem.contents;
    var regions := Allocate(mem, Requested(t, sizes), grants);
    if AllocationFailed(sizes, regions) {
      st, s := MemoryError, Session(sizes, regions, None);
      return;
    }
    var scalars := regions[0];
    assert scalars in Acquired(regions);
    var sca := FillConstants(sizes[0]);
    st := mem.Upload(scalars, sca[..], t.ByteSize(), copyStatus);
    if st != Success {
      s := Session(sizes, regions, None);
      return;
    }
    var launch := Launch(args, mem.contents[scalars], regions);
    st := templateStatus;
    ghost var live1, contents1 := mem.live, mem.contents;
    assert Grown(live0, live1, regions, grants, Requested(t, sizes));
    Release(mem, regions);
    ghost var freed := set r | 0 <= r < |regions| :: regions[r];
    assert Acquired(regions) <= freed;
    assert Null !in live0;
    RemoveAdded(live0, live1, freed);
    RemoveAdded(contents0, contents1, freed);
    s := Session(sizes, regions, Some(launch));
  }
}
