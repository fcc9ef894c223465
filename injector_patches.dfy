/** The three patches the injector places in the game: the cleanup routine
    over the entry point, the entry hijack at the release's hijack address,
    and the payload routine immediately after the hijack, whose tail jumps
    to the cleanup patch. */
module InjectorPatchSet {
  import opened Wrappers
  import opened Bytes
  import opened BufferPatches
  import opened FuncSizes
  import opened GameVersions
  import opened PeHeaders
  import opened GameAddresses
  import EntryHijackPatches
  import PayloadPatches
  import CleanupPatches
  import X86

  /** What a patch's teardown reads: its region, flag and both buffers. */
  datatype View = View(position: nat, isPatched: bool, patch: seq<byte>, original: seq<byte>)

  predicate Fits(size: nat, v: View)
  {
    |v.patch| == |v.original| && v.position + |v.patch| <= size
  }

  /** Removing each patch in turn, starting from memory `m`. */
  function Teardown(m: seq<byte>, views: seq<View>): (r: seq<byte>)
    requires forall v :: v in views ==> Fits(|m|, v)
    ensures |r| == |m|
    decreases |views|
  {
    if views == [] then m
    else
      var v := views[0];
      assert v in views && Fits(|m|, v);
      assert forall w :: w in views[1..] ==> w in views;
      Teardown(Step(PatchState(m, v.isPatched), RemoveOp, v.position, v.patch, v.original).memory, views[1..])
  }

  /** Address `a` lies in the region of a patch that is applied. */
  ghost predicate Covered(views: seq<View>, a: int)
  {
    exists i :: 0 <= i < |views| && views[i].isPatched && views[i].position <= a < views[i].position + |views[i].patch|
  }

  /** When every patch saved its original bytes from the same memory
      `pristine`, and the current memory differs from `pristine` only where
      an applied patch lies, tearing all of them down gives `pristine`
      back, in any order and even where the regions overlap. */
  lemma {:induction false} TeardownRestores(pristine: seq<byte>, m: seq<byte>, views: seq<View>)
    requires |m| == |pristine|
    requires forall v :: v in views ==> Fits(|m|, v) && v.original == pristine[v.position..v.position + |v.patch|]
    requires forall a :: 0 <= a < |m| && m[a] != pristine[a] ==> Covered(views, a)
    ensures Teardown(m, views) == pristine
    decreases |views|
  {
    if views == [] {
      assert forall a :: !Covered(views, a);
    } else {
      var v := views[0];
      var next := Step(PatchState(m, v.isPatched), RemoveOp, v.position, v.patch, v.original).memory;
      var rest := views[1..];
      forall a | 0 <= a < |next| && next[a] != pristine[a]
        ensures Covered(rest, a)
      {
        if v.isPatched && v.position <= a < v.position + |v.patch| {
          assert false;
        }
        assert m[a] != pristine[a];
        var i :| 0 <= i < |views| && views[i].isPatched && views[i].position <= a < views[i].position + |views[i].patch|;
        assert i != 0;
        assert rest[i - 1] == views[i];
      }
      TeardownRestores(pristine, next, rest);
    }
  }

  /** The payload patch's replacement bytes: the routine with its tail jump
      aimed at the cleanup address. */
  function PayloadPatchBytes(pe: PeFields, hijack: u32, payloadCode: seq<byte>): (r: seq<byte>)
    requires HasEnd(payloadCode, 0) && FirstEnd(payloadCode, 0) >= 5
  {
    PayloadPatches.PayloadBytes(payloadCode[..FirstEnd(payloadCode, 0)], Add32(hijack, EntryHijackPatches.GetSize()),
                                GetHardEntryPointAddress(pe))
  }

  /** The control transfers the placement sets up: the hijack, run at its
      address, ends at the first byte of the payload patch, and the
      payload's patched tail jumps to the game's entry point, where the
      cleanup patch lies. */
  lemma PlacementChainsControl(pe: PeFields, hijack: u32, payloadCode: seq<byte>, s: seq<u32>, t: seq<u32>)
    requires HasEnd(payloadCode, 0) && 5 <= FirstEnd(payloadCode, 0) < Modulus32
    ensures var payload := Add32(hijack, EntryHijackPatches.GetSize());
            var size := FirstEnd(payloadCode, 0);
            && X86.Run(X86.Cpu(hijack, s), EntryHijackPatches.HijackBytes(hijack), hijack, 4)
               == Some(X86.Cpu(payload, [hijack, Add32(hijack, EntryHijackPatches.GetFreeSpaceOffset())] + s))
            && X86.Step(X86.Cpu(Add32(payload, size - 5), t), PayloadPatchBytes(pe, hijack, payloadCode), payload)
               == Some(X86.Cpu(GetHardEntryPointAddress(pe), t))
  {
    EntryHijackPatches.HijackRuns(hijack, s);
    var size := FirstEnd(payloadCode, 0);
    PayloadPatches.TailJumpReachesCleanup(payloadCode[..size], Add32(hijack, EntryHijackPatches.GetSize()),
                                          GetHardEntryPointAddress(pe), t);
  }

  /** `struct InjectorPatches`. */
  class InjectorPatches {
    const entryHijackPatch: BufferPatch
    const payloadPatch: BufferPatch
    const cleanupPatch: BufferPatch

    predicate Distinct()
    {
      && entryHijackPatch != payloadPatch && entryHijackPatch != cleanupPatch
      && payloadPatch != cleanupPatch
    }

    /** All three patches are created, on one process. */
    predicate Valid()
      reads this, entryHijackPatch, payloadPatch, cleanupPatch
    {
      && Distinct()
      && entryHijackPatch.Live() && payloadPatch.Live() && cleanupPatch.Live()
      && payloadPatch.process == entryHijackPatch.process && cleanupPatch.process == entryHijackPatch.process
    }

    /** The patches in teardown order: payload, hijack, cleanup. */
    function Views(): (r: seq<View>)
      reads this, entryHijackPatch, payloadPatch, cleanupPatch
      reads entryHijackPatch.patchBuffer, entryHijackPatch.originalBuffer
      reads payloadPatch.patchBuffer, payloadPatch.originalBuffer
      reads cleanupPatch.patchBuffer, cleanupPatch.originalBuffer
      requires Valid()
      ensures |r| == 3 && forall v :: v in r ==> Fits(entryHijackPatch.process.memory.Length, v)
    {
      [ViewOf(payloadPatch), ViewOf(entryHijackPatch), ViewOf(cleanupPatch)]
    }

    constructor ()
      ensures Distinct() && fresh(entryHijackPatch) && fresh(payloadPatch) && fresh(cleanupPatch)
      ensures entryHijackPatch.Cleared() && payloadPatch.Cleared() && cleanupPatch.Cleared()
    {
      entryHijackPatch := new BufferPatch();
      payloadPatch := new BufferPatch();
      cleanupPatch := new BufferPatch();
    }

    /** `InjectorPatches_Init`: the cleanup patch at the entry point, the
        hijack at the release's hijack address, and the payload at the
        hijack's position plus the hijack's size, with its tail jump aimed
        at the cleanup patch. A failure in any of them is fatal. */
    method Init(pe: PeFields, process: Process, v: GameVersion, perVersion: HijackAddressTable,
                payloadCache: FuncSizeCache, cleanupCache: FuncSizeCache) returns (o: Outcome)
      requires Distinct() && payloadCache != cleanupCache
      requires cleanupCache.Valid() && cleanupCache.code == CleanupPatches.CleanupFunc
      requires payloadCache.Valid() && FirstEnd(payloadCache.code, 0) >= 5
      modifies entryHijackPatch, payloadPatch, cleanupPatch, payloadCache, cleanupCache
      ensures payloadCache.Valid() && cleanupCache.Valid()
      ensures cleanupPatch.position == GetHardEntryPointAddress(pe) && cleanupPatch.bufferSize == 0
      ensures var hijack := GetEntryHijackPatchAddress(pe, v, perVersion);
              o.Pass? <==>
                && CanRead(process, GetHardEntryPointAddress(pe), 0)
                && CanRead(process, hijack, EntryHijackPatches.GetSize())
                && CanRead(process, Add32(hijack, EntryHijackPatches.GetSize()), FirstEnd(payloadCache.code, 0))
      ensures o.Fail? ==> o.error == RemoteReadFailure
      ensures o.Pass? ==> Valid()
      ensures var hijack := GetEntryHijackPatchAddress(pe, v, perVersion);
              o.Pass? ==>
                && Created(cleanupPatch, process, GetHardEntryPointAddress(pe), [])
                && Created(entryHijackPatch, process, hijack, EntryHijackPatches.HijackBytes(hijack))
                && Created(payloadPatch, process, Add32(hijack, EntryHijackPatches.GetSize()),
                           PayloadPatchBytes(pe, hijack, payloadCache.code))
    {
      CleanupPatches.CleanupSizeIsZero();
      var cleanupAddress := GetHardEntryPointAddress(pe);
      o := CleanupPatches.Init(cleanupPatch, cleanupCache, cleanupAddress, process);
      if o.Fail? {
        return;
      }
      assert CleanupPatches.CleanupFunc[..0] == [];
      var hijackAddress := GetEntryHijackPatchAddress(pe, v, perVersion);
      o := EntryHijackPatches.Init(entryHijackPatch, hijackAddress, process);
      if o.Fail? {
        return;
      }
      var payloadAddress := Add32(entryHijackPatch.position, EntryHijackPatches.GetSize());
      o := PayloadPatches.Init(payloadPatch, payloadCache, payloadAddress, cleanupAddress, process);
    }

    /** `InjectorPatches_Deinit`: tears down the payload, then the hijack,
        then the cleanup patch; the first failure is fatal. */
    method Deinit() returns (o: Outcome)
      requires Valid()
      modifies entryHijackPatch, payloadPatch, cleanupPatch, entryHijackPatch.process.memory
      ensures o.Pass? ==> entryHijackPatch.Cleared() && payloadPatch.Cleared() && cleanupPatch.Cleared()
      ensures o.Pass? ==> old(entryHijackPatch.process).memory[..]
                          == old(Teardown(entryHijackPatch.process.memory[..], Views()))
    {
      ghost var memory := entryHijackPatch.process.memory;
      ghost var views := Views();
      ghost var m0 := memory[..];
      o := PayloadPatches.Deinit(payloadPatch);
      if o.Fail? {
        return;
      }
      ghost var m1 := memory[..];
      assert m1 == Step(PatchState(m0, views[0].isPatched), RemoveOp, views[0].position, views[0].patch, views[0].original).memory;
      o := EntryHijackPatches.Deinit(entryHijackPatch);
      if o.Fail? {
        return;
      }
      ghost var m2 := memory[..];
      assert m2 == Step(PatchState(m1, views[1].isPatched), RemoveOp, views[1].position, views[1].patch, views[1].original).memory;
      o := CleanupPatches.Deinit(cleanupPatch);
      if o.Fail? {
        return;
      }
      TeardownThree(m0, views[0], views[1], views[2]);
      assert views == [views[0], views[1], views[2]];
    }
  }

  /** The record `Teardown` reads from a created patch. */
  function ViewOf(p: BufferPatch): (r: View)
    reads p, p.patchBuffer, p.originalBuffer
    requires p.Live()
    ensures r.position == p.position && r.isPatched == p.isPatched
    ensures r.patch == p.patchBuffer[..] && r.original == p.originalBuffer[..]
  {
    View(p.position, p.isPatched, p.patchBuffer[..], p.originalBuffer[..])
  }

  /** `Teardown` of three patches is three removals in order. */
  lemma TeardownThree(m: seq<byte>, a: View, b: View, c: View)
    requires Fits(|m|, a) && Fits(|m|, b) && Fits(|m|, c)
    ensures var m1 := Step(PatchState(m, a.isPatched), RemoveOp, a.position, a.patch, a.original).memory;
            var m2 := Step(PatchState(m1, b.isPatched), RemoveOp, b.position, b.patch, b.original).memory;
            Teardown(m, [a, b, c]) == Step(PatchState(m2, c.isPatched), RemoveOp, c.position, c.patch, c.original).memory
  {
    var m1 := Step(PatchState(m, a.isPatched), RemoveOp, a.position, a.patch, a.original).memory;
    var m2 := Step(PatchState(m1, b.isPatched), RemoveOp, b.position, b.patch, b.original).memory;
    var m3 := Step(PatchState(m2, c.isPatched), RemoveOp, c.position, c.patch, c.original).memory;
    assert [a, b, c][1..] == [b, c];
    assert [b, c][1..] == [c];
    assert Teardown(m2, [c]) == Teardown(m3, []) == m3;
    assert Teardown(m1, [b, c]) == Teardown(m2, [c]);
  }
}
