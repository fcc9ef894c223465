/** The patch placed at the game's entry point, made of the cleanup
    routine's code up to its end marker. */
module CleanupPatches {
  import opened Wrappers
  import opened Bytes
  import opened BufferPatches
  import opened FuncSizes

  /** `CleanupFunc`'s code: the naked routine holds the end marker and
      nothing before it. */
  const CleanupFunc: seq<byte> := FuncEnd

  /** The scan stops at once on the cleanup routine, so its size is 0 and
      its size cache stays 0: `CleanupPatch_GetSize` rescans on every call. */
  lemma CleanupSizeIsZero()
    ensures HasEnd(CleanupFunc, 0)
    ensures FirstEnd(CleanupFunc, 0) == 0
  {
    assert EndsAt(CleanupFunc, 0);
  }

  /** `CleanupPatch_Init`: a buffer patch at `address` whose replacement
      bytes are the first `CleanupPatch_GetSize()` bytes of the routine. */
  method Init(patch: BufferPatch, sizeCache: FuncSizeCache, address: u32, process: Process) returns (o: Outcome)
    requires sizeCache.Valid() && sizeCache.code == CleanupFunc
    modifies patch, sizeCache
    ensures sizeCache.Valid()
    ensures patch.position == address && !patch.isPatched && patch.process == process
    ensures patch.bufferSize == FirstEnd(CleanupFunc, 0)
    ensures o.Pass? <==> CanRead(process, address, patch.bufferSize)
    ensures o.Fail? ==> o.error == RemoteReadFailure
    ensures o.Pass? ==> fresh(patch.patchBuffer) && fresh(patch.originalBuffer)
    ensures o.Pass? ==> Created(patch, process, address, CleanupFunc[..patch.bufferSize])
  {
    var size := sizeCache.GetSize();
    o := patch.Create(address, size, CleanupFunc[..size], process);
  }

  /** `CleanupPatch_Deinit`: the buffer patch's teardown. */
  method Deinit(patch: BufferPatch) returns (o: Outcome)
    requires patch.Live()
    modifies patch, patch.process.memory
    ensures o.Pass? <==> !old(patch.isPatched) || old(CanWrite(patch.process, patch.position, patch.bufferSize))
    ensures o.Pass? ==> patch.Cleared()
    ensures o.Pass? ==> PatchState(old(patch.process).memory[..], false)
                        == old(Step(patch.State(), RemoveOp, patch.position, patch.patchBuffer[..], patch.originalBuffer[..]))
  {
    o := patch.Destroy();
  }
}
