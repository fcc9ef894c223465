/** A patch that clears one pointer-sized word of the target. */
module FreeSpacePatches {
  import opened Wrappers
  import opened Bytes
  import opened BufferPatches

  /** `kFreeSpaceInitBufferSize`. */
  const FreeSpaceInitBufferSize: nat := PointerSize

  /** The bytes `kFreeSpaceInitBuffer` supplies: a null pointer. (The array
      is declared without an element type, so its elements are `int`s; the
      four bytes the patch copies are zero either way.) */
  const FreeSpaceInitBuffer: seq<byte> := [0x00, 0x00, 0x00, 0x00]

  /** The replacement bytes are one pointer-sized word, and the word they
      encode is null. */
  lemma FreeSpaceInitBufferIsNull()
    ensures |FreeSpaceInitBuffer| == FreeSpaceInitBufferSize == PointerSize
    ensures FromLE32(FreeSpaceInitBuffer) == 0
    ensures FreeSpaceInitBuffer == LE32(0)
  {
  }

  /** `FreeSpacePatch_Init`: a buffer patch at `address` writing a null
      pointer. */
  method Init(patch: BufferPatch, address: u32, process: Process) returns (o: Outcome)
    modifies patch
    ensures patch.position == address && !patch.isPatched && patch.bufferSize == PointerSize
    ensures patch.process == process
    ensures o.Pass? <==> CanRead(process, address, PointerSize)
    ensures o.Fail? ==> o.error == RemoteReadFailure
    ensures o.Pass? ==> fresh(patch.patchBuffer) && fresh(patch.originalBuffer)
    ensures o.Pass? ==> Created(patch, process, address, [0, 0, 0, 0])
  {
    o := patch.Create(address, FreeSpaceInitBufferSize, FreeSpaceInitBuffer, process);
  }

  /** `FreeSpacePatch_Deinit`: the buffer patch's teardown. */
  method Deinit(patch: BufferPatch) returns (o: Outcome)
    requires patch.Live()
    modifies patch, patch.process.memory
    ensures o.Pass? <==> !old(patch.isPatched) || old(CanWrite(patch.process, patch.position, patch.bufferSize))
    ensures o.Pass? ==> patch.Cleared()
    ensures o.Pass? ==> PatchState(old(patch.process).memory[..], false)
                        == old(Step(patch.State(), RemoveOp, patch.position, patch.patchBuffer[..], patch.originalBuffer[..]))
  {
    o := patch.Destroy();
  }
}
