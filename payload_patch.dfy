/** The payload patch: the injected routine's code, placed just past the
    entry hijack, whose five placeholder bytes before the end marker become
    a `jmp rel32` to the cleanup address. */
module PayloadPatches {
  import opened Wrappers
  import opened Bytes
  import opened BufferPatches
  import opened FuncSizes
  import X86

  /** The replacement bytes for routine code `func` placed at `address`:
      the code with its last five bytes replaced by a `jmp rel32` whose
      displacement is `cleanup - address - |func|`. */
  function PayloadBytes(func: seq<byte>, address: u32, cleanup: u32): (r: seq<byte>)
    requires |func| >= 5
    ensures |r| == |func|
    ensures r[..|func| - 5] == func[..|func| - 5]
    ensures r[|func| - 5] == 0xE9
    ensures Add32(Add32(address, |func|), FromLE32(r[|func| - 4..])) == cleanup
  {
    var displacement := Sub32(Sub32(cleanup, address), |func|);
    var patched := func[..|func| - 5] + [0xE9] + LE32(displacement);
    assert patched[|func| - 4..] == LE32(displacement);
    DecodeEncode(displacement);
    RelativeTarget(address, |func|, cleanup);
    patched
  }

  /** `int 3`, the placeholder byte. */
  const Int3: byte := 0xCC

  /** When the routine's code ends with the five `int 3` placeholders, the
      patch changes no byte before them, and it does change the first. */
  lemma OnlyPlaceholdersChange(func: seq<byte>, address: u32, cleanup: u32)
    requires |func| >= 5
    requires forall j :: |func| - 5 <= j < |func| ==> func[j] == Int3
    ensures forall i :: 0 <= i < |func| && PayloadBytes(func, address, cleanup)[i] != func[i] ==> |func| - 5 <= i
    ensures PayloadBytes(func, address, cleanup)[|func| - 5] != func[|func| - 5]
  {
    var r := PayloadBytes(func, address, cleanup);
    forall i | 0 <= i < |func| - 5
      ensures r[i] == func[i]
    {
      assert r[i] == r[..|func| - 5][i];
    }
  }

  /** Executed at its own address, the patched tail jumps to `cleanup`. */
  lemma TailJumpReachesCleanup(func: seq<byte>, address: u32, cleanup: u32, s: seq<u32>)
    requires 5 <= |func| < Modulus32
    ensures X86.Step(X86.Cpu(Add32(address, |func| - 5), s), PayloadBytes(func, address, cleanup), address)
            == Some(X86.Cpu(cleanup, s))
  {
    var n := |func|;
    var code := PayloadBytes(func, address, cleanup);
    var d := FromLE32(code[n - 4..]);
    EncodeDecode(code[n - 4..]);
    assert code[n - 5..n] == X86.Encode(X86.JmpRel32(d));
    AddSub32(address, n - 5);
    X86.StepEncoded(X86.Cpu(Add32(address, n - 5), s), code, address, X86.JmpRel32(d));
    AddAdd32(address, n - 5, 5);
  }

  /** `PayloadPatch_Init`: a buffer patch at `address` holding the first
      `PayloadPatch_GetSize()` bytes of the routine, then the byte at
      `size - 5` set to the `jmp rel32` opcode and the four after it to the
      displacement of `cleanupAddress`. The routine must be at least five
      bytes long, or the writes fall before the buffer. */
  method Init(patch: BufferPatch, sizeCache: FuncSizeCache, address: u32, cleanupAddress: u32, process: Process)
    returns (o: Outcome)
    requires sizeCache.Valid() && FirstEnd(sizeCache.code, 0) >= 5
    modifies patch, sizeCache
    ensures sizeCache.Valid()
    ensures patch.position == address && !patch.isPatched && patch.process == process
    ensures patch.bufferSize == FirstEnd(sizeCache.code, 0)
    ensures o.Pass? <==> CanRead(process, address, patch.bufferSize)
    ensures o.Fail? ==> o.error == RemoteReadFailure
    ensures o.Pass? ==> fresh(patch.patchBuffer) && fresh(patch.originalBuffer)
    ensures o.Pass? ==> Created(patch, process, address, PayloadBytes(sizeCache.code[..patch.bufferSize], address, cleanupAddress))
  {
    var size := sizeCache.GetSize();
    o := patch.Create(address, size, sizeCache.code[..size], process);
    if o.Fail? {
      return;
    }
    ghost var func := sizeCache.code[..size];
    size := sizeCache.GetSize();
    var iEndJmpOp := size - PointerSize - 1;
    size := sizeCache.GetSize();
    var cleanupFuncOffset := LE32(Sub32(Sub32(cleanupAddress, address), size));
    WriteTailJump(patch.patchBuffer, iEndJmpOp, cleanupFuncOffset);
    assert patch.patchBuffer[..] == PayloadBytes(func, address, cleanupAddress);
  }

  /** The two writes of `PayloadPatch_Init` into the patch buffer: the
      `jmp rel32` opcode at `iEndJmpOp` and the displacement's four bytes
      after it, which end the buffer. */
  method WriteTailJump(buffer: array<byte>, iEndJmpOp: nat, offset: seq<byte>)
    requires iEndJmpOp + 1 + |offset| == buffer.Length && |offset| == PointerSize
    modifies buffer
    ensures buffer[..] == old(buffer[..iEndJmpOp]) + [0xE9] + offset
  {
    buffer[iEndJmpOp] := 0xE9;
    forall i | 0 <= i < PointerSize {
      buffer[iEndJmpOp + 1 + i] := offset[i];
    }
    assert forall i :: 0 <= i < buffer.Length ==>
      buffer[i] == (old(buffer[..iEndJmpOp]) + [0xE9] + offset)[i];
  }

  /** `PayloadPatch_Deinit`: the buffer patch's teardown. */
  method Deinit(patch: BufferPatch) returns (o: Outcome)
    requires patch.Live()
    modifies patch, patch.process.memory
    ensures o.Pass? <==> !old(patch.isPatched) || old(CanWrite(patch.process, patch.position, patch.bufferSize))
    ensures o.Pass? ==> patch.Cleared()
    ensures o.Pass? ==> PatchState(old(patch.process).memory[..], false)
                        == old(Step(patch.State(), RemoveOp, patch.position, patch.patchBuffer[..], patch.originalBuffer[..]))
  {
    o := patch.Destroy();
  }
}
