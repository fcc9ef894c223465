/** The 20-byte patch written over a game's entry code: it pushes the
    address of a pointer-sized free-space slot and the address of the
    patch itself, then jumps over the slot to the payload that follows. */
module EntryHijackPatches {
  import opened Wrappers
  import opened Bytes
  import opened BufferPatches
  import X86

  /** `kEntryHijackBytes`: push 0; call +0; sub dword ptr [esp], 10; jmp +4;
      then a zero pointer-sized slot. */
  const EntryHijackBytes: seq<byte> := [
    0x68, 0x00, 0x00, 0x00, 0x00,
    0xE8, 0x00, 0x00, 0x00, 0x00,
    0x83, 0x2C, 0x24, 0x0A,
    0xEB, 0x04,
    0x00, 0x00, 0x00, 0x00
  ]

  /** The template is four instructions followed by the slot. */
  lemma TemplateLayout()
    ensures EntryHijackBytes
            == X86.Encode(X86.PushImm32(0)) + X86.Encode(X86.CallRel32(0))
               + X86.Encode(X86.SubTopImm8(10)) + X86.Encode(X86.JmpRel8(4)) + [0, 0, 0, 0]
  {
  }

  /** `EntryHijackPatch_GetSize`: the template's length. */
  function GetSize(): (r: nat)
    ensures r == 20
  {
    |EntryHijackBytes|
  }

  /** `EntryHijackPatch_GetFreeSpaceOffset`: the slot is the template's last
      pointer-sized word, and it starts out zero. */
  function GetFreeSpaceOffset(): (r: nat)
    ensures r + PointerSize == GetSize()
    ensures EntryHijackBytes[r..] == [0, 0, 0, 0]
  {
    GetSize() - PointerSize
  }

  /** `EntryHijackPatch_GetFreeSpaceAddress`: the slot's address in the
      target, `GetFreeSpaceOffset()` bytes past the patch's position. */
  function GetFreeSpaceAddress(patch: BufferPatch): (r: u32)
    reads patch
    ensures Sub32(r, patch.position) == GetFreeSpaceOffset()
  {
    AddSub32(patch.position, GetFreeSpaceOffset());
    Add32(patch.position, GetFreeSpaceOffset())
  }

  /** The replacement bytes of a hijack patch at `address`: the template
      with the push immediate set to the slot's address. */
  function HijackBytes(address: u32): (r: seq<byte>)
    ensures |r| == GetSize()
    ensures r[1..5] == LE32(Add32(address, GetFreeSpaceOffset()))
    ensures forall i :: 0 <= i < |r| && !(1 <= i < 5) ==> r[i] == EntryHijackBytes[i]
  {
    EntryHijackBytes[..1] + LE32(Add32(address, GetFreeSpaceOffset())) + EntryHijackBytes[5..]
  }

  /** `EntryHijackPatch_Init`: creates the patch at `address` from the
      template, then overwrites bytes 1..4 of its replacement bytes with the
      slot's address. */
  method Init(patch: BufferPatch, address: u32, process: Process) returns (o: Outcome)
    modifies patch
    ensures patch.position == address && !patch.isPatched && patch.bufferSize == GetSize()
    ensures patch.process == process
    ensures o.Pass? <==> CanRead(process, address, GetSize())
    ensures o.Fail? ==> o.error == RemoteReadFailure
    ensures o.Pass? ==> fresh(patch.patchBuffer) && fresh(patch.originalBuffer)
    ensures o.Pass? ==> Created(patch, process, address, HijackBytes(address))
  {
    o := patch.Create(address, GetSize(), EntryHijackBytes, process);
    if o.Fail? {
      return;
    }
    var freeSpaceAddress := LE32(Add32(address, GetSize() - PointerSize));
    var buffer := patch.patchBuffer;
    forall i | 0 <= i < 4 {
      buffer[1 + i] := freeSpaceAddress[i];
    }
    assert buffer[..] == HijackBytes(address) by {
      var h := HijackBytes(address);
      assert forall i :: 0 <= i < |h| ==> buffer[i] == h[i];
    }
  }

  /** `EntryHijackPatch_Deinit`: the buffer patch's teardown. */
  method Deinit(patch: BufferPatch) returns (o: Outcome)
    requires patch.Live()
    modifies patch, patch.process.memory
    ensures o.Pass? <==> !old(patch.isPatched) || old(CanWrite(patch.process, patch.position, patch.bufferSize))
    ensures o.Pass? ==> patch.Cleared()
    ensures o.Pass? ==> PatchState(old(patch.process).memory[..], false)
                        == old(Step(patch.State(), RemoveOp, patch.position, patch.patchBuffer[..], patch.originalBuffer[..]))
  {
    o := patch.Destroy();
  }

  /** The patch's bytes are the four instructions, with the slot's address
      as the push immediate, followed by the zero slot. */
  lemma HijackLayout(address: u32)
    ensures var code := HijackBytes(address);
            && code[0..5] == X86.Encode(X86.PushImm32(Add32(address, GetFreeSpaceOffset())))
            && code[5..10] == X86.Encode(X86.CallRel32(0))
            && code[10..14] == X86.Encode(X86.SubTopImm8(10))
            && code[14..16] == X86.Encode(X86.JmpRel8(4))
            && code[16..] == [0, 0, 0, 0]
  {
    var code := HijackBytes(address);
    assert code[0..5] == [0x68] + LE32(Add32(address, GetFreeSpaceOffset()));
    assert code[5..10] == [0xE8] + LE32(0);
  }

  /** The push at offset 0 pushes the slot's address. */
  lemma PushStep(address: u32, code: seq<byte>, s: seq<u32>)
    requires |code| == 20 && code[0..5] == X86.Encode(X86.PushImm32(Add32(address, 16)))
    ensures X86.Step(X86.Cpu(address, s), code, address)
            == Some(X86.Cpu(Add32(address, 5), [Add32(address, 16)] + s))
  {
    AddSub32(address, 0);
    assert |X86.Encode(X86.PushImm32(Add32(address, 16)))| == 5;
    X86.StepEncoded(X86.Cpu(address, s), code, address, X86.PushImm32(Add32(address, 16)));
  }

  /** The call at offset 5, whose displacement is 0, pushes the address of
      its successor at offset 10 and continues there. */
  lemma CallStep(address: u32, code: seq<byte>, s: seq<u32>)
    requires |code| == 20 && code[5..10] == X86.Encode(X86.CallRel32(0))
    ensures X86.Step(X86.Cpu(Add32(address, 5), [Add32(address, 16)] + s), code, address)
            == Some(X86.Cpu(Add32(address, 10), [Add32(address, 10), Add32(address, 16)] + s))
  {
    var c := X86.Cpu(Add32(address, 5), [Add32(address, 16)] + s);
    AddSub32(address, 5);
    AddAdd32(address, 5, 5);
    assert |X86.Encode(X86.CallRel32(0))| == 5;
    X86.StepEncoded(c, code, address, X86.CallRel32(0));
    CallZero(c, Add32(address, 10));
    assert [Add32(address, 10)] + c.stack == [Add32(address, 10), Add32(address, 16)] + s;
  }

  /** A call with displacement 0 pushes its successor and continues there. */
  lemma CallZero(c: X86.Cpu, next: u32)
    requires next == Add32(c.eip, 5)
    ensures X86.Execute(c, X86.CallRel32(0), 5) == Some(X86.Cpu(next, [next] + c.stack))
  {
    assert Add32(next, 0) == next;
  }

  /** `sub dword ptr [esp], 10` at offset 10 turns the pushed successor
      address back into the patch's own address. */
  lemma SubStep(address: u32, code: seq<byte>, s: seq<u32>)
    requires |code| == 20 && code[10..14] == X86.Encode(X86.SubTopImm8(10))
    ensures X86.Step(X86.Cpu(Add32(address, 10), [Add32(address, 10), Add32(address, 16)] + s), code, address)
            == Some(X86.Cpu(Add32(address, 14), [address, Add32(address, 16)] + s))
  {
    var c := X86.Cpu(Add32(address, 10), [Add32(address, 10), Add32(address, 16)] + s);
    AddSub32(address, 10);
    AddAdd32(address, 10, 4);
    assert |X86.Encode(X86.SubTopImm8(10))| == 4;
    X86.StepEncoded(c, code, address, X86.SubTopImm8(10));
    assert Signed8(10) == 10;
    assert Add32(c.eip, 4) == Add32(address, 14);
    assert Sub32(Add32(address, 10), 10) == address;
    assert [address] + c.stack[1..] == [address, Add32(address, 16)] + s;
  }

  /** The short jump at offset 14 lands at offset 20, just past the slot. */
  lemma JmpStep(address: u32, code: seq<byte>, s: seq<u32>)
    requires |code| == 20 && code[14..16] == X86.Encode(X86.JmpRel8(4))
    ensures X86.Step(X86.Cpu(Add32(address, 14), s), code, address) == Some(X86.Cpu(Add32(address, 20), s))
  {
    AddSub32(address, 14);
    AddAdd32(address, 14, 2);
    AddAdd32(address, 16, 4);
    assert |X86.Encode(X86.JmpRel8(4))| == 2;
    X86.StepEncoded(X86.Cpu(Add32(address, 14), s), code, address, X86.JmpRel8(4));
    assert Signed8(4) == 4;
  }

  /** Run from `address` with stack `s`, the patch pushes the slot's
      address, then the address of the call's successor, turns that into
      `address` itself, and jumps over the slot: control reaches the byte
      just past the patch, with the patch's own address on top of the stack
      (the payload returns there, to the game's restored entry code) and the
      slot's address under it. */
  lemma HijackRuns(address: u32, s: seq<u32>)
    ensures X86.Run(X86.Cpu(address, s), HijackBytes(address), address, 4)
            == Some(X86.Cpu(Add32(address, GetSize()), [address, Add32(address, GetFreeSpaceOffset())] + s))
  {
    var slot := Add32(address, 16);
    var code := HijackBytes(address);
    HijackLayout(address);
    var c0 := X86.Cpu(address, s);
    var c1 := X86.Cpu(Add32(address, 5), [slot] + s);
    var c2 := X86.Cpu(Add32(address, 10), [Add32(address, 10), slot] + s);
    var c3 := X86.Cpu(Add32(address, 14), [address, slot] + s);
    var c4 := X86.Cpu(Add32(address, 20), [address, slot] + s);
    PushStep(address, code, s);
    CallStep(address, code, s);
    SubStep(address, code, s);
    JmpStep(address, code, [address, slot] + s);
    X86.RunStep(c0, c1, code, address, 3);
    X86.RunStep(c1, c2, code, address, 2);
    X86.RunStep(c2, c3, code, address, 1);
    X86.RunStep(c3, c4, code, address, 0);
  }
}
