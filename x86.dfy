/** The few 32-bit x86 instructions the injected trampolines are built from:
    their encodings, a decoder, and what each does to the instruction
    pointer and the stack. Addresses and stack words are 32-bit and wrap. */
module X86 {
  import opened Wrappers
  import opened Bytes

  datatype Instr =
    | PushImm32(imm: u32)          // 68 id
    | CallRel32(displacement: u32) // E8 cd
    | SubTopImm8(imm8: byte)       // 83 2C 24 ib: sub dword ptr [esp], imm8
    | JmpRel8(displacement8: byte)  // EB cb
    | JmpRel32(displacement: u32)  // E9 cd

  function Encode(i: Instr): (s: seq<byte>)
  {
    match i
    case PushImm32(imm) => [0x68] + LE32(imm)
    case CallRel32(d) => [0xE8] + LE32(d)
    case SubTopImm8(imm) => [0x83, 0x2C, 0x24, imm]
    case JmpRel8(d) => [0xEB, d]
    case JmpRel32(d) => [0xE9] + LE32(d)
  }

  /** The instruction at the start of `code` and its length, if it is one of
      the five. */
  function Decode(code: seq<byte>): (r: Option<(Instr, nat)>)
    ensures r.Some? ==> r.value.1 <= |code| && Encode(r.value.0) == code[..r.value.1]
  {
    if |code| >= 5 && code[0] == 0x68 then
      EncodeDecode(code[1..5]);
      Some((PushImm32(FromLE32(code[1..5])), 5))
    else if |code| >= 5 && code[0] == 0xE8 then
      EncodeDecode(code[1..5]);
      Some((CallRel32(FromLE32(code[1..5])), 5))
    else if |code| >= 4 && code[0] == 0x83 && code[1] == 0x2C && code[2] == 0x24 then
      Some((SubTopImm8(code[3]), 4))
    else if |code| >= 2 && code[0] == 0xEB then
      Some((JmpRel8(code[1]), 2))
    else if |code| >= 5 && code[0] == 0xE9 then
      EncodeDecode(code[1..5]);
      Some((JmpRel32(FromLE32(code[1..5])), 5))
    else None
  }

  /** Decoding an encoded instruction gives it back, whatever follows it. */
  lemma DecodeEncoded(i: Instr, rest: seq<byte>)
    ensures Decode(Encode(i) + rest) == Some((i, |Encode(i)|))
  {
    var code := Encode(i) + rest;
    match i
    case PushImm32(imm) =>
      assert code[1..5] == LE32(imm);
      DecodeEncode(imm);
    case CallRel32(d) =>
      assert code[1..5] == LE32(d);
      DecodeEncode(d);
    case SubTopImm8(imm) =>
    case JmpRel8(d) =>
    case JmpRel32(d) =>
      assert code[1..5] == LE32(d);
      DecodeEncode(d);
  }

  /** The instruction pointer and the stack words, top first. */
  datatype Cpu = Cpu(eip: u32, stack: seq<u32>)

  /** Executes `i`, of length `len`, at `cpu.eip`: relative displacements are
      taken from the next instruction and the 8-bit ones are sign-extended. */
  function Execute(cpu: Cpu, i: Instr, len: nat): (r: Option<Cpu>)
    ensures r.None? <==> i.SubTopImm8? && cpu.stack == []
  {
    var next := Add32(cpu.eip, len);
    match i
    case PushImm32(imm) => Some(Cpu(next, [imm] + cpu.stack))
    case CallRel32(d) => Some(Cpu(Add32(next, d), [next] + cpu.stack))
    case SubTopImm8(imm) =>
      if cpu.stack == [] then None
      else Some(Cpu(next, [Sub32(cpu.stack[0], Signed8(imm))] + cpu.stack[1..]))
    case JmpRel8(d) => Some(Cpu(Add32(next, Signed8(d)), cpu.stack))
    case JmpRel32(d) => Some(Cpu(Add32(next, d), cpu.stack))
  }

  /** One instruction of `code`, loaded at `base`. */
  function Step(cpu: Cpu, code: seq<byte>, base: u32): (r: Option<Cpu>)
  {
    var offset := Sub32(cpu.eip, base);
    if offset < |code| then
      match Decode(code[offset..])
      case Some((i, len)) => Execute(cpu, i, len)
      case None => None
    else None
  }

  /** `n` instructions of `code`, loaded at `base`. */
  function Run(cpu: Cpu, code: seq<byte>, base: u32, n: nat): (r: Option<Cpu>)
    decreases n
  {
    if n == 0 then Some(cpu)
    else match Step(cpu, code, base)
      case Some(c) => Run(c, code, base, n - 1)
      case None => None
  }

  /** An encoded instruction at the current offset executes as itself. */
  lemma StepEncoded(cpu: Cpu, code: seq<byte>, base: u32, i: Instr)
    requires Sub32(cpu.eip, base) + |Encode(i)| <= |code|
    requires code[Sub32(cpu.eip, base)..Sub32(cpu.eip, base) + |Encode(i)|] == Encode(i)
    ensures Step(cpu, code, base) == Execute(cpu, i, |Encode(i)|)
  {
    var offset := Sub32(cpu.eip, base);
    var rest := code[offset + |Encode(i)|..];
    assert code[offset..] == Encode(i) + rest;
    DecodeEncoded(i, rest);
  }

  /** A run that starts with a successful step continues from its result. */
  lemma RunStep(cpu: Cpu, next: Cpu, code: seq<byte>, base: u32, n: nat)
    requires Step(cpu, code, base) == Some(next)
    ensures Run(cpu, code, base, n + 1) == Run(next, code, base, n)
  {
  }
}
