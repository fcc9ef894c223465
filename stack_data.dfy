/** The packed `StackData` record through which the injector and the
    injected routine talk: the injector reads and writes it at the address
    the routine publishes, which is the routine's stack pointer after it has
    reserved 192 bytes below its frame pointer. With 4-byte pointers,
    `size_t` and `DWORD`, every field is a whole number of 32-bit words. */
module StackData {
  import opened Wrappers

  /** The struct's members, in declaration order. */
  datatype Field =
    | ReservedLocalJumpOffsets
    | ReservedKernelFuncPtr
    | LoadLibraryAPtr
    | GetCurrentThreadPtr
    | SuspendThreadPtr
    | VirtualAllocPtr
    | VirtualFreePtr
    | ReservedVariablePtr
    | IsReadyToExit
    | IsReadyToExecute
    | LibPath
    | LibPathSize
    | IsLibResizeNeeded
    | CurrentThreadHandle
    | NumLibs

  /** The routine's `sub esp, 192`. */
  const FrameSize: nat := 192

  /** A field's position in the declaration. */
  function Index(f: Field): (r: nat)
    ensures r < 15
  {
    match f
    case ReservedLocalJumpOffsets => 0
    case ReservedKernelFuncPtr => 1
    case LoadLibraryAPtr => 2
    case GetCurrentThreadPtr => 3
    case SuspendThreadPtr => 4
    case VirtualAllocPtr => 5
    case VirtualFreePtr => 6
    case ReservedVariablePtr => 7
    case IsReadyToExit => 8
    case IsReadyToExecute => 9
    case LibPath => 10
    case LibPathSize => 11
    case IsLibResizeNeeded => 12
    case CurrentThreadHandle => 13
    case NumLibs => 14
  }

  /** The member at a declaration position. */
  function FieldAt(i: nat): (r: Option<Field>)
  {
    if i == 0 then Some(ReservedLocalJumpOffsets)
    else if i == 1 then Some(ReservedKernelFuncPtr)
    else if i == 2 then Some(LoadLibraryAPtr)
    else if i == 3 then Some(GetCurrentThreadPtr)
    else if i == 4 then Some(SuspendThreadPtr)
    else if i == 5 then Some(VirtualAllocPtr)
    else if i == 6 then Some(VirtualFreePtr)
    else if i == 7 then Some(ReservedVariablePtr)
    else if i == 8 then Some(IsReadyToExit)
    else if i == 9 then Some(IsReadyToExecute)
    else if i == 10 then Some(LibPath)
    else if i == 11 then Some(LibPathSize)
    else if i == 12 then Some(IsLibResizeNeeded)
    else if i == 13 then Some(CurrentThreadHandle)
    else if i == 14 then Some(NumLibs)
    else None
  }

  /** Each member has its own position. */
  lemma IndexInjective(f: Field)
    ensures FieldAt(Index(f)) == Some(f)
  {
  }

  /** The member declared just before `f`. */
  function Prev(f: Field): (r: Option<Field>)
    ensures r.None? <==> Index(f) == 0
    ensures r.Some? ==> Index(r.value) + 1 == Index(f)
  {
    match f
    case ReservedLocalJumpOffsets => None
    case ReservedKernelFuncPtr => Some(ReservedLocalJumpOffsets)
    case LoadLibraryAPtr => Some(ReservedKernelFuncPtr)
    case GetCurrentThreadPtr => Some(LoadLibraryAPtr)
    case SuspendThreadPtr => Some(GetCurrentThreadPtr)
    case VirtualAllocPtr => Some(SuspendThreadPtr)
    case VirtualFreePtr => Some(VirtualAllocPtr)
    case ReservedVariablePtr => Some(VirtualFreePtr)
    case IsReadyToExit => Some(ReservedVariablePtr)
    case IsReadyToExecute => Some(IsReadyToExit)
    case LibPath => Some(IsReadyToExecute)
    case LibPathSize => Some(LibPath)
    case IsLibResizeNeeded => Some(LibPathSize)
    case CurrentThreadHandle => Some(IsLibResizeNeeded)
    case NumLibs => Some(CurrentThreadHandle)
  }

  /** A member's size in bytes: the three reserved arrays hold
      `(192 - 128) / 4`, `(128 - 84) / 4` and `(64 - 28) / 4` words, every
      other member one word. */
  function Size(f: Field): (r: nat)
    ensures r % 4 == 0 && r > 0
  {
    match f
    case ReservedLocalJumpOffsets => (192 - 128) / 4 * 4
    case ReservedKernelFuncPtr => (128 - 84) / 4 * 4
    case ReservedVariablePtr => (64 - 28) / 4 * 4
    case _ => 4
  }

  /** A member's offset in the packed struct: the sizes of the members
      declared before it, with no padding. */
  function Offset(f: Field): (r: nat)
    ensures r == 0 <==> Prev(f).None?
    ensures r % 4 == 0
    decreases Index(f)
  {
    match Prev(f)
    case None => 0
    case Some(p) =>
      AlignedSum(Offset(p), Size(p));
      Offset(p) + Size(p)
  }

  /** Two 4-byte-aligned sizes add up to an aligned one. */
  lemma AlignedSum(a: nat, b: nat)
    requires a % 4 == 0 && b % 4 == 0
    ensures (a + b) % 4 == 0
  {
    assert a + b == (a / 4 + b / 4) * 4;
  }

  /** `sizeof(struct StackData)`: the end of the last member. */
  function StructSize(): (r: nat)
  {
    Offset(NumLibs) + Size(NumLibs)
  }

  /** Where the routine keeps each member, relative to its frame pointer,
      as its own stack map lists them; a reserved range is given by its
      lowest address. */
  function RoutineSlot(f: Field): (r: int)
    ensures -(FrameSize as int) <= r && r + Size(f) <= 0
    ensures r % 4 == 0
  {
    match f
    case NumLibs => -4
    case CurrentThreadHandle => -8
    case IsLibResizeNeeded => -12
    case LibPathSize => -16
    case LibPath => -20
    case IsReadyToExecute => -24
    case IsReadyToExit => -28
    case ReservedVariablePtr => -64
    case VirtualFreePtr => -68
    case VirtualAllocPtr => -72
    case SuspendThreadPtr => -76
    case GetCurrentThreadPtr => -80
    case LoadLibraryAPtr => -84
    case ReservedKernelFuncPtr => -128
    case ReservedLocalJumpOffsets => -192
  }

  /** The routine's stack map has no gaps: each slot ends where the next
      member's slot begins, and the first starts 192 bytes down. */
  lemma SlotsContiguous(f: Field)
    ensures Prev(f).None? ==> RoutineSlot(f) == -(FrameSize as int)
    ensures Prev(f).Some? ==> RoutineSlot(Prev(f).value) + Size(Prev(f).value) == RoutineSlot(f)
  {
  }

  /** Read at the routine's stack pointer, every member lands on the slot
      the routine uses for it: offset `o` is `ebp - (192 - o)`. */
  lemma {:induction false} StructMatchesRoutine(f: Field)
    ensures Offset(f) - FrameSize == RoutineSlot(f)
    decreases Index(f)
  {
    SlotsContiguous(f);
    if Prev(f).Some? {
      StructMatchesRoutine(Prev(f).value);
    }
  }

  /** The struct is exactly the 192 bytes the routine reserves. */
  lemma StructFillsFrame()
    ensures StructSize() == FrameSize
  {
    StructMatchesRoutine(NumLibs);
  }

  /** A member declared earlier ends no later than one declared after it
      begins. */
  lemma {:induction false} EarlierEndsFirst(f: Field, g: Field)
    requires Index(f) < Index(g)
    ensures Offset(f) + Size(f) <= Offset(g)
    decreases Index(g)
  {
    var p := Prev(g).value;
    if p != f {
      EarlierEndsFirst(f, p);
    }
  }

  /** Distinct members occupy disjoint byte ranges, all inside the struct,
      so the injector's write of one member never touches another. */
  lemma {:induction false} MembersDisjoint(f: Field, g: Field)
    requires f != g
    ensures Offset(f) + Size(f) <= Offset(g) || Offset(g) + Size(g) <= Offset(f)
    ensures Offset(f) + Size(f) <= StructSize()
  {
    IndexInjective(f);
    IndexInjective(g);
    IndexInjective(NumLibs);
    if Index(f) < Index(g) {
      EarlierEndsFirst(f, g);
    } else {
      EarlierEndsFirst(g, f);
    }
    if f != NumLibs {
      EarlierEndsFirst(f, NumLibs);
    }
  }
}
