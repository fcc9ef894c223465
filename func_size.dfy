/** How the size of an injected routine is found: its machine code is
    scanned for the eight-`nop` end marker, and the size is cached in a
    `static` that is recomputed while it is still 0. The routine's bytes are
    an input; finding them at the function's address is not modelled. */
module FuncSizes {
  import opened Bytes
  import CLib

  /** `kFuncEnd`: eight `nop`s closing each injected routine. */
  const FuncEnd: seq<byte> := [0x90, 0x90, 0x90, 0x90, 0x90, 0x90, 0x90, 0x90]

  /** The end marker starts at `i`. */
  predicate EndsAt(code: seq<byte>, i: nat)
  {
    i + |FuncEnd| <= |code| && code[i..i + |FuncEnd|] == FuncEnd
  }

  /** There is an end marker at or after `from`: the scan stops. */
  ghost predicate HasEnd(code: seq<byte>, from: nat)
  {
    exists k :: from <= k && EndsAt(code, k)
  }

  /** The first end marker at or after `from`. */
  function FirstEnd(code: seq<byte>, from: nat): (r: nat)
    requires HasEnd(code, from)
    ensures from <= r && EndsAt(code, r)
    ensures forall j :: from <= j < r ==> !EndsAt(code, j)
    decreases |code| - from
  {
    if EndsAt(code, from) then from
    else
      assert HasEnd(code, from + 1) by {
        var k :| from <= k && EndsAt(code, k);
        assert from + 1 <= k;
      }
      FirstEnd(code, from + 1)
  }

  /** `InitFuncSize`: starting from `*func_size`, compares the eight bytes
      there with the marker and advances, until a comparison succeeds; then
      steps back onto the match. */
  method InitFuncSize(code: seq<byte>, funcSize: nat) returns (r: nat)
    requires HasEnd(code, funcSize)
    ensures EndsAt(code, r)
    ensures funcSize <= r && forall j :: funcSize <= j < r ==> !EndsAt(code, j)
  {
    ghost var first := FirstEnd(code, funcSize);
    assert first + |FuncEnd| <= |code|;
    var size := funcSize;
    var memcmpResult := CLib.MemCompare(code[size..size + |FuncEnd|], FuncEnd);
    size := size + 1;
    while memcmpResult != 0
      invariant funcSize < size <= first + 1
      invariant memcmpResult == 0 <==> EndsAt(code, size - 1)
      decreases first + 1 - size
    {
      assert size <= first && first + |FuncEnd| <= |code|;
      memcmpResult := CLib.MemCompare(code[size..size + |FuncEnd|], FuncEnd);
      size := size + 1;
    }
    r := size - 1;
    assert r == first;
  }

  /** The size the scan finds from 0 is the first marker's index. */
  lemma ScanFindsFirstEnd(code: seq<byte>, r: nat)
    requires HasEnd(code, 0)
    requires EndsAt(code, r) && forall j :: 0 <= j < r ==> !EndsAt(code, j)
    ensures r == FirstEnd(code, 0)
  {
  }

  /** A routine's `static size_t` size cache, 0 until computed, together with
      the routine's code. */
  class FuncSizeCache {
    const code: seq<byte>
    var funcSize: nat

    ghost predicate Valid()
      reads this
    {
      HasEnd(code, 0) && (funcSize == 0 || funcSize == FirstEnd(code, 0))
    }

    constructor (code: seq<byte>)
      requires HasEnd(code, 0)
      ensures Valid() && this.code == code && funcSize == 0
    {
      this.code := code;
      funcSize := 0;
    }

    /** `PayloadPatch_GetSize` and `CleanupPatch_GetSize`: scans when the
        cache is 0 and returns the cached size. A size of 0 is never
        remembered, so it is found again by every call. */
    method GetSize() returns (r: nat)
      requires Valid()
      modifies this
      ensures Valid() && r == FirstEnd(code, 0) && funcSize == r
      ensures old(funcSize) != 0 ==> funcSize == old(funcSize)
    {
      if funcSize == 0 {
        funcSize := InitFuncSize(code, funcSize);
        ScanFindsFirstEnd(code, funcSize);
      }
      r := funcSize;
    }
  }
}
