/** A patch of a target process's memory: a byte region that can be switched
    between replacement bytes and the bytes it held when the patch was
    created. The target process is a byte array indexed by address, with the
    addresses `ReadProcessMemory` and `WriteProcessMemory` may touch given as
    sets; allocation failure is not modelled. */
module BufferPatches {
  import opened Wrappers
  import opened Bytes

  /** The target process: its address space and which addresses the remote
      read and write calls succeed on. */
  class Process {
    const memory: array<byte>
    const readable: set<int>
    const writable: set<int>

    constructor (memory: array<byte>, readable: set<int>, writable: set<int>)
      ensures this.memory == memory && this.readable == readable && this.writable == writable
    {
      this.memory := memory;
      this.readable := readable;
      this.writable := writable;
    }
  }

  /** `ReadProcessMemory` succeeds on `[position, position + size)`. */
  predicate CanRead(p: Process, position: int, size: nat)
  {
    && 0 <= position && position + size <= p.memory.Length
    && forall a :: position <= a < position + size ==> a in p.readable
  }

  /** `WriteProcessMemory` succeeds on `[position, position + size)`. */
  predicate CanWrite(p: Process, position: int, size: nat)
  {
    && 0 <= position && position + size <= p.memory.Length
    && forall a :: position <= a < position + size ==> a in p.writable
  }

  /** Memory `m` with `d` written at `position`: the region holds `d` and
      every byte outside it is unchanged. */
  function Splice(m: seq<byte>, position: nat, d: seq<byte>): (r: seq<byte>)
    requires position + |d| <= |m|
    ensures |r| == |m|
    ensures r[position..position + |d|] == d
    ensures forall a :: 0 <= a < |m| && !(position <= a < position + |d|) ==> r[a] == m[a]
  {
    m[..position] + d + m[position + |d|..]
  }

  /** Writing a region's old bytes back undoes a write of the same length. */
  lemma SpliceRestores(m: seq<byte>, position: nat, d: seq<byte>)
    requires position + |d| <= |m|
    ensures Splice(Splice(m, position, d), position, m[position..position + |d|]) == m
  {
    var r := Splice(Splice(m, position, d), position, m[position..position + |d|]);
    assert forall a :: 0 <= a < |m| ==> r[a] == m[a];
  }

  /** Writing the bytes a region already holds changes nothing, so a second
      identical write is a no-op. */
  lemma SpliceSame(m: seq<byte>, position: nat, d: seq<byte>)
    requires position + |d| <= |m|
    ensures Splice(m, position, m[position..position + |d|]) == m
    ensures Splice(Splice(m, position, d), position, d) == Splice(m, position, d)
  {
    var r := Splice(m, position, m[position..position + |d|]);
    assert forall a :: 0 <= a < |m| ==> r[a] == m[a];
    var s := Splice(m, position, d);
    var t := Splice(s, position, d);
    assert forall a :: 0 <= a < |m| ==> t[a] == s[a];
  }

  /** The two state changes a live patch can be asked for. */
  datatype Op = ApplyOp | RemoveOp

  /** What a patch changes: the target memory and the patch's flag. */
  datatype PatchState = PatchState(memory: seq<byte>, isPatched: bool)

  /** One successful `BufferPatch_Apply` or `BufferPatch_Remove`: nothing
      happens when the flag already says what is asked for; otherwise the
      replacement (Apply) or saved original (Remove) bytes are written and
      the flag follows. */
  function Step(s: PatchState, op: Op, position: nat, patch: seq<byte>, original: seq<byte>): (r: PatchState)
    requires |patch| == |original| && position + |patch| <= |s.memory|
    ensures |r.memory| == |s.memory|
    ensures r.isPatched <==> op == ApplyOp
    ensures s.isPatched == (op == ApplyOp) ==> r == s
    ensures s.isPatched != (op == ApplyOp) ==>
              r.memory == Splice(s.memory, position, if op == ApplyOp then patch else original)
  {
    match op
    case ApplyOp => if s.isPatched then s else PatchState(Splice(s.memory, position, patch), true)
    case RemoveOp => if !s.isPatched then s else PatchState(Splice(s.memory, position, original), false)
  }

  /** A sequence of successful operations, with no other writer. */
  function Run(s: PatchState, ops: seq<Op>, position: nat, patch: seq<byte>, original: seq<byte>): (r: PatchState)
    requires |patch| == |original| && position + |patch| <= |s.memory|
    ensures |r.memory| == |s.memory|
    decreases |ops|
  {
    if ops == [] then s
    else Run(Step(s, ops[0], position, patch, original), ops[1..], position, patch, original)
  }

  /** The patch's region holds the replacement bytes exactly when the flag is
      set and the saved original otherwise. */
  predicate Consistent(s: PatchState, position: nat, patch: seq<byte>, original: seq<byte>)
    requires position + |patch| <= |s.memory|
  {
    s.memory[position..position + |patch|] == if s.isPatched then patch else original
  }

  /** Every run keeps the region consistent with the flag and leaves the
      bytes outside the region as they were. */
  lemma {:induction false} RunKeepsConsistent(s: PatchState, ops: seq<Op>, position: nat, patch: seq<byte>, original: seq<byte>)
    requires |patch| == |original| && position + |patch| <= |s.memory|
    requires Consistent(s, position, patch, original)
    ensures Consistent(Run(s, ops, position, patch, original), position, patch, original)
    ensures forall a :: 0 <= a < |s.memory| && !(position <= a < position + |patch|) ==>
              Run(s, ops, position, patch, original).memory[a] == s.memory[a]
    decreases |ops|
  {
    if ops != [] {
      var t := Step(s, ops[0], position, patch, original);
      RunKeepsConsistent(t, ops[1..], position, patch, original);
    }
  }

  /** Round trip: after `BufferPatch_Create` the region holds the original and
      the flag is clear; any run of Apply and Remove that ends with Remove
      gives back exactly the memory that was there at creation. */
  lemma RoundTrip(m: seq<byte>, ops: seq<Op>, position: nat, patch: seq<byte>)
    requires |patch| + position <= |m|
    ensures Run(PatchState(m, false), ops + [RemoveOp], position, patch, m[position..position + |patch|])
            == PatchState(m, false)
  {
    var original := m[position..position + |patch|];
    var s := PatchState(m, false);
    RunAppend(s, ops, RemoveOp, position, patch, original);
    RunKeepsConsistent(s, ops, position, patch, original);
    var t := Run(s, ops, position, patch, original);
    var u := Step(t, RemoveOp, position, patch, original);
    assert u.memory[position..position + |patch|] == original;
    assert forall a :: 0 <= a < |m| ==> u.memory[a] == m[a];
  }

  lemma {:induction false} RunAppend(s: PatchState, ops: seq<Op>, op: Op, position: nat, patch: seq<byte>, original: seq<byte>)
    requires |patch| == |original| && position + |patch| <= |s.memory|
    ensures Run(s, ops + [op], position, patch, original)
            == Step(Run(s, ops, position, patch, original), op, position, patch, original)
    decreases |ops|
  {
    if ops == [] {
      assert [op][1..] == [];
    } else {
      assert (ops + [op])[1..] == ops[1..] + [op];
      RunAppend(Step(s, ops[0], position, patch, original), ops[1..], op, position, patch, original);
    }
  }

  /** Apply;Apply = Apply and Remove;Remove = Remove. */
  lemma StepIdempotent(s: PatchState, op: Op, position: nat, patch: seq<byte>, original: seq<byte>)
    requires |patch| == |original| && position + |patch| <= |s.memory|
    ensures Step(Step(s, op, position, patch, original), op, position, patch, original)
            == Step(s, op, position, patch, original)
  {
  }

  /** `struct BufferPatch`: the patch's position and size in the target, the
      flag, its private copies of the replacement and original bytes, and the
      target process. */
  class BufferPatch {
    var position: u32
    var isPatched: bool
    var bufferSize: nat
    var patchBuffer: array?<byte>
    var process: Process?
    var originalBuffer: array?<byte>

    /** A created patch: both buffers exist, are `bufferSize` long, and are
        neither each other nor the target's memory; the region lies inside
        the target. */
    predicate Live()
      reads this
    {
      && process != null && patchBuffer != null && originalBuffer != null
      && patchBuffer != originalBuffer
      && patchBuffer != process.memory && originalBuffer != process.memory
      && patchBuffer.Length == bufferSize && originalBuffer.Length == bufferSize
      && position + bufferSize <= process.memory.Length
    }

    /** The state `Step` describes. */
    function State(): (s: PatchState)
      reads this, process, process.memory
      requires process != null
      ensures s.isPatched == isPatched && |s.memory| == process.memory.Length
    {
      PatchState(process.memory[..], isPatched)
    }

    /** A zeroed `struct BufferPatch`, the state `BufferPatch_Destroy` leaves. */
    predicate Cleared()
      reads this
    {
      position == 0 && !isPatched && bufferSize == 0
      && process == null && patchBuffer == null && originalBuffer == null
    }

    constructor ()
      ensures Cleared()
    {
      position := 0;
      isPatched := false;
      bufferSize := 0;
      patchBuffer := null;
      process := null;
      originalBuffer := null;
    }

    /** `BufferPatch_Create` (the header's `BufferPatch_Init`): records the
        position, size and process, clears the flag, copies the replacement
        bytes and snapshots the region's current bytes. A failed remote read
        is fatal. The target's memory is not written. */
    method Create(position: u32, bufferSize: nat, patch: seq<byte>, process: Process) returns (o: Outcome)
      requires |patch| == bufferSize
      modifies this
      ensures this.position == position && !isPatched && this.bufferSize == bufferSize && this.process == process
      ensures fresh(patchBuffer) && fresh(originalBuffer) && patchBuffer[..] == patch
      ensures o.Pass? <==> CanRead(process, position, bufferSize)
      ensures o.Fail? ==> o.error == RemoteReadFailure
      ensures o.Pass? ==> Created(this, process, position, patch)
    {
      this.position := position;
      isPatched := false;
      this.bufferSize := bufferSize;
      this.process := process;
      var copy := new byte[bufferSize];
      forall i | 0 <= i < bufferSize {
        copy[i] := patch[i];
      }
      patchBuffer := copy;
      var snapshot := new byte[bufferSize];
      originalBuffer := snapshot;
      if !CanRead(process, position, bufferSize) {
        return Fail(RemoteReadFailure);
      }
      forall i | 0 <= i < bufferSize {
        snapshot[i] := process.memory[position + i];
      }
      assert originalBuffer[..] == process.memory[position..position + bufferSize];
      assert Created(this, process, position, patch);
      o := Pass;
    }

    /** Writes `source` over the region. */
    method Write(source: array<byte>) returns (o: Outcome)
      requires Live() && source.Length == bufferSize && source != process.memory
      modifies process.memory
      ensures o.Pass? <==> CanWrite(process, position, bufferSize)
      ensures o.Fail? ==> o.error == RemoteWriteFailure && unchanged(process.memory)
      ensures o.Pass? ==> process.memory[..] == Splice(old(process.memory[..]), position, source[..])
    {
      if !CanWrite(process, position, bufferSize) {
        return Fail(RemoteWriteFailure);
      }
      var memory := process.memory;
      forall i | 0 <= i < bufferSize {
        memory[position + i] := source[i];
      }
      assert memory[..] == Splice(old(memory[..]), position, source[..]) by {
        var r := Splice(old(memory[..]), position, source[..]);
        assert forall a :: 0 <= a < memory.Length ==> memory[a] == r[a];
      }
      o := Pass;
    }

    /** `BufferPatch_Apply`: a no-op on an applied patch; otherwise writes the
        replacement bytes and sets the flag. A failed write is fatal and
        leaves the flag clear. */
    method Apply() returns (o: Outcome)
      requires Live()
      modifies process.memory, this`isPatched
      ensures Live()
      ensures o.Pass? <==> old(isPatched) || CanWrite(process, position, bufferSize)
      ensures o.Fail? ==> o.error == RemoteWriteFailure && !isPatched && unchanged(process.memory)
      ensures o.Pass? ==> State() == Step(old(State()), ApplyOp, position, patchBuffer[..], originalBuffer[..])
    {
      if isPatched {
        return Pass;
      }
      o := Write(patchBuffer);
      if o.Fail? {
        return;
      }
      isPatched := true;
    }

    /** `BufferPatch_Remove`: a no-op on a removed patch; otherwise writes the
        saved original back and clears the flag. A failed write is fatal and
        leaves the flag set. */
    method Remove() returns (o: Outcome)
      requires Live()
      modifies process.memory, this`isPatched
      ensures Live()
      ensures o.Pass? <==> !old(isPatched) || CanWrite(process, position, bufferSize)
      ensures o.Fail? ==> o.error == RemoteWriteFailure && isPatched && unchanged(process.memory)
      ensures o.Pass? ==> State() == Step(old(State()), RemoveOp, position, patchBuffer[..], originalBuffer[..])
    {
      if !isPatched {
        return Pass;
      }
      o := Write(originalBuffer);
      if o.Fail? {
        return;
      }
      isPatched := false;
    }

    /** `BufferPatch_Destroy` (the header's `BufferPatch_Deinit`): removes the
        patch, then zeroes the record and releases both buffers. */
    method Destroy() returns (o: Outcome)
      requires Live()
      modifies this, process.memory
      ensures o.Pass? <==> !old(isPatched) || old(CanWrite(process, position, bufferSize))
      ensures o.Fail? ==> o.error == RemoteWriteFailure && unchanged(old(process).memory)
      ensures o.Pass? ==> Cleared()
      ensures o.Pass? ==> PatchState(old(process).memory[..], false)
                          == old(Step(State(), RemoveOp, position, patchBuffer[..], originalBuffer[..]))
    {
      o := Remove();
      if o.Fail? {
        return;
      }
      position := 0;
      isPatched := false;
      bufferSize := 0;
      process := null;
      patchBuffer := null;
      originalBuffer := null;
    }
  }

  /** `p` has been created on `process` at `position` with replacement
      bytes `bytes`: it is live and not applied, and it saved the bytes its
      region holds. */
  predicate Created(p: BufferPatch, process: Process, position: u32, bytes: seq<byte>)
    reads p, p.patchBuffer, p.originalBuffer, process.memory
  {
    && p.Live() && p.process == process && !p.isPatched
    && p.position == position && p.bufferSize == |bytes| && p.patchBuffer[..] == bytes
    && p.originalBuffer[..] == process.memory[position..position + |bytes|]
  }
}
