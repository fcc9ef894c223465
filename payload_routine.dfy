/** The injected routine (`PayloadFunc`) as a step function over its stack
    slots. It clears its ready flag and publishes its stack, spins until the
    injector sets the flag, allocates a 32-byte path buffer and suspends
    itself. The injector finds the frame only through the published stack
    pointer, so it can write the slots only after publication. On each resume it reallocates the buffer at twice the size if
    the injector asked for that, otherwise loads the library whose path the
    injector wrote into the buffer, or, when no libraries are left, frees
    the buffer and leaves through the tail jump. Between steps the injector
    may rewrite the slots it owns; the results of `GetCurrentThread` and
    `VirtualAlloc` are inputs. */
module PayloadRoutine {
  import opened Bytes

  datatype Phase =
    | Spinning    // stack published, waiting for `is_ready_to_execute`
    | Suspended   // waiting to be resumed
    | Done        // path buffer freed, jumped to the cleanup address

  /** The slots `[ebp - 4]` to `[ebp - 28]`, and the arguments passed to
      `LoadLibraryA` and `VirtualFree` so far. */
  datatype Frame = Frame(
    numLibs: u32,          // [ebp - 4]
    threadHandle: u32,     // [ebp - 8]
    resizeNeeded: u32,     // [ebp - 12]
    libPathSize: u32,      // [ebp - 16]
    libPath: u32,          // [ebp - 20]
    readyToExecute: u32,   // [ebp - 24]
    readyToExit: u32,      // [ebp - 28]
    published: bool,       // `*top_of_stack` holds this frame's `esp`
    phase: Phase,
    loaded: seq<u32>,
    freed: seq<u32>)

  /** `shl dword ptr [...], 1`. */
  function Shl1(w: u32): (r: u32)
    ensures w < 0x8000_0000 ==> r == 2 * w
    ensures w >= 0x8000_0000 ==> r == 2 * w - Modulus32
  {
    (2 * w) % Modulus32
  }

  /** `mov dword ptr [ebp - 24], 0`. */
  function ClearReady(f: Frame): (r: Frame)
    ensures r.readyToExecute == 0
    ensures r.(readyToExecute := f.readyToExecute) == f
  {
    f.(readyToExecute := 0)
  }

  /** `*top_of_stack = esp`: from here on the injector can reach the frame,
      and the routine enters its spin loop. */
  function Publish(f: Frame): (r: Frame)
    ensures r.published && r.phase == Spinning
    ensures r.(published := f.published, phase := f.phase) == f
  {
    f.(published := true, phase := Spinning)
  }

  /** The prologue: `is_ready_to_execute` is cleared, and only then is the
      stack pointer published, so no write of the injector can precede the
      clear. */
  function Enter(f: Frame): (r: Frame)
    ensures r.readyToExecute == 0 && r.published && r.phase == Spinning
    ensures r.(readyToExecute := f.readyToExecute, published := f.published, phase := f.phase) == f
  {
    Publish(ClearReady(f))
  }

  /** The injector's write of `is_ready_to_execute`, through the published
      pointer. */
  function SignalReady(f: Frame, value: u32): (r: Frame)
    requires f.published
    ensures r.readyToExecute == value
    ensures r.(readyToExecute := f.readyToExecute) == f
  {
    f.(readyToExecute := value)
  }

  /** `PayloadFunc_AllocPath`: the new buffer is stored and the resize flag
      cleared, then the routine suspends itself. */
  function AllocPath(f: Frame, newPath: u32): (r: Frame)
    ensures r.libPath == newPath && r.resizeNeeded == 0 && r.phase == Suspended
    ensures r.(libPath := f.libPath, resizeNeeded := f.resizeNeeded, phase := f.phase) == f
  {
    f.(libPath := newPath, resizeNeeded := 0, phase := Suspended)
  }

  /** One pass of the spin loop; once the flag is set, the set-up that
      follows it: resize flag 1, exit flag 0, thread handle stored, buffer
      size 32, first allocation. */
  function Spin(f: Frame, currentThread: u32, newPath: u32): (r: Frame)
    requires f.phase == Spinning
    ensures f.readyToExecute == 0 ==> r == f
    ensures f.readyToExecute != 0 ==>
              && r.phase == Suspended && r.libPathSize == 32 && r.libPath == newPath
              && r.resizeNeeded == 0 && r.readyToExit == 0 && r.threadHandle == currentThread
              && r.readyToExecute == f.readyToExecute
              && r.numLibs == f.numLibs && r.loaded == f.loaded && r.freed == f.freed
  {
    if f.readyToExecute == 0 then f
    else
      var g := f.(resizeNeeded := 1, readyToExit := 0, threadHandle := currentThread, libPathSize := 32);
      AllocPath(g, newPath)
  }

  /** One resume of the suspended routine: the resize flag is tested first,
      then the library count. */
  function Wake(f: Frame, newPath: u32): (r: Frame)
    requires f.phase == Suspended
    ensures r.readyToExecute == f.readyToExecute && r.readyToExit == f.readyToExit
    ensures r.threadHandle == f.threadHandle
    ensures r.phase == Suspended ==> r.resizeNeeded == 0
    ensures r.phase == Done <==> f.resizeNeeded == 0 && f.numLibs == 0
    ensures |r.loaded| + r.numLibs == |f.loaded| + f.numLibs
    ensures r.loaded == f.loaded || r.loaded == f.loaded + [f.libPath]
    ensures f.resizeNeeded != 0 ==> r.loaded == f.loaded && r.libPath == newPath
    ensures r.libPathSize == (if f.resizeNeeded != 0 then Shl1(f.libPathSize) else f.libPathSize)
    ensures f.resizeNeeded == 0 && f.numLibs != 0 ==>
              r.loaded == f.loaded + [f.libPath] && r.numLibs == f.numLibs - 1 && r.phase == Suspended
    ensures f.resizeNeeded == 0 && f.numLibs == 0 ==>
              r.loaded == f.loaded && r.freed == f.freed + [f.libPath]
  {
    if f.resizeNeeded != 0 then
      AllocPath(f.(freed := f.freed + [f.libPath], libPathSize := Shl1(f.libPathSize)), newPath)
    else if f.numLibs == 0 then
      f.(freed := f.freed + [f.libPath], phase := Done)
    else
      f.(loaded := f.loaded + [f.libPath], numLibs := f.numLibs - 1)
  }

  /** What happens around one resume: the value the injector leaves in
      `is_lib_resize_needed` while the routine is suspended, and the
      address `VirtualAlloc` returns if the routine reallocates. */
  datatype Resume = Resume(resizeRequest: u32, allocation: u32)

  /** One resume: the injector's write, then the routine's step. */
  function ResumeOnce(f: Frame, x: Resume): (r: Frame)
    requires f.phase == Suspended
    ensures r == Wake(f.(resizeNeeded := x.resizeRequest), x.allocation)
  {
    Wake(f.(resizeNeeded := x.resizeRequest), x.allocation)
  }

  /** Resumes the routine once per element while it is suspended, the
      injector writing the resize flag before each resume. */
  function Serve(f: Frame, resumes: seq<Resume>): (r: Frame)
    ensures f.phase != Suspended ==> r == f
    ensures f.phase == Suspended ==> r.phase != Spinning
    ensures r.readyToExecute == f.readyToExecute && r.readyToExit == f.readyToExit
    ensures r.threadHandle == f.threadHandle
    ensures |r.loaded| + r.numLibs == |f.loaded| + f.numLibs
    ensures f.loaded <= r.loaded
    decreases |resumes|
  {
    if resumes == [] || f.phase != Suspended then f
    else
      var g := ResumeOnce(f, resumes[0]);
      var r := Serve(g, resumes[1..]);
      assert f.loaded <= g.loaded;
      r
  }

  /** A resize the injector asks for between resumes is served on the next
      one: the old buffer is freed, the size doubled, the new buffer stored,
      no library is loaded, and the routine suspends again. */
  lemma RequestedResizeReallocates(f: Frame, x: Resume)
    requires f.phase == Suspended && x.resizeRequest != 0
    ensures var r := ResumeOnce(f, x);
            && r.phase == Suspended && r.resizeNeeded == 0
            && r.freed == f.freed + [f.libPath] && r.libPath == x.allocation
            && r.libPathSize == Shl1(f.libPathSize)
            && r.loaded == f.loaded && r.numLibs == f.numLibs
  {
  }

  /** `n` passes of the spin loop, with no write of the injector in
      between. */
  function SpinLoop(f: Frame, n: nat, currentThread: u32, newPath: u32): (r: Frame)
    requires f.phase == Spinning
    ensures r.phase == Spinning ==> r == f
  {
    if n == 0 then f
    else
      var g := Spin(f, currentThread, newPath);
      if g.phase != Spinning then g else SpinLoop(g, n - 1, currentThread, newPath)
  }

  /** With its flag clear, the spin loop goes round for ever: no number of
      passes moves it on. */
  lemma {:induction false} ClearedFlagSpinsForever(f: Frame, n: nat, currentThread: u32, newPath: u32)
    requires f.phase == Spinning && f.readyToExecute == 0
    ensures SpinLoop(f, n, currentThread, newPath) == f
  {
    if n > 0 {
      ClearedFlagSpinsForever(f, n - 1, currentThread, newPath);
    }
  }

  /** Until the injector sets `is_ready_to_execute`, the routine does not
      move past the spin loop. */
  lemma SpinWaitsForInjector(f: Frame, n: nat, currentThread: u32, newPath: u32)
    ensures SpinLoop(Enter(f), n, currentThread, newPath) == Enter(f)
  {
    ClearedFlagSpinsForever(Enter(f), n, currentThread, newPath);
  }

  /** In the source's order, clear then publish, any nonzero write the
      injector makes through the published pointer releases the loop on its
      next pass. */
  lemma PublishedSignalReleases(f: Frame, value: u32, n: nat, currentThread: u32, newPath: u32)
    requires value != 0 && n >= 1
    ensures var r := SpinLoop(SignalReady(Enter(f), value), n, currentThread, newPath);
            r.phase == Suspended && r.libPathSize == 32 && r.threadHandle == currentThread
  {
  }

  /** The other order, publish then clear, has a race: an injector that
      writes 1 as soon as it sees the pointer has its write wiped by the
      clear, and the routine spins for ever. */
  lemma ReversedOrderSpinsForever(f: Frame, n: nat, currentThread: u32, newPath: u32)
    ensures var g := ClearReady(SignalReady(Publish(f), 1));
            g.phase == Spinning && SpinLoop(g, n, currentThread, newPath) == g
  {
    ClearedFlagSpinsForever(ClearReady(SignalReady(Publish(f), 1)), n, currentThread, newPath);
  }

  /** Once released, the routine holds a fresh 32-byte buffer, its resize
      and exit flags are clear, and it is suspended. */
  lemma SpinReleases(f: Frame, currentThread: u32, newPath: u32)
    requires f.phase == Spinning && f.readyToExecute != 0
    ensures var r := Spin(f, currentThread, newPath);
            && r.phase == Suspended && r.libPathSize == 32 && r.libPath == newPath
            && r.resizeNeeded == 0 && r.readyToExit == 0 && r.threadHandle == currentThread
            && r.numLibs == f.numLibs && r.loaded == f.loaded && r.freed == f.freed
  {
  }

  /** The buffer sizes the routine goes through: 32, then doubled by each
      reallocation, in 32-bit arithmetic. */
  function PathSize(k: nat): (r: u32)
  {
    if k == 0 then 32 else Shl1(PathSize(k - 1))
  }

  function Pow2(k: nat): (r: nat)
    ensures r >= 1
  {
    if k == 0 then 1 else 2 * Pow2(k - 1)
  }

  /** Powers of two only grow. */
  lemma {:induction false} Pow2Grows(j: nat, k: nat)
    requires j <= k
    ensures Pow2(j) <= Pow2(k)
    decreases k
  {
    if j < k {
      Pow2Grows(j, k - 1);
    }
  }

  /** Exponents add. */
  lemma {:induction false} Pow2Add(j: nat, k: nat)
    ensures Pow2(j + k) == Pow2(j) * Pow2(k)
  {
    if j > 0 {
      Pow2Add(j - 1, k);
    }
  }

  lemma SmallPowers()
    ensures Pow2(1) == 2 && Pow2(5) == 32
  {
  }

  lemma LargePowers()
    ensures Pow2(25) == 0x200_0000 && Pow2(26) == 0x400_0000
  {
    SmallPowers();
    Pow2Add(5, 5);
    Pow2Add(10, 10);
    Pow2Add(20, 5);
    Pow2Add(25, 1);
  }

  /** The size doubles exactly through 26 reallocations, up to 2 GiB. */
  lemma {:induction false} PathSizeDoubles(k: nat)
    requires k <= 26
    ensures PathSize(k) == 32 * Pow2(k)
    ensures k < 26 ==> PathSize(k) < PathSize(k + 1)
  {
    if k > 0 {
      PathSizeDoubles(k - 1);
      Pow2Grows(k - 1, 25);
      LargePowers();
    }
    if k < 26 {
      Pow2Grows(k, 25);
      LargePowers();
    }
  }

  /** The 27th reallocation overflows the `shl`: the size becomes 0. */
  lemma PathSizeWraps(k: nat)
    requires k == 26
    ensures PathSize(k) == 0x8000_0000
    ensures PathSize(k + 1) == 0
  {
    PathSizeDoubles(k);
    LargePowers();
  }

  /** A reallocation takes the size from one entry of `PathSize` to the
      next. */
  lemma ResizeAdvances(f: Frame, newPath: u32, k: nat)
    requires f.phase == Suspended && f.resizeNeeded != 0 && f.libPathSize == PathSize(k)
    ensures Wake(f, newPath).libPathSize == PathSize(k + 1)
  {
  }

  /** `n` copies of `x`. */
  function Repeat(x: u32, n: nat): (r: seq<u32>)
    ensures |r| == n && forall i :: 0 <= i < n ==> r[i] == x
  {
    if n == 0 then [] else [x] + Repeat(x, n - 1)
  }

  /** With no reallocation asked for, a routine told to load `numLibs`
      libraries loads the path in its buffer `numLibs` times, one per
      resume, and on the next resume frees the buffer and leaves. */
  lemma {:induction false} LoadsThenLeaves(f: Frame, resumes: seq<Resume>)
    requires f.phase == Suspended
    requires |resumes| == f.numLibs + 1
    requires forall i :: 0 <= i < |resumes| ==> resumes[i].resizeRequest == 0
    ensures Serve(f, resumes)
            == f.(numLibs := 0, resizeNeeded := 0, loaded := f.loaded + Repeat(f.libPath, f.numLibs),
                  freed := f.freed + [f.libPath], phase := Done)
    decreases f.numLibs
  {
    var g := ResumeOnce(f, resumes[0]);
    if f.numLibs == 0 {
      assert Serve(g, resumes[1..]) == g;
      assert f.loaded + Repeat(f.libPath, 0) == f.loaded;
    } else {
      LoadsThenLeaves(g, resumes[1..]);
      assert g.loaded + Repeat(f.libPath, g.numLibs) == f.loaded + Repeat(f.libPath, f.numLibs) by {
        assert Repeat(f.libPath, f.numLibs) == [f.libPath] + Repeat(f.libPath, g.numLibs);
      }
    }
  }

  /** The routine itself never sets `is_ready_to_exit`: once released it
      is 0, and no resume changes it. */
  lemma {:induction false} ExitFlagStaysClear(f: Frame, resumes: seq<Resume>)
    requires f.readyToExit == 0
    ensures Serve(f, resumes).readyToExit == 0
    decreases |resumes|
  {
    if resumes != [] && f.phase == Suspended {
      ExitFlagStaysClear(ResumeOnce(f, resumes[0]), resumes[1..]);
    }
  }
}
