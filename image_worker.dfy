/** The image-processing worker: it loads the WebAssembly module once, copies a
    command string and a voxel buffer into the module's linear memory, runs the
    native `niimath` routine, and posts the processed bytes back.

    The fetch and instantiation, `walloc` and `niimath` are not modelled by their
    code: a `Native` value gives their answers for one message. */
module ImageWorker {
  import opened Common

  /** The geometry posted with a request (`getImageMetadata()` of the volume). */
  datatype Metadata = Metadata(id: string, datatypeCode: int, nx: nat, ny: nat, nz: nat, nt: nat,
                               dx: real, dy: real, dz: real, dt: real, bpv: nat)

  /** `nx * ny * nz * nt * bpv`, the size of the image region. */
  function ImageBufferSize(m: Metadata): nat
  {
    m.nx * m.ny * m.nz * m.nt * m.bpv
  }

  /** The inbound message `[imageMetadata, imageBytes, cmd, isNewLayer]`. */
  datatype Request = Request(metadata: Metadata, imageBytes: seq<uint8>, cmd: seq<uint16>, isNewLayer: bool)

  /** The outbound message `{ id, imageBytes, cmd, isNewLayer }`. */
  datatype Reply = Reply(id: string, imageBytes: seq<uint8>, cmd: seq<uint16>, isNewLayer: bool)

  /** Which of the three required exports the instantiated module has. */
  datatype Exports = Exports(hasWalloc: bool, hasWfree: bool, hasNiimath: bool)
  {
    predicate Complete() { hasWalloc && hasWfree && hasNiimath }
  }

  /** The answers of the code outside the worker for one message: the result of
      fetching and instantiating the module (None when either throws), the pointers
      `walloc` returns for the command and the image regions (0 on failure), the
      status `niimath` returns and the bytes it leaves in the image region. */
  datatype Native = Native(instantiated: Option<Exports>, cmdPtr: nat, imgPtr: nat, status: int, output: seq<uint8>)

  /** A call into the module, as observed from the worker. `Niimath` records the
      command and image regions as the routine finds them. */
  datatype NativeCall =
    | Walloc(size: nat, ptr: nat)
    | Wfree(ptr: nat)
    | Niimath(imgPtr: nat, metadata: Metadata, cmdPtr: nat, command: seq<uint8>, image: seq<uint8>, status: int)

  /** How a message handler invocation ends. Every exit but `Posted` logs an error
      and posts nothing; the two range errors are the exceptions the handler's
      `catch` swallows. */
  datatype Exit =
    | Posted
    | LoadFailed
    | MissingExports
    | CommandAllocFailed
    | CommandRangeError
    | ImageAllocFailed
    | ImageRangeError
    | NativeFailed(status: int)

  /** The linear memory the worker creates: 256 pages of 64 KiB (growth up to the
      2048-page maximum is not modelled). */
  const PageSize: nat := 65536
  const InitialPages: nat := 256

  // ---------------------------------------------------------------------------
  // The command string.

  /** `cmd.charCodeAt(i)` stored into a Uint8Array keeps the low byte. */
  function LowByte(u: uint16): uint8
  {
    (u as int % 256) as uint8
  }

  /** The command region's contents: one byte per code unit, then a NUL. */
  function EncodeCommand(cmd: seq<uint16>): (bytes: seq<uint8>)
    ensures |bytes| == |cmd| + 1 && bytes[|cmd|] == 0
    ensures forall i :: 0 <= i < |cmd| ==> bytes[i] == LowByte(cmd[i])
  {
    seq(|cmd| + 1, i requires 0 <= i <= |cmd| => if i < |cmd| then LowByte(cmd[i]) else 0)
  }

  /** What the native routine reads at a `char *`: the bytes before the first NUL. */
  function CString(bytes: seq<uint8>): (r: seq<uint8>)
    ensures |r| <= |bytes| && 0 !in r
  {
    if |bytes| == 0 || bytes[0] == 0 then [] else [bytes[0]] + CString(bytes[1..])
  }

  /** Bytes read back as code units. */
  function Widen(bytes: seq<uint8>): (r: seq<uint16>)
    ensures |r| == |bytes| && forall i :: 0 <= i < |bytes| ==> r[i] as int == bytes[i] as int
  {
    seq(|bytes|, i requires 0 <= i < |bytes| => bytes[i] as int as uint16)
  }

  /** Every code unit is a non-NUL one-byte character. */
  predicate IsNarrow(cmd: seq<uint16>)
  {
    forall i :: 0 <= i < |cmd| ==> 0 < cmd[i] < 256
  }

  lemma EncodeCommandTail(cmd: seq<uint16>)
    requires |cmd| > 0
    ensures EncodeCommand(cmd)[1..] == EncodeCommand(cmd[1..])
  {
  }

  /** The native routine reads back exactly the command string if and only if
      every code unit of the command is a non-NUL one-byte character. */
  lemma {:induction false} CommandRoundTrip(cmd: seq<uint16>)
    ensures Widen(CString(EncodeCommand(cmd))) == cmd <==> IsNarrow(cmd)
  {
    if |cmd| > 0 {
      var e := EncodeCommand(cmd);
      EncodeCommandTail(cmd);
      CommandRoundTrip(cmd[1..]);
      if e[0] == 0 {
        assert !IsNarrow(cmd) by { assert cmd[0] as int % 256 == 0; }
      } else {
        assert CString(e) == [e[0]] + CString(EncodeCommand(cmd[1..]));
        var w := Widen(CString(e));
        assert w == [e[0] as int as uint16] + Widen(CString(EncodeCommand(cmd[1..])));
        assert cmd == [cmd[0]] + cmd[1..];
        if IsNarrow(cmd) {
          assert IsNarrow(cmd[1..]) by {
            forall i | 0 <= i < |cmd| - 1 ensures 0 < cmd[1..][i] < 256 {
              assert cmd[1..][i] == cmd[i + 1];
            }
          }
        }
        if w == cmd {
          assert w[1..] == cmd[1..];
          forall i | 0 <= i < |cmd| ensures 0 < cmd[i] < 256 {
            if i > 0 {
              assert cmd[i] == cmd[1..][i - 1];
            }
          }
        }
      }
    }
  }

  // ---------------------------------------------------------------------------
  // The path a message takes, and the state it leaves behind.

  /** The instance the handler works with: the cached one, or the one loaded now. */
  function Loaded(cached: Option<Exports>, native: Native): Option<Exports>
  {
    if cached.Some? then cached else native.instantiated
  }

  /** Which exit the handler takes, given the cached instance before the message
      and the length of the linear memory. */
  function ExitOf(cached: Option<Exports>, req: Request, native: Native, memLength: nat): Exit
  {
    var loaded := Loaded(cached, native);
    var size := ImageBufferSize(req.metadata);
    if loaded.None? then LoadFailed
    else if !loaded.value.Complete() then MissingExports
    else if native.cmdPtr == 0 then CommandAllocFailed
    else if native.cmdPtr + |req.cmd| + 1 > memLength then CommandRangeError
    else if native.imgPtr == 0 then ImageAllocFailed
    else if native.imgPtr + size > memLength || |req.imageBytes| > size then ImageRangeError
    else if native.status != 0 then NativeFailed(native.status)
    else Posted
  }

  /** The handler asked `walloc` for the command region. */
  predicate CommandRequested(exit: Exit) { !exit.LoadFailed? && !exit.MissingExports? }

  /** The command region was allocated and recorded. */
  predicate CommandRecorded(exit: Exit) { CommandRequested(exit) && !exit.CommandAllocFailed? }

  /** The handler asked `walloc` for the image region (the command was written). */
  predicate ImageRequested(exit: Exit) { CommandRecorded(exit) && !exit.CommandRangeError? }

  /** The image region was allocated and recorded. */
  predicate ImageRecorded(exit: Exit) { ImageRequested(exit) && !exit.ImageAllocFailed? }

  /** The image was written and the native routine ran. */
  predicate NativeRan(exit: Exit) { exit.NativeFailed? || exit.Posted? }

  /** The memory with `bytes` copied in at `ptr` (`Uint8Array.prototype.set`). */
  function Written(mem: seq<uint8>, ptr: nat, bytes: seq<uint8>): (r: seq<uint8>)
    requires ptr + |bytes| <= |mem|
    ensures |r| == |mem| && r[ptr..ptr + |bytes|] == bytes
    ensures forall i :: 0 <= i < |mem| && !(ptr <= i < ptr + |bytes|) ==> r[i] == mem[i]
  {
    seq(|mem|, i requires 0 <= i < |mem| => if ptr <= i < ptr + |bytes| then bytes[i - ptr] else mem[i])
  }

  /** The memory when the native routine starts: command written, then image. */
  function MemoryAtCall(mem: seq<uint8>, req: Request, native: Native): (r: seq<uint8>)
    requires native.cmdPtr + |req.cmd| + 1 <= |mem|
    requires native.imgPtr + |req.imageBytes| <= |mem|
    ensures |r| == |mem|
  {
    Written(Written(mem, native.cmdPtr, EncodeCommand(req.cmd)), native.imgPtr, req.imageBytes)
  }

  /** The memory when the handler returns. */
  function MemoryAfter(mem: seq<uint8>, cached: Option<Exports>, req: Request, native: Native): (r: seq<uint8>)
    requires |native.output| == ImageBufferSize(req.metadata)
    ensures |r| == |mem|
  {
    var exit := ExitOf(cached, req, native, |mem|);
    if !ImageRequested(exit) then mem
    else if !NativeRan(exit) then Written(mem, native.cmdPtr, EncodeCommand(req.cmd))
    else Written(MemoryAtCall(mem, req, native), native.imgPtr, native.output)
  }

  /** The handler releases what it recorded: as written only after a successful
      post; with `releasing`, on every exit. */
  predicate Frees(exit: Exit, releasing: bool) { exit.Posted? || releasing }

  /** The allocation log when the handler returns. */
  function AllocationsAfter(log: map<nat, nat>, exit: Exit, req: Request, native: Native, releasing: bool): map<nat, nat>
  {
    var afterCmd := if CommandRecorded(exit) then log[native.cmdPtr := |req.cmd| + 1] else log;
    var afterImg := if ImageRecorded(exit) then afterCmd[native.imgPtr := ImageBufferSize(req.metadata)] else afterCmd;
    var cmdFreed := if Frees(exit, releasing) && CommandRecorded(exit) then afterImg - {native.cmdPtr} else afterImg;
    if Frees(exit, releasing) && ImageRecorded(exit) then cmdFreed - {native.imgPtr} else cmdFreed
  }

  /** The record of the `niimath` call made on memory `at`: the pointers, the
      metadata, what the two regions hold and the status the routine returns. */
  function NiimathCall(at: seq<uint8>, req: Request, native: Native): NativeCall
    requires native.cmdPtr + |req.cmd| + 1 <= |at|
    requires native.imgPtr + ImageBufferSize(req.metadata) <= |at|
  {
    Niimath(native.imgPtr, req.metadata, native.cmdPtr, at[native.cmdPtr..native.cmdPtr + |req.cmd| + 1],
            at[native.imgPtr..native.imgPtr + ImageBufferSize(req.metadata)], native.status)
  }

  /** The trace of calls into the module after one more message, in order. */
  function CallsAfter(trace: seq<NativeCall>, mem: seq<uint8>, cached: Option<Exports>, req: Request, native: Native,
                      releasing: bool): seq<NativeCall>
  {
    var exit := ExitOf(cached, req, native, |mem|);
    var size := ImageBufferSize(req.metadata);
    var t1 := if CommandRequested(exit) then trace + [Walloc(|req.cmd| + 1, native.cmdPtr)] else trace;
    var t2 := if ImageRequested(exit) then t1 + [Walloc(size, native.imgPtr)] else t1;
    var t3 := if NativeRan(exit) then
                t2 + [NiimathCall(MemoryAtCall(mem, req, native), req, native)]
              else t2;
    var t4 := if Frees(exit, releasing) && CommandRecorded(exit) then t3 + [Wfree(native.cmdPtr)] else t3;
    if Frees(exit, releasing) && ImageRecorded(exit) then t4 + [Wfree(native.imgPtr)] else t4
  }

  /** The native routine finds the image bytes at the image pointer and, when the
      two regions do not overlap, the NUL-terminated command at the command pointer;
      the rest of the image region keeps what was there before. */
  lemma NativeInputs(mem: seq<uint8>, req: Request, native: Native)
    requires native.cmdPtr + |req.cmd| + 1 <= |mem|
    requires native.imgPtr + |req.imageBytes| <= |mem|
    ensures var at := MemoryAtCall(mem, req, native);
            at[native.imgPtr..native.imgPtr + |req.imageBytes|] == req.imageBytes
    ensures native.cmdPtr + |req.cmd| + 1 <= native.imgPtr || native.imgPtr + |req.imageBytes| <= native.cmdPtr
            ==> MemoryAtCall(mem, req, native)[native.cmdPtr..native.cmdPtr + |req.cmd| + 1] == EncodeCommand(req.cmd)
  {

  }

  /** Every byte outside the command and image regions is as it was. */
  lemma MemoryOutsideRegions(mem: seq<uint8>, cached: Option<Exports>, req: Request, native: Native, i: nat)
    requires |native.output| == ImageBufferSize(req.metadata)
    requires i < |mem|
    requires !(native.cmdPtr <= i < native.cmdPtr + |req.cmd| + 1)
    requires !(native.imgPtr <= i < native.imgPtr + ImageBufferSize(req.metadata))
    ensures MemoryAfter(mem, cached, req, native)[i] == mem[i]
  {

  }

  /** A posted reply carries what the native routine left in the image region, which
      is exactly one image's worth of bytes. */
  lemma PostedReplySize(mem: seq<uint8>, cached: Option<Exports>, req: Request, native: Native)
    requires |native.output| == ImageBufferSize(req.metadata)
    requires ExitOf(cached, req, native, |mem|) == Posted
    ensures MemoryAfter(mem, cached, req, native)[native.imgPtr..native.imgPtr + ImageBufferSize(req.metadata)]
            == native.output
    ensures |req.imageBytes| <= ImageBufferSize(req.metadata)
  {
  }

  /** As written, the allocation log is back where it was after a message exactly
      when the message was posted or failed before recording a region: every other
      exit leaves a region recorded. */
  lemma BalancedAsWritten(log: map<nat, nat>, cached: Option<Exports>, req: Request, native: Native, memLength: nat)
    requires native.cmdPtr !in log && native.imgPtr !in log
    ensures var exit := ExitOf(cached, req, native, memLength);
            AllocationsAfter(log, exit, req, native, false) == log <==> exit.Posted? || !CommandRecorded(exit)
  {

  }

  /** A native failure after both regions were recorded leaves both recorded. */
  lemma LeakOnNativeFailure(log: map<nat, nat>, cached: Option<Exports>, req: Request, native: Native,
                            memLength: nat)
    requires ExitOf(cached, req, native, memLength).NativeFailed?
    ensures var after := AllocationsAfter(log, ExitOf(cached, req, native, memLength), req, native, false);
            native.cmdPtr in after && native.imgPtr in after
  {
  }

  /** With the release on every exit, the allocation log is always back where it was. */
  lemma BalancedReleasing(log: map<nat, nat>, cached: Option<Exports>, req: Request, native: Native, memLength: nat)
    requires native.cmdPtr !in log && native.imgPtr !in log
    ensures AllocationsAfter(log, ExitOf(cached, req, native, memLength), req, native, true) == log
  {

  }

  /** The specification functions once both regions are written and the native
      routine runs: the exit is decided by its status alone, and both regions were
      recorded. */
  lemma AtNativeCall(mem0: seq<uint8>, cached: Option<Exports>, req: Request, native: Native,
                     releasing: bool, log0: map<nat, nat>, calls0: seq<NativeCall>)
    requires |native.output| == ImageBufferSize(req.metadata)
    requires cached.Some? && cached.value.Complete()
    requires native.cmdPtr != 0 && native.cmdPtr + |req.cmd| + 1 <= |mem0|
    requires native.imgPtr != 0 && native.imgPtr + ImageBufferSize(req.metadata) <= |mem0|
    requires |req.imageBytes| <= ImageBufferSize(req.metadata)
    ensures var exit := ExitOf(cached, req, native, |mem0|);
            && exit == (if native.status != 0 then NativeFailed(native.status) else Posted)
            && CommandRecorded(exit) && ImageRecorded(exit) && NativeRan(exit)
    ensures MemoryAfter(mem0, cached, req, native) == Written(MemoryAtCall(mem0, req, native), native.imgPtr, native.output)
    ensures var exit := ExitOf(cached, req, native, |mem0|);
            var size := ImageBufferSize(req.metadata);
            var at := MemoryAtCall(mem0, req, native);
            var t3 := calls0 + [Walloc(|req.cmd| + 1, native.cmdPtr)] + [Walloc(size, native.imgPtr)]
                      + [NiimathCall(at, req, native)];
            CallsAfter(calls0, mem0, cached, req, native, releasing)
              == if Frees(exit, releasing) then t3 + [Wfree(native.cmdPtr)] + [Wfree(native.imgPtr)] else t3
    ensures var exit := ExitOf(cached, req, native, |mem0|);
            var a := log0[native.cmdPtr := |req.cmd| + 1][native.imgPtr := ImageBufferSize(req.metadata)];
            AllocationsAfter(log0, exit, req, native, releasing)
              == if Frees(exit, releasing) then a - {native.cmdPtr} - {native.imgPtr} else a
  {
  }

  // ---------------------------------------------------------------------------
  // The worker.

  class Worker {
    /** The cached module instance (`wasmInstance`), by the exports it has. */
    var instance: Option<Exports>
    /** The module's linear memory. */
    var memory: array<uint8>
    /** `linearMemory`'s record of live allocations, pointer to size. */
    var allocations: map<nat, nat>
    /** The messages posted back to the UI thread, oldest first. */
    var outbox: seq<Reply>
    /** Every call made into the module. */
    ghost var calls: seq<NativeCall>
    /** How many times the module binary was fetched and instantiated. */
    ghost var fetches: nat

    constructor ()
      ensures instance == None && allocations == map[] && outbox == [] && calls == [] && fetches == 0
      ensures fresh(memory) && memory.Length == InitialPages * PageSize
    {
      instance := None;
      memory := new uint8[InitialPages * PageSize](_ => 0);
      allocations := map[];
      outbox := [];
      calls := [];
      fetches := 0;
    }

    /** `initializeWasm`: fetch and instantiate only while nothing is cached. A failed
        load caches nothing, so the next message tries again. */
    method InitializeWasm(fetched: Option<Exports>) returns (r: Option<Exports>)
      modifies this`instance, this`fetches
      ensures old(instance).Some? ==> r == old(instance) && instance == old(instance) && fetches == old(fetches)
      ensures old(instance).None? ==> r == fetched && instance == fetched && fetches == old(fetches) + 1
    {
      if instance.None? {
        fetches := fetches + 1;
        instance := fetched;
      }
      r := instance;
    }

    /** `new Uint8Array(memory.buffer, ptr, |bytes|).set(bytes)`. */
    method Write(ptr: nat, bytes: seq<uint8>)
      requires ptr + |bytes| <= memory.Length
      modifies memory
      ensures memory[..] == Written(old(memory[..]), ptr, bytes)
    {
      forall i | ptr <= i < ptr + |bytes| {
        memory[i] := bytes[i - ptr];
      }
    }

    /** The `message` handler as written: the regions are released only after a
        successful post. */
    method HandleMessage(req: Request, native: Native) returns (exit: Exit)
      requires |native.output| == ImageBufferSize(req.metadata)
      modifies this`instance, this`fetches, this`allocations, this`outbox, this`calls, memory
      ensures exit == ExitOf(old(instance), req, native, memory.Length)
      ensures instance == Loaded(old(instance), native)
      ensures fetches == old(fetches) + (if old(instance).None? then 1 else 0)
      ensures outbox == old(outbox) + (if exit.Posted? then [Reply(req.metadata.id, native.output, req.cmd, req.isNewLayer)] else [])
      ensures allocations == AllocationsAfter(old(allocations), exit, req, native, false)
      ensures calls == CallsAfter(old(calls), old(memory[..]), old(instance), req, native, false)
      ensures memory[..] == MemoryAfter(old(memory[..]), old(instance), req, native)
    {
      exit := Handle(req, native, false);
    }

    /** The handler with the cleanup the allocations call for: every region it
        recorded is released on every exit. */
    method HandleMessageReleasing(req: Request, native: Native) returns (exit: Exit)
      requires |native.output| == ImageBufferSize(req.metadata)
      modifies this`instance, this`fetches, this`allocations, this`outbox, this`calls, memory
      ensures exit == ExitOf(old(instance), req, native, memory.Length)
      ensures instance == Loaded(old(instance), native)
      ensures fetches == old(fetches) + (if old(instance).None? then 1 else 0)
      ensures outbox == old(outbox) + (if exit.Posted? then [Reply(req.metadata.id, native.output, req.cmd, req.isNewLayer)] else [])
      ensures allocations == AllocationsAfter(old(allocations), exit, req, native, true)
      ensures calls == CallsAfter(old(calls), old(memory[..]), old(instance), req, native, true)
      ensures memory[..] == MemoryAfter(old(memory[..]), old(instance), req, native)
    {
      exit := Handle(req, native, true);
    }

    /** The body of the handler; `releasing` selects the cleanup on the error exits. */
    method Handle(req: Request, native: Native, releasing: bool) returns (exit: Exit)
      requires |native.output| == ImageBufferSize(req.metadata)
      modifies this`instance, this`fetches, this`allocations, this`outbox, this`calls, memory
      ensures exit == ExitOf(old(instance), req, native, memory.Length)
      ensures instance == Loaded(old(instance), native)
      ensures fetches == old(fetches) + (if old(instance).None? then 1 else 0)
      ensures outbox == old(outbox) + (if exit.Posted? then [Reply(req.metadata.id, native.output, req.cmd, req.isNewLayer)] else [])
      ensures allocations == AllocationsAfter(old(allocations), exit, req, native, releasing)
      ensures calls == CallsAfter(old(calls), old(memory[..]), old(instance), req, native, releasing)
      ensures memory[..] == MemoryAfter(old(memory[..]), old(instance), req, native)
    {
      var loaded := InitializeWasm(native.instantiated);
      if loaded.None? {
        return LoadFailed;
      }
      if !loaded.value.hasWalloc || !loaded.value.hasWfree || !loaded.value.hasNiimath {
        return MissingExports;
      }
      exit := Run(req, native, releasing);
    }

    /** The handler once the three exports are there: the command region. */
    method Run(req: Request, native: Native, releasing: bool) returns (exit: Exit)
      requires |native.output| == ImageBufferSize(req.metadata)
      requires instance.Some? && instance.value.Complete()
      modifies this`allocations, this`outbox, this`calls, memory
      ensures exit == ExitOf(instance, req, native, memory.Length)
      ensures outbox == old(outbox) + (if exit.Posted? then [Reply(req.metadata.id, native.output, req.cmd, req.isNewLayer)] else [])
      ensures allocations == AllocationsAfter(old(allocations), exit, req, native, releasing)
      ensures calls == CallsAfter(old(calls), old(memory[..]), instance, req, native, releasing)
      ensures memory[..] == MemoryAfter(old(memory[..]), instance, req, native)
    {
      var cmdBufferSize := |req.cmd| + 1;
      var cmdPtr := native.cmdPtr;
      calls := calls + [Walloc(cmdBufferSize, cmdPtr)];
      if cmdPtr == 0 {
        return CommandAllocFailed;
      }
      allocations := allocations[cmdPtr := cmdBufferSize];

      var cmdArray := CommandBytes(req.cmd);
      if cmdPtr + cmdBufferSize > memory.Length {
        exit := CommandRangeError;
        Release(exit, native, releasing);
        return;
      }
      ghost var mem0 := memory[..];
      Write(cmdPtr, cmdArray[..]);
      exit := RunImage(req, native, releasing, mem0, old(allocations), old(calls));
    }

    /** The handler once the command is in memory: the image region, the native
        routine and the reply. */
    method RunImage(req: Request, native: Native, releasing: bool,
                    ghost mem0: seq<uint8>, ghost log0: map<nat, nat>, ghost calls0: seq<NativeCall>)
      returns (exit: Exit)
      requires |native.output| == ImageBufferSize(req.metadata)
      requires instance.Some? && instance.value.Complete()
      requires native.cmdPtr != 0 && native.cmdPtr + |req.cmd| + 1 <= |mem0| == memory.Length
      requires memory[..] == Written(mem0, native.cmdPtr, EncodeCommand(req.cmd))
      requires allocations == log0[native.cmdPtr := |req.cmd| + 1]
      requires calls == calls0 + [Walloc(|req.cmd| + 1, native.cmdPtr)]
      modifies this`allocations, this`outbox, this`calls, memory
      ensures exit == ExitOf(instance, req, native, memory.Length)
      ensures outbox == old(outbox) + (if exit.Posted? then [Reply(req.metadata.id, native.output, req.cmd, req.isNewLayer)] else [])
      ensures allocations == AllocationsAfter(log0, exit, req, native, releasing)
      ensures calls == CallsAfter(calls0, mem0, instance, req, native, releasing)
      ensures memory[..] == MemoryAfter(mem0, instance, req, native)
    {
      var imageBufferSize := ImageBufferSize(req.metadata);
      var imgPtr := native.imgPtr;
      calls := calls + [Walloc(imageBufferSize, imgPtr)];
      if imgPtr == 0 {
        exit := ImageAllocFailed;
        Release(exit, native, releasing);
        return;
      }
      allocations := allocations[imgPtr := imageBufferSize];
      if imgPtr + imageBufferSize > memory.Length || |req.imageBytes| > imageBufferSize {
        exit := ImageRangeError;
        Release(exit, native, releasing);
        return;
      }
      Write(imgPtr, req.imageBytes);
      exit := RunNative(req, native, releasing, mem0, log0, calls0);
    }

    /** The handler once command and image are in memory: the native routine, and the
        reply when it succeeds. */
    method RunNative(req: Request, native: Native, releasing: bool,
                     ghost mem0: seq<uint8>, ghost log0: map<nat, nat>, ghost calls0: seq<NativeCall>)
      returns (exit: Exit)
      requires |native.output| == ImageBufferSize(req.metadata)
      requires instance.Some? && instance.value.Complete()
      requires native.cmdPtr != 0 && native.cmdPtr + |req.cmd| + 1 <= |mem0| == memory.Length
      requires native.imgPtr != 0 && native.imgPtr + ImageBufferSize(req.metadata) <= |mem0|
      requires |req.imageBytes| <= ImageBufferSize(req.metadata)
      requires memory[..] == MemoryAtCall(mem0, req, native)
      requires allocations == log0[native.cmdPtr := |req.cmd| + 1][native.imgPtr := ImageBufferSize(req.metadata)]
      requires calls == calls0 + [Walloc(|req.cmd| + 1, native.cmdPtr)] + [Walloc(ImageBufferSize(req.metadata), native.imgPtr)]
      modifies this`allocations, this`outbox, this`calls, memory
      ensures exit == ExitOf(instance, req, native, memory.Length)
      ensures outbox == old(outbox) + (if exit.Posted? then [Reply(req.metadata.id, native.output, req.cmd, req.isNewLayer)] else [])
      ensures allocations == AllocationsAfter(log0, exit, req, native, releasing)
      ensures calls == CallsAfter(calls0, mem0, instance, req, native, releasing)
      ensures memory[..] == MemoryAfter(mem0, instance, req, native)
    {
      AtNativeCall(mem0, instance, req, native, releasing, log0, calls0);
      CallNative(req, native);
      if native.status != 0 {
        exit := NativeFailed(native.status);
        Release(exit, native, releasing);
        return;
      }
      exit := Post(req, native, releasing);
    }

    /** `niimath(imgPtr, ..., cmdPtr)`: the call is recorded with what the two regions
        hold, and the routine leaves its output in the image region. */
    method CallNative(req: Request, native: Native)
      requires |native.output| == ImageBufferSize(req.metadata)
      requires native.cmdPtr + |req.cmd| + 1 <= memory.Length
      requires native.imgPtr + ImageBufferSize(req.metadata) <= memory.Length
      modifies this`calls, memory
      ensures calls == old(calls) + [NiimathCall(old(memory[..]), req, native)]
      ensures memory[..] == Written(old(memory[..]), native.imgPtr, native.output)
      ensures memory[native.imgPtr..native.imgPtr + ImageBufferSize(req.metadata)] == native.output
    {
      calls := calls + [NiimathCall(memory[..], req, native)];
      Write(native.imgPtr, native.output);
    }

    /** After a zero status: post a copy of the image region, then release both regions. */
    method Post(req: Request, native: Native, releasing: bool) returns (exit: Exit)
      requires native.imgPtr + ImageBufferSize(req.metadata) <= memory.Length
      requires memory[native.imgPtr..native.imgPtr + ImageBufferSize(req.metadata)] == native.output
      modifies this`allocations, this`outbox, this`calls
      ensures exit == Posted
      ensures outbox == old(outbox) + [Reply(req.metadata.id, native.output, req.cmd, req.isNewLayer)]
      ensures allocations == old(allocations) - {native.cmdPtr} - {native.imgPtr}
      ensures calls == old(calls) + [Wfree(native.cmdPtr)] + [Wfree(native.imgPtr)]
    {
      var clonedImage := memory[native.imgPtr..native.imgPtr + ImageBufferSize(req.metadata)];
      outbox := outbox + [Reply(req.metadata.id, clonedImage, req.cmd, req.isNewLayer)];
      exit := Posted;
      Release(exit, native, releasing);
    }

    /** `record_free` and `wfree` for the command region, then the image region,
        as far as they were recorded. */
    method Release(exit: Exit, native: Native, releasing: bool)
      modifies this`allocations, this`calls
      ensures var a := if Frees(exit, releasing) && CommandRecorded(exit) then old(allocations) - {native.cmdPtr} else old(allocations);
              allocations == if Frees(exit, releasing) && ImageRecorded(exit) then a - {native.imgPtr} else a
      ensures var t := if Frees(exit, releasing) && CommandRecorded(exit) then old(calls) + [Wfree(native.cmdPtr)] else old(calls);
              calls == if Frees(exit, releasing) && ImageRecorded(exit) then t + [Wfree(native.imgPtr)] else t
    {
      if Frees(exit, releasing) && CommandRecorded(exit) {
        allocations := allocations - {native.cmdPtr};
        calls := calls + [Wfree(native.cmdPtr)];
      }
      if Frees(exit, releasing) && ImageRecorded(exit) {
        allocations := allocations - {native.imgPtr};
        calls := calls + [Wfree(native.imgPtr)];
      }
    }
  }

  /** The `for` loop that fills `cmdArray`, a zeroed Uint8Array one longer than the command. */
  method CommandBytes(cmd: seq<uint16>) returns (cmdArray: array<uint8>)
    ensures cmdArray[..] == EncodeCommand(cmd)
  {
    cmdArray := new uint8[|cmd| + 1](_ => 0);
    var i := 0;
    while i < |cmd|
      invariant 0 <= i <= |cmd|
      invariant forall j :: 0 <= j < i ==> cmdArray[j] == LowByte(cmd[j])
      invariant forall j :: i <= j <= |cmd| ==> cmdArray[j] == 0
    {
      cmdArray[i] := LowByte(cmd[i]);
      i := i + 1;
    }
  }

  /** A first message whose module fails to load posts nothing and caches nothing;
      the next message loads the module and, with room in memory and a zero status,
      posts the processed bytes under the volume's id. */
  method RetryAfterFailedLoad() returns (first: Exit, second: Exit, replies: seq<Reply>)
    ensures first == LoadFailed && second == Posted
    ensures replies == [Reply("vol", [9], [42], true)]
  {
    var w := new Worker();
    var meta := Metadata("vol", 2, 1, 1, 1, 1, 1.0, 1.0, 1.0, 0.0, 1);
    var req := Request(meta, [7], [42], true);
    first := w.HandleMessage(req, Native(None, 1024, 4096, 0, [9]));
    second := w.HandleMessage(req, Native(Some(Exports(true, true, true)), 1024, 4096, 0, [9]));
    replies := w.outbox;
  }

  /** A status of 3 from the native routine: as written, both regions stay in the
      allocation log. */
  method LeakAfterNativeFailure() returns (exit: Exit, live: map<nat, nat>)
    ensures exit == NativeFailed(3) && live == map[1024 := 2, 4096 := 1]
  {
    var w := new Worker();
    var meta := Metadata("vol", 2, 1, 1, 1, 1, 1.0, 1.0, 1.0, 0.0, 1);
    exit := w.HandleMessage(Request(meta, [7], [42], false), Native(Some(Exports(true, true, true)), 1024, 4096, 3, [9]));
    live := w.allocations;
  }

  /** The same message with the release on every exit leaves nothing recorded. */
  method NoLeakWhenReleasing() returns (exit: Exit, live: map<nat, nat>)
    ensures exit == NativeFailed(3) && live == map[]
  {
    var w := new Worker();
    var meta := Metadata("vol", 2, 1, 1, 1, 1, 1.0, 1.0, 1.0, 0.0, 1);
    exit := w.HandleMessageReleasing(Request(meta, [7], [42], false), Native(Some(Exports(true, true, true)), 1024, 4096, 3, [9]));
    live := w.allocations;
  }
}
