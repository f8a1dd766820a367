/** The trace-based writer (src/primitives/ptrace.rs, `ptace_write_rip`):
    synchronise with the stopped victim, read its instruction pointer, poke
    the payload there one byte per call, detach. */
module Ptrace {
  import opened Base
  import opened Errors
  import opened Effects

  /** The address after `addr` in the write loop: `addr += 1` on a `u64`,
      which wraps in a release build. */
  function NextAddr(addr: U64): (r: U64)
    ensures addr < TWO_64 - 1 ==> r == addr + 1
    ensures addr == TWO_64 - 1 ==> r == 0
  {
    (addr + 1) % TWO_64
  }

  /** The address of the k-th byte written when the loop starts at `rip`. */
  function PokeAddr(rip: U64, k: nat): U64 {
    (rip + k) % TWO_64
  }

  /** The write loop: one `ptrace::write` per byte, the cursor advanced
      after each. */
  function Pokes(pid: Pid, addr: U64, bytes: seq<Byte>): (r: seq<Action>)
    ensures |r| == |bytes|
    ensures forall k :: 0 <= k < |bytes| ==> r[k] == PokeData(pid, PokeAddr(addr, k), bytes[k])
    decreases |bytes|
  {
    if |bytes| == 0 then []
    else
      var rest := Pokes(pid, NextAddr(addr), bytes[1..]);
      forall k | 1 <= k < |bytes| ensures PokeAddr(NextAddr(addr), k - 1) == PokeAddr(addr, k) {
        NextAddrShift(addr, k);
      }
      [PokeData(pid, addr, bytes[0])] + rest
  }

  /** Advancing the cursor once and then k - 1 times more is advancing it
      k times, wrap-around included. */
  lemma NextAddrShift(addr: U64, k: nat)
    requires k >= 1
    ensures PokeAddr(NextAddr(addr), k - 1) == PokeAddr(addr, k)
  {
    var m := TWO_64;
    if addr + 1 == m {
      assert NextAddr(addr) == 0;
      assert addr + k == m + (k - 1);
    } else {
      assert NextAddr(addr) == addr + 1;
    }
  }

  /** Synchronisation: a forked child is only waited for; an existing
      process is attached to first. */
  function Sync(pid: Pid, isForked: bool): seq<Action> {
    if isForked then [WaitPid(pid)] else [Attach(pid), WaitPid(pid)]
  }

  /** The number of actions before the first write: the synchronisation
      and `getregs`. */
  function HeaderLen(isForked: bool): nat {
    if isForked then 2 else 3
  }

  /** Every call `ptace_write_rip` makes when nothing fails. */
  function WriteRipScript(pid: Pid, rip: U64, bytes: seq<Byte>, isForked: bool): (s: seq<Action>)
    ensures |s| == HeaderLen(isForked) + |bytes| + 1
  {
    Sync(pid, isForked) + [GetRegs(pid)] + Pokes(pid, rip, bytes) + [Detach(pid)]
  }

  /** The synchronisation and register read open the script, and they
      hold no write and no detach. */
  lemma ScriptHeader(pid: Pid, rip: U64, bytes: seq<Byte>, isForked: bool)
    ensures var s := WriteRipScript(pid, rip, bytes, isForked);
            s[0] == (if isForked then WaitPid(pid) else Attach(pid))
    ensures !isForked ==> WriteRipScript(pid, rip, bytes, isForked)[1] == WaitPid(pid)
    ensures WriteRipScript(pid, rip, bytes, isForked)[HeaderLen(isForked) - 1] == GetRegs(pid)
    ensures forall j :: 0 <= j < HeaderLen(isForked) ==>
              var a := WriteRipScript(pid, rip, bytes, isForked)[j]; !a.PokeData? && !a.Detach?
  {
    var header := Sync(pid, isForked) + [GetRegs(pid)];
    assert WriteRipScript(pid, rip, bytes, isForked) == header + (Pokes(pid, rip, bytes) + [Detach(pid)]);
  }

  /** After the header come the writes in byte order, then the detach,
      and nothing else. */
  lemma ScriptBody(pid: Pid, rip: U64, bytes: seq<Byte>, isForked: bool)
    ensures forall k :: 0 <= k < |bytes| ==>
              WriteRipScript(pid, rip, bytes, isForked)[HeaderLen(isForked) + k] == PokeData(pid, PokeAddr(rip, k), bytes[k])
    ensures WriteRipScript(pid, rip, bytes, isForked)[HeaderLen(isForked) + |bytes|] == Detach(pid)
  {
    var s := WriteRipScript(pid, rip, bytes, isForked);
    var h := HeaderLen(isForked);
    var header := Sync(pid, isForked) + [GetRegs(pid)];
    var p := Pokes(pid, rip, bytes);
    assert s == header + (p + [Detach(pid)]);
    assert forall j :: h <= j < h + |bytes| ==> s[j] == p[j - h];
  }

  /** The whole call sequence: the header, the writes in byte order, the
      detach; no write or detach before its place, and only trace calls. */
  lemma ScriptShape(pid: Pid, rip: U64, bytes: seq<Byte>, isForked: bool)
    ensures var s := WriteRipScript(pid, rip, bytes, isForked);
            s[0] == (if isForked then WaitPid(pid) else Attach(pid))
    ensures !isForked ==> WriteRipScript(pid, rip, bytes, isForked)[1] == WaitPid(pid)
    ensures WriteRipScript(pid, rip, bytes, isForked)[HeaderLen(isForked) - 1] == GetRegs(pid)
    ensures forall k :: 0 <= k < |bytes| ==>
              WriteRipScript(pid, rip, bytes, isForked)[HeaderLen(isForked) + k] == PokeData(pid, PokeAddr(rip, k), bytes[k])
    ensures forall j :: 0 <= j < HeaderLen(isForked) ==>
              var a := WriteRipScript(pid, rip, bytes, isForked)[j]; !a.PokeData? && !a.Detach?
    ensures forall j :: 0 <= j < HeaderLen(isForked) + |bytes| ==>
              !WriteRipScript(pid, rip, bytes, isForked)[j].Detach?
    ensures forall j :: 0 <= j < HeaderLen(isForked) + |bytes| + 1 ==>
              IsTraceCall(WriteRipScript(pid, rip, bytes, isForked)[j])
    ensures WriteRipScript(pid, rip, bytes, isForked)[HeaderLen(isForked) + |bytes|] == Detach(pid)
  {
    ScriptHeader(pid, rip, bytes, isForked);
    ScriptBody(pid, rip, bytes, isForked);
    var s := WriteRipScript(pid, rip, bytes, isForked);
    var h := HeaderLen(isForked);
    forall j | 0 <= j < h + |bytes| + 1 ensures IsTraceCall(s[j]) && (j < h + |bytes| ==> !s[j].Detach?) {
      if h <= j < h + |bytes| {
        assert s[h + (j - h)] == PokeData(pid, PokeAddr(rip, j - h), bytes[j - h]);
      }
    }
  }

  /** The calls the writer makes, all nix calls whose errno `?` turns
      into `LinuxError`. */
  predicate IsTraceCall(a: Action) {
    a.Attach? || a.WaitPid? || a.GetRegs? || a.PokeData? || a.Detach?
  }

  /** A run of trace calls that fails, fails with the last call's errno. */
  lemma NixFailure(os: Os, r: Run)
    requires forall j :: 0 <= j < |r.trace| ==> IsTraceCall(r.trace[j])
    requires r.exit.Returned? && r.exit.result.Err? ==>
               |r.trace| > 0 && Step(os, r.trace[|r.trace| - 1]) == Failed(r.exit.result.error)
    requires r.exit.Panicked? ==> |r.trace| > 0 && Step(os, r.trace[|r.trace| - 1]).Panics?
    ensures r.exit.Returned? && r.exit.result.Err? ==>
              var last := r.trace[|r.trace| - 1];
              os.errno(last).Some? && r.exit.result.error == LinuxError(os.errno(last).value)
    ensures !r.exit.Panicked?
  {
    if |r.trace| > 0 {
      NixStep(os, r.trace[|r.trace| - 1]);
    }
  }

  /** `ptace_write_rip(pid, bytes, is_forked)`. The k-th write goes to
      rip + k and carries bytes[k]; the first failing call ends the run
      with its error, so nothing is written before the victim is stopped
      and its registers read, and a failed write skips the detach. */
  function PtraceWriteRip(os: Os, pid: Pid, bytes: seq<Byte>, isForked: bool): (r: Run)
    ensures r.exit.Returned?
    ensures |r.trace| >= 1 && r.trace[0] == (if isForked then WaitPid(pid) else Attach(pid))
    ensures !isForked && |r.trace| >= 2 ==> r.trace[1] == WaitPid(pid)
    ensures |r.trace| >= HeaderLen(isForked) ==> r.trace[HeaderLen(isForked) - 1] == GetRegs(pid)
    ensures forall j :: 0 <= j < |r.trace| - 1 ==> Step(os, r.trace[j]).Done?
    ensures forall k :: 0 <= k < |bytes| && HeaderLen(isForked) + k < |r.trace| ==>
              r.trace[HeaderLen(isForked) + k] == PokeData(pid, PokeAddr(os.rip(pid), k), bytes[k])
    ensures forall j :: 0 <= j < |r.trace| && r.trace[j].PokeData? ==> j >= HeaderLen(isForked)
    ensures forall j :: 0 <= j < |r.trace| && r.trace[j].Detach? ==> j == HeaderLen(isForked) + |bytes|
    ensures r.exit.result.Ok? <==> |r.trace| == HeaderLen(isForked) + |bytes| + 1 && AllDone(os, r.trace)
    ensures r.exit.result.Ok? ==> r.trace[|r.trace| - 1] == Detach(pid)
    ensures r.exit.result.Err? ==>
              var last := r.trace[|r.trace| - 1];
              os.errno(last).Some? && r.exit.result.error == LinuxError(os.errno(last).value)
  {
    var script := WriteRipScript(pid, os.rip(pid), bytes, isForked);
    var r := Perform(os, script);
    PrefixShape(r.trace, pid, os.rip(pid), bytes, isForked);
    WriteRipOutcome(os, pid, bytes, isForked);
    r
  }

  /** How the writer's run ends: it always returns; `Ok` exactly when the
      whole script, detach included, completed; otherwise the errno of the
      call that failed. */
  lemma WriteRipOutcome(os: Os, pid: Pid, bytes: seq<Byte>, isForked: bool)
    ensures var r := Perform(os, WriteRipScript(pid, os.rip(pid), bytes, isForked));
            && r.exit.Returned? && |r.trace| >= 1
            && (r.exit.result.Ok? <==> |r.trace| == HeaderLen(isForked) + |bytes| + 1 && AllDone(os, r.trace))
            && (r.exit.result.Ok? ==> r.trace[|r.trace| - 1] == Detach(pid))
    ensures var r := Perform(os, WriteRipScript(pid, os.rip(pid), bytes, isForked));
            r.exit.Returned? && r.exit.result.Err? ==>
              var last := r.trace[|r.trace| - 1];
              os.errno(last).Some? && r.exit.result.error == LinuxError(os.errno(last).value)
  {
    WriteRipEnds(os, pid, bytes, isForked);
    WriteRipSucceeds(os, pid, bytes, isForked);
  }

  /** The writer never panics, makes at least one call, and a failure is
      the errno of its last call. */
  lemma WriteRipEnds(os: Os, pid: Pid, bytes: seq<Byte>, isForked: bool)
    ensures var r := Perform(os, WriteRipScript(pid, os.rip(pid), bytes, isForked));
            && r.exit.Returned? && |r.trace| >= 1
            && (r.exit.result.Err? ==>
                  var last := r.trace[|r.trace| - 1];
                  os.errno(last).Some? && r.exit.result.error == LinuxError(os.errno(last).value))
  {
    var script := WriteRipScript(pid, os.rip(pid), bytes, isForked);
    var r := Perform(os, script);
    ScriptShape(pid, os.rip(pid), bytes, isForked);
    assert forall j :: 0 <= j < |r.trace| ==> r.trace[j] == script[j];
    NixFailure(os, r);
  }

  /** The writer returns `Ok` exactly when it made every call of the
      script, the detach last, and all of them completed. */
  lemma WriteRipSucceeds(os: Os, pid: Pid, bytes: seq<Byte>, isForked: bool)
    ensures var r := Perform(os, WriteRipScript(pid, os.rip(pid), bytes, isForked));
            && (r.exit.IsOk() <==> |r.trace| == HeaderLen(isForked) + |bytes| + 1 && AllDone(os, r.trace))
            && (r.exit.IsOk() ==> r.trace[|r.trace| - 1] == Detach(pid))
  {
    var script := WriteRipScript(pid, os.rip(pid), bytes, isForked);
    var r := Perform(os, script);
    ScriptBody(pid, os.rip(pid), bytes, isForked);
    assert |r.trace| == |script| ==> r.trace == script;
  }

  /** What any prefix of the script looks like, position by position. */
  lemma PrefixShape(t: seq<Action>, pid: Pid, rip: U64, bytes: seq<Byte>, isForked: bool)
    requires IsPrefix(t, WriteRipScript(pid, rip, bytes, isForked))
    ensures |t| >= 1 ==> t[0] == (if isForked then WaitPid(pid) else Attach(pid))
    ensures !isForked && |t| >= 2 ==> t[1] == WaitPid(pid)
    ensures |t| >= HeaderLen(isForked) ==> t[HeaderLen(isForked) - 1] == GetRegs(pid)
    ensures forall k :: 0 <= k < |bytes| && HeaderLen(isForked) + k < |t| ==>
              t[HeaderLen(isForked) + k] == PokeData(pid, PokeAddr(rip, k), bytes[k])
    ensures forall j :: 0 <= j < |t| && t[j].PokeData? ==> j >= HeaderLen(isForked)
    ensures forall j :: 0 <= j < |t| && t[j].Detach? ==> j == HeaderLen(isForked) + |bytes|
    ensures forall j :: 0 <= j < |t| ==> IsTraceCall(t[j])
  {
    var s := WriteRipScript(pid, rip, bytes, isForked);
    ScriptShape(pid, rip, bytes, isForked);
    assert forall j :: 0 <= j < |t| ==> t[j] == s[j];
  }

  /** When every call before the k-th write succeeds and that write
      fails, the run is the script up to and including that write, ending
      in its errno: no later write and no detach. */
  lemma FailedWriteStops(os: Os, pid: Pid, bytes: seq<Byte>, isForked: bool, k: nat)
    requires k < |bytes|
    requires AllDone(os, WriteRipScript(pid, os.rip(pid), bytes, isForked)[..HeaderLen(isForked) + k])
    requires os.errno(PokeData(pid, PokeAddr(os.rip(pid), k), bytes[k])).Some?
    ensures PtraceWriteRip(os, pid, bytes, isForked)
         == Run(WriteRipScript(pid, os.rip(pid), bytes, isForked)[..HeaderLen(isForked) + k + 1],
                Returned(Err(LinuxError(os.errno(PokeData(pid, PokeAddr(os.rip(pid), k), bytes[k])).value))))
    ensures forall j :: 0 <= j < HeaderLen(isForked) + k + 1 ==>
              !WriteRipScript(pid, os.rip(pid), bytes, isForked)[j].Detach?
  {
    FailedWriteRun(os, pid, bytes, isForked, k);
    WriteRipIsPerform(os, pid, bytes, isForked);
    ScriptShape(pid, os.rip(pid), bytes, isForked);
  }

  /** The run of the script when the k-th write is the first call to fail. */
  lemma FailedWriteRun(os: Os, pid: Pid, bytes: seq<Byte>, isForked: bool, k: nat)
    requires k < |bytes|
    requires AllDone(os, WriteRipScript(pid, os.rip(pid), bytes, isForked)[..HeaderLen(isForked) + k])
    requires os.errno(PokeData(pid, PokeAddr(os.rip(pid), k), bytes[k])).Some?
    ensures var s := WriteRipScript(pid, os.rip(pid), bytes, isForked);
            Perform(os, s) == Run(s[..HeaderLen(isForked) + k + 1],
                                  Returned(Err(LinuxError(os.errno(PokeData(pid, PokeAddr(os.rip(pid), k), bytes[k])).value))))
  {
    var s := WriteRipScript(pid, os.rip(pid), bytes, isForked);
    var n := HeaderLen(isForked) + k;
    PerformPrefix(os, s, n);
    PokeInScript(pid, os.rip(pid), bytes, isForked, k);
    TakeOneMore(s, n);
    NixStep(os, s[n]);
  }

  /** The k-th write of the script, on its own. */
  lemma PokeInScript(pid: Pid, rip: U64, bytes: seq<Byte>, isForked: bool, k: nat)
    requires k < |bytes|
    ensures WriteRipScript(pid, rip, bytes, isForked)[HeaderLen(isForked) + k] == PokeData(pid, PokeAddr(rip, k), bytes[k])
  {
    var header := Sync(pid, isForked) + [GetRegs(pid)];
    assert WriteRipScript(pid, rip, bytes, isForked) == header + (Pokes(pid, rip, bytes) + [Detach(pid)]);
  }

  lemma WriteRipIsPerform(os: Os, pid: Pid, bytes: seq<Byte>, isForked: bool)
    ensures PtraceWriteRip(os, pid, bytes, isForked) == Perform(os, WriteRipScript(pid, os.rip(pid), bytes, isForked))
  {
  }

  /** With nothing failing, an empty payload is synchronise, read
      registers, detach. */
  lemma EmptyPayloadOnlyDetaches(os: Os, pid: Pid, isForked: bool)
    requires AllDone(os, WriteRipScript(pid, os.rip(pid), [], isForked))
    ensures PtraceWriteRip(os, pid, [], isForked)
         == Run(Sync(pid, isForked) + [GetRegs(pid), Detach(pid)], Returned(Ok(())))
  {
    assert WriteRipScript(pid, os.rip(pid), [], isForked) == Sync(pid, isForked) + [GetRegs(pid), Detach(pid)];
  }

  /** Without wrap-around the k-th write goes to exactly rip + k. */
  lemma NoWrapAddresses(rip: U64, n: nat, k: nat)
    requires rip + n <= TWO_64 && k < n
    ensures PokeAddr(rip, k) == rip + k
  {
  }
}
