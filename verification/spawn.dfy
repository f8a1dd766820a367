/** The spawning techniques of src/techniques/spawn.rs. Each forks; the
    parent and, when the fork succeeded, the child are modelled as two
    runs against the same environment. The child's run starts after the
    fork returns in it. */
module SpawnTechniques {
  import opened Base
  import opened Errors
  import opened Effects
  import opened Payloads
  import Procfs
  import Ptrace

  /** How a forking technique ends: the parent's run, and the child's run
      when `fork` succeeded. */
  datatype Forked = Forked(parent: Run, child: Option<Run>)

  const OVERWRITE_REJECTS: string := "function can not take executables"

  /** The permission string of the region the procfs technique writes to. */
  const REGION_PERMISSIONS: string := "r-x"

  /** The image written to the anonymous file: an executable verbatim,
      shellcode wrapped into an ELF by `shellcode_to_exe`. */
  function Image(os: Os, p: Payload<Spawn>): (image: seq<Byte>)
    ensures p.payloadType == Executable ==> image == p.bytes
    ensures p.payloadType == Shellcode ==> image == os.shellcodeToExe(p.bytes)
  {
    match p.payloadType
    case Executable => p.bytes
    case Shellcode => os.shellcodeToExe(p.bytes)
  }

  /** Every call the parent of `memfd` makes, in order: the empty name,
      `memfd_create`, the write, the argument vector, the environment,
      `fork`. */
  function MemfdScript(os: Os, p: Payload<Spawn>): seq<Action> {
    [NewCString(""), MemfdCreate(""), WriteFd(Image(os, p)), ArgvFrom(p.state.args), GetEnv, Fork]
  }

  /** `memfd(payload)`. Both kinds are accepted. The parent runs the
      script as a `?`-chain: it stops at the first call that fails and
      returns that call's error; it returns as soon as the fork succeeds,
      without waiting, and the child executes the anonymous file. */
  function Memfd(os: Os, p: Payload<Spawn>): (r: Forked)
    ensures r.parent == Perform(os, MemfdScript(os, p))
    ensures r.parent.exit.Returned?
    ensures IsPrefix(r.parent.trace, MemfdScript(os, p))
    ensures forall j :: 0 <= j < |r.parent.trace| - 1 ==> Step(os, r.parent.trace[j]).Done?
    ensures r.parent.exit.result.Err? ==>
              |r.parent.trace| > 0 && Step(os, r.parent.trace[|r.parent.trace| - 1]) == Failed(r.parent.exit.result.error)
    ensures forall j :: 0 <= j < |r.parent.trace| ==> !r.parent.trace[j].WaitPid?
    ensures |r.parent.trace| >= 3 ==> r.parent.trace[2] == WriteFd(Image(os, p))
    ensures r.parent.exit.IsOk() <==> AllDone(os, MemfdScript(os, p))
    ensures r.child.Some? <==> r.parent.exit.IsOk()
    ensures r.parent.exit.result.Err? && |r.parent.trace| == 6 ==>
              os.errno(Fork).Some? && r.parent.exit.result.error == Linux(os.errno(Fork).value)
    ensures r.child.Some? ==>
              && r.child.value.trace == [Fexecve(p.state.args)]
              && (r.child.value.exit.Replaced? <==> os.errno(Fexecve(p.state.args)).None?)
              && (!r.child.value.exit.Replaced? ==>
                    r.child.value.exit == Returned(Err(LinuxError(os.errno(Fexecve(p.state.args)).value))))
  {
    var parent := Perform(os, MemfdScript(os, p));
    MemfdParent(os, p);
    if parent.exit.IsOk() then
      MemfdChild(os, p.state.args);
      Forked(parent, Some(PerformExec(os, [Fexecve(p.state.args)])))
    else Forked(parent, None)
  }

  /** The parent of `memfd` never panics, never waits, writes the image
      third, and a failure of its sixth call is the fork's `Linux` error. */
  lemma MemfdParent(os: Os, p: Payload<Spawn>)
    ensures var run := Perform(os, MemfdScript(os, p));
            && run.exit.Returned?
            && (forall j :: 0 <= j < |run.trace| ==> !run.trace[j].WaitPid?)
            && (|run.trace| >= 3 ==> run.trace[2] == WriteFd(Image(os, p)))
            && (run.exit.result.Err? && |run.trace| == 6 ==>
                  os.errno(Fork).Some? && run.exit.result.error == Linux(os.errno(Fork).value))
  {
    var script := MemfdScript(os, p);
    NoRegionNoPanic(os, script);
    MemfdTraceShape(os, p);
    MemfdSixthCall(os, p);
  }

  lemma MemfdTraceShape(os: Os, p: Payload<Spawn>)
    ensures var run := Perform(os, MemfdScript(os, p));
            && (forall j :: 0 <= j < |run.trace| ==> !run.trace[j].WaitPid?)
            && (|run.trace| >= 3 ==> run.trace[2] == WriteFd(Image(os, p)))
  {
    var script := MemfdScript(os, p);
    var run := Perform(os, script);
    assert forall j :: 0 <= j < |script| ==> !script[j].WaitPid?;
    PrefixIndex(run.trace, script);
  }

  lemma MemfdSixthCall(os: Os, p: Payload<Spawn>)
    ensures var run := Perform(os, MemfdScript(os, p));
            run.exit.Returned? && run.exit.result.Err? && |run.trace| == 6 ==>
              os.errno(Fork).Some? && run.exit.result.error == Linux(os.errno(Fork).value)
  {
    var script := MemfdScript(os, p);
    var run := Perform(os, script);
    ForkStep(os);
    if |run.trace| == 6 {
      assert run.trace[5] == script[5] == Fork;
    }
  }

  /** The child of `memfd`: one `fexecve`, which replaces the process or
      returns its errno as `LinuxError`. */
  lemma MemfdChild(os: Os, args: string)
    ensures var c := PerformExec(os, [Fexecve(args)]);
            && c.trace == [Fexecve(args)]
            && (c.exit.Replaced? <==> os.errno(Fexecve(args)).None?)
            && (!c.exit.Replaced? ==> c.exit == Returned(Err(LinuxError(os.errno(Fexecve(args)).value))))
  {
    NixStep(os, Fexecve(args));
  }

  /** What the child of both overwrite techniques executes: the target
      with the target arguments. */
  function TargetExec(p: Payload<Spawn>): seq<Action> {
    [NewCString(p.state.target), ArgvFrom(p.state.targetArgs), GetEnv, Execve(p.state.target, p.state.targetArgs)]
  }

  /** A child that runs a script without a region lookup either is
      replaced by the exec or returns the error of the call that failed. */
  lemma ExecChild(os: Os, script: seq<Action>)
    requires forall j :: 0 <= j < |script| ==> !script[j].FirstRegion?
    ensures var c := PerformExec(os, script);
            !c.exit.Replaced? ==>
              && c.exit.Returned? && c.exit.result.Err?
              && Step(os, c.trace[|c.trace| - 1]) == Failed(c.exit.result.error)
  {
    NoRegionNoPanic(os, script);
  }

  /** The parent's calls after the fork on the shellcode path of
      `procfs_overwrite_rip`: stop the child, find its first executable
      region, write the shellcode at its start, redirect execution there,
      continue the child. */
  function ProcfsParentScript(os: Os, p: Payload<Spawn>): seq<Action> {
    var child := os.child;
    var addr := RegionAddress(os, child, true, REGION_PERMISSIONS);
    [Kill(child, SIGSTOP), FirstRegion(child, true, REGION_PERMISSIONS),
     MemWrite(child, addr, p.bytes), MemExec(child, addr), Kill(child, SIGCONT)]
  }

  /** The fork both overwrite techniques begin with. */
  function ForkRun(os: Os): (r: Run)
    ensures r.trace == [Fork]
    ensures r.exit.IsOk() <==> os.errno(Fork).None?
    ensures !r.exit.IsOk() ==> r.exit == Returned(Err(Linux(os.errno(Fork).value)))
  {
    ForkStep(os);
    Perform(os, [Fork])
  }

  /** `procfs_overwrite_rip(payload)`. */
  function ProcfsOverwriteRip(os: Os, p: Payload<Spawn>): (r: Forked)
    ensures r.child.Some? <==> os.errno(Fork).None?
    ensures os.errno(Fork).Some? ==> r.parent == Run([Fork], Returned(Err(Linux(os.errno(Fork).value))))
    ensures p.payloadType == Executable && r.child.Some? ==>
              r.parent == Run([Fork], Returned(Err(NotImplemented(OVERWRITE_REJECTS))))
    ensures p.payloadType == Shellcode && r.child.Some? ==>
              r.parent == Perform(os, [Fork] + ProcfsParentScript(os, p))
    ensures p.payloadType == Shellcode && r.child.Some? ==>
              && IsPrefix(r.parent.trace, [Fork] + ProcfsParentScript(os, p))
              && (r.parent.exit.IsOk() <==> AllDone(os, [Fork] + ProcfsParentScript(os, p)))
              && (r.parent.exit.Returned? && r.parent.exit.result.Err? ==>
                    Step(os, r.parent.trace[|r.parent.trace| - 1]) == Failed(r.parent.exit.result.error))
    ensures r.child.Some? ==> r.child.value == PerformExec(os, TargetExec(p))
    ensures r.child.Some? && !r.child.value.exit.Replaced? ==>
              && r.child.value.exit.Returned? && r.child.value.exit.result.Err?
              && Step(os, r.child.value.trace[|r.child.value.trace| - 1]) == Failed(r.child.value.exit.result.error)
    ensures r.child.Some? ==>
              && IsPrefix(r.child.value.trace, TargetExec(p))
              && (r.child.value.exit.Replaced? <==> AllDone(os, TargetExec(p)))
  {
    var forked := ForkRun(os);
    if !forked.exit.IsOk() then Forked(forked, None)
    else
      var parent :=
        match p.payloadType
        case Executable => Run([Fork], Returned(Err(NotImplemented(OVERWRITE_REJECTS))))
        case Shellcode => Perform(os, [Fork] + ProcfsParentScript(os, p));
      ExecChild(os, TargetExec(p));
      Forked(parent, Some(PerformExec(os, TargetExec(p))))
  }

  /** `ptrace_overwrite_rip(payload)`. */
  function PtraceOverwriteRip(os: Os, p: Payload<Spawn>): (r: Forked)
    ensures r.child.Some? <==> os.errno(Fork).None?
    ensures os.errno(Fork).Some? ==> r.parent == Run([Fork], Returned(Err(Linux(os.errno(Fork).value))))
    ensures p.payloadType == Executable && r.child.Some? ==>
              r.parent == Run([Fork], Returned(Err(NotImplemented(OVERWRITE_REJECTS))))
    ensures p.payloadType == Shellcode && r.child.Some? ==>
              var w := Ptrace.PtraceWriteRip(os, os.child, p.bytes, true);
              r.parent == Run([Fork] + w.trace, w.exit)
    ensures p.payloadType == Shellcode && r.child.Some? ==>
              && |r.parent.trace| >= 2 && r.parent.trace[0] == Fork && r.parent.trace[1] == WaitPid(os.child)
              && r.parent.exit.Returned?
    ensures r.child.Some? ==> r.child.value == PerformExec(os, [TraceMe] + TargetExec(p))
    ensures r.child.Some? && !r.child.value.exit.Replaced? ==>
              && r.child.value.exit.Returned? && r.child.value.exit.result.Err?
              && Step(os, r.child.value.trace[|r.child.value.trace| - 1]) == Failed(r.child.value.exit.result.error)
    ensures r.child.Some? ==>
              && IsPrefix(r.child.value.trace, [TraceMe] + TargetExec(p))
              && (r.child.value.exit.Replaced? <==> AllDone(os, [TraceMe] + TargetExec(p)))
  {
    var forked := ForkRun(os);
    if !forked.exit.IsOk() then Forked(forked, None)
    else
      var parent :=
        match p.payloadType
        case Executable => Run([Fork], Returned(Err(NotImplemented(OVERWRITE_REJECTS))))
        case Shellcode =>
          var w := Ptrace.PtraceWriteRip(os, os.child, p.bytes, true);
          Run([Fork] + w.trace, w.exit);
      ExecChild(os, [TraceMe] + TargetExec(p));
      Forked(parent, Some(PerformExec(os, [TraceMe] + TargetExec(p))))
  }

  /** Both overwrite techniques refuse an executable only in the parent,
      after the fork: by then the child exists and goes on to execute the
      target, starting with the target's C string. */
  lemma RejectionAfterFork(os: Os, p: Payload<Spawn>)
    requires p.payloadType == Executable && os.errno(Fork).None?
    ensures var r := ProcfsOverwriteRip(os, p);
            && r.parent.trace == [Fork] && r.parent.exit == Returned(Err(NotImplemented(OVERWRITE_REJECTS)))
            && r.child.Some? && |r.child.value.trace| > 0 && r.child.value.trace[0] == NewCString(p.state.target)
    ensures var r := PtraceOverwriteRip(os, p);
            && r.parent.trace == [Fork] && r.parent.exit == Returned(Err(NotImplemented(OVERWRITE_REJECTS)))
            && r.child.Some? && |r.child.value.trace| > 0 && r.child.value.trace[0] == TraceMe
  {
  }

  /** On the procfs shellcode path, once the child is stopped and its
      first "r-x" region found, the bytes are written at that region's
      start address, and execution is redirected to the same address when
      the write succeeds. */
  lemma ProcfsWritesAtRegionStart(os: Os, p: Payload<Spawn>, lines: seq<string>, addrs: seq<U64>)
    requires p.payloadType == Shellcode && os.errno(Fork).None?
    requires os.errno(Kill(os.child, SIGSTOP)).None?
    requires os.maps(os.child) == Ok(lines)
    requires Procfs.NoPanic(lines, true, REGION_PERMISSIONS)
    requires Procfs.FindMemoryRegion(lines, true, REGION_PERMISSIONS) == Ok(addrs) && |addrs| > 0
    ensures |ProcfsOverwriteRip(os, p).parent.trace| >= 4
    ensures ProcfsOverwriteRip(os, p).parent.trace[3] == MemWrite(os.child, addrs[0], p.bytes)
    ensures os.failure(MemWrite(os.child, addrs[0], p.bytes)).None? ==>
              |ProcfsOverwriteRip(os, p).parent.trace| >= 5
              && ProcfsOverwriteRip(os, p).parent.trace[4] == MemExec(os.child, addrs[0])
  {
    ProcfsParentIsScript(os, p);
    RegionReached(os, p, lines, addrs);
    var tail := [MemWrite(os.child, addrs[0], p.bytes), MemExec(os.child, addrs[0]), Kill(os.child, SIGCONT)];
    var t := Perform(os, tail);
    assert t.trace[0] == tail[0];
    if os.failure(tail[0]).None? {
      PerformCons(os, tail);
      assert t.trace[1] == tail[1];
    }
  }

  /** With shellcode and a successful fork the parent runs the procfs script. */
  lemma ProcfsParentIsScript(os: Os, p: Payload<Spawn>)
    requires p.payloadType == Shellcode && os.errno(Fork).None?
    ensures ProcfsOverwriteRip(os, p).parent == Perform(os, [Fork] + ProcfsParentScript(os, p))
  {
  }

  /** The fork, the stop and a successful lookup complete, and the calls
      after them use element 0 of the list found. */
  lemma RegionReached(os: Os, p: Payload<Spawn>, lines: seq<string>, addrs: seq<U64>)
    requires os.errno(Fork).None? && os.errno(Kill(os.child, SIGSTOP)).None?
    requires os.maps(os.child) == Ok(lines)
    requires Procfs.NoPanic(lines, true, REGION_PERMISSIONS)
    requires Procfs.FindMemoryRegion(lines, true, REGION_PERMISSIONS) == Ok(addrs) && |addrs| > 0
    ensures var tail := [MemWrite(os.child, addrs[0], p.bytes), MemExec(os.child, addrs[0]), Kill(os.child, SIGCONT)];
            var script := [Fork] + ProcfsParentScript(os, p);
            && |script| == 6
            && Perform(os, script) == Run(script[..3] + Perform(os, tail).trace, Perform(os, tail).exit)
  {
    var script := [Fork] + ProcfsParentScript(os, p);
    RegionHeadDone(os, p, lines);
    RegionTail(os, p, lines, addrs);
    PerformPrefix(os, script, 3);
  }

  /** The fork, the stop and the lookup complete. */
  lemma RegionHeadDone(os: Os, p: Payload<Spawn>, lines: seq<string>)
    requires os.errno(Fork).None? && os.errno(Kill(os.child, SIGSTOP)).None?
    requires RegionOutcome(os, os.child, true, REGION_PERMISSIONS).Done?
    ensures AllDone(os, ([Fork] + ProcfsParentScript(os, p))[..3])
  {
    var script := [Fork] + ProcfsParentScript(os, p);
    ForkStep(os);
    NixStep(os, Kill(os.child, SIGSTOP));
    RegionStep(os, os.child, true, REGION_PERMISSIONS);
    assert script[..3] == [Fork, Kill(os.child, SIGSTOP), FirstRegion(os.child, true, REGION_PERMISSIONS)];
  }

  /** After a completed lookup the write, the redirect and the continue
      use element 0 of the list found. */
  lemma RegionTail(os: Os, p: Payload<Spawn>, lines: seq<string>, addrs: seq<U64>)
    requires os.maps(os.child) == Ok(lines)
    requires Procfs.NoPanic(lines, true, REGION_PERMISSIONS)
    requires Procfs.FindMemoryRegion(lines, true, REGION_PERMISSIONS) == Ok(addrs) && |addrs| > 0
    ensures RegionOutcome(os, os.child, true, REGION_PERMISSIONS).Done?
    ensures ([Fork] + ProcfsParentScript(os, p))[3..]
         == [MemWrite(os.child, addrs[0], p.bytes), MemExec(os.child, addrs[0]), Kill(os.child, SIGCONT)]
  {
    RegionOutcomeOfListing(os, os.child, true, REGION_PERMISSIONS, lines);
    var a := RegionAddress(os, os.child, true, REGION_PERMISSIONS);
    assert a == addrs[0];
    var script := [Fork] + ProcfsParentScript(os, p);
    assert script == [Fork, Kill(os.child, SIGSTOP), FirstRegion(os.child, true, REGION_PERMISSIONS),
                      MemWrite(os.child, a, p.bytes), MemExec(os.child, a), Kill(os.child, SIGCONT)];
  }

  /** On the procfs shellcode path a memory write is reached only after the
      region lookup completed, that is, after the listing was read, did not
      panic and yielded a non-empty list. */
  lemma ProcfsWriteNeedsRegion(os: Os, p: Payload<Spawn>)
    requires p.payloadType == Shellcode && os.errno(Fork).None?
    requires os.errno(Kill(os.child, SIGSTOP)).None?
    requires !RegionOutcome(os, os.child, true, REGION_PERMISSIONS).Done?
    ensures |ProcfsOverwriteRip(os, p).parent.trace| == 3
    ensures !ProcfsOverwriteRip(os, p).parent.exit.IsOk()
  {
    var script := [Fork] + ProcfsParentScript(os, p);
    ForkStep(os);
    NixStep(os, Kill(os.child, SIGSTOP));
    RegionStep(os, os.child, true, REGION_PERMISSIONS);
    PerformCons(os, script);
    PerformCons(os, script[1..]);
    assert script[1..][1..][0] == FirstRegion(os.child, true, REGION_PERMISSIONS);
  }

  /** An empty region list is not an error: indexing it panics in the
      parent after the child was stopped, and nothing is written. */
  lemma EmptyRegionPanics(os: Os, p: Payload<Spawn>, lines: seq<string>)
    requires p.payloadType == Shellcode && os.errno(Fork).None?
    requires os.errno(Kill(os.child, SIGSTOP)).None?
    requires os.maps(os.child) == Ok(lines)
    requires Procfs.NoPanic(lines, true, REGION_PERMISSIONS)
    requires Procfs.FindMemoryRegion(lines, true, REGION_PERMISSIONS) == Ok([])
    ensures ProcfsOverwriteRip(os, p).parent.trace
         == [Fork, Kill(os.child, SIGSTOP), FirstRegion(os.child, true, REGION_PERMISSIONS)]
    ensures ProcfsOverwriteRip(os, p).parent.exit == Panicked
  {
    var script := [Fork] + ProcfsParentScript(os, p);
    ForkStep(os);
    NixStep(os, Kill(os.child, SIGSTOP));
    PerformCons(os, script);
    PerformCons(os, script[1..]);
    assert script[1..][1..][0] == FirstRegion(os.child, true, REGION_PERMISSIONS);
  }

  /** On the ptrace shellcode path the parent forks and then runs the
      writer on the child with `is_forked` set: it waits instead of
      attaching, and its result is the technique's result. */
  lemma PtraceParentDelegates(os: Os, p: Payload<Spawn>)
    requires p.payloadType == Shellcode && os.errno(Fork).None?
    ensures var w := Ptrace.PtraceWriteRip(os, os.child, p.bytes, true);
            var r := PtraceOverwriteRip(os, p);
            && r.parent.trace == [Fork] + w.trace
            && r.parent.exit == w.exit
            && (r.parent.exit.IsOk() <==> |w.trace| == 3 + |p.bytes| && AllDone(os, w.trace))
  {
  }

  /** The child of the ptrace technique asks to be traced before anything
      else; if that fails it stops there and never executes the target. */
  lemma TraceMeFirst(os: Os, p: Payload<Spawn>)
    requires os.errno(Fork).None?
    requires os.errno(TraceMe).Some?
    ensures var r := PtraceOverwriteRip(os, p);
            && r.child.Some?
            && r.child.value == Run([TraceMe], Returned(Err(LinuxError(os.errno(TraceMe).value))))
  {
    NixStep(os, TraceMe);
    var script := [TraceMe] + TargetExec(p);
    assert script[0] == TraceMe;
  }

  /** When everything before it completes, a failing fork in `memfd` is the
      last call and is reported as `Linux`; no child runs. */
  lemma MemfdForkFailure(os: Os, p: Payload<Spawn>)
    requires AllDone(os, MemfdScript(os, p)[..5])
    requires os.errno(Fork).Some?
    ensures Memfd(os, p) == Forked(Run(MemfdScript(os, p), Returned(Err(Linux(os.errno(Fork).value)))), None)
  {
    var script := MemfdScript(os, p);
    ForkStep(os);
    PerformAppend(os, script[..5], [Fork]);
    assert script[..5] + [Fork] == script;
  }
}
