/** The operating-system interface the techniques drive, reduced to
    abstract actions against a mocked, deterministic environment that may
    fail any step. What happens inside the victim process is not modelled;
    only which calls are made, in which order, and with what outcome. */
module Effects {
  import opened Base
  import opened Errors
  import Foreign
  import CStrings
  import Procfs

  /** `nix::unistd::Pid`, a raw `i32`. */
  type Pid = I32

  datatype Signal = SIGSTOP | SIGCONT

  datatype Action =
      // the trace interface (nix::sys::ptrace, nix::sys::wait)
    | Attach(pid: Pid)
    | WaitPid(pid: Pid)
    | GetRegs(pid: Pid)
    | PokeData(pid: Pid, addr: U64, data: Byte)
    | Detach(pid: Pid)
    | TraceMe
      // signals and the procfs primitives
    | Kill(pid: Pid, signal: Signal)
    | FirstRegion(pid: Pid, getStart: bool, permissions: string)
    | MemWrite(pid: Pid, addr: U64, bytes: seq<Byte>)
    | MemExec(pid: Pid, addr: U64)
      // building and starting processes
    | MemfdCreate(name: string)
    | WriteFd(bytes: seq<Byte>)
    | ArgvFrom(text: string)
    | GetEnv
    | NewCString(text: string)
    | Fork
    | Fexecve(args: string)
    | Execve(path: string, args: string)

  /** The mocked environment.
      - `errno`: whether a nix call fails, and with which errno;
      - `failure`: whether a crate helper whose body is not modelled
        (`str_to_vec_c_string`, `get_env`, `mem_write`, `mem_exec`) fails;
      - `rip`: the instruction pointer `getregs` reports for a process;
      - `maps`: the outcome of reading `/proc/<pid>/maps`, as lines;
      - `child`: the pid `fork` hands the parent;
      - `shellcodeToExe`: `exeutils::elf64::shellcode_to_exe`. */
  datatype Os = Os(
    errno: Action -> Option<Foreign.Errno>,
    failure: Action -> Option<Error>,
    rip: Pid -> U64,
    maps: Pid -> Result<seq<string>, Foreign.IoError>,
    child: Pid,
    shellcodeToExe: seq<Byte> -> seq<Byte>)

  /** The outcome of one action: it completes, it returns an error that
      `?` propagates, or it panics. */
  datatype Outcome = Done | Failed(error: Error) | Panics

  /** `find_mem_region(pid, getStart, permissions)?[0]`: the maps file is
      read, parsed by `Procfs.FindMemoryRegion`, and element 0 taken,
      which panics on an empty list. */
  function RegionOutcome(os: Os, pid: Pid, getStart: bool, permissions: string): (o: Outcome)
    ensures os.maps(pid).Err? ==> o == Failed(IO(os.maps(pid).error))
    ensures o.Done? ==> os.maps(pid).Ok? && Procfs.NoPanic(os.maps(pid).value, getStart, permissions)
                        && var r := Procfs.FindMemoryRegion(os.maps(pid).value, getStart, permissions);
                           r.Ok? && |r.value| > 0
    ensures o.Failed? && os.maps(pid).Ok? ==> o.error.ParseInt?
  {
    match os.maps(pid)
    case Err(e) => Failed(FromIo(e))
    case Ok(lines) =>
      if !Procfs.NoPanic(lines, getStart, permissions) then Panics
      else match Procfs.FindMemoryRegion(lines, getStart, permissions)
        case Err(e) => Failed(e)
        case Ok(addrs) => if |addrs| == 0 then Panics else Done
  }

  /** On a readable listing the lookup ends as the parse does: a panic
      for a listing that panics or an empty list, the parse's own error,
      and completion for a non-empty list. */
  lemma RegionOutcomeOfListing(os: Os, pid: Pid, getStart: bool, permissions: string, lines: seq<string>)
    requires os.maps(pid) == Ok(lines)
    ensures !Procfs.NoPanic(lines, getStart, permissions) ==> RegionOutcome(os, pid, getStart, permissions) == Panics
    ensures Procfs.NoPanic(lines, getStart, permissions) ==>
              var r := Procfs.FindMemoryRegion(lines, getStart, permissions);
              && (r.Err? ==> RegionOutcome(os, pid, getStart, permissions) == Failed(r.error))
              && (r.Ok? && |r.value| > 0 ==> RegionOutcome(os, pid, getStart, permissions) == Done)
              && (r.Ok? && |r.value| == 0 ==> RegionOutcome(os, pid, getStart, permissions) == Panics)
  {
  }

  /** The address `find_mem_region(..)?[0]` yields when it completes, and
      0 otherwise (no later action is then performed). */
  function RegionAddress(os: Os, pid: Pid, getStart: bool, permissions: string): (a: U64)
    ensures RegionOutcome(os, pid, getStart, permissions).Done? ==>
              a == Procfs.FindMemoryRegion(os.maps(pid).value, getStart, permissions).value[0]
  {
    if RegionOutcome(os, pid, getStart, permissions).Done? then
      Procfs.FindMemoryRegion(os.maps(pid).value, getStart, permissions).value[0]
    else 0
  }

  /** How an action ends in the environment `os`. A nix call's errno is
      converted by `?` into `LinuxError`, except `fork`, whose errno the
      techniques wrap as `Linux` explicitly. */
  function Step(os: Os, a: Action): (o: Outcome)
  {
    match a
    case ArgvFrom(_) => FromHelper(os.failure(a))
    case GetEnv => FromHelper(os.failure(a))
    case MemWrite(_, _, _) => FromHelper(os.failure(a))
    case MemExec(_, _) => FromHelper(os.failure(a))
    case FirstRegion(pid, getStart, permissions) => RegionOutcome(os, pid, getStart, permissions)
    case NewCString(text) =>
      (match CStrings.CStringNew(text)
       case Ok(_) => Done
       case Err(e) => Failed(FromNul(e)))
    case Fork => (match os.errno(a) case None => Done case Some(e) => Failed(Linux(e)))
    case _ => (match os.errno(a) case None => Done case Some(e) => Failed(FromErrno(e)))
  }

  /** The nix calls other than `fork`. */
  predicate IsNixCall(a: Action) {
    a.Attach? || a.WaitPid? || a.GetRegs? || a.PokeData? || a.Detach? || a.TraceMe?
    || a.Kill? || a.MemfdCreate? || a.WriteFd? || a.Fexecve? || a.Execve?
  }

  /** A nix call completes exactly when the environment reports no errno,
      and fails with that errno wrapped as `LinuxError`. */
  lemma NixStep(os: Os, a: Action)
    requires IsNixCall(a)
    ensures Step(os, a).Done? <==> os.errno(a).None?
    ensures Step(os, a).Failed? ==> Step(os, a).error == LinuxError(os.errno(a).value)
    ensures !Step(os, a).Panics?
  {
  }

  /** `fork` fails with its errno wrapped as `Linux`. */
  lemma ForkStep(os: Os)
    ensures Step(os, Fork).Done? <==> os.errno(Fork).None?
    ensures Step(os, Fork).Failed? ==> Step(os, Fork).error == Linux(os.errno(Fork).value)
    ensures !Step(os, Fork).Panics?
  {
  }

  /** The region lookup ends as `RegionOutcome` says. */
  lemma RegionStep(os: Os, pid: Pid, getStart: bool, permissions: string)
    ensures Step(os, FirstRegion(pid, getStart, permissions)) == RegionOutcome(os, pid, getStart, permissions)
  {
  }

  function FromHelper(f: Option<Error>): Outcome {
    match f
    case None => Done
    case Some(e) => Failed(e)
  }

  /** Every action of the trace completed. */
  predicate AllDone(os: Os, trace: seq<Action>) {
    forall j :: 0 <= j < |trace| ==> Step(os, trace[j]).Done?
  }

  predicate IsPrefix(t: seq<Action>, script: seq<Action>) {
    |t| <= |script| && script[..|t|] == t
  }

  /** How one process's part of a technique ends: it returns a result,
      it panics, or a successful exec replaced its image. */
  datatype Exit = Returned(result: Result<(), Error>) | Panicked | Replaced {
    /** The process returned `Ok(())`. */
    predicate IsOk() {
      Returned? && result.Ok?
    }
  }

  /** The actions a process attempted, in order, and how it ended. */
  datatype Run = Run(trace: seq<Action>, exit: Exit)

  /** Runs `script` one action at a time and stops at the first action
      that does not complete: the `?`-chain of straight-line Rust code.
      On completion of the whole script the process returns `Ok(())`. */
  function Perform(os: Os, script: seq<Action>): (r: Run)
    ensures IsPrefix(r.trace, script)
    ensures forall j :: 0 <= j < |r.trace| - 1 ==> Step(os, r.trace[j]).Done?
    ensures r.exit.IsOk() <==> r.trace == script && AllDone(os, script)
    ensures r.exit.IsOk() ==> r.exit == Returned(Ok(()))
    ensures r.exit.Returned? && r.exit.result.Err? ==>
              |r.trace| > 0 && Step(os, r.trace[|r.trace| - 1]) == Failed(r.exit.result.error)
    ensures r.exit.Panicked? ==> |r.trace| > 0 && Step(os, r.trace[|r.trace| - 1]).Panics?
    ensures !r.exit.Replaced?
    decreases |script|
  {
    if |script| == 0 then Run([], Returned(Ok(())))
    else match Step(os, script[0])
      case Failed(e) => Run([script[0]], Returned(Err(e)))
      case Panics => Run([script[0]], Panicked)
      case Done =>
        var rest := Perform(os, script[1..]);
        assert script == [script[0]] + script[1..];
        Run([script[0]] + rest.trace, rest.exit)
  }

  /** Only the region lookup can panic: a script without one never does. */
  lemma NoRegionNoPanic(os: Os, script: seq<Action>)
    requires forall j :: 0 <= j < |script| ==> !script[j].FirstRegion?
    ensures !Perform(os, script).exit.Panicked?
  {
  }

  /** Running a script that ends in an exec: the process image is replaced
      when every action completes. */
  function PerformExec(os: Os, script: seq<Action>): (r: Run)
    ensures r.trace == Perform(os, script).trace
    ensures r.exit.Replaced? <==> r.trace == script && AllDone(os, script)
    ensures !r.exit.Replaced? ==> r.exit == Perform(os, script).exit
  {
    var run := Perform(os, script);
    if run.exit.IsOk() then Run(run.trace, Replaced) else run
  }

  /** One completed action followed by the rest of the script. */
  lemma PerformCons(os: Os, script: seq<Action>)
    requires |script| > 0 && Step(os, script[0]).Done?
    ensures Perform(os, script) == Run([script[0]] + Perform(os, script[1..]).trace, Perform(os, script[1..]).exit)
  {
  }

  /** Running `first` and then `second` is running their concatenation. */
  lemma {:induction false} PerformAppend(os: Os, first: seq<Action>, second: seq<Action>)
    requires AllDone(os, first)
    ensures Perform(os, first + second) == Run(first + Perform(os, second).trace, Perform(os, second).exit)
    decreases |first|
  {
    if |first| == 0 {
      assert first + second == second;
    } else {
      var tail := Perform(os, second);
      AllDoneTail(os, first);
      PerformConsAppend(os, first, second);
      PerformAppend(os, first[1..], second);
      ConsConcat(first, tail.trace);
    }
  }

  /** A completed first action of `first + second` is followed by the
      run of the rest of the concatenation. */
  lemma PerformConsAppend(os: Os, first: seq<Action>, second: seq<Action>)
    requires |first| > 0 && Step(os, first[0]).Done?
    ensures Perform(os, first + second)
         == Run([first[0]] + Perform(os, first[1..] + second).trace, Perform(os, first[1..] + second).exit)
  {
    var s := first + second;
    assert s[0] == first[0];
    assert s[1..] == first[1..] + second;
    PerformCons(os, s);
  }

  /** Once the first `n` actions completed, the run continues with the
      run of the remainder. */
  lemma PerformPrefix(os: Os, script: seq<Action>, n: nat)
    requires n <= |script| && AllDone(os, script[..n])
    ensures Perform(os, script) == Run(script[..n] + Perform(os, script[n..]).trace, Perform(os, script[n..]).exit)
  {
    SplitAt(script, n);
    PerformAppend(os, script[..n], script[n..]);
  }

  lemma SplitAt<T>(s: seq<T>, n: nat)
    requires n <= |s|
    ensures s[..n] + s[n..] == s
  {
  }

  lemma TakeOneMore<T>(s: seq<T>, n: nat)
    requires n < |s|
    ensures s[n..][0] == s[n] && s[..n] + [s[n]] == s[..n + 1]
  {
  }

  /** A prefix agrees with the sequence it is taken from, index by index. */
  lemma PrefixIndex<T>(t: seq<T>, s: seq<T>)
    requires |t| <= |s| && s[..|t|] == t
    ensures forall j :: 0 <= j < |t| ==> t[j] == s[j]
  {
  }

  lemma ConsConcat<T>(x: seq<T>, t: seq<T>)
    requires |x| > 0
    ensures [x[0]] + (x[1..] + t) == x + t
  {
    assert x == [x[0]] + x[1..];
  }

  /** A completed trace completes its first action and its remainder. */
  lemma AllDoneTail(os: Os, t: seq<Action>)
    requires |t| > 0 && AllDone(os, t)
    ensures Step(os, t[0]).Done? && AllDone(os, t[1..])
  {
    forall j | 0 <= j < |t| - 1 ensures Step(os, t[1..][j]).Done? {
      assert t[1..][j] == t[j + 1];
    }
  }
}
