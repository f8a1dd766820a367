/** The injection technique of src/techniques/inject.rs: `hollow` takes a
    shellcode payload into a running process through the trace-based
    writer; an executable payload is refused before any call is made. */
module InjectTechniques {
  import opened Base
  import opened Errors
  import opened Effects
  import opened Payloads
  import Ptrace

  const HOLLOW_REJECTS: string := "hollow can not take executables"

  /** `hollow(payload)`. */
  function Hollow(os: Os, p: Payload<Inject>): (r: Run)
    ensures r.exit.Returned?
    ensures p.payloadType == Executable <==> r.trace == []
    ensures p.payloadType == Executable ==> r.exit.result == Err(NotImplemented(HOLLOW_REJECTS))
    ensures p.payloadType == Shellcode ==>
              r.trace[0] == Attach(p.state.pid) && (|r.trace| > 1 ==> r.trace[1] == WaitPid(p.state.pid))
    ensures p.payloadType == Shellcode ==>
              (r.exit.IsOk() <==> |r.trace| == 4 + |p.bytes| && AllDone(os, r.trace))
  {
    match p.payloadType
    case Executable => Run([], Returned(Err(NotImplemented(HOLLOW_REJECTS))))
    case Shellcode => Ptrace.PtraceWriteRip(os, p.state.pid, p.bytes, false)
  }

  /** A shellcode payload is one call of the writer on the payload's pid
      and bytes, taking the attach path; its error comes back unchanged,
      and its success is `Ok(())`. */
  lemma HollowDelegates(os: Os, p: Payload<Inject>)
    requires p.payloadType == Shellcode
    ensures var w := Ptrace.PtraceWriteRip(os, p.state.pid, p.bytes, false);
            && Hollow(os, p).trace == w.trace
            && (w.exit.result.Err? ==> Hollow(os, p).exit.result == w.exit.result)
            && (w.exit.IsOk() ==> Hollow(os, p).exit == Returned(Ok(())))
  {
  }

  /** The only error an executable payload can produce is the refusal, and
      the environment plays no part in it. */
  lemma ExecutableRefusedEverywhere(os1: Os, os2: Os, p: Payload<Inject>)
    requires p.payloadType == Executable
    ensures Hollow(os1, p) == Hollow(os2, p)
    ensures Hollow(os1, p).exit == Returned(Err(NotImplemented(HOLLOW_REJECTS)))
  {
  }

  /** A failure of the writer reaches the caller as the errno of the
      trace call that failed. */
  lemma HollowFailureIsLinuxError(os: Os, p: Payload<Inject>)
    requires p.payloadType == Shellcode
    requires Hollow(os, p).exit.result.Err?
    ensures var r := Hollow(os, p);
            var last := r.trace[|r.trace| - 1];
            os.errno(last).Some? && r.exit.result.error == LinuxError(os.errno(last).value)
  {
  }

  /** The k-th byte of a shellcode payload is written to rip + k. */
  lemma HollowWritesAtRip(os: Os, p: Payload<Inject>, k: nat)
    requires p.payloadType == Shellcode
    requires k < |p.bytes| && 3 + k < |Hollow(os, p).trace|
    ensures Hollow(os, p).trace[3 + k] == PokeData(p.state.pid, Ptrace.PokeAddr(os.rip(p.state.pid), k), p.bytes[k])
  {
  }
}
