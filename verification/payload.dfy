/** The payload model (src/payload.rs): a byte buffer, its kind, and one of
    two delivery shapes. As in the source, the shape is a type parameter:
    `Payload<Spawn>` carries the name/args/target configuration of a new
    process, `Payload<Inject>` the pid of an existing one, and neither can
    reach the other's fields. */
module Payloads {
  import opened Base
  import opened Text
  import opened Errors
  import Foreign

  /** Whether the buffer is a loadable ELF image or raw machine code. */
  datatype PayloadType = Executable | Shellcode

  /** The ELF magic number: 0x7F followed by 'E', 'L', 'F'. */
  const ELF_MAGIC: seq<Byte> := [0x7F, 0x45, 0x4C, 0x46]

  /** Configuration of a payload that spawns a new process. */
  datatype Spawn = Spawn(name: string, args: string, target: string, targetArgs: string)

  /** Configuration of a payload injected into a running process. */
  datatype Inject = Inject(pid: I32)

  /** `Payload<S>`; the getters `payload_type()`, `bytes()`, `name()`,
      `args()`, `target()`, `target_args()` and `pid()` are the fields. */
  datatype Payload<S> = Payload(payloadType: PayloadType, bytes: seq<Byte>, state: S)

  /** The classification every constructor applies. Slicing `bytes[..4]`
      panics on a shorter buffer, hence the precondition. */
  function Classify(bytes: seq<Byte>): (t: PayloadType)
    requires |bytes| >= 4
    ensures t == Executable <==> bytes[0] == 0x7F && bytes[1] == 'E' as int && bytes[2] == 'L' as int && bytes[3] == 'F' as int
  {
    if bytes[..4] == ELF_MAGIC then Executable else Shellcode
  }

  /** The spawn configuration every constructor starts from, with the given name. */
  function Unconfigured(name: string): Spawn {
    Spawn(name, "", "", "")
  }

  /** `Payload::<Spawn>::from_bytes`: infallible; keeps the bytes verbatim
      and leaves every string field empty. */
  function SpawnFromBytes(bytes: seq<Byte>): (r: Result<Payload<Spawn>, Error>)
    requires |bytes| >= 4
    ensures r.Ok?
    ensures r.value.bytes == bytes
    ensures r.value.payloadType == Classify(bytes)
    ensures r.value.state.name == "" && r.value.state.args == ""
    ensures r.value.state.target == "" && r.value.state.targetArgs == ""
  {
    Ok(Payload(Classify(bytes), bytes, Unconfigured("")))
  }

  /** `Payload::<Spawn>::from_file`, with the outcome of `fs::read(path)`
      passed in as `read`. The name is the last '/'-separated segment of
      the path. A file shorter than four bytes panics. */
  function SpawnFromFile(path: string, read: Result<seq<Byte>, Foreign.IoError>): (r: Result<Payload<Spawn>, Error>)
    requires read.Ok? ==> |read.value| >= 4
    ensures read.Err? ==> r == Err(IO(read.error))
    ensures read.Ok? ==> r.Ok? && r.value.bytes == read.value
                         && r.value.payloadType == Classify(read.value)
    ensures r.Ok? ==> '/' !in r.value.state.name && |r.value.state.name| <= |path|
                      && path == path[..|path| - |r.value.state.name|] + r.value.state.name
                      && (|r.value.state.name| < |path| ==> path[|path| - |r.value.state.name| - 1] == '/')
    ensures r.Ok? ==> r.value.state.args == "" && r.value.state.target == "" && r.value.state.targetArgs == ""
  {
    match read
    case Err(e) => Err(FromIo(e))
    case Ok(bytes) => Ok(Payload(Classify(bytes), bytes, Unconfigured(LastSegment(path))))
  }

  /** `Payload::<Inject>::from_bytes`: stores the pid unchanged. */
  function InjectFromBytes(bytes: seq<Byte>, pid: I32): (r: Result<Payload<Inject>, Error>)
    requires |bytes| >= 4
    ensures r.Ok? && r.value.bytes == bytes && r.value.state.pid == pid
    ensures r.value.payloadType == Classify(bytes)
  {
    Ok(Payload(Classify(bytes), bytes, Inject(pid)))
  }

  /** `Payload::<Inject>::from_file`, with the outcome of `fs::read(path)`
      passed in as `read`. */
  function InjectFromFile(path: string, read: Result<seq<Byte>, Foreign.IoError>, pid: I32): (r: Result<Payload<Inject>, Error>)
    requires read.Ok? ==> |read.value| >= 4
    ensures read.Err? ==> r == Err(IO(read.error))
    ensures read.Ok? ==> r.Ok? && r.value.bytes == read.value && r.value.state.pid == pid
                         && r.value.payloadType == Classify(read.value)
  {
    match read
    case Err(e) => Err(FromIo(e))
    case Ok(bytes) => Ok(Payload(Classify(bytes), bytes, Inject(pid)))
  }

  /** `set_args`: the argument string becomes the name, a space, and the
      given arguments, so the name is the first word of the argument vector. */
  function SetArgs(p: Payload<Spawn>, args: string): (r: Payload<Spawn>)
    ensures r.state.args == p.state.name + " " + args
    ensures r.payloadType == p.payloadType && r.bytes == p.bytes
    ensures r.state.name == p.state.name && r.state.target == p.state.target
    ensures r.state.targetArgs == p.state.targetArgs
  {
    p.(state := p.state.(args := p.state.name + " " + args))
  }

  /** `set_target`: replaces the target and nothing else. */
  function SetTarget(p: Payload<Spawn>, target: string): (r: Payload<Spawn>)
    ensures r.state.target == target
    ensures r.payloadType == p.payloadType && r.bytes == p.bytes
    ensures r.state.name == p.state.name && r.state.args == p.state.args
    ensures r.state.targetArgs == p.state.targetArgs
  {
    p.(state := p.state.(target := target))
  }

  /** `set_target_args`: the target arguments become the CURRENT target, a
      space, and the given arguments. */
  function SetTargetArgs(p: Payload<Spawn>, targetArgs: string): (r: Payload<Spawn>)
    ensures r.state.targetArgs == p.state.target + " " + targetArgs
    ensures r.payloadType == p.payloadType && r.bytes == p.bytes
    ensures r.state.name == p.state.name && r.state.args == p.state.args
    ensures r.state.target == p.state.target
  {
    p.(state := p.state.(targetArgs := p.state.target + " " + targetArgs))
  }

  /** `PayloadResultExt::set_args`: an error passes through untouched. */
  function SetArgsResult(r: Result<Payload<Spawn>, Error>, args: string): (r': Result<Payload<Spawn>, Error>)
    ensures r.Err? ==> r' == r
    ensures r.Ok? ==> r' == Ok(SetArgs(r.value, args))
  {
    match r
    case Err(e) => Err(e)
    case Ok(p) => Ok(SetArgs(p, args))
  }

  /** `PayloadResultExt::set_target`: an error passes through untouched. */
  function SetTargetResult(r: Result<Payload<Spawn>, Error>, target: string): (r': Result<Payload<Spawn>, Error>)
    ensures r.Err? ==> r' == r
    ensures r.Ok? ==> r' == Ok(SetTarget(r.value, target))
  {
    match r
    case Err(e) => Err(e)
    case Ok(p) => Ok(SetTarget(p, target))
  }

  /** `PayloadResultExt::set_target_args`: an error passes through untouched. */
  function SetTargetArgsResult(r: Result<Payload<Spawn>, Error>, targetArgs: string): (r': Result<Payload<Spawn>, Error>)
    ensures r.Err? ==> r' == r
    ensures r.Ok? ==> r' == Ok(SetTargetArgs(r.value, targetArgs))
  {
    match r
    case Err(e) => Err(e)
    case Ok(p) => Ok(SetTargetArgs(p, targetArgs))
  }

  /** The target arguments depend on the order of the two target setters:
      set after the target they start with it, set before they start with
      whatever target was there already. */
  lemma TargetArgsDependOnCallOrder(p: Payload<Spawn>, target: string, targetArgs: string)
    ensures SetTargetArgs(SetTarget(p, target), targetArgs).state.targetArgs == target + " " + targetArgs
    ensures SetTarget(SetTargetArgs(p, targetArgs), target).state.targetArgs == p.state.target + " " + targetArgs
    ensures SetTarget(SetTargetArgs(p, targetArgs), target).state.target
         == SetTargetArgs(SetTarget(p, target), targetArgs).state.target
  {
  }

  /** Calling `set_args` again discards the earlier arguments. */
  lemma SetArgsLastWins(p: Payload<Spawn>, first: string, second: string)
    ensures SetArgs(SetArgs(p, first), second) == SetArgs(p, second)
  {
  }

  /** The builder chain of the ptrace technique's documentation, from raw
      bytes: target and target arguments as configured, the kind and the
      bytes as constructed. */
  lemma BuilderChain(bytes: seq<Byte>, target: string, targetArgs: string)
    requires |bytes| >= 4
    ensures var r := SetTargetArgsResult(SetTargetResult(SpawnFromBytes(bytes), target), targetArgs);
            r.Ok? && r.value.bytes == bytes && r.value.payloadType == Classify(bytes)
            && r.value.state == Spawn("", "", target, target + " " + targetArgs)
  {
  }

  /** An error from the constructor survives any chain of setters. */
  lemma ErrorSurvivesChain(e: Error, args: string, target: string, targetArgs: string)
    ensures SetTargetArgsResult(SetTargetResult(SetArgsResult(Err(e), args), target), targetArgs) == Err(e)
  {
  }

  /** `from_file` on a path "dir/name" names the payload "name". */
  lemma FromFileName(dir: string, name: string, bytes: seq<Byte>)
    requires '/' !in name && |bytes| >= 4
    ensures SpawnFromFile(dir + "/" + name, Ok(bytes)).value.state.name == name
  {
    LastSegmentOfPath(dir, name);
  }
}
