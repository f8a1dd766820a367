# linc, modelled in Dafny

`linc` is a Rust library for Linux process-injection experiments. It
delivers a payload in one of two ways: a loadable ELF executable, or raw
shellcode. The payload either goes to a freshly spawned process
(`memfd`, `procfs_overwrite_rip`, `ptrace_overwrite_rip`) or to a process
that is already running (`hollow`). This project models the library's
pure, sequential logic, which covers six parts:

- **The payload record** (`Payloads`).
  - Classification by the ELF magic number.
  - The two delivery shapes `Spawn` and `Inject`, kept apart by a type
    parameter as in the source.
  - The constructors, with the file read passed in as a value.
  - The chainable setters and their `Result` extension.
- **The process-map reader** (`Procfs`), a pure function from the lines
  of a `/proc/<pid>/maps` listing to the list of region addresses. The
  model spells out how lines are selected, the fixed 12-character address
  columns, base-16 parsing with `u64` overflow (`Hex`), and all-or-nothing
  failure.
- **The trace-based writer** (`Ptrace`). It builds an ordered trace of
  the calls it makes: attach or wait, read the registers, one poke per
  byte at rip + k, detach. Any call may fail in the mocked environment,
  and the first failure ends the run.
- **The techniques** (`InjectTechniques`, `SpawnTechniques`). Each is
  built from the same traces. A forking technique yields the parent's run
  and, when the fork succeeded, the child's run.
- **The error type** (`Errors`), with its conversions, its rendering and
  its `source()`.
- **The argv and environment builders** (`Utils`, `LibinjectUtils`).

The operating system is an `Effects.Os` value, a record of oracles. It
says:

- which call fails, and with which errno;
- which helper whose body is not modelled fails;
- what `getregs` reports;
- what the maps listing holds;
- which pid `fork` returns;
- what `shellcode_to_exe` produces.

A call is an `Effects.Action`. `Effects.Perform` runs a straight-line
script of actions the way a chain of `?` does. How a process ends is an
`Effects.Exit`: it returned a result, it panicked, or a successful exec
replaced it.

Panics follow these rules:

- Slicing a buffer shorter than four bytes during classification is a
  precondition.
- So is slicing a selected maps line that is too short for the requested
  column (`Procfs.NoPanic`).
- Unwrapping a C string with an interior NUL in the argv and environment
  builders is also a precondition.
- Indexing an empty region list in `procfs_overwrite_rip` is the
  `Panicked` exit. So is a maps listing that would panic there.
- The helpers whose bodies are not modelled (`str_to_vec_c_string`,
  `get_env`, `mem_write`, `mem_exec`) and `shellcode_to_exe` are taken
  never to panic: they either complete or return an error. No other
  action panics, so every "never panics" statement below rests on this.

The model follows the code in four places where one might expect
something else:

- Address columns are 12 characters, not 16.
- The refusal of executables is the error `NotImplemented`.
- The spawn techniques refuse an executable only in the parent, after
  the fork, so the child still executes the target.
- A failed write in the trace-based writer returns at once and skips the
  detach.

src/techniques/spawn.rs imports (:16) and calls (:89) `find_mem_region`, but
src/primitives/procfs.rs:7 defines only `find_memory_region`. The model
takes the call to be that function with the same arguments
(`Effects.RegionOutcome`).

The enum in src/error.rs lacks the `ParseInt` and `Linux` variants that
src/primitives/procfs.rs:29 and src/techniques/spawn.rs:68 construct.
`Errors.Error` has both. A fork failure is wrapped explicitly as `Linux`,
and every other nix errno is converted by `?` into `LinuxError`.

## Model

| member | source | states |
|---|---|---|
| Payloads.Classify | src/payload.rs:100-103 | The kind is `Executable` exactly when the first four bytes are 0x7F, 'E', 'L', 'F', and `Shellcode` otherwise. A buffer shorter than four bytes is excluded because the slice panics on it. |
| Payloads.SpawnFromBytes | src/payload.rs:99-115 | Always `Ok`. It keeps the bytes verbatim, classifies them, and sets name, args, target and target args to empty. |
| Payloads.SpawnFromFile | src/payload.rs:137-156 | A read error becomes `IO` with the same error. On success the bytes and kind are as read. The name is a '/'-free suffix of the path, either preceded by '/' or equal to the whole path. The other fields are empty. |
| Payloads.FromFileName | src/payload.rs:150 | For a path "dir/name" whose name holds no '/', the payload's name is exactly that name. |
| Payloads.InjectFromBytes | src/payload.rs:220-233 | Always `Ok`. It stores the bytes and the pid unchanged and classifies the bytes. |
| Payloads.InjectFromFile | src/payload.rs:253-269 | A read error becomes `IO`. Otherwise it stores the bytes as read and the pid unchanged. |
| Payloads.SetArgs | src/payload.rs:365-368 | Args become name + " " + argument. Kind, bytes, name, target and target args are unchanged. |
| Payloads.SetTarget | src/payload.rs:371-374 | Target becomes the argument, and no other field changes. |
| Payloads.SetTargetArgs | src/payload.rs:377-380 | Target args become the current target + " " + argument, and no other field changes. |
| Payloads.TargetArgsDependOnCallOrder | src/payload.rs:371-380 | Setting the target first makes the target args start with the new target. Setting it second leaves them starting with the old one. |
| Payloads.SetArgsLastWins | src/payload.rs:365-368 | A second `set_args` discards the first one entirely. |
| Payloads.SetArgsResult | src/payload.rs:410-412 | An `Err` passes through unchanged, and an `Ok` gets the plain setter. |
| Payloads.SetTargetResult | src/payload.rs:414-416 | An `Err` passes through unchanged, and an `Ok` gets the plain setter. |
| Payloads.SetTargetArgsResult | src/payload.rs:418-420 | An `Err` passes through unchanged, and an `Ok` gets the plain setter. |
| Payloads.ErrorSurvivesChain | src/payload.rs:409-421 | A constructor error survives any chain of the three extension setters. |
| Payloads.BuilderChain | src/payload.rs:99-115 | `from_bytes(b).set_target(t).set_target_args(a)` is `Ok`, with bytes b and target t. Its target args are t + " " + a, and name and args stay empty. |
| Text.Words | src/primitives/procfs.rs:15 | `split_whitespace`: every token is non-empty and holds no whitespace. |
| Text.WordsSplit | src/primitives/procfs.rs:15 | Any whitespace character, not only a space, separates tokens: the tokens of a, one whitespace character, then b are the tokens of a followed by those of b. |
| Text.WordsOfWord | src/utils.rs:25 | A whitespace-free non-empty text is one token, itself. |
| Procfs.Select | src/primitives/procfs.rs:14-18 | Keeps exactly the lines whose second whitespace-separated field contains the permissions, never more lines than given. |
| Procfs.SelectMembership | src/primitives/procfs.rs:14-18 | A line is kept if and only if it is in the listing and its permission field matches. |
| Procfs.SelectAppend | src/primitives/procfs.rs:14-18 | Selection keeps listing order across any split of the listing. |
| Procfs.Field | src/primitives/procfs.rs:22-26 | The column sliced out is 12 characters long. Its i-th character is the line's i-th for start addresses and the line's (13 + i)-th for end addresses. |
| Procfs.RegionColumns | src/primitives/procfs.rs:20-30 | The k-th address found is the base-16 value of the k-th kept line's characters [0,12) for start addresses, or [13,25) for end addresses. |
| Procfs.Addresses | src/primitives/procfs.rs:20-30 | One address per kept line, in order. The k-th is the parse of the k-th kept line's column. |
| Procfs.FindMemoryRegion | src/primitives/procfs.rs:7-33 | `Ok` exactly when every kept line parses. Its value is then the addresses of the kept lines in listing order. Any parse failure is a `ParseInt` error with no partial list. A kept line too short to slice is excluded (it panics). |
| Procfs.FirstBadLineReported | src/primitives/procfs.rs:20-30 | When the k-th kept line is the first whose column fails to parse, the result is that line's parse error as `ParseInt`, and no later line is sliced, so nothing panics. |
| Procfs.NoMatchIsEmpty | src/primitives/procfs.rs:20-32 | When no line matches there is no panic, and the answer is `Ok` of the empty list. |
| Procfs.ShortLineIgnored | src/primitives/procfs.rs:15-17 | A line with fewer than two fields is skipped silently, and the answer is that of the rest. |
| Procfs.StartAndEndAgree | src/primitives/procfs.rs:14-18 | Successful start and end queries on the same listing return lists of equal length. |
| Procfs.AddressesBound | src/primitives/procfs.rs:23-27 | Every address returned is below 16^12. |
| Procfs.LongLinesNoPanic | src/primitives/procfs.rs:22-26 | A listing whose kept lines are all long enough never panics. |
| Hex.FromStrRadix16 | src/primitives/procfs.rs:27 | `u64::from_str_radix(s, 16)`. The error is `Empty` exactly for the empty string. The call is `Ok` exactly when the text after an optional '+' is hex digits whose value fits in 64 bits, and that value is the result. |
| Ptrace.Pokes | src/primitives/ptrace.rs:19-24 | One write per byte. The k-th writes bytes[k] at (rip + k) mod 2^64. |
| Ptrace.NextAddr | src/primitives/ptrace.rs:23 | `addr += 1` on a `u64`: the next address, wrapping from 2^64 - 1 to 0. |
| Ptrace.WriteRipIsPerform | src/primitives/ptrace.rs:9-29 | The writer is the `?`-chain over its call script: it stops at the first failing call, and nothing after that call runs. |
| Ptrace.NextAddrShift | src/primitives/ptrace.rs:23 | Advancing the cursor once and then k - 1 more times equals advancing it k times, wrap-around included. |
| Ptrace.ScriptShape | src/primitives/ptrace.rs:9-29 | The full call sequence is: wait (forked) or attach then wait (not forked), `getregs`, the writes in byte order, detach. There is no write or detach before the writes and nothing but trace calls. |
| Ptrace.PtraceWriteRip | src/primitives/ptrace.rs:9-29 | The first call is wait or attach according to `is_forked`, then come wait and `getregs`. Every call before the last succeeded. The k-th write is bytes[k] at (rip + k) mod 2^64. Writes and detach occur only at their places. `Ok` comes exactly when every call, detach included, succeeded. An error is the failed call's errno as `LinuxError`. |
| Ptrace.WriteRipOutcome | src/primitives/ptrace.rs:9-29 | The writer always returns. It is `Ok` exactly when all header + len + 1 calls succeeded, the last being the detach. Otherwise it is the failing call's errno as `LinuxError`. |
| Ptrace.PrefixShape | src/primitives/ptrace.rs:9-29 | Any prefix of the call sequence, such as a run cut short by a failure, has the same shape position by position. |
| Ptrace.FailedWriteStops | src/primitives/ptrace.rs:21-26 | When every call before the k-th write succeeded and that write fails, the run is exactly the script up to and including that write. It ends with the write's errno as `LinuxError`, with no later write and no detach. |
| Ptrace.EmptyPayloadOnlyDetaches | src/primitives/ptrace.rs:21-28 | With no bytes and nothing failing, the run is the synchronisation, `getregs` and detach, ending in `Ok(())`. |
| Ptrace.NoWrapAddresses | src/primitives/ptrace.rs:19-23 | When rip + len does not pass 2^64, the k-th address is exactly rip + k. |
| Ptrace.NixFailure | src/primitives/ptrace.rs:11-26 | A run of trace calls that fails does so with the errno of its last call, converted to `LinuxError`. |
| InjectTechniques.Hollow | src/techniques/inject.rs:28-40 | An executable gives `NotImplemented("hollow can not take executables")` with no call made. Shellcode takes the attach path (attach, then wait) and returns `Ok` exactly when all 4 + len calls succeed. |
| InjectTechniques.HollowDelegates | src/techniques/inject.rs:35-39 | Shellcode is exactly one writer run on the payload's pid and bytes with `is_forked` false. Its error is returned unchanged, and its success gives `Ok(())`. |
| InjectTechniques.ExecutableRefusedEverywhere | src/techniques/inject.rs:29-34 | The refusal of an executable does not depend on the environment. |
| InjectTechniques.HollowFailureIsLinuxError | src/techniques/inject.rs:36 | A failing shellcode injection reports the failed trace call's errno as `LinuxError`. |
| InjectTechniques.HollowWritesAtRip | src/techniques/inject.rs:36 | The k-th shellcode byte is written at the victim's (rip + k) mod 2^64. |
| SpawnTechniques.Image | src/techniques/spawn.rs:50-53 | The file image is the bytes verbatim for an executable and `shellcode_to_exe(bytes)` for shellcode. |
| SpawnTechniques.Memfd | src/techniques/spawn.rs:44-72 | The parent is the `?`-chain over: empty name, `memfd_create`, write of the image, argv, env, fork. Every call before the last succeeded, and an error is the last call's error. The parent never waits. It is `Ok` exactly when all of them succeed, and then, and only then, a child exists. A failing fork is `Linux`. The child is one `fexecve` that replaces it, or returns its errno as `LinuxError`. |
| SpawnTechniques.MemfdForkFailure | src/techniques/spawn.rs:63-68 | After every earlier step succeeded, a failing fork ends the parent with `Linux(errno)`, and there is no child. |
| SpawnTechniques.ForkRun | src/techniques/spawn.rs:75-115 | The fork alone succeeds exactly when it reports no errno, and fails as `Linux(errno)`. |
| SpawnTechniques.ProcfsOverwriteRip | src/techniques/spawn.rs:74-118 | A child exists exactly when the fork succeeds, and a fork failure is `Linux`. An executable is refused after the fork. Shellcode runs the `?`-chain over fork, SIGSTOP, region lookup, write, redirect, SIGCONT: it stops at the first failing call and returns that call's error. The child is the `?`-chain over target C string, argv, env, execve. It is replaced exactly when all of it succeeds, and otherwise returns the error of the call that failed. |
| SpawnTechniques.ProcfsParentIsScript | src/techniques/spawn.rs:84-98 | With shellcode and a successful fork, the parent is the `?`-chain over fork, SIGSTOP, lookup, write, redirect, SIGCONT. |
| SpawnTechniques.ProcfsWritesAtRegionStart | src/techniques/spawn.rs:84-95 | Once the child is stopped and the "r-x" start-address lookup yields a non-empty list, the bytes are written at element 0 of that list. When the write succeeds, execution is redirected to the same address. |
| SpawnTechniques.ProcfsWriteNeedsRegion | src/techniques/spawn.rs:86-92 | When the region lookup does not complete (read error, parse error, panic, or an empty list), the parent stops right after it, without `Ok` and without any memory write. |
| SpawnTechniques.EmptyRegionPanics | src/techniques/spawn.rs:89 | An empty region list panics right after the lookup: the trace is fork, SIGSTOP, lookup, so the child is stopped and nothing is written. |
| SpawnTechniques.PtraceOverwriteRip | src/techniques/spawn.rs:149-180 | A child exists exactly when the fork succeeds, and a fork failure is `Linux`. An executable is refused after the fork. With shellcode the parent is the fork followed by the writer's run on the child, so its second call is a wait, not an attach. The child is the `?`-chain over traceme and then the target's C string, argv, env and execve. It is replaced exactly when all of it succeeds, and otherwise returns the error of the call that failed. |
| SpawnTechniques.ExecChild | src/techniques/spawn.rs:101-111 | A child that is not replaced by its exec returned the error of its last call, the one that failed. It never panics, given that the unmodelled helpers never panic. |
| SpawnTechniques.RejectionAfterFork | src/techniques/spawn.rs:74-180 | When an executable is refused by either overwrite technique, the fork has already happened. The child exists and starts its own sequence (target C string, or traceme). |
| SpawnTechniques.PtraceParentDelegates | src/techniques/spawn.rs:157-158 | With shellcode the parent is the fork followed by exactly one writer run on the child with `is_forked` true. The technique's result is the writer's. |
| SpawnTechniques.TraceMeFirst | src/techniques/spawn.rs:162-163 | The child asks to be traced first. If that fails it stops there with `LinuxError` and never executes the target. |
| Errors.FromIo | src/error.rs:53-57 | The result is an `IO` error whose `source()` is the I/O error and whose rendering is that error's. |
| Errors.FromErrno | src/error.rs:59-63 | The result is a `LinuxError` whose `source()` is the errno and whose rendering is the errno's name, ": ", and its description. |
| Errors.FromNul | src/error.rs:65-69 | The result is a `NulError` whose `source()` is the NUL error and whose rendering is that error's message. |
| Errors.FromFromVecWithNul | src/error.rs:71-75 | The result is a `FromVecWithNulError` whose `source()` is the wrapped error and whose rendering is that error's message. |
| Errors.FromUreq | src/error.rs:46-51 | The result is an `HttpError` whose `source()` is the HTTP error and whose rendering is that error's. |
| Errors.Display | src/error.rs:18-30 | `NotImplemented(s)` renders as "not implemented: " + s. `IO`, `NulError` and `FromVecWithNulError` render as the error they wrap. `LinuxError` renders as name, ": ", description. |
| Errors.NotImplementedDisplayRoundTrip | src/error.rs:25 | The message of `NotImplemented` can be recovered from its rendering after the fixed prefix. |
| Errors.Source | src/error.rs:32-44 | `None` exactly for `NotImplemented`. Otherwise, for every variant, it is the wrapped error. |
| CStrings.CStringNew | src/techniques/spawn.rs:103 | `CString::new` succeeds exactly when there is no NUL. Otherwise it reports the first NUL's position. |
| CStrings.FromVecWithNul | libinject/src/utils.rs:30 | `CString::from_vec_with_nul` succeeds exactly when the buffer's only NUL is its last element, and the stored buffer is then the input. |
| CStrings.FromVecWithNulRoundTrip | libinject/src/utils.rs:28-30 | The stored buffer of any C string is accepted back as the same C string. |
| Utils.ParseArgsForFexecve | src/utils.rs:22-31 | The length is 1 + the token count. The first element is the binary. The rest are the whitespace-separated tokens of args in order, none empty or holding whitespace. An interior NUL (a panic) is excluded. |
| Utils.ArgsKeepEveryCharacter | src/utils.rs:24-28 | The texts after the binary, concatenated, are args with its whitespace removed: nothing is lost or reordered. |
| Utils.BlankArgsGiveBinaryOnly | src/utils.rs:24-30 | Args made only of whitespace give just the binary. |
| Utils.JoinedTokensRoundTrip | src/utils.rs:24-30 | Tokens joined by single spaces come back as exactly those tokens after the binary. |
| Utils.GetEnvVars | src/utils.rs:14-20 | One entry per pair in iteration order, each key + "=" + value. An interior NUL (a panic) is excluded. |
| Utils.EnvEntryRoundTrip | src/utils.rs:17 | For a key without '=', the first '=' of the entry sits right after the key. Key and value are the text before and after it. |
| Utils.NulInPairFails | src/utils.rs:17 | A NUL in key or value makes `CString::new` on the entry fail: the panic the precondition excludes. |
| LibinjectUtils.ParseArgsForFexecve | libinject/src/utils.rs:33-42 | The binary first, then the whitespace tokens of args in order. The length is 1 + the token count. |
| LibinjectUtils.OsStringToCString | libinject/src/utils.rs:26-31 | Appends exactly one trailing NUL. The stored buffer is the input plus that NUL, and the content is the input. |
| LibinjectUtils.InteriorNulRejected | libinject/src/utils.rs:28-30 | An input that already holds a NUL is rejected as having an interior NUL, which is the panic the precondition excludes. |
| LibinjectUtils.GetEnv | libinject/src/utils.rs:14-24 | One entry per pair in iteration order, each key + "=" + value stored with one terminating NUL. |
| LibinjectUtils.EnvBuildersAgree | libinject/src/utils.rs:14-24 | Both crates' environment builders give the same vector for the same pairs. |
| Effects.Perform | src/techniques/spawn.rs:45-60 | Models straight-line `?` code. The calls made are a prefix of the script, and every call but the last succeeded. The result is `Ok(())` exactly when the whole script succeeded. An error is the failing call's error, and a panic comes from a call that panics. |
| Effects.PerformAppend | src/techniques/spawn.rs:84-98 | Running a fully successful first part and then the rest is the same as running their concatenation. |
| Effects.PerformExec | src/techniques/spawn.rs:102-111 | A script ending in an exec replaces the process exactly when every call succeeds. Otherwise it returns the first error. |
| Effects.RegionOutcome | src/techniques/spawn.rs:89 | `find_mem_region(..)?[0]`: a read failure is `IO`, and a parse failure is `ParseInt`. It completes only when the listing does not panic and yields a non-empty list. |
| Effects.RegionOutcomeOfListing | src/techniques/spawn.rs:89 | On a readable listing the lookup completes exactly when the listing does not panic and yields a non-empty list. A parse failure is the very error `find_memory_region` returns. An empty list, or a listing that panics, is a panic. |
| Effects.RegionAddress | src/techniques/spawn.rs:89 | When the lookup completes, the address used is element 0 of the list found. |
| Effects.NixStep | src/primitives/ptrace.rs:11-26 | A nix call completes exactly when no errno is reported. Otherwise it fails with that errno as `LinuxError`, and it never panics. |
| Effects.ForkStep | src/techniques/spawn.rs:63-68 | A fork completes exactly when no errno is reported. Otherwise it fails with that errno as `Linux`. |

## Left out

- `from_url` (both shapes) and the `HttpError` source: network I/O. The conversion itself is modelled.
- `fs::read` in `from_file` and the read of `/proc/<pid>/maps`: the outcome is a parameter (`read`, and `Os.maps` as a list of lines). The splitting of the text into lines by `lines()` (including its treatment of "\r\n") is not modelled.
- The kernel side of every call (`fork`, `execve`, `fexecve`, `memfd_create`, the trace calls, `kill`, `waitpid`): each is an action whose success or errno comes from the environment. What happens inside the victim is not modelled, including that a trace write stores a whole word rather than one byte.
- `mem_write`, `mem_exec`, `str_to_vec_c_string` and `get_env` as called by the techniques: their bodies are not part of this model. Each is an action whose failure, if any, comes from the environment as an error. They are taken never to panic, although their visible siblings in src/utils.rs:14-31 panic through `unwrap()` on an interior NUL. So the no-panic clauses of `SpawnTechniques.MemfdParent`, `SpawnTechniques.ExecChild` and `Effects.NoRegionNoPanic` hold only under that assumption.
- `shellcode_to_exe`: an external library, modelled as an uninterpreted function in the environment. It is taken to be total and never to panic.
- Partial writes by `unistd::write`: a write either completes or fails.
- Ptrace.NextAddr: `addr += 1` panics on overflow in a debug build. The model takes the release-build wrap-around mod 2^64.
- Strings are sequences of characters, and column slicing and NUL checks are done by character. Byte-level UTF-8 boundaries (a slice inside a multi-byte character panics) are not modelled.
- `env::vars()` and `env::vars_os()`: the pairs are a parameter. Iteration order is whatever that sequence gives. Non-UTF-8 variables, which make `env::vars()` panic, are not modelled.
- The getters are the datatype's fields.
- The CLI (`inject/`), the examples, `src/techniques.rs` and `libinject/src/core.rs`. They are argument parsing, demos, and an older copy of the same protocol, written against a `Payload` that no longer exists.
- tests/payload_tests.rs:14,23 call an older two-argument `from_file`/`from_bytes`. The 3-byte buffer of line 22 would panic in the current classification.
- Errors.Display: `HttpError` and `ParseInt` are rendered through the wrapped error's own text. The `Debug` formatting of library errors is an opaque string. The `Linux` variant has no arm in src/error.rs. Its rendering (like `LinuxError`) is a choice of this model, not something the source promises.
- Errors.Source: the `Linux` variant has no arm in src/error.rs. Giving it the errno as its source, like `LinuxError`, is a choice of this model.
