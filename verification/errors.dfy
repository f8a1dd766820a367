/** The crate's unified error type (src/error.rs), its `From` conversions,
    its `Display` rendering and its `source()` chain.

    The enum in src/error.rs lacks two variants the rest of the crate
    constructs: `ParseInt` (src/primitives/procfs.rs:29) and `Linux`
    (src/techniques/spawn.rs:68,114,176). Both are added here. */
module Errors {
  import opened Base
  import Foreign

  datatype Error =
    | HttpError(http: Foreign.UreqError)
    | IO(io: Foreign.IoError)
    | LinuxError(errno: Foreign.Errno)
    | NotImplemented(message: string)
    | NulError(nul: Foreign.NulError)
    | FromVecWithNulError(fromVec: Foreign.FromVecWithNulError)
    | ParseInt(parse: Foreign.ParseIntError)
    | Linux(linux: Foreign.Errno)

  /** What `source()` hands back: the wrapped library error. */
  datatype Cause =
    | HttpCause(Foreign.UreqError)
    | IoCause(Foreign.IoError)
    | ErrnoCause(Foreign.Errno)
    | NulCause(Foreign.NulError)
    | FromVecWithNulCause(Foreign.FromVecWithNulError)
    | ParseIntCause(Foreign.ParseIntError)

  const NOT_IMPLEMENTED_PREFIX: string := "not implemented: "

  /** `From<ureq::Error>`: the HTTP error stays reachable as the source
      and gives the rendering. */
  function FromUreq(e: Foreign.UreqError): (r: Error)
    ensures r.HttpError?
    ensures Source(r) == Some(HttpCause(e))
    ensures Display(r) == e.debug
  {
    HttpError(e)
  }

  /** `From<io::Error>`: the I/O error stays reachable as the source and
      gives the rendering. */
  function FromIo(e: Foreign.IoError): (r: Error)
    ensures r.IO?
    ensures Source(r) == Some(IoCause(e))
    ensures Display(r) == e.debug
  {
    IO(e)
  }

  /** `From<nix::errno::Errno>`: the errno stays reachable as the source
      and renders as its name and description. */
  function FromErrno(e: Foreign.Errno): (r: Error)
    ensures r.LinuxError?
    ensures Source(r) == Some(ErrnoCause(e))
    ensures Display(r) == e.name + ": " + e.desc
  {
    LinuxError(e)
  }

  /** `From<ffi::NulError>`: the NUL error stays reachable as the source
      and gives the rendering. */
  function FromNul(e: Foreign.NulError): (r: Error)
    ensures r.NulError?
    ensures Source(r) == Some(NulCause(e))
    ensures Display(r) == Foreign.NulErrorDisplay(e)
  {
    NulError(e)
  }

  /** `From<ffi::FromVecWithNulError>`: the error stays reachable as the
      source and gives the rendering. */
  function FromFromVecWithNul(e: Foreign.FromVecWithNulError): (r: Error)
    ensures r.FromVecWithNulError?
    ensures Source(r) == Some(FromVecWithNulCause(e))
    ensures Display(r) == Foreign.FromVecWithNulErrorDisplay(e)
  {
    FromVecWithNulError(e)
  }

  /** `impl Display for Error`. `ParseInt` and `Linux` have no arm in the
      source; they are rendered like the library error they wrap and like
      `LinuxError` respectively. */
  function Display(e: Error): (r: string)
    ensures e.NotImplemented? ==> r == NOT_IMPLEMENTED_PREFIX + e.message
    ensures e.IO? ==> r == e.io.debug
    ensures e.NulError? ==> r == Foreign.NulErrorDisplay(e.nul)
    ensures e.FromVecWithNulError? ==> r == Foreign.FromVecWithNulErrorDisplay(e.fromVec)
    ensures e.LinuxError? ==> r == e.errno.name + ": " + e.errno.desc
  {
    match e
    case HttpError(err) => err.debug
    case IO(err) => err.debug
    case LinuxError(err) => err.name + ": " + err.desc
    case NotImplemented(s) => NOT_IMPLEMENTED_PREFIX + s
    case NulError(err) => Foreign.NulErrorDisplay(err)
    case FromVecWithNulError(err) => Foreign.FromVecWithNulErrorDisplay(err)
    case ParseInt(err) => Foreign.ParseIntErrorDisplay(err)
    case Linux(err) => err.name + ": " + err.desc
  }

  /** `impl error::Error for Error`: every variant but `NotImplemented`
      exposes the library error it wraps. */
  function Source(e: Error): (r: Option<Cause>)
    ensures r.None? <==> e.NotImplemented?
    ensures e.IO? ==> r == Some(IoCause(e.io))
    ensures e.LinuxError? ==> r == Some(ErrnoCause(e.errno))
    ensures e.NulError? ==> r == Some(NulCause(e.nul))
    ensures e.FromVecWithNulError? ==> r == Some(FromVecWithNulCause(e.fromVec))
    ensures e.HttpError? ==> r == Some(HttpCause(e.http))
    ensures e.ParseInt? ==> r == Some(ParseIntCause(e.parse))
    ensures e.Linux? ==> r == Some(ErrnoCause(e.linux))
  {
    match e
    case HttpError(err) => Some(HttpCause(err))
    case IO(err) => Some(IoCause(err))
    case LinuxError(err) => Some(ErrnoCause(err))
    case NotImplemented(_) => None
    case NulError(err) => Some(NulCause(err))
    case FromVecWithNulError(err) => Some(FromVecWithNulCause(err))
    case ParseInt(err) => Some(ParseIntCause(err))
    case Linux(err) => Some(ErrnoCause(err))
  }

  /** The message of a `NotImplemented` error is recoverable from its rendering. */
  lemma NotImplementedDisplayRoundTrip(s: string)
    ensures Display(NotImplemented(s))[..|NOT_IMPLEMENTED_PREFIX|] == NOT_IMPLEMENTED_PREFIX
    ensures Display(NotImplemented(s))[|NOT_IMPLEMENTED_PREFIX|..] == s
  {
  }
}
