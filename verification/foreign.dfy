/** Error values produced by libraries the crate calls (std, nix, ureq).
    Those whose rendering the model can compute carry their data; those
    whose rendering is produced by code outside the model carry it as an
    opaque string. */
module Foreign {
  import opened Text

  /** `std::io::Error`; `debug` is its `{:?}` rendering. */
  datatype IoError = IoError(debug: string)

  /** `nix::errno::Errno`; `name` is its `{:?}` rendering (e.g. "EPERM"),
      `desc` the text of `Errno::desc`. */
  datatype Errno = Errno(name: string, desc: string)

  /** `ureq::Error` (crate feature "http"); `debug` is its `{:?}` rendering. */
  datatype UreqError = UreqError(debug: string)

  /** `std::ffi::NulError`: the position of the first NUL and the rejected bytes. */
  datatype NulError = NulError(position: nat, bytes: string)

  datatype FromVecWithNulErrorKind = InteriorNul(position: nat) | NotNulTerminated

  /** `std::ffi::FromVecWithNulError`. */
  datatype FromVecWithNulError = FromVecWithNulError(kind: FromVecWithNulErrorKind, bytes: string)

  /** The `IntErrorKind`s `u64::from_str_radix` can report. */
  datatype IntErrorKind = Empty | InvalidDigit | PosOverflow

  /** `std::num::ParseIntError`. */
  datatype ParseIntError = ParseIntError(kind: IntErrorKind)

  /** `Display` of `NulError`. */
  function NulErrorDisplay(e: NulError): string {
    "nul byte found in provided data at position: " + Decimal(e.position)
  }

  /** `Display` of `FromVecWithNulError`. */
  function FromVecWithNulErrorDisplay(e: FromVecWithNulError): string {
    match e.kind
    case InteriorNul(pos) => "data provided contains an interior nul byte at pos " + Decimal(pos)
    case NotNulTerminated => "data provided is not nul terminated"
  }

  /** `Display` of `ParseIntError`. */
  function ParseIntErrorDisplay(e: ParseIntError): string {
    match e.kind
    case Empty => "cannot parse integer from empty string"
    case InvalidDigit => "invalid digit found in string"
    case PosOverflow => "number too large to fit in target type"
  }
}
