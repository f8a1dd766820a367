/** Machine-level value types and the failure-compatible wrappers shared by
    every other module of the model. */
module Base {

  /** One octet of a payload buffer (Rust `u8`). */
  type Byte = x: int | 0 <= x < 0x100

  const TWO_64: nat := 0x1_0000_0000_0000_0000

  /** Rust `u64`, the width of an address and of a register. */
  type U64 = x: int | 0 <= x < 0x1_0000_0000_0000_0000

  /** Rust `i32`, the raw representation of a process id. */
  type I32 = x: int | -0x8000_0000 <= x < 0x8000_0000

  datatype Option<+T> = None | Some(value: T)

  /** Rust's `core::result::Result`. */
  datatype Result<+T, +E> = Ok(value: T) | Err(error: E) {
    predicate IsFailure() { Err? }

    function PropagateFailure<U>(): Result<U, E>
      requires Err?
    {
      Err(error)
    }

    function Extract(): T
      requires Ok?
    {
      value
    }
  }
}
