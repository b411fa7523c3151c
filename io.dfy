/** Types shared by every part of the shell model: bytes, 32-bit exit codes, and the
    `std::io::Result` channel through which every core operation reports failure. */
module Io {

  /** One byte of a process stream (`u8`). */
  newtype byte = x: int | 0 <= x < 0x100

  /** A process exit code (`i32`). */
  newtype int32 = x: int | -0x8000_0000 <= x < 0x8000_0000

  datatype Option<+T> = None | Some(value: T) {
    /** `unwrap_or`: the value, or `default` when there is none. */
    function GetOr(default: T): T {
      match this
      case Some(v) => v
      case None => default
    }
  }

  /** The subset of `std::io::ErrorKind` the shell produces or propagates. */
  datatype ErrorKind = InvalidInput | NotFound | PermissionDenied | Other

  /** `std::io::Error`: a kind and the message given to `Error::new`. */
  datatype IoError = IoError(kind: ErrorKind, message: string)

  /** `std::io::Result<T>`. */
  datatype Result<+T> = Ok(value: T) | Fail(error: IoError) {
    predicate IsFailure() {
      Fail?
    }

    function PropagateFailure<U>(): Result<U>
      requires Fail?
    {
      Fail(error)
    }

    function Extract(): T
      requires Ok?
    {
      value
    }
  }

  /** The `InvalidInput` errors raised by the pipeline and step parsers. */
  function InvalidInputError(message: string): IoError
  {
    IoError(InvalidInput, message)
  }
}
