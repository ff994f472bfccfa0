/** Failure-compatible result types shared by the model, standing in for Rust's
    `Option` and `io::Result`. */
module Wrappers {

  datatype Option<+T> = None | Some(value: T)

  /** The `io::ErrorKind`s that the modelled operations can return. */
  datatype ErrorKind = InvalidData | NotFound | ResolutionMismatch

  datatype Result<+T> = Ok(value: T) | Err(kind: ErrorKind)
}
