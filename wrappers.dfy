/** Failure-compatible wrappers used across the model: `Option` stands for a
    C# reference that may be null, `Result` and `Outcome` for a call that
    either returns or throws. */
module Wrappers {
  datatype Option<+T> = None | Some(value: T)

  datatype Result<+T, +E> = Ok(value: T) | Err(error: E)

  /** The outcome of a `void` member: it returns normally or throws. */
  datatype Outcome<+E> = Pass | Fail(error: E)
}
