/** Nullable values and raise-or-return results, shared by every module. */
module Wrappers {

  /** A Kotlin nullable value: `None` is `null`. */
  datatype Option<+T> = None | Some(value: T)

  /** The outcome of a call that either returns a value or raises an exception `E`. */
  datatype Result<+R, +E> = Ok(value: R) | Err(error: E)

  /** The outcome of a call that returns `Unit` or raises an exception `E`. */
  datatype Outcome<+E> = Pass | Fail(error: E)
}
