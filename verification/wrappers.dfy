/** Nullable results, results-or-errors, and pass-or-fail completions. */
module Wrappers {

  /** A value or JavaScript's `null`. */
  datatype Option<+T> = None | Some(value: T)

  /** A resolved promise (`Success`) or a rejected one (`Failure`). */
  datatype Result<+T, +E> = Success(value: T) | Failure(error: E)

  /** A promise that resolves to nothing (`Pass`) or rejects (`Fail`). */
  datatype Outcome<+E> = Pass | Fail(error: E)
}
