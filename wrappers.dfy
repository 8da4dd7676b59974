/** Small failure-carrying datatypes used across the model: a null-able
    value, a value-or-exception result, and the outcome of a void call. */
module Wrappers {

  /** A C# reference that may be null: `None` is null. */
  datatype Option<+T> = None | Some(value: T)

  /** A call that either returns `value` or throws `error`. */
  datatype Result<+R, +E> = Success(value: R) | Failure(error: E)

  /** A void call that either completes or throws `error`. */
  datatype Outcome<+E> = Pass | Fail(error: E)
}
