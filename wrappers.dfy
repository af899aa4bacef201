/**
 * Optional values (TypeScript's `T | null | undefined`) and the outcome of a
 * statement that either returns a value or throws.
 */
module Wrappers {

  datatype Option<+T> = None | Some(value: T)

  datatype Result<+T, +E> = Success(value: T) | Failure(error: E)
}
