/** Failure-carrying result types used for the two fatal error paths of the
    table queue: an operation type the lock policy does not know, and a
    procedure that is not a table procedure. */
module Wrappers {

  /** An optional value: a capability a procedure may or may not expose. */
  datatype Option<+T> = None | Some(value: T)

  /** Either a computed value or the error that aborts the computation. */
  datatype Result<+R, +E> = Success(value: R) | Failure(error: E)
}
