/** Failure-carrying values shared by every module of the model.

  Go reports failure through a trailing `error` result and, on a nil
  dereference or `log.Fatalf`, by ending the process; the three datatypes
  below make each of those outcomes an explicit value.
 */
module Results {

  /** A value that may be absent (a Go nil pointer or nil error). */
  datatype Option<+T> = None | Some(value: T)

  /** A Go `(value, error)` pair where exactly one side is meaningful. */
  datatype Result<+R, +E> = Success(value: R) | Failure(error: E)

  /** The outcome of one external command: it worked, or it failed with a message. */
  datatype Outcome = Pass | Fail(error: string)

  /** How a call that may bring the whole process down ended.
      `Panicked` is a Go runtime panic (a nil pointer dereference);
      `Exited` is `log.Fatalf`, which terminates the process. */
  datatype Exec<+T> = Returned(value: T) | Panicked | Exited
}
