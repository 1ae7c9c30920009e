/** Small shared vocabulary: optional values, results with an error, process ids. */
module Common {

  /** A value that may be absent (Python's `None`). */
  datatype Option<+T> = None | Some(value: T)

  /** The outcome of an operation that may raise. */
  datatype Result<+T, +E> = Success(value: T) | Failure(error: E)

  /** An operating-system process id, as `int()` reads it from a `/proc` children file. */
  type Pid = nat
}
