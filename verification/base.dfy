/** Failure-compatible wrappers shared by every module: `Option` for the
    source's nullable values and `Result` for calls that can throw. */
module Base {

  /** A value that may be absent, standing for a Java reference that may be null. */
  datatype Option<+T> = None | Some(value: T) {

    /** The wrapped value, or `default` when absent (`Optional.orElse`). */
    function GetOr(default: T): T {
      match this
      case Some(v) => v
      case None => default
    }
  }

  /** The Java exception classes the modelled code throws or catches, each with
      its `getMessage()` text. */
  datatype Exception =
    | IllegalState(message: string)
    | IOFailure(message: string)
    | RuntimeFailure(message: string)
    | NullPointer(message: string)

  /** The outcome of a call that either returns a value or throws. */
  datatype Result<+T> = Ok(value: T) | Err(error: Exception) {

    predicate IsFailure() {
      Err?
    }

    function PropagateFailure<U>(): Result<U>
      requires Err?
    {
      Err(error)
    }

    function Extract(): T
      requires Ok?
    {
      value
    }
  }
}
