/** Result and option types shared by every module of the model.
    PHP's exceptions become the `Err` case of `Result` / `Outcome`; the
    exception class is kept as an `ErrorKind` so that a contract can say
    which one is raised. */
module Wrappers {

  datatype Option<+T> = None | Some(value: T) {
    function GetOr(default: T): T {
      match this
      case Some(v) => v
      case None => default
    }
  }

  /** The PHP exception classes raised by the modelled code. `PhpError`
      stands for an engine `Error` (calling a method on null, converting an
      object without `__toString` to a string, a failed type declaration). */
  datatype ErrorKind =
    | InvalidArgument
    | Runtime
    | Logic
    | GenericException
    | Reflection
    | PhpError

  datatype Result<+T> = Ok(value: T) | Err(error: ErrorKind) {
    predicate IsFailure() { Err? }
    function PropagateFailure<U>(): Result<U> requires Err? { Err(error) }
    function Extract(): T requires Ok? { value }
  }

  /** What a call that changes things in place leaves behind: the new
      state, and whether it returned normally or raised part way, after
      the changes made before the raise. */
  datatype Effect<+T> = Done(value: T) | Threw(value: T, error: ErrorKind) {
    /** The same ending, with another state. */
    function With<U>(v: U): Effect<U> {
      match this
      case Done(_) => Done(v)
      case Threw(_, e) => Threw(v, e)
    }
  }

  datatype Outcome = Pass | Fail(error: ErrorKind) {
    predicate IsFailure() { Fail? }
    function PropagateFailure(): Outcome requires Fail? { this }
  }
}
