/** Failure-carrying datatypes shared by every module of the model.
    A firmware `shutdown("...")`, a Python exception and a NULL return all
    become an `Err` carrying the message text the source uses. */
module Wrappers {

  /** A value that may be absent (a NULL pointer, a missing dict entry, None). */
  datatype Option<+T> = None | Some(value: T) {
    /** The value when present, `default` otherwise. */
    function GetOr(default: T): T {
      match this
      case Some(v) => v
      case None => default
    }
  }

  /** The outcome of an operation that can abort with a message. */
  datatype Result<+T> = Ok(value: T) | Err(msg: string) {
    predicate IsFailure() {
      Err?
    }

    function PropagateFailure<U>(): Result<U>
      requires Err?
    {
      Err(msg)
    }

    function Extract(): T
      requires Ok?
    {
      value
    }
  }
}
