/** The Option and Result types shared by the modules of this model:
    `None` stands for Python's `None`, and for a foreign call that raised an
    exception; `Failure` carries the name of the exception an operation
    raises. */
module Wrappers {

  datatype Option<+T> = None | Some(value: T) {

    /** Returns the encapsulated value, or `default` when there is none. */
    function GetOr(default: T): T {
      match this
      case Some(v) => v
      case None => default
    }
  }

  datatype Result<+T> = Success(value: T) | Failure(error: string)
}
