/** Failure-carrying values used throughout the model. */
module Wrappers {

  /** Rust's `Option<T>`. */
  datatype Option<+T> = None | Some(value: T) {
    function GetOr(default: T): T {
      match this
      case Some(v) => v
      case None => default
    }
  }

  /** The outcome of a computation that may abort with a panic, as the
      documentation generator does on a broken compiler invariant. */
  datatype Outcome<+T> = Done(value: T) | Panic(message: string)
}
