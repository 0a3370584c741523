/** Two small sum types the model is written with: `Option` for a JavaScript
    property that may be missing, and `Result` for a computation that may
    throw, usable with `:-`. */
module Wrappers {

  /** `None` stands for a property that is absent or `undefined`. A `null`
      is `Some(Null)` when the value type is `Js.Value`, which has its own
      `Null`. For other value types it is `None` too. */
  datatype Option<+T> = None | Some(value: T) {

    /** The value if present, `default` otherwise. */
    function GetOr(default: T): T {
      match this
      case Some(v) => v
      case None => default
    }
  }

  /** A computation that either produces a value or throws. The three members
      below are what `:-` needs: a test for the thrown case, the thrown case
      re-typed for the caller, and the value otherwise. */
  datatype Result<+R, +E> = Ok(value: R) | Err(error: E) {

    predicate IsFailure() {
      Err?
    }

    function PropagateFailure<U>(): Result<U, E>
      requires Err?
    {
      Err(error)
    }

    function Extract(): R
      requires Ok?
    {
      value
    }
  }
}
