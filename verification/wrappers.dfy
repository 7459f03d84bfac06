/** Failure-carrying datatypes shared by the whole model. */
module Wrappers {

  /** An optional value: the model's stand-in for `undefined`/`null` fields. */
  datatype Option<+T> = None | Some(value: T) {
    /** The carried value, or `default` when there is none (the `x || d` idiom). */
    function GetOr(default: T): T {
      if Some? then value else default
    }
  }

  /** Either a value or the error that a thrown exception would have carried. */
  datatype Result<+T, +E> = Ok(value: T) | Err(error: E) {
    predicate IsFailure() {
      Err?
    }

    function PropagateFailure<U>(): Result<U, E>
      requires Err?
    {
      Err(error)
    }

    function Extract(): T
      requires Ok?
    {
      value
    }
  }
}
