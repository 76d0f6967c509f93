/** Failure-carrying datatypes shared by every module of the model. */
module Wrappers {

  /** A value that may be absent: JavaScript's `undefined` for an optional field or argument. */
  datatype Option<+T> = None | Some(value: T)

  /** The outcome of an operation that the library can abort by throwing an `Error`;
      `error` carries the thrown message. */
  datatype Result<+T> = Ok(value: T) | Err(error: string) {
    predicate IsFailure() {
      Err?
    }

    function PropagateFailure<U>(): Result<U>
      requires Err?
    {
      Err(error)
    }

    function Extract(): T
      requires Ok?
    {
      value
    }
  }
}
