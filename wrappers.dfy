/** Option and Result, used for Java's nullable returns and its exceptions. */
module Wrappers {

  datatype Option<+T> = None | Some(value: T)

  /** `Err` stands for an exception thrown by the modelled Java code; `:-` propagates it. */
  datatype Result<+T, +E> = Ok(value: T) | Err(error: E) {
    predicate IsFailure() {
      Err?
    }

    function PropagateFailure<U>(): Result<U, E>
      requires Err?
    {
      Err(error)
    }

    function Extract(): T
      requires Ok?
    {
      value
    }
  }
}
