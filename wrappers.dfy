/** Optional values and results: the model's stand-ins for Python's
    `X | None` and for an operation that may raise. */
module Wrappers {

  datatype Option<+T> = None | Some(value: T) {

    /** True if is None */
    predicate IsFailure() {
      None?
    }

    function PropagateFailure<U>(): Option<U>
      requires None?
    {
      None
    }

    /** Returns the value encapsulated in Some */
    function Extract(): T
      requires Some?
    {
      value
    }
  }

  datatype Result<+R, +E> = Ok(value: R) | Err(error: E) {

    /** True if is Err */
    predicate IsFailure() {
      Err?
    }

    function PropagateFailure<U>(): Result<U, E>
      requires Err?
    {
      Err(error)
    }

    /** Returns the value encapsulated in Ok */
    function Extract(): R
      requires Ok?
    {
      value
    }
  }
}
