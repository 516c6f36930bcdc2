/** Optional values and results with an error, shared by every module. */
module Wrappers {
  datatype Option<+T> = None | Some(value: T)

  /** Usable with `:-`, which returns an error at once. */
  datatype Result<+T, +E> = Ok(value: T) | Err(error: E)
  {
    predicate IsFailure() {
      Err?
    }

    function PropagateFailure<U>(): Result<U, E>
      requires Err?
    {
      Err(error)
    }

    function Extract(): T
      requires Ok?
    {
      value
    }
  }
}
