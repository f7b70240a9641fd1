/** Outcomes of operations that reject bad arguments. */
module Wrappers {
  datatype Result<+T, +E> = Success(value: T) | Failure(error: E)

  /** Works with `:-`: the first missing value ends the computation. */
  datatype Option<+T> = None | Some(value: T) {
    predicate IsFailure() {
      None?
    }

    function PropagateFailure<U>(): Option<U>
      requires None?
    {
      None
    }

    function Extract(): T
      requires Some?
    {
      value
    }
  }
}
