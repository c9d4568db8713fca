/** Stock result types shared by the other modules. */
module Wrappers {

  datatype Option<+T> = None | Some(value: T) {
    predicate IsFailure() { None? }

    function PropagateFailure<U>(): Option<U>
      requires None?
    { None }

    function Extract(): T
      requires Some?
    { value }
  }

  /** A JavaScript call either returns a value or throws. */
  datatype Result<+T, +E> = Ok(value: T) | Throws(error: E)
}
