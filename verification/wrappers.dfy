/** Failure-compatible wrappers used across the model. */
module Wrappers {

  /** A value that may be absent (a failed lookup or parse). */
  datatype Option<+T> = None | Some(value: T) {
    predicate IsFailure() { None? }

    function PropagateFailure<U>(): Option<U>
      requires None?
    {
      None
    }

    function Extract(): T
      requires Some?
    {
      value
    }
  }
}
