/** Optional values shared by the decoders of this model. */
module Outcomes {
  /** A value, or nothing; usable with `:-`. */
  datatype Option<T> = None | Some(value: T) {
    predicate IsFailure() { None? }

    function PropagateFailure<U>(): Option<U>
      requires None?
    {
      None
    }

    function Extract(): T
      requires Some?
    {
      value
    }
  }
}
