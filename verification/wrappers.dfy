/** Optional values: lookups that may miss, and decoders that may reject their input. */
module Wrappers {

  /** `None` stands for a null pointer in the C++ code or for a buffer that cannot be decoded. */
  datatype Option<+T> = None | Some(value: T) {

    predicate IsFailure() {
      None?
    }

    function PropagateFailure<U>(): Option<U>
      requires None?
    {
      None
    }

    function Extract(): T
      requires Some?
    {
      value
    }
  }
}
