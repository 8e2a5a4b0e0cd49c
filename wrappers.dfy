/** Failure-carrying results shared by both components. */
module Wrappers {

  datatype Option<+T> = None | Some(value: T)

  /** The outcome of an operation that either yields a value or raises an error. */
  datatype Result<+R, +E> = Ok(value: R) | Err(error: E)

  /** Some element of a non-empty set: the next key an enumeration of a dictionary visits. */
  method Pick<T>(keys: set<T>) returns (k: T)
    requires keys != {}
    ensures k in keys
  {
    if forall x: T :: x !in keys {
      assert false;
    }
    k :| k in keys;
  }
}
