module Wrappers {

  /** Python's `None`-or-value, used for every optional field, lookup and match result. */
  datatype Option<+T> = None | Some(value: T)
}
