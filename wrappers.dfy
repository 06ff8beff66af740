/** The optional value used where the source has `null` or an unset field. */
module Wrappers {
  datatype Option<T> = None | Some(value: T)
}
