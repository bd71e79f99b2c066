/** The optional value used for a header that may be missing and a scheme that may be absent. */
module Wrappers {
  datatype Option<T> = None | Some(value: T)
}
