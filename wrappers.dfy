/** Small helper types shared by the model. */
module Wrappers {

  /** A value that may be absent, as a nullable C pointer is. */
  datatype Option<T> = None | Some(value: T)
}
