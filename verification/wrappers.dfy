/** The optional value shared by the modules of this model. */
module Wrappers {

  /** A value that may be missing: `undefined` or a missing key in the source. */
  datatype Option<T> = None | Some(value: T)
}
