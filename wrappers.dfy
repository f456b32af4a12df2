/** The optional value used for decoders and for a request body that is absent. */
module Wrappers {
  datatype Option<T> = None | Some(value: T)
}
