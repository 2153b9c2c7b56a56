/** The optional value used across the model: a DOM element or attribute that
    may be absent, or a decoding that may fail. */
module Wrappers {
  datatype Option<+T> = None | Some(value: T)
}
