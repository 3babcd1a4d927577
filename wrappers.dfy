/** The optional value used for things that may be absent: the hash file, a stored digest,
    the end position of a regular-expression match. */
module Wrappers {
  datatype Option<+T> = None | Some(value: T)
}
