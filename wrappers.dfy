/** The optional value used for SQL NULL and for a URL without a hostname. */
module Wrappers {

  datatype Option<+T> = None | Some(value: T)
}
