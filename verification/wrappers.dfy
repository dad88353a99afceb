/** The optional value used wherever the generator may produce nothing. */
module Wrappers {

  datatype Option<T> = None | Some(value: T)
}
