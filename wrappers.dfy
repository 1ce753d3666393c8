/** An optional value, standing for a lookup that may fail. */
module Wrappers {

  datatype Option<T> = None | Some(value: T)
}
