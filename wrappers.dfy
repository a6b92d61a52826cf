/** The "no value" result of a read that finds nothing, in place of a null reference. */
module Wrappers {

  datatype Option<T> = None | Some(value: T)
}
