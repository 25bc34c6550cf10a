/** A value or nothing: Java's and C's null. */
module Wrappers {

  datatype Option<T> = None | Some(value: T)
}
