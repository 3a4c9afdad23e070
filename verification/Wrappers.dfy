/** An optional value: a nullable reference, or the result of an operation that can fail. */
module Wrappers {

  datatype Option<T> = None | Some(value: T)
}
