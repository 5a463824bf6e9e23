/** Option, for the Java calls that either yield a value or throw. */
module Wrappers {

  datatype Option<+T> = None | Some(value: T)
}
