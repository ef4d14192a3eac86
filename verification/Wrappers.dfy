/** The optional value the pointer-returning operations use for RT_NULL. */
module Wrappers {
  datatype Option<+T> = None | Some(value: T)
}
