/** The optional value that stands for a pointer which may be NULL. */
module Wrappers {

  datatype Option<+T> = None | Some(value: T)
}
