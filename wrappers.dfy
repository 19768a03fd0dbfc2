/** The optional value used where the program computes something only in some cases. */
module Wrappers {

  datatype Option<+T> = None | Some(value: T)
}
