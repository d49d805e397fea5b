/** The optional value returned by DOM lookups such as getAttribute and querySelector. */
module Wrappers {

  datatype Option<+T> = None | Some(value: T)
}
