/** The optional value used for the source's "no result" and exception paths. */
module Wrappers {

  datatype Option<+T> = None | Some(value: T)
}
