/** The nullable value of the source (a Java reference or a C pointer that may be null). */
module Wrappers {
  datatype Option<+T> = None | Some(value: T)
}
