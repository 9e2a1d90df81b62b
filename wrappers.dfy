/** A value that may be absent: the result of parsing a text, or of looking up a trace. */
module Wrappers {

  datatype Option<T> = None | Some(value: T)
}
