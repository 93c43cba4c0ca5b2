/** The option type the other modules use for SQL NULL, Go's empty string and failed fetches. */
module Wrappers {
  datatype Option<+T> = None | Some(value: T)
}
