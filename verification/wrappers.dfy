/** The optional value used throughout the analyzer (Python's `None` or a value). */
module Wrappers {

  datatype Option<+T> = None | Some(value: T)
}
