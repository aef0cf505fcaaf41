/** The optional value the build script writes as a Python value or `None`. */
module Wrappers {

  datatype Option<+T> = None | Some(value: T)
}
