/** The optional value used wherever the library holds a Swift optional (`T?`). */
module Wrappers {

  datatype Option<+T> = None | Some(value: T)
}
