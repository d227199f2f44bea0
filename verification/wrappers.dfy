/** The optional value that Swift writes `T?`: either `Some(value)` or `None` (Swift's `nil`). */
module Wrappers {

  datatype Option<+T> = None | Some(value: T)
}
