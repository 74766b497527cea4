/** The optional value that Swift writes `T?`: `nil` is `None`. */
module Wrappers {

  datatype Option<+T> = None | Some(value: T)
}
