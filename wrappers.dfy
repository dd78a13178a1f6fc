/** Kotlin's nullable result `T?`, as an explicit datatype. */
module Wrappers {

  datatype Option<+T> = None | Some(value: T)
}
