/** A possibly-null reference value, as C# `string` and object references are. */
module Wrappers {

  datatype Option<+T> = None | Some(value: T)
}
