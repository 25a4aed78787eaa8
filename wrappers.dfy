/** Option, for Python calls that can raise ValueError. */
module Wrappers {

  datatype Option<+T> = None | Some(value: T)
}
