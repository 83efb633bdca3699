/** Optional values: a nullable reference or a missing property in the shell's objects. */
module Wrappers {
  datatype Option<+T> = None | Some(value: T)
}
