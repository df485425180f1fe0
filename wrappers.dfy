/** The optional value used wherever the source can throw or leave a field undefined. */
module Wrappers {
  datatype Option<+T> = None | Some(value: T)
}
