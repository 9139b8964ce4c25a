/** The optional value used wherever the source has `None`/SQL NULL. */
module Wrappers {
  datatype Option<+T> = None | Some(value: T)
}
