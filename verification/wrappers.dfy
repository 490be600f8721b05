/** The optional value used for SQL NULL. */
module Wrappers {

  /** `None` plays the part of SQL NULL; `Some(v)` is a non-NULL value. */
  datatype Option<+T> = None | Some(value: T)
}
