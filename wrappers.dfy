/** Small helper datatypes shared by the modules of this project. */
module Wrappers {

  /** A value that may be absent: an unset field or link of a record. */
  datatype Option<+T> = None | Some(value: T)

}
