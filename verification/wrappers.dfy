/** The optional value used for SQL NULL / JavaScript `null`, absent fields and absent rows. */
module Wrappers {

  datatype Option<+T> = None | Some(value: T)
}
