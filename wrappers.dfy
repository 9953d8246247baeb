/** The absence value the library's operations return instead of panicking. */
module Wrappers {
  datatype Option<+T> = None | Some(value: T)
}
