/** What the kernel says with a NULL pointer or a zero: there may be no value. */
module Wrappers {
  datatype Option<T> = None | Some(value: T)
}
