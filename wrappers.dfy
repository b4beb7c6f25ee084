/** The usual optional value; `None` is a missing (NaN) entry of a numeric series. */
module Wrappers {
  datatype Option<+T> = None | Some(value: T)
}
