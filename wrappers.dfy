/** Python's `None`-or-value, used for optional fields and lookups. */
module Wrappers {

  datatype Option<+T> = None | Some(value: T)
}
