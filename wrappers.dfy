/** Optional values, as Python's `None`-or-value attributes. */
module Wrappers {

  datatype Option<T> = None | Some(value: T)
}
