/** An optional value, for lookups and inputs that may be absent. */
module Wrappers {

  datatype Option<T> = None | Some(value: T)
}
