/** An optional value: a JSON field that may be absent, an environment
    variable that may be unset, a request that may not be sent. */
module Wrappers {
  datatype Option<+T> = None | Some(value: T)
}
