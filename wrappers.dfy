/** The NULL-or-value shape of the C pointers returned by the service's helpers. */
module Wrappers {
  datatype Option<+T> = None | Some(value: T)
}
