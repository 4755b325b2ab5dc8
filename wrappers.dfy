/** The optional value the front end expresses with `null` or `undefined`. */
module Wrappers {
  datatype Option<T> = None | Some(value: T)
}
