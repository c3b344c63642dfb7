/** A value that may be missing: a JSON property that is absent, so reading it gives `undefined`. */
module Wrappers {
  datatype Option<+T> = None | Some(value: T)
}
