/** The Some/None datatype for values that may be absent (a failed `find`, a drop payload that did not parse). */
module Wrappers {
  datatype Option<+T> = None | Some(value: T)
}
