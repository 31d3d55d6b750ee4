/** Values that may be absent: missing rows, and failures whose error text no caller inspects. */
module Wrappers {
  datatype Option<+T> = None | Some(value: T)
}
