/** Option, used for values that may be absent: a text field that does not
    parse as a number, a calculation that was skipped, a lookup that missed. */
module Wrappers {
  datatype Option<+T> = None | Some(value: T)
}
