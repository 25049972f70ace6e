/** The optional value used wherever the page reads a field that may be absent
    or parses a text that may not hold a value. */
module Wrappers {

  datatype Option<+T> = None | Some(value: T)

}
