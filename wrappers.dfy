/** The optional result used by the parsers that invert the CSV export. */
module Wrappers {
  datatype Option<+T> = None | Some(value: T)
}
