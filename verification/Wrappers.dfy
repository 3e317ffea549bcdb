/** The optional values of the pallets' storage and call parameters. */
module Wrappers {
  datatype Option<+T> = None | Some(value: T)
}
