/** The optional value used for Go's nilable `error` results. */
module Wrappers {
  datatype Option<+T> = None | Some(value: T)
}
