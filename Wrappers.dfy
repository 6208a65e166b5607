// An optional value, for fields a record may lack and parses that may fail.

module Wrappers {
  datatype Option<+T> = None | Some(value: T)
}
