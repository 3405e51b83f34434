/** The optional value used for nullable columns, JSON nulls and partial parsers. */
module Wrappers {

  datatype Option<+T> = None | Some(value: T)
}
