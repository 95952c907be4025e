/** The Option type used for values that may be absent: a missing record
    field, and the not-a-number outcome of number parsing. */
module Wrappers {
  datatype Option<+T> = None | Some(value: T)
}
