/** The Some/None datatype used where the script has a value that may be
    missing or not a number. */
module Wrappers {

  datatype Option<+T> = None | Some(value: T)
}
