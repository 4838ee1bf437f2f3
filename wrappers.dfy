/** The optional value used wherever the program may find nothing (a missing
    dictionary key, a cell that is not a number). */
module Wrappers {

  datatype Option<+T> = None | Some(value: T)
}
