/** The optional value used for a board cell: empty, or holding one piece. */
module Wrappers {

  datatype Option<+T> = None | Some(value: T)
}
