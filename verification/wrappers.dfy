/** The optional values the game passes around: a clicked column that may be
    missing, and the next open row of a column that may be full. */
module Wrappers {

  datatype Option<+T> = None | Some(value: T)
}
