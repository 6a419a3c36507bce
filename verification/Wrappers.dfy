/** A value that may be missing, or the error the source raises in its place. */
module Wrappers {

  datatype Option<+T> = None | Some(value: T)
}
