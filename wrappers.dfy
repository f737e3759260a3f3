/** The optional value the tracker uses for a price that may be missing. */
module Wrappers {

  datatype Option<+T> = None | Some(value: T)
}
