/** The optional value used for an absent storage slot and for a search
    that finds nothing. */
module Wrappers {

  datatype Option<+T> = None | Some(value: T)
}
