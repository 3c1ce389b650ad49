/** The optional value used for the renderer's `None`. */
module Wrappers {

  datatype Option<+T> = None | Some(value: T)
}
