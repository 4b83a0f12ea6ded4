/** The optional value used where the application returns `None` for a missing result. */
module Wrappers {

  datatype Option<+T> = None | Some(value: T)

}
