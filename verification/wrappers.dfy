/** The optional value used for an unset widget and for a view that is not shown. */
module Wrappers {

  datatype Option<+T> = None | Some(value: T)
}
