/** The result of a lookup that may find nothing (`undefined` in the application). */
module Wrappers {

  datatype Option<+T> = None | Some(value: T)
}
