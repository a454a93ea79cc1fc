/** The optional-value datatype used for the values the dialogs hand to their callbacks. */
module Wrappers {
  datatype Option<+T> = None | Some(value: T)
}
