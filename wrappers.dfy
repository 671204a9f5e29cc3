/** The optional-value datatype shared by every module. */
module Wrappers {

  /** Python's "a value or nothing": `None` also stands for a call that raised. */
  datatype Option<+T> = None | Some(value: T)
}
