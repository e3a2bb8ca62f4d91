/** The optional-value datatype shared by the other modules. */
module Wrappers {

  /** A present value or its absence; stands for JavaScript's `null`/`undefined`. */
  datatype Option<+T> = None | Some(value: T)
}
