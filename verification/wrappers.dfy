/** The Option type used for the "no data" and "cannot parse" outcomes of the model. */
module Wrappers {

  /** `None` stands for Python's `None` return and for a raised parse error. */
  datatype Option<+T> = None | Some(value: T)
}
