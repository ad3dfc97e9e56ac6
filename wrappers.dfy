/** The optional-value type used throughout the model. */
module Wrappers {
  /** `None` stands for a JavaScript `undefined` (or a failed parse). */
  datatype Option<+T> = None | Some(value: T)
}
