/** The optional value used throughout the model: `None` stands for JavaScript's
    `null`/`undefined` or for an element that never appeared. */
module Wrappers {
  datatype Option<+T> = None | Some(value: T)
}
