/** The usual optional-value datatype: `None` plays the part of JavaScript's
    `null`/`undefined` wherever the code tests a value for presence. */
module Wrappers {
  datatype Option<+T> = None | Some(value: T)
}
