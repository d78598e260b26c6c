/** Option, standing for a JavaScript value that is either present or `undefined`/`null`. */
module Wrappers {
  datatype Option<+T> = None | Some(value: T)
}
