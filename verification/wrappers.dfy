/** The optional value used throughout the model in place of JavaScript's
    `null` / `undefined` / thrown-exception outcomes. */
module Wrappers {

  datatype Option<+T> = None | Some(value: T)
}
