/** The Option type used throughout the model for JavaScript's `undefined`/`false`
    results and for lookups that may fail. */
module Wrappers {

  datatype Option<+T> = None | Some(value: T)
}
