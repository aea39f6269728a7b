/** Optional values: the model's stand-in for JavaScript's `undefined`/`null`
    results where a computation may produce nothing. */
module Wrappers {

  datatype Option<+T> = None | Some(value: T)
}
