/** Optional values: the model's stand-in for JavaScript's `undefined`/`null`
    and for optional chaining (`a?.b`). */
module Wrappers {

  datatype Option<+T> = None | Some(value: T)
}
