/** Optional values: a JavaScript `undefined`, a rejected promise or a thrown error
    becomes `None`. */
module Wrappers {

  datatype Option<+T> = None | Some(value: T)
}
