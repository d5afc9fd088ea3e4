/** Optional values: a missing DOM element, a project that was not found,
    an undefined optional field of a record. */
module Wrappers {

  datatype Option<+T> = None | Some(value: T)

}
