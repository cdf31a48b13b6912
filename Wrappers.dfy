/** Optional values: Python's None, a nullable model field, or a form field
    that did not validate. */
module Wrappers {

  datatype Option<+T> = None | Some(value: T)
}
