/** Optional values: nullable columns, optional form fields and "first row or nothing" queries. */
module Wrappers {

  datatype Option<+T> = None | Some(value: T)
}
