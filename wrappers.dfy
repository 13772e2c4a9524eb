/** Option, for a query that may find nothing (`.first()` returning None, `db.get` of a missing row). */
module Wrappers {
  datatype Option<T> = None | Some(value: T)
}
