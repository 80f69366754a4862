/** An optional value: a field or a query result that may be absent (`undefined`/`null`). */
module Wrappers {
  datatype Option<+T> = None | Some(value: T)
}
