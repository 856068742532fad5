/** What a field of a malloc'd C struct, or a C lookup, can hold. */
module Cells {

  datatype Option<+T> = None | Some(value: T)

  /** A struct field: never written since `malloc`, written with NULL, or holding a value. */
  datatype Cell<+T> = Unset | Null | Is(value: T)
}
