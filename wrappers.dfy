/** The optional-value type used for Kotlin's nullable results (`String?`, `Int?`). */
module Wrappers {
  datatype Option<+T> = None | Some(value: T)
}
