/** The nullable values of the source (`string | null`, `number | null`). */
module Wrappers {

  datatype Option<+T> = None | Some(value: T)
}
