/** The optional value used for the source's nullable fields (`Rect | null`, `ImageData | null`). */
module Wrappers {
  datatype Option<+T> = None | Some(value: T)
}
