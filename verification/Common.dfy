/** What several of the models share. */
module Common {
  datatype Option<T> = None | Some(value: T)

  type Byte = b: int | 0 <= b < 256 witness 0
  type Word = w: int | 0 <= w < 65536 witness 0
}
