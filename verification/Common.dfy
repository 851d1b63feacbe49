/** Types shared by every module of the model. */
module Common {
  newtype byte = i: int | 0 <= i < 0x100

  type Bytes = seq<byte>

  datatype Option<+T> = None | Some(value: T)
}
