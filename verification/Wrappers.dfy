/** Types shared by the other modules. */
module Wrappers {
  datatype Option<+T> = None | Some(value: T)

  newtype byte = x: int | 0 <= x < 256
  type Bytes = seq<byte>

  /** One more than the largest unsigned 64-bit number. */
  const U64 := 0x1_0000_0000_0000_0000
}
