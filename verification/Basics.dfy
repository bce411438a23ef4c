// What several modules need.
module Basics {

  datatype Option<T> = None | Some(value: T)

  type byte = x: int | 0 <= x < 256
  type Bytes = seq<byte>

  function Clamp(value: int, low: int, high: int): int {
    if value < low then low else if value > high then high else value
  }
}
