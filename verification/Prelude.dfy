/** What several components share. */
module Prelude {
  datatype Option<+T> = None | Some(value: T)

  type Hash = nat
  type Address = nat
  type Bytes = seq<bv8>

  /** The number of values of an unsigned 64-bit word. */
  const WORD: nat := 0x1_0000_0000_0000_0000
  const MAX_UINT64: nat := WORD - 1

  function Min(a: int, b: int): int {
    if a <= b then a else b
  }

  function Max(a: int, b: int): int {
    if a >= b then a else b
  }
}
