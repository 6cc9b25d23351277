/** Machine words of the Go source as integer subset types. Wrap-around is always written
    out, with the modulus as a literal. */
module Words {
  type byte = x: int | 0 <= x < 256
  type uint32 = x: int | 0 <= x < 0x1_0000_0000
  type uint64 = x: int | 0 <= x < 0x1_0000_0000_0000_0000

  /** Truncation to an unsigned 64-bit word. */
  function Wrap64(x: int): uint64 {
    x % 0x1_0000_0000_0000_0000
  }

  /** Truncation to an unsigned 32-bit word. */
  function Wrap32(x: int): uint32 {
    x % 0x1_0000_0000
  }

  datatype Option<+T> = None | Some(value: T)
}
