// Stock types shared by every module: machine widths, addresses and Option.
module Base {
  datatype Option<+T> = None | Some(value: T)

  type u8 = x: int | 0 <= x < 0x100
  type u32 = x: int | 0 <= x < 0x1_0000_0000

  /** IPv4 addresses in the source's own 32-bit form; 0 is used as "no address". */
  type Addr = u32

  /** Assignment of an int to a u_int8_t field. */
  function U8(x: int): u8 {
    x % 0x100
  }

  /** Assignment of an int to a u_int32_t field. */
  function U32(x: int): u32 {
    x % 0x1_0000_0000
  }

  function Max(a: int, b: int): int {
    if a > b then a else b
  }
}
