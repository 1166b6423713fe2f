/** The fixed-width unsigned integers the program deals in: bytes (`u8`)
    and 16-bit values (`u16`). */
module Bytes {
  type uint8 = x: int | 0 <= x < 0x100
  type uint16 = x: int | 0 <= x < 0x1_0000
}
