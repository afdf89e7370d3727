/** The fixed-width unsigned integer types of the ESP32 firmware and the
    modular conversions C applies when a wider value is stored into them. */
module FixedWidth {

  type U8 = x: int | 0 <= x < 0x100
  type U16 = x: int | 0 <= x < 0x1_0000
  type U32 = x: int | 0 <= x < 0x1_0000_0000

  /** Storing an int into a uint8_t: reduction modulo 2^8. */
  function WrapU8(x: int): (r: U8)
    ensures 0 <= x < 0x100 ==> r == x
  {
    x % 0x100
  }

  /** Casting to uint16_t: reduction modulo 2^16. */
  function WrapU16(x: int): (r: U16)
    ensures 0 <= x < 0x1_0000 ==> r == x
  {
    x % 0x1_0000
  }

  /** Storing an int into a uint32_t: reduction modulo 2^32. */
  function WrapU32(x: int): (r: U32)
    ensures 0 <= x < 0x1_0000_0000 ==> r == x
  {
    x % 0x1_0000_0000
  }

  /** size_t is 32 bits wide on the ESP32, so a negative int passed as a
      length becomes a value close to 2^32. */
  function ToSizeT(x: int): (r: U32)
    ensures 0 <= x < 0x1_0000_0000 ==> r == x
    ensures -0x100 < x < 0 ==> r > 0xFFFF_FF00
  {
    WrapU32(x)
  }
}
