/** The limits of the program's fixed-width integer types. */
module Limits {
  const UINT8_MAX := 0xFF
  const INT16_MIN := -0x8000
  const INT16_MAX := 0x7FFF
  const UINT16_MAX := 0xFFFF
  const UINT32_MAX := 0xFFFF_FFFF
  const UINT64_MAX := 0xFFFF_FFFF_FFFF_FFFF
  const UINT64_RANGE := 0x1_0000_0000_0000_0000
}
