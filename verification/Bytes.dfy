/** Bytes and machine-integer bounds shared by all components. */
module Bytes {

  /** An unsigned char. */
  type byte = x: int | 0 <= x < 256

  /** Largest size_t on the 64-bit targets of the library. */
  const SIZE_MAX: nat := 0xffff_ffff_ffff_ffff
  /** Largest ssize_t, which is also EVBUFFER_CHAIN_MAX when off_t is 64 bits wide. */
  const SSIZE_MAX: nat := 0x7fff_ffff_ffff_ffff

  const SSIZE_MIN: int := -0x8000_0000_0000_0000
  const INT_MAX: nat := 0x7fff_ffff
  const TWO31: nat := 0x8000_0000
  const TWO32: nat := 0x1_0000_0000
  const TWO64: nat := 0x1_0000_0000_0000_0000
}
