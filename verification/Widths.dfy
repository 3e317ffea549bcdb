/** The integer widths of the runtime. Rust's release arithmetic wraps, so `+=` and `-=`
    on a narrow integer are written out here as reductions modulo the width. */
module Widths {
  const U16_SIZE := 0x1_0000
  const U32_MAX := 0xFFFF_FFFF
  const U128_MAX := 0xFFFF_FFFF_FFFF_FFFF_FFFF_FFFF_FFFF_FFFF

  type u8 = x: int | 0 <= x < 0x100
  type u16 = x: int | 0 <= x < U16_SIZE
  type u32 = x: int | 0 <= x <= U32_MAX
  type u64 = x: int | 0 <= x <= 0xFFFF_FFFF_FFFF_FFFF
  type u128 = x: int | 0 <= x <= U128_MAX

  newtype Byte = x: int | 0 <= x < 0x100
  type Bytes = seq<Byte>

  /** A 32-byte public key, compared lexicographically, is a big-endian number. */
  type AccountId = nat
  type PoolId = u32
  type BlockNumber = u32

  function WrapU8(x: int): u8 {
    x % 0x100
  }

  function WrapU16(x: int): u16 {
    x % U16_SIZE
  }

  function WrapU32(x: int): u32 {
    x % (U32_MAX + 1)
  }

  function Min(x: int, y: int): int {
    if x < y then x else y
  }
}
