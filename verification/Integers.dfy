/** The machine integers whose width matters. */
module Integers {
  const MAX_U32: nat := 0xFFFF_FFFF
  const MAX_U64: nat := 0xFFFF_FFFF_FFFF_FFFF
  const MAX_I64: int := 0x7FFF_FFFF_FFFF_FFFF
  const MIN_I64: int := -0x8000_0000_0000_0000

  type U32 = n: nat | n <= MAX_U32
  type U64 = n: nat | n <= MAX_U64
  type I64 = n: int | MIN_I64 <= n <= MAX_I64
}
