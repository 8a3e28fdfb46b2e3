/** The bounds of 64-bit words. */
module Words {
  const MAX_UINT64 := 0xFFFF_FFFF_FFFF_FFFF
  const TWO64 := 0x1_0000_0000_0000_0000
  const TWO63 := 0x8000_0000_0000_0000
}
