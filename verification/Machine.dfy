/** The fixed-width integers of the source; staying within their range is a proof obligation. */
module Machine {
  newtype u8 = x: int | 0 <= x < 0x100

  newtype u32 = x: int | 0 <= x < 0x1_0000_0000

  function SaturatingSub(a: u32, b: u32): u32 {
    if a < b then 0 else a - b
  }
}
