/** Machine words of the target, written as ranges of the mathematical integers. */
module Words {

  type u8 = x: int | 0 <= x < 0x100
  type u16 = x: int | 0 <= x < 0x1_0000
  type u32 = x: int | 0 <= x < 0x1_0000_0000

  const TWO_32 := 0x1_0000_0000

  /** Addition of u32_t values: a carry out of bit 31 is lost. */
  function Add32(a: u32, b: u32): u32 {
    if a + b < TWO_32 then a + b else a + b - TWO_32
  }

  datatype Option<+T> = None | Some(value: T)
}
