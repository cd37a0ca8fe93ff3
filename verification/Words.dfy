// The machine's 32-bit integers.
module Words {
  const TWO_31 := 0x8000_0000
  const TWO_32 := 0x1_0000_0000

  type Int32 = x: int | -0x8000_0000 <= x < 0x8000_0000
  type UInt32 = x: int | 0 <= x < 0x1_0000_0000

  // Wrap-around to unsigned and to two's complement.
  function ToUInt32(x: int): UInt32 { x % 0x1_0000_0000 }
  function ToInt32(x: int): Int32 { if ToUInt32(x) < 0x8000_0000 then ToUInt32(x) else ToUInt32(x) - 0x1_0000_0000 }
}
