/** Sixty-four-bit words, written out over the integers. */
module MachineWords {

  const TwoTo63 := 0x8000_0000_0000_0000
  const TwoTo64 := 0x1_0000_0000_0000_0000

  type Byte = b: int | 0 <= b < 256
  type UInt64 = x: int | 0 <= x < TwoTo64
  type Int64 = x: int | -TwoTo63 <= x < TwoTo63

  /** Conversions between signed and unsigned words, and the wrapped result of a signed operation. */
  function ToUnsigned(x: int): UInt64 {
    x % TwoTo64
  }

  function ToSigned(x: UInt64): Int64 {
    if x < TwoTo63 then x else x - TwoTo64
  }

  function WrapSigned(x: int): Int64 {
    ToSigned(ToUnsigned(x))
  }
}
