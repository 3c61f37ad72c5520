/** The C# `int` type and the unchecked subtraction that `x -= y` performs on it. */
module Int32Math {

  const MinInt32: int := -0x8000_0000
  const MaxInt32: int := 0x7FFF_FFFF

  /** 2^32, the modulus of C# `int` arithmetic in an unchecked context. */
  const Modulus: int := 0x1_0000_0000

  type Int32 = x: int | -0x8000_0000 <= x < 0x8000_0000

  /** `a - b` as C# computes it on `int` when overflow checking is off: the true
      difference, wrapped into the 32-bit range. */
  function Sub32(a: Int32, b: Int32): (r: Int32)
    ensures (r - (a - b)) % Modulus == 0
    ensures MinInt32 <= a - b <= MaxInt32 ==> r == a - b
    ensures a - b > MaxInt32 ==> r < 0
  {
    var d := a - b;
    if d > MaxInt32 then d - Modulus else if d < MinInt32 then d + Modulus else d
  }
}
