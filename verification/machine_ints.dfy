/** Fixed-width machine integers over Dafny's unbounded `int`.
    Every wrap-around, truncation and sign conversion the sources rely on
    is written out with these helpers. */
module MachineInts {

  const TWO_8: int := 0x100
  const TWO_16: int := 0x1_0000
  const TWO_31: int := 0x8000_0000
  const TWO_32: int := 0x1_0000_0000
  const TWO_64: int := 0x1_0000_0000_0000_0000

  type u8 = x: int | 0 <= x < TWO_8
  type u16 = x: int | 0 <= x < TWO_16
  type u32 = x: int | 0 <= x < TWO_32
  type u64 = x: int | 0 <= x < TWO_64
  type i16 = x: int | -0x8000 <= x < 0x8000

  /** Conversion to `uint8_t`: keep the low 8 bits. */
  function W8(x: int): (r: u8)
    ensures (r - x) % TWO_8 == 0
  {
    x % TWO_8
  }

  /** Conversion to `uint16_t`: keep the low 16 bits. */
  function W16(x: int): (r: u16)
    ensures (r - x) % TWO_16 == 0
  {
    x % TWO_16
  }

  /** Conversion to `uint32_t`: keep the low 32 bits. */
  function W32(x: int): (r: u32)
    ensures (r - x) % TWO_32 == 0
  {
    x % TWO_32
  }

  /** Conversion to `uint64_t`: keep the low 64 bits. */
  function W64(x: int): (r: u64)
    ensures (r - x) % TWO_64 == 0
  {
    x % TWO_64
  }

  /** C's `/` on integers: the quotient truncated toward zero. */
  function CDiv(n: int, d: int): (q: int)
    requires d > 0
    ensures n >= 0 ==> d * q <= n < d * q + d
    ensures n < 0 ==> d * q - d < n <= d * q
  {
    if n >= 0 then n / d else -((-n) / d)
  }

  /** A value of the `uint32_t` type reinterpreted as `int32_t`. */
  function Signed32(x: u32): (r: int)
    ensures -TWO_31 <= r < TWO_31
    ensures W32(r) == x
  {
    if x < TWO_31 then x else x - TWO_32
  }

  /** Truncating an operand of a sum first does not change the truncated
      sum. */
  lemma W32Plus(x: int, y: int)
    ensures W32(W32(x) + y) == W32(x + y)
    ensures W32(x + W32(y)) == W32(x + y)
  {
  }

  /** A value already in range is unchanged by truncation. */
  lemma W32Id(x: int)
    requires 0 <= x < TWO_32
    ensures W32(x) == x
  {
  }

  /** A signed 32-bit value that reads back as a positive signed value is
      that value. */
  lemma W32Signed(x: int)
    requires -TWO_31 <= x < TWO_31
    ensures 1 <= W32(x) < TWO_31 ==> W32(x) == x
  {
  }

  /** Truncating the subtracted operand first does not change the
      truncated difference. */
  lemma W32Minus(x: int, y: int)
    ensures W32(x - W32(y)) == W32(x - y)
  {
  }

  /** The truncated difference of two truncated offsets from `c` is the
      truncated difference of the values. */
  lemma W32Diff(a: int, b: int, c: int)
    ensures W32(W32(a - c) - W32(b - c)) == W32(a - b)
  {
    W32Minus(W32(a - c), b - c);
    W32Plus(a - c, c - b);
  }

  lemma W16Plus(x: int, y: int)
    ensures W16(W16(x) + y) == W16(x + y)
  {
  }

  lemma W16Minus(x: int, y: int)
    ensures W16(x - W16(y)) == W16(x - y)
  {
  }
}
