/** Fixed-width integer ranges, an optional value, and the saturating clamp
    shared by the scanner and the event codec. */
module Common {

  /** An unsigned 8-bit value: one base of a read or of the reference. */
  type Byte = x: int | 0 <= x < 0x100

  /** Unsigned 16-, 32- and 64-bit values. */
  type U16 = x: int | 0 <= x < 0x1_0000
  type U32 = x: int | 0 <= x < 0x1_0000_0000
  type U64 = x: int | 0 <= x < 0x1_0000_0000_0000_0000

  /** A signed 32-bit value. */
  type I32 = x: int | -0x8000_0000 <= x < 0x8000_0000

  datatype Option<+T> = None | Some(value: T)

  /** `CLAMPH(x, high)`: saturate `x` at `high` from above. */
  function Clamp(x: int, high: int): (r: int)
    ensures r <= high
    ensures r == x || r == high
    ensures r == x <==> x <= high
  {
    if x > high then high else x
  }

  /** The smaller of two integers. */
  function Min(a: int, b: int): (r: int)
    ensures r <= a && r <= b
    ensures r == a || r == b
  {
    if a <= b then a else b
  }
}
