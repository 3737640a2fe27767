/** Fixed-width integers of the 8-bit target (its C `int` is 16 bits wide)
    and the two's-complement truncations its code relies on. Every other
    module works on unbounded `int` and applies these conversions exactly
    where the C code stores into, or computes in, a narrower type. */
module Ints {

  type int8 = x: int | -0x80 <= x < 0x80
  type uint8 = x: int | 0 <= x < 0x100
  type int16 = x: int | -0x8000 <= x < 0x8000
  type uint16 = x: int | 0 <= x < 0x1_0000
  type int32 = x: int | -0x8000_0000 <= x < 0x8000_0000

  /** Conversion to `int16_t`: the value congruent to x modulo 2^16. */
  function ToInt16(x: int): (r: int16)
    ensures (r - x) % 0x1_0000 == 0
    ensures -0x8000 <= x < 0x8000 ==> r == x
  {
    var m := x % 0x1_0000;
    if m >= 0x8000 then m - 0x1_0000 else m
  }

  /** Conversion to `uint16_t`. */
  function ToUint16(x: int): (r: uint16)
    ensures (r - x) % 0x1_0000 == 0
    ensures 0 <= x < 0x1_0000 ==> r == x
  {
    x % 0x1_0000
  }

  /** Conversion to `int32_t`. */
  function ToInt32(x: int): (r: int32)
    ensures (r - x) % 0x1_0000_0000 == 0
    ensures -0x8000_0000 <= x < 0x8000_0000 ==> r == x
  {
    var m := x % 0x1_0000_0000;
    if m >= 0x8000_0000 then m - 0x1_0000_0000 else m
  }

  /** Conversion to `uint8_t`. */
  function ToUint8(x: int): (r: uint8)
    ensures (r - x) % 0x100 == 0
    ensures 0 <= x < 0x100 ==> r == x
    ensures -0x100 <= x < 0 ==> r == x + 0x100
  {
    x % 0x100
  }

  /** Conversion to `int8_t`. */
  function ToInt8(x: int): (r: int8)
    ensures (r - x) % 0x100 == 0
    ensures -0x80 <= x < 0x80 ==> r == x
    ensures -0x180 <= x < -0x80 ==> r == x + 0x100
  {
    var m := x % 0x100;
    if m >= 0x80 then m - 0x100 else m
  }

  /** Truncating to 16 bits and then to 8 keeps the same low byte as
      truncating to 8 bits at once. */
  lemma ByteOfUint16(x: int)
    ensures ToUint8(ToUint16(x)) == ToUint8(x)
  {
    var q := x / 0x1_0000;
    assert x == 0x1_0000 * q + ToUint16(x);
    assert ToUint16(x) - x == 0x100 * (-0x100 * q);
  }
}
