/** Fixed-width values of the .NET runtime that the overlay and the settings
    store pass around: signed 16- and 32-bit integers, bytes, single-precision
    floats carried by their bit pattern, and an optional value. */
module Primitives {

  datatype Option<+T> = None | Some(value: T)

  /** C# `short` */
  newtype int16 = x: int | -0x8000 <= x < 0x8000

  /** C# `int` */
  newtype int32 = x: int | -0x8000_0000 <= x < 0x8000_0000

  /** C# `byte` */
  newtype byte = x: int | 0 <= x < 0x100

  const MinInt32: int := -0x8000_0000
  const MaxInt32: int := 0x7FFF_FFFF

  /** The result of unchecked 32-bit arithmetic: `v` reduced into the range
      of `int` by two's-complement wrap-around. */
  function Wrap32(v: int): (r: int32)
    ensures (r as int - v) % 0x1_0000_0000 == 0
    ensures MinInt32 <= v <= MaxInt32 ==> r as int == v
  {
    var u := v % 0x1_0000_0000;
    if u <= MaxInt32 then u as int32 else (u - 0x1_0000_0000) as int32
  }

  /** A C# `float`, carried by its IEEE 754 single-precision bit pattern.
      Nothing in the modelled code computes with it: it is copied, stored and
      compared. */
  datatype Float32 = Float32(bits: bv32)

  /** `0.5f` */
  const Half := Float32(0x3F00_0000)

  /** `0f`, the value of a `float` property nobody assigned */
  const PositiveZero := Float32(0)

  /** A float is NaN or an infinity exactly when its eight exponent bits are
      all set. */
  predicate IsFinite(f: Float32) {
    (f.bits >> 23) & 0xFF != 0xFF
  }
}
