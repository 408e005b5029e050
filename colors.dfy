/** `System.Drawing.Color` as far as the overlay and the settings store use
    it: four 8-bit channels and, for the predefined colours, a name. The
    packed form is the 32-bit word 0xAARRGGBB, read as a signed `int` the way
    `Color.ToArgb` returns it and `Color.FromArgb(int)` takes it. */
module Colors {
  import opened Primitives

  /** A colour made by `FromArgb` has no name; `Color.Yellow` and `Color.Red`
      are known colours and carry theirs. */
  datatype ColorName = Unnamed | Known(name: string)

  datatype Color = Color(a: byte, r: byte, g: byte, b: byte, name: ColorName)

  const Yellow := Color(0xFF, 0xFF, 0xFF, 0x00, Known("Yellow"))
  const Red := Color(0xFF, 0xFF, 0x00, 0x00, Known("Red"))

  /** The unsigned word 0xAARRGGBB, built byte by byte from the top. Each
      channel is one base-256 digit of it. */
  function PackedWord(c: Color): (w: nat)
    ensures w < 0x1_0000_0000
    ensures w / 0x100 / 0x100 / 0x100 == c.a as int
    ensures w / 0x100 / 0x100 % 0x100 == c.r as int
    ensures w / 0x100 % 0x100 == c.g as int
    ensures w % 0x100 == c.b as int
  {
    var ar := c.a as int * 0x100 + c.r as int;
    var arg := ar * 0x100 + c.g as int;
    DigitSplit(c.a as int, c.r as int, 0x100);
    DigitSplit(ar, c.g as int, 0x100);
    DigitSplit(arg, c.b as int, 0x100);
    arg * 0x100 + c.b as int
  }

  /** Euclidean division recovers the quotient and the remainder of
      `q * k + rest` when `rest` is a remainder modulo `k`. */
  lemma DigitSplit(q: int, rest: int, k: int)
    requires k > 0 && 0 <= rest < k
    ensures (q * k + rest) / k == q && (q * k + rest) % k == rest
  {
    var n := q * k + rest;
    var d, m := n / k, n % k;
    assert n == d * k + m && 0 <= m < k;
    assert (q - d) * k == m - rest;
    if q - d >= 1 {
      MultiplyAtLeast(q - d, k);
    } else if q - d <= -1 {
      MultiplyAtLeast(d - q, k);
    }
  }

  lemma MultiplyAtLeast(x: int, k: int)
    requires x >= 1 && k > 0
    ensures x * k >= k
  {
  }

  /** `Color.ToArgb()`: the packed word reinterpreted as a signed `int`, so
      that every colour whose alpha is 128 or more packs to a negative value. */
  function ToArgb(c: Color): (v: int32)
    ensures v < 0 <==> c.a >= 0x80
    ensures v as int % 0x1_0000_0000 == PackedWord(c)
  {
    var w := PackedWord(c);
    if w < 0x8000_0000 then w as int32 else (w - 0x1_0000_0000) as int32
  }

  /** `Color.FromArgb(int)`: splits the two's-complement word of `v` into its
      four bytes; the result never has a name. */
  function FromArgb(v: int32): (c: Color)
    ensures c.name == Unnamed
    ensures PackedWord(c) == v as int % 0x1_0000_0000
  {
    var w := v as int % 0x1_0000_0000;
    var arg := w / 0x100;
    var ar := arg / 0x100;
    assert w == arg * 0x100 + w % 0x100;
    assert arg == ar * 0x100 + arg % 0x100;
    assert ar == ar / 0x100 * 0x100 + ar % 0x100;
    Color((ar / 0x100) as byte, (ar % 0x100) as byte, (arg % 0x100) as byte, (w % 0x100) as byte, Unnamed)
  }

  /** Two colours with the same channels, whatever their names. */
  predicate SameArgb(c: Color, d: Color) {
    ToArgb(c) == ToArgb(d)
  }

  /** Packing loses nothing but the name: two colours pack alike exactly when
      all four channels agree. */
  lemma SameArgbIffSameChannels(c: Color, d: Color)
    ensures SameArgb(c, d) <==> c.a == d.a && c.r == d.r && c.g == d.g && c.b == d.b
  {
  }

  /** Unpacking a stored integer and packing it again gives the integer back. */
  lemma ArgbRoundTrip(v: int32)
    ensures ToArgb(FromArgb(v)) == v
  {
  }

  /** Packing a colour and unpacking it again gives the same channels but
      drops the name, so a known colour does not come back equal to itself. */
  lemma ColorRoundTrip(c: Color)
    ensures FromArgb(ToArgb(c)) == c.(name := Unnamed)
    ensures SameArgb(FromArgb(ToArgb(c)), c)
  {
  }

  /** The packed values of the two default colours: 0xFFFFFF00 and 0xFFFF0000
      as signed integers. */
  lemma DefaultColorValues()
    ensures ToArgb(Yellow) == -0x100
    ensures ToArgb(Red) == -0x1_0000
  {
  }
}
