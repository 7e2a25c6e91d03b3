/** Android's packed colour: a 32-bit int holding alpha, red, green and blue
    bytes from the most to the least significant. `Color.red`, `Color.green`
    and `Color.blue` shift right and mask with 0xFF; `Color.alpha` shifts
    right unsigned by 24. A Java int is modelled by its bit pattern, a `bv32`:
    Java's arithmetic `>>` and the logical shift of `bv32` differ only in the
    bits the 0xFF mask discards. */
module AndroidColor {

  type Argb = bv32

  /** The int literal 0xFF000000: alpha 255, red, green and blue 0. */
  const OPAQUE_BLACK: Argb := 0xFF00_0000

  /** `Color.alpha`: the most significant byte. */
  function Alpha(c: Argb): (a: bv8)
    ensures (a as bv32) << 24 == c & 0xFF00_0000
  {
    (c >> 24) as bv8
  }

  /** `Color.red`: the second byte from the top. */
  function Red(c: Argb): (r: bv8)
    ensures (r as bv32) << 16 == c & 0x00FF_0000
  {
    ((c >> 16) & 0xFF) as bv8
  }

  /** `Color.green`: the third byte from the top. */
  function Green(c: Argb): (g: bv8)
    ensures (g as bv32) << 8 == c & 0x0000_FF00
  {
    ((c >> 8) & 0xFF) as bv8
  }

  /** `Color.blue`: the least significant byte. */
  function Blue(c: Argb): (b: bv8)
    ensures b as bv32 == c & 0x0000_00FF
  {
    (c & 0xFF) as bv8
  }

  /** `Color.argb(a, r, g, b)`: packs four channel bytes; each byte reads back
      through the matching channel accessor. */
  function Pack(a: bv8, r: bv8, g: bv8, b: bv8): (c: Argb)
    ensures Alpha(c) == a && Red(c) == r && Green(c) == g && Blue(c) == b
  {
    (a as bv32 << 24) | (r as bv32 << 16) | (g as bv32 << 8) | b as bv32
  }

  /** The four channel reads lose nothing: they determine the colour. */
  lemma PackOfChannels(c: Argb)
    ensures Pack(Alpha(c), Red(c), Green(c), Blue(c)) == c
  {
  }

  /** A colour as four floats, the layout of a vertex-colour array. */
  datatype Rgba = Rgba(red: real, green: real, blue: real, alpha: real)

  predicate InUnitRange(x: real) { 0.0 <= x <= 1.0 }

  /** `channel / 255f`. */
  function Normalize(x: bv8): (r: real)
    ensures r * 255.0 == x as int as real
    ensures InUnitRange(r)
    ensures r == 0.0 <==> x == 0
    ensures r == 1.0 <==> x == 0xFF
  {
    x as int as real / 255.0
  }

  /** Normalisation is one-to-one on bytes. */
  lemma NormalizeInjective(x: bv8, y: bv8)
    requires Normalize(x) == Normalize(y)
    ensures x == y
  {
    assert x as int == y as int;
  }

  /** The four normalised channels of a packed colour, in RGBA order. */
  function ToRgba(c: Argb): (q: Rgba)
    ensures InUnitRange(q.red) && InUnitRange(q.green) && InUnitRange(q.blue) && InUnitRange(q.alpha)
    ensures q.alpha == 1.0 <==> Alpha(c) == 0xFF
    ensures q.red * 255.0 == Red(c) as int as real
    ensures q.green * 255.0 == Green(c) as int as real
    ensures q.blue * 255.0 == Blue(c) as int as real
    ensures q.alpha * 255.0 == Alpha(c) as int as real
  {
    Rgba(Normalize(Red(c)), Normalize(Green(c)), Normalize(Blue(c)), Normalize(Alpha(c)))
  }

  /** Distinct packed colours give distinct float quadruples. */
  lemma ToRgbaInjective(c: Argb, d: Argb)
    requires ToRgba(c) == ToRgba(d)
    ensures c == d
  {
    NormalizeInjective(Red(c), Red(d));
    NormalizeInjective(Green(c), Green(d));
    NormalizeInjective(Blue(c), Blue(d));
    NormalizeInjective(Alpha(c), Alpha(d));
    PackOfChannels(c);
    PackOfChannels(d);
  }

  /** The literal 0xFF000000 is the packing of alpha 255 with zero colour. */
  lemma OpaqueBlackIsPacked()
    ensures OPAQUE_BLACK == Pack(0xFF, 0, 0, 0)
  {
  }

  /** Opaque black unpacks to (0, 0, 0, 1). */
  lemma OpaqueBlackChannels()
    ensures ToRgba(OPAQUE_BLACK) == Rgba(0.0, 0.0, 0.0, 1.0)
  {
  }
}
