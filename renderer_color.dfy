/** The colour constructors of the middle renderer version. Its `Color` struct holds the same
    four bytes as the newest one, so the value type is shared; only the constructors differ in
    how they are written (the word unpacking masks each byte before narrowing it). */
module RendererColors {
  import opened Colors

  function FromRgba(r: Byte, g: Byte, b: Byte, a: Byte): (c: Color)
    ensures c == Colors.FromRgba(r, g, b, a)
  {
    Color(r, g, b, a)
  }

  /** Builds a colour from a four-byte array `[r, g, b, a]`. */
  function FromRgbaSlice(rgba: seq<Byte>): (c: Color)
    requires |rgba| == CHANNELS
    ensures c == FromRgba(rgba[0], rgba[1], rgba[2], rgba[3])
    ensures ToRgbaArray(c) == rgba
  {
    Color(rgba[0], rgba[1], rgba[2], rgba[3])
  }

  /** `x & 0xff` on a non-negative value. */
  function Low8(x: nat): (r: nat)
    ensures r < 0x100
  {
    x % 0x100
  }

  /** `(rgba >> 8k & 0xff) as u8` for k = 3, 2, 1, 0, the shifts written as divisions. */
  function FromRgbaU32(rgba: U32): Color
  {
    Color(AsU8(Low8(rgba / 0x100_0000)), AsU8(Low8(rgba / 0x1_0000)), AsU8(Low8(rgba / 0x100)), AsU8(Low8(rgba)))
  }

  const BLACK: Color := FromRgbaU32(0x000000FF)
  const WHITE: Color := FromRgbaU32(0xFFFFFFFF)
  const GRAY: Color := FromRgbaU32(0x181818FF)
  const RED: Color := FromRgbaU32(0xFF0000FF)
  const GREEN: Color := FromRgbaU32(0x00FF00FF)
  const BLUE: Color := FromRgbaU32(0x0000FFFF)

  /** Byte 3 of the word (most significant) is red, byte 0 is alpha; the mask makes the
      narrowing exact, so the result agrees with the newest version's unmasked unpacking. */
  lemma FromRgbaU32Bytes(x: U32)
    ensures FromRgbaU32(x) == Colors.FromRgbaU32(x)
    ensures FromRgbaU32(x).r == x / 0x100_0000
    ensures FromRgbaU32(x).g == (x / 0x1_0000) % 0x100
    ensures FromRgbaU32(x).b == (x / 0x100) % 0x100
    ensures FromRgbaU32(x).a == x % 0x100
  {
  }

  /** Distinct words give distinct colours. */
  lemma FromRgbaU32Injective(x: U32, y: U32)
    requires FromRgbaU32(x) == FromRgbaU32(y)
    ensures x == y
  {
    FromRgbaU32Bytes(x);
    FromRgbaU32Bytes(y);
    U32RoundTrip(x);
    U32RoundTrip(y);
  }

  /** The constants have the channels their hex literals spell, all opaque. */
  lemma ConstantsOpaque()
    ensures BLACK == Color(0, 0, 0, 0xFF) && WHITE == Color(0xFF, 0xFF, 0xFF, 0xFF)
    ensures GRAY == Color(0x18, 0x18, 0x18, 0xFF) && RED == Color(0xFF, 0, 0, 0xFF)
    ensures GREEN == Color(0, 0xFF, 0, 0xFF) && BLUE == Color(0, 0, 0xFF, 0xFF)
    ensures forall c :: c in [BLACK, WHITE, GRAY, RED, GREEN, BLUE] ==> c.a == 0xFF
  {
  }
}
