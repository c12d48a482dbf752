/** Colours of the newest renderer: RGBA values, their packings to a 32-bit word and to four
    bytes, and the alpha-weighted blend used to composite one colour over another. */
module Colors {
  import opened Arith

  /** Rust's `u8`. */
  type Byte = x: int | 0 <= x < 0x100

  /** Rust's `u32`. */
  type U32 = x: int | 0 <= x < 0x1_0000_0000

  /** Number of bytes per pixel (`Color::CHANNELS`). */
  const CHANNELS: nat := 4

  datatype Color = Color(r: Byte, g: Byte, b: Byte, a: Byte)

  /** Rust's truncating cast `as u8` applied to a non-negative value. */
  function AsU8(x: nat): (r: Byte)
    ensures x < 0x100 ==> r == x
  {
    x % 0x100
  }

  /** 2 to the power k. */
  function Pow2(k: nat): (r: nat)
    ensures r >= 1
  {
    if k == 0 then 1 else 2 * Pow2(k - 1)
  }

  /** `x >> k` on an unsigned value is division by 2^k. */
  function Shr(x: nat, k: nat): nat
  {
    var p := Pow2(k);
    DivMonotone(0, x, p);
    x / p
  }


  // ----- constructors and packings (src/color.rs) -----

  function FromRgba(r: Byte, g: Byte, b: Byte, a: Byte): (c: Color)
    ensures c.r == r && c.g == g && c.b == b && c.a == a
  {
    Color(r, g, b, a)
  }

  function FromRgbaArray(rgba: seq<Byte>): (c: Color)
    requires |rgba| == CHANNELS
    ensures ToRgbaArray(c) == rgba
  {
    Color(rgba[0], rgba[1], rgba[2], rgba[3])
  }

  function ToRgbaArray(c: Color): (rgba: seq<Byte>)
    ensures |rgba| == CHANNELS
  {
    [c.r, c.g, c.b, c.a]
  }

  /** Bytes 3, 2, 1, 0 of the word (most significant first) become r, g, b, a: the shifts by
      24, 16, 8 and 0 bits are divisions by the matching powers of 256. */
  function FromRgbaU32(rgba: U32): Color
  {
    Color(AsU8(rgba / 0x100_0000), AsU8(rgba / 0x1_0000), AsU8(rgba / 0x100), AsU8(rgba))
  }

  /** The shifted channels occupy disjoint bit ranges, so the source's `|` is a sum here. */
  function ToU32(c: Color): U32
  {
    c.r * 0x100_0000 + c.g * 0x1_0000 + c.b * 0x100 + c.a
  }

  function WithAlpha(c: Color, alpha: Byte): (r: Color)
    ensures r.r == c.r && r.g == c.g && r.b == c.b && r.a == alpha
    ensures alpha == c.a <==> r == c
  {
    Color(c.r, c.g, c.b, alpha)
  }

  // ----- named constants -----

  const BLACK: Color := FromRgbaU32(0x000000FF)
  const WHITE: Color := FromRgbaU32(0xFFFFFFFF)
  const GRAY: Color := FromRgbaU32(0x181818FF)
  const RED: Color := FromRgbaU32(0xFF0000FF)
  const GREEN: Color := FromRgbaU32(0x00FF00FF)
  const BLUE: Color := FromRgbaU32(0x0000FFFF)
  const LIGHT_PINK: Color := FromRgbaU32(0xFFC0CBFF)
  const BRIGHT_PINK: Color := FromRgbaU32(0xFC0FC0FF)

  /** The eight named colours, no two of them equal. */
  function NamedColors(): (cs: seq<Color>)
    ensures |cs| == 8
  {
    [BLACK, WHITE, GRAY, RED, GREEN, BLUE, LIGHT_PINK, BRIGHT_PINK]
  }

  /** Every named colour is opaque, with the channels its hexadecimal literal spells. */
  lemma NamedColorsOpaque()
    ensures forall c :: c in NamedColors() ==> c.a == 0xFF
    ensures BLACK == Color(0, 0, 0, 0xFF) && WHITE == Color(0xFF, 0xFF, 0xFF, 0xFF)
    ensures GRAY == Color(0x18, 0x18, 0x18, 0xFF) && RED == Color(0xFF, 0, 0, 0xFF)
    ensures GREEN == Color(0, 0xFF, 0, 0xFF) && BLUE == Color(0, 0, 0xFF, 0xFF)
    ensures LIGHT_PINK == Color(0xFF, 0xC0, 0xCB, 0xFF) && BRIGHT_PINK == Color(0xFC, 0x0F, 0xC0, 0xFF)
  {
    assert BLACK == Color(0, 0, 0, 0xFF);
    assert WHITE == Color(0xFF, 0xFF, 0xFF, 0xFF);
    assert GRAY == Color(0x18, 0x18, 0x18, 0xFF);
    assert RED == Color(0xFF, 0, 0, 0xFF);
    assert GREEN == Color(0, 0xFF, 0, 0xFF);
    assert BLUE == Color(0, 0, 0xFF, 0xFF);
    assert LIGHT_PINK == Color(0xFF, 0xC0, 0xCB, 0xFF);
    assert BRIGHT_PINK == Color(0xFC, 0x0F, 0xC0, 0xFF);
  }

  /** No two named colours are the same colour. */
  lemma NamedColorsDistinct()
    ensures forall i, j | 0 <= i < j < |NamedColors()| :: NamedColors()[i] != NamedColors()[j]
  {
    NamedColorsOpaque();
  }

  // ----- round trips -----

  /** The four unpacked channels, read back as base-256 digits, give the packed word. */
  lemma RgbaU32Channels(rgba: U32)
    ensures var c := FromRgbaU32(rgba); 0x100_0000 * c.r + 0x1_0000 * c.g + 0x100 * c.b + c.a == rgba
  {
    var q1 := rgba / 0x100;
    var q2 := q1 / 0x100;
    DivUnique(rgba, 0x1_0000, q2, (q1 % 0x100) * 0x100 + rgba % 0x100);
    DivUnique(rgba, 0x100_0000, q2 / 0x100, (q2 % 0x100) * 0x1_0000 + (q1 % 0x100) * 0x100 + rgba % 0x100);
  }

  /** Each channel of a packed word sits in its own byte. */
  lemma U32Channels(c: Color)
    ensures var x := ToU32(c); x / 0x100_0000 == c.r && (x / 0x1_0000) % 0x100 == c.g
    ensures var x := ToU32(c); (x / 0x100) % 0x100 == c.b && x % 0x100 == c.a
  {
    var x := ToU32(c);
    DivUnique(x, 0x100_0000, c.r, c.g * 0x1_0000 + c.b * 0x100 + c.a);
    DivUnique(x, 0x1_0000, c.r * 0x100 + c.g, c.b * 0x100 + c.a);
    DivUnique(c.r * 0x100 + c.g, 0x100, c.r, c.g);
    DivUnique(x, 0x100, c.r * 0x1_0000 + c.g * 0x100 + c.b, c.a);
    DivUnique(c.r * 0x1_0000 + c.g * 0x100 + c.b, 0x100, c.r * 0x100 + c.g, c.b);
  }

  lemma U32RoundTrip(x: U32)
    ensures ToU32(FromRgbaU32(x)) == x
  {
    RgbaU32Channels(x);
  }

  lemma ColorU32RoundTrip(c: Color)
    ensures FromRgbaU32(ToU32(c)) == c
  {
    U32Channels(c);
  }

  lemma ArrayRoundTrip(c: Color, rgba: seq<Byte>)
    requires |rgba| == CHANNELS
    ensures FromRgbaArray(ToRgbaArray(c)) == c
    ensures ToRgbaArray(FromRgbaArray(rgba)) == rgba
  {
  }

  // ----- compositing -----

  /** One blended channel before the `as u8` cast: `(base*(255-α) + over*α)/255`. */
  function Mix(base: Byte, over: Byte, alpha: Byte): int
  {
    (base * (0xFF - alpha) + over * alpha) / 0xFF
  }

  function Min(x: int, y: int): int { if x <= y then x else y }
  function Max(x: int, y: int): int { if x >= y then x else y }

  /** A blended channel lies between the two input channels, so the cast never truncates. */
  lemma MixBetween(base: Byte, over: Byte, alpha: Byte)
    ensures Min(base, over) <= Mix(base, over, alpha) <= Max(base, over)
  {
    var lo, hi := Min(base, over), Max(base, over);
    var s := base * (0xFF - alpha) + over * alpha;
    assert lo * 0xFF <= s <= hi * 0xFF by {
      MulMonotone(lo, base, 0xFF - alpha);
      MulMonotone(base, hi, 0xFF - alpha);
      MulMonotone(lo, over, alpha);
      MulMonotone(over, hi, alpha);
    }
    DivUnique(lo * 0xFF, 0xFF, lo, 0);
    DivUnique(hi * 0xFF, 0xFF, hi, 0);
    DivMonotone(lo * 0xFF, s, 0xFF);
    DivMonotone(s, hi * 0xFF, 0xFF);
  }

  /** `base + over`: r, g and b are weighted by over's alpha, alpha is the larger of the two. */
  function Blend(base: Color, over: Color): (out: Color)
    ensures out.r == Mix(base.r, over.r, over.a) && Min(base.r, over.r) <= out.r <= Max(base.r, over.r)
    ensures out.g == Mix(base.g, over.g, over.a) && Min(base.g, over.g) <= out.g <= Max(base.g, over.g)
    ensures out.b == Mix(base.b, over.b, over.a) && Min(base.b, over.b) <= out.b <= Max(base.b, over.b)
    ensures out.a == Max(base.a, over.a) && out.a >= base.a
  {
    MixBetween(base.r, over.r, over.a);
    MixBetween(base.g, over.g, over.a);
    MixBetween(base.b, over.b, over.a);
    var r := Mix(base.r, over.r, over.a);
    var g := Mix(base.g, over.g, over.a);
    var b := Mix(base.b, over.b, over.a);
    Color(AsU8(r), AsU8(g), AsU8(b), if base.a >= over.a then base.a else over.a)
  }

  /** A fully transparent colour leaves the base unchanged; an opaque one replaces it. */
  lemma BlendIdentities(base: Color, over: Color)
    ensures over.a == 0 ==> Blend(base, over) == base
    ensures over.a == 0xFF ==> Blend(base, over) == over
  {
    if over.a == 0 {
      DivUnique(base.r * 0xFF, 0xFF, base.r, 0);
      DivUnique(base.g * 0xFF, 0xFF, base.g, 0);
      DivUnique(base.b * 0xFF, 0xFF, base.b, 0);
    }
    if over.a == 0xFF {
      DivUnique(over.r * 0xFF, 0xFF, over.r, 0);
      DivUnique(over.g * 0xFF, 0xFF, over.g, 0);
      DivUnique(over.b * 0xFF, 0xFF, over.b, 0);
    }
  }

  /** `*pixel += rhs` on the four bytes `bytes[at..at+4]` (`AddAssign` on `&mut ColorBytes`). */
  method AddAssign(bytes: array<Byte>, at: nat, rhs: Color)
    requires at + CHANNELS <= bytes.Length
    modifies bytes
    ensures bytes[at..at + CHANNELS] == ToRgbaArray(Blend(FromRgbaArray(old(bytes[at..at + CHANNELS])), rhs))
    ensures forall i :: 0 <= i < bytes.Length && !(at <= i < at + CHANNELS) ==> bytes[i] == old(bytes[i])
  {
    ghost var before := FromRgbaArray(bytes[at..at + CHANNELS]);
    var r := (bytes[at] * (0xFF - rhs.a) + rhs.r * rhs.a) / 0xFF;
    var g := (bytes[at + 1] * (0xFF - rhs.a) + rhs.g * rhs.a) / 0xFF;
    var b := (bytes[at + 2] * (0xFF - rhs.a) + rhs.b * rhs.a) / 0xFF;
    var a := if bytes[at + 3] >= rhs.a then bytes[at + 3] else rhs.a;
    ghost var after := Blend(before, rhs);
    bytes[at] := AsU8(r);
    bytes[at + 1] := AsU8(g);
    bytes[at + 2] := AsU8(b);
    bytes[at + 3] := a;
    assert bytes[at..at + CHANNELS] == ToRgbaArray(after);
  }
}
