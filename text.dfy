/** Bitmap text of the newest renderer version. A text caches its width in glyph columns, each
    character counting its glyph width plus one column of gap. A pixel is looked up by walking the
    characters with a cursor that starts at the text's left edge and advances `(width + 1) * size`
    per character; inside a glyph the pixel shows the text's colour when the glyph's bit for that
    row and column is set. Glyph pixels are `size` by `size` screen pixels. The glyph tables are
    the font `f` of every operation; `Glyphs.FONT` is the renderer's own. */
module Texts {
  import opened Arith
  import opened Colors
  import opened Geometry
  import opened Sampling
  import opened Glyphs

  datatype Text = Text(text: seq<char>, position: Position, color: Color, size: Byte, textWidth: int)

  /** Every character has an entry in the glyph tables (the source indexes them by code). */
  predicate Ascii(s: seq<char>)
  {
    forall i | 0 <= i < |s| :: s[i] as int < GLYPH_COUNT
  }

  /** `GLYPH_WIDTHS[character as usize]`. */
  function Width(f: Font, ch: char): (w: Byte)
    requires ValidFont(f) && ch as int < GLYPH_COUNT
    ensures w <= 5
  {
    f.widths[ch as int]
  }

  /** Columns taken by a string: each character's glyph width plus one column of gap. */
  function TextWidth(f: Font, s: seq<char>): (n: int)
    requires ValidFont(f) && Ascii(s)
    ensures |s| <= n <= 6 * |s|
  {
    if s == [] then 0 else TextWidth(f, s[..|s| - 1]) + Width(f, s[|s| - 1]) + 1
  }

  /** A text as `Text::new` leaves it: every character has a glyph and the cached width is the
      text's width. */
  predicate WellFormed(f: Font, t: Text)
    requires ValidFont(f)
  {
    Ascii(t.text) && t.textWidth == TextWidth(f, t.text)
  }

  /** `Text::new`. A character outside the tables makes the source's lookup panic; here it gives
      no text. */
  function TextNew(f: Font, text: seq<char>, position: Position, color: Color, size: Byte): (r: Option<Text>)
    requires ValidFont(f)
    ensures r.Some? <==> Ascii(text)
    ensures r.Some? ==> WellFormed(f, r.value) && r.value.text == text && r.value.position == position
                        && r.value.color == color && r.value.size == size
  {
    if Ascii(text) then Some(Text(text, position, color, size, TextWidth(f, text))) else None
  }

  /** The width of a concatenation is the sum of the widths. */
  lemma {:induction false} TextWidthAppend(f: Font, s: seq<char>, u: seq<char>)
    requires ValidFont(f) && Ascii(s) && Ascii(u)
    ensures Ascii(s + u) && TextWidth(f, s + u) == TextWidth(f, s) + TextWidth(f, u)
    decreases |u|
  {
    if u == [] {
      assert s + u == s;
    } else {
      var v := u[..|u| - 1];
      assert (s + u)[..|s + u| - 1] == s + v;
      TextWidthAppend(f, s, v);
    }
  }

  /** The text's window: `size * text_width` columns and `size * GLYPH_MAX_HEIGHT` rows from its
      position. Nothing outside it is ever drawn. */
  predicate InWindow(t: Text, pos: Position)
  {
    t.position.x <= pos.x < t.position.x + t.size * t.textWidth &&
    t.position.y <= pos.y < t.position.y + t.size * GLYPH_MAX_HEIGHT
  }

  /** Is the bit for glyph column `col` (0 = leftmost) of row `row` of the glyph set? */
  predicate GlyphBit(f: Font, ch: char, row: int, col: int)
    requires ValidFont(f) && ch as int < GLYPH_COUNT
    requires 0 <= row < GLYPH_MAX_HEIGHT && 0 <= col < Width(f, ch)
  {
    Shr(f.glyphs[ch as int][row], Width(f, ch) - col - 1) % 2 == 1
  }

  /** The character walk of `Text::color_at` from the cursor `x`, once the pixel is known to lie
      in the text's rows. */
  function Scan(f: Font, t: Text, chars: seq<char>, x: int, pos: Position): (r: Option<Color>)
    requires ValidFont(f) && Ascii(chars) && t.size > 0
    requires t.position.y <= pos.y < t.position.y + t.size * GLYPH_MAX_HEIGHT
    ensures r.Some? ==> r == Some(t.color)
    decreases |chars|
  {
    if chars == [] then None
    else
      var w := Width(f, chars[0]);
      if x <= pos.x < x + w * t.size then
        DivBelow(pos.x - x, t.size, w);
        DivBelow(pos.y - t.position.y, t.size, GLYPH_MAX_HEIGHT);
        if GlyphBit(f, chars[0], (pos.y - t.position.y) / t.size, (pos.x - x) / t.size) then Some(t.color) else None
      else
        Scan(f, t, chars[1..], x + (w + 1) * t.size, pos)
  }

  /** What `Text::color_at` returns for a pixel: never anything outside the window, and inside
      it either nothing or the text's own colour at full strength (no anti-aliasing). */
  function Sample(f: Font, t: Text, pos: Position): (r: Option<Color>)
    requires ValidFont(f) && Ascii(t.text)
    ensures r.Some? ==> InWindow(t, pos) && r == Some(t.color)
  {
    if !InWindow(t, pos) then None
    else
      assert t.size != 0;
      Scan(f, t, t.text, t.position.x, pos)
  }

  /** `glyph_width * self.size` is computed in `u8`: it must not exceed 255 for any character. */
  predicate GlyphSpansFitU8(f: Font, t: Text)
    requires ValidFont(f) && Ascii(t.text)
  {
    forall i | 0 <= i < |t.text| :: Width(f, t.text[i]) * t.size <= 0xFF
  }

  /** `Text::color_at`: the window test, then the walk over the characters with early returns. */
  method ColorAt(f: Font, t: Text, position: Position) returns (r: Option<Color>)
    requires ValidFont(f) && Ascii(t.text) && GlyphSpansFitU8(f, t)
    ensures r == Sample(f, t, position)
  {
    if !(position.x >= t.position.x && position.x < t.position.x + t.size * t.textWidth &&
         position.y >= t.position.y && position.y < t.position.y + t.size * GLYPH_MAX_HEIGHT) {
      return None;
    }
    assert t.size != 0;
    var x := t.position.x;
    var k := 0;
    assert t.text[k..] == t.text;
    while k < |t.text|
      invariant 0 <= k <= |t.text|
      invariant Scan(f, t, t.text[k..], x, position) == Sample(f, t, position)
    {
      var character := t.text[k];
      var glyphWidth := f.widths[character as int];
      if position.x >= x && position.x < x + glyphWidth * t.size {
        r := GlyphColorAt(f, t, character, x, position);
        return;
      } else {
        x := x + (glyphWidth + 1) * t.size;
      }
      assert t.text[k..][1..] == t.text[k + 1..];
      k := k + 1;
    }
    return None;
  }

  /** The branch of `Text::color_at` for the character whose cell holds the pixel: the glyph's
      bit for the pixel's row and column decides. */
  method GlyphColorAt(f: Font, t: Text, character: char, x: int, position: Position) returns (r: Option<Color>)
    requires ValidFont(f) && character as int < GLYPH_COUNT && t.size > 0
    requires t.position.y <= position.y < t.position.y + t.size * GLYPH_MAX_HEIGHT
    requires x <= position.x < x + Width(f, character) * t.size
    ensures r == Scan(f, t, [character], x, position)
  {
    var glyphWidth := f.widths[character as int];
    var glyph := f.glyphs[character as int];
    DivBelow(position.x - x, t.size, glyphWidth);
    DivBelow(position.y - t.position.y, t.size, GLYPH_MAX_HEIGHT);
    var glyphX := (position.x - x) / t.size;
    var glyphY := (position.y - t.position.y) / t.size;
    var glyphLine := glyph[glyphY];
    if Shr(glyphLine, glyphWidth - glyphX - 1) % 2 == 1 {
      return Some(t.color);
    } else {
      return None;
    }
  }

  // ----- where each character sits -----

  /** Left edge of character k: the text's left edge plus `size` times the width of the
      characters before it. */
  function CharStart(f: Font, t: Text, k: int): int
    requires ValidFont(f) && Ascii(t.text) && 0 <= k <= |t.text|
  {
    t.position.x + t.size * TextWidth(f, t.text[..k])
  }

  /** Each character advances the cursor by its glyph width plus one, times the size. */
  lemma CharStartStep(f: Font, t: Text, k: int)
    requires ValidFont(f) && Ascii(t.text) && 0 <= k < |t.text|
    ensures CharStart(f, t, k + 1) == CharStart(f, t, k) + (Width(f, t.text[k]) + 1) * t.size
  {
    assert t.text[..k + 1][..k] == t.text[..k];
  }

  /** Character starts never decrease. */
  lemma {:induction false} CharStartMonotone(f: Font, t: Text, j: int, k: int)
    requires ValidFont(f) && Ascii(t.text) && 0 <= j <= k <= |t.text|
    ensures CharStart(f, t, j) <= CharStart(f, t, k)
    decreases k - j
  {
    if j < k {
      CharStartStep(f, t, j);
      CharStartMonotone(f, t, j + 1, k);
    }
  }

  /** The walk passes over every character wholly left of the pixel. */
  lemma {:induction false} ScanSkips(f: Font, t: Text, pos: Position, j: int, k: int)
    requires ValidFont(f) && Ascii(t.text) && t.size > 0 && 0 <= j <= k <= |t.text|
    requires t.position.y <= pos.y < t.position.y + t.size * GLYPH_MAX_HEIGHT
    requires CharStart(f, t, k) <= pos.x
    ensures Scan(f, t, t.text[j..], CharStart(f, t, j), pos) == Scan(f, t, t.text[k..], CharStart(f, t, k), pos)
    decreases k - j
  {
    if j < k {
      var w := Width(f, t.text[j]);
      CharStartStep(f, t, j);
      CharStartMonotone(f, t, j + 1, k);
      assert (w + 1) * t.size == w * t.size + t.size;
      assert t.text[j..][0] == t.text[j] && t.text[j..][1..] == t.text[j + 1..];
      ScanSkips(f, t, pos, j + 1, k);
    }
  }

  /** A pixel in the window whose column falls in character k's cell: in the first `w * size`
      columns it shows the glyph bit for its row and column (row index below 10, column below
      the glyph width); in the `size` columns of gap after the glyph it shows nothing. */
  lemma GlyphCell(f: Font, t: Text, pos: Position, k: int)
    requires ValidFont(f) && WellFormed(f, t) && InWindow(t, pos) && 0 <= k < |t.text|
    requires CharStart(f, t, k) <= pos.x < CharStart(f, t, k + 1)
    ensures t.size > 0
    ensures CharStart(f, t, k + 1) == CharStart(f, t, k) + (Width(f, t.text[k]) + 1) * t.size
    ensures pos.x < CharStart(f, t, k) + Width(f, t.text[k]) * t.size ==>
      var row, col := (pos.y - t.position.y) / t.size, (pos.x - CharStart(f, t, k)) / t.size;
      0 <= row < GLYPH_MAX_HEIGHT && 0 <= col < Width(f, t.text[k]) &&
      Sample(f, t, pos) == if GlyphBit(f, t.text[k], row, col) then Some(t.color) else None
    ensures pos.x >= CharStart(f, t, k) + Width(f, t.text[k]) * t.size ==> Sample(f, t, pos) == None
  {
    CharStartStep(f, t, k);
    SampleFromCell(f, t, pos, k);
    if pos.x < CharStart(f, t, k) + Width(f, t.text[k]) * t.size {
      GlyphColumns(f, t, pos, k);
    } else {
      GlyphGap(f, t, pos, k);
    }
  }

  /** The first `w * size` columns of character k's cell show its glyph. */
  lemma GlyphColumns(f: Font, t: Text, pos: Position, k: int)
    requires ValidFont(f) && WellFormed(f, t) && InWindow(t, pos) && 0 <= k < |t.text|
    requires CharStart(f, t, k) <= pos.x < CharStart(f, t, k) + Width(f, t.text[k]) * t.size
    ensures var row, col := (pos.y - t.position.y) / t.size, (pos.x - CharStart(f, t, k)) / t.size;
      0 <= row < GLYPH_MAX_HEIGHT && 0 <= col < Width(f, t.text[k]) &&
      Sample(f, t, pos) == if GlyphBit(f, t.text[k], row, col) then Some(t.color) else None
  {
    SampleFromCell(f, t, pos, k);
    var w, start := Width(f, t.text[k]), CharStart(f, t, k);
    assert t.text[k..][0] == t.text[k];
    DivBelow(pos.x - start, t.size, w);
    DivBelow(pos.y - t.position.y, t.size, GLYPH_MAX_HEIGHT);
  }

  /** The `size` columns of gap after character k's glyph show nothing. */
  lemma GlyphGap(f: Font, t: Text, pos: Position, k: int)
    requires ValidFont(f) && WellFormed(f, t) && InWindow(t, pos) && 0 <= k < |t.text|
    requires CharStart(f, t, k) + Width(f, t.text[k]) * t.size <= pos.x < CharStart(f, t, k + 1)
    ensures Sample(f, t, pos) == None
  {
    CharStartStep(f, t, k);
    SampleFromCell(f, t, pos, k);
    var w, start := Width(f, t.text[k]), CharStart(f, t, k);
    assert (w + 1) * t.size == w * t.size + t.size;
    assert t.text[k..][0] == t.text[k] && t.text[k..][1..] == t.text[k + 1..];
    ScanLeftOfCursor(f, t, t.text[k + 1..], start + (w + 1) * t.size, pos);
  }

  /** The cursor only moves right, so a pixel left of it is never found. */
  lemma {:induction false} ScanLeftOfCursor(f: Font, t: Text, chars: seq<char>, x: int, pos: Position)
    requires ValidFont(f) && Ascii(chars) && t.size > 0
    requires t.position.y <= pos.y < t.position.y + t.size * GLYPH_MAX_HEIGHT
    requires pos.x < x
    ensures Scan(f, t, chars, x, pos) == None
    decreases |chars|
  {
    if chars != [] {
      ScanLeftOfCursor(f, t, chars[1..], x + (Width(f, chars[0]) + 1) * t.size, pos);
    }
  }

  /** Inside the window, the walk reaches the pixel's cell with the cursor at the cell's start. */
  lemma SampleFromCell(f: Font, t: Text, pos: Position, k: int)
    requires ValidFont(f) && WellFormed(f, t) && InWindow(t, pos) && 0 <= k < |t.text|
    requires CharStart(f, t, k) <= pos.x
    ensures t.size > 0
    ensures Sample(f, t, pos) == Scan(f, t, t.text[k..], CharStart(f, t, k), pos)
  {
    assert t.size != 0;
    assert Sample(f, t, pos) == Scan(f, t, t.text, t.position.x, pos);
    assert t.text[..0] == [];
    assert CharStart(f, t, 0) == t.position.x;
    ScanSkips(f, t, pos, 0, k);
    assert t.text[0..] == t.text;
  }

  /** A character without a drawn glyph (width 0) shows nothing anywhere in its cell, which is
      still `size` columns wide. */
  lemma ZeroWidthInvisible(f: Font, t: Text, pos: Position, k: int)
    requires ValidFont(f) && WellFormed(f, t) && InWindow(t, pos) && 0 <= k < |t.text|
    requires Width(f, t.text[k]) == 0
    requires CharStart(f, t, k) <= pos.x < CharStart(f, t, k + 1)
    ensures CharStart(f, t, k + 1) == CharStart(f, t, k) + t.size
    ensures Sample(f, t, pos) == None
  {
    GlyphCell(f, t, pos, k);
  }

  /** The window's columns are exactly the characters' cells: the last cell ends where the
      window does, so every pixel of the window lies in the cell of one character. */
  lemma WindowIsCells(f: Font, t: Text, pos: Position)
    requires ValidFont(f) && WellFormed(f, t) && InWindow(t, pos)
    ensures exists k :: 0 <= k < |t.text| && CharStart(f, t, k) <= pos.x < CharStart(f, t, k + 1)
  {
    assert t.text[..|t.text|] == t.text;
    assert t.text[..0] == [];
    var k := 0;
    while CharStart(f, t, k + 1) <= pos.x
      invariant 0 <= k < |t.text| && CharStart(f, t, k) <= pos.x
      decreases |t.text| - k
    {
      k := k + 1;
    }
  }

  /** A text of size 0 shows nothing. */
  lemma ZeroSizeInvisible(f: Font, t: Text, pos: Position)
    requires ValidFont(f) && Ascii(t.text) && t.size == 0
    ensures Sample(f, t, pos) == None
  {
    assert t.size * t.textWidth == 0;
  }
}
