/** The bitmap font of the newest renderer version: one glyph per ASCII code, ten rows of one
    byte each, the glyph's leftmost column in bit `width - 1` of a row and its rightmost in bit 0.
    Codes without a drawn glyph (control codes, upper-case letters and a few symbols) have width 0. */
module Glyphs {
  import opened Colors

  /** `GLYPH_MAX_HEIGHT`: rows per glyph. */
  const GLYPH_MAX_HEIGHT: nat := 10

  /** Number of table entries: the ASCII codes 0..=127. */
  const GLYPH_COUNT: nat := 128

  /** Eight consecutive codes of a table. */
  type GlyphBlock = s: seq<seq<Byte>> | |s| == 8 witness [[], [], [], [], [], [], [], []]
  type WidthBlock = s: seq<Byte> | |s| == 8 witness [0, 0, 0, 0, 0, 0, 0, 0]

  /** `GLYPHS`, indexed by character code and then by row, top row first; written as sixteen
      blocks of eight codes each. */
  const GLYPH_BLOCKS: seq<GlyphBlock> :=
    [GLYPHS_0, GLYPHS_1, GLYPHS_2, GLYPHS_3, GLYPHS_4, GLYPHS_5, GLYPHS_6, GLYPHS_7,
     GLYPHS_8, GLYPHS_9, GLYPHS_10, GLYPHS_11, GLYPHS_12, GLYPHS_13, GLYPHS_14, GLYPHS_15]

  const GLYPHS: seq<seq<Byte>> := seq(GLYPH_COUNT, c requires 0 <= c < GLYPH_COUNT => GLYPH_BLOCKS[c / 8][c % 8])

  const GLYPHS_0: GlyphBlock :=
    [
      /*   0 control 0 */ [0x00, 0x00, 0x00, 0x00, 0x00, 0x00, 0x00, 0x00, 0x00, 0x00],
      /*   1 control 1 */ [0x00, 0x00, 0x00, 0x00, 0x00, 0x00, 0x00, 0x00, 0x00, 0x00],
      /*   2 control 2 */ [0x00, 0x00, 0x00, 0x00, 0x00, 0x00, 0x00, 0x00, 0x00, 0x00],
      /*   3 control 3 */ [0x00, 0x00, 0x00, 0x00, 0x00, 0x00, 0x00, 0x00, 0x00, 0x00],
      /*   4 control 4 */ [0x00, 0x00, 0x00, 0x00, 0x00, 0x00, 0x00, 0x00, 0x00, 0x00],
      /*   5 control 5 */ [0x00, 0x00, 0x00, 0x00, 0x00, 0x00, 0x00, 0x00, 0x00, 0x00],
      /*   6 control 6 */ [0x00, 0x00, 0x00, 0x00, 0x00, 0x00, 0x00, 0x00, 0x00, 0x00],
      /*   7 control 7 */ [0x00, 0x00, 0x00, 0x00, 0x00, 0x00, 0x00, 0x00, 0x00, 0x00]
    ]

  const GLYPHS_1: GlyphBlock :=
    [
      /*   8 control 8 */ [0x00, 0x00, 0x00, 0x00, 0x00, 0x00, 0x00, 0x00, 0x00, 0x00],
      /*   9 control 9 */ [0x00, 0x00, 0x00, 0x00, 0x00, 0x00, 0x00, 0x00, 0x00, 0x00],
      /*  10 control 10 */ [0x00, 0x00, 0x00, 0x00, 0x00, 0x00, 0x00, 0x00, 0x00, 0x00],
      /*  11 control 11 */ [0x00, 0x00, 0x00, 0x00, 0x00, 0x00, 0x00, 0x00, 0x00, 0x00],
      /*  12 control 12 */ [0x00, 0x00, 0x00, 0x00, 0x00, 0x00, 0x00, 0x00, 0x00, 0x00],
      /*  13 control 13 */ [0x00, 0x00, 0x00, 0x00, 0x00, 0x00, 0x00, 0x00, 0x00, 0x00],
      /*  14 control 14 */ [0x00, 0x00, 0x00, 0x00, 0x00, 0x00, 0x00, 0x00, 0x00, 0x00],
      /*  15 control 15 */ [0x00, 0x00, 0x00, 0x00, 0x00, 0x00, 0x00, 0x00, 0x00, 0x00]
    ]

  const GLYPHS_2: GlyphBlock :=
    [
      /*  16 control 16 */ [0x00, 0x00, 0x00, 0x00, 0x00, 0x00, 0x00, 0x00, 0x00, 0x00],
      /*  17 control 17 */ [0x00, 0x00, 0x00, 0x00, 0x00, 0x00, 0x00, 0x00, 0x00, 0x00],
      /*  18 control 18 */ [0x00, 0x00, 0x00, 0x00, 0x00, 0x00, 0x00, 0x00, 0x00, 0x00],
      /*  19 control 19 */ [0x00, 0x00, 0x00, 0x00, 0x00, 0x00, 0x00, 0x00, 0x00, 0x00],
      /*  20 control 20 */ [0x00, 0x00, 0x00, 0x00, 0x00, 0x00, 0x00, 0x00, 0x00, 0x00],
      /*  21 control 21 */ [0x00, 0x00, 0x00, 0x00, 0x00, 0x00, 0x00, 0x00, 0x00, 0x00],
      /*  22 control 22 */ [0x00, 0x00, 0x00, 0x00, 0x00, 0x00, 0x00, 0x00, 0x00, 0x00],
      /*  23 control 23 */ [0x00, 0x00, 0x00, 0x00, 0x00, 0x00, 0x00, 0x00, 0x00, 0x00]
    ]

  const GLYPHS_3: GlyphBlock :=
    [
      /*  24 control 24 */ [0x00, 0x00, 0x00, 0x00, 0x00, 0x00, 0x00, 0x00, 0x00, 0x00],
      /*  25 control 25 */ [0x00, 0x00, 0x00, 0x00, 0x00, 0x00, 0x00, 0x00, 0x00, 0x00],
      /*  26 control 26 */ [0x00, 0x00, 0x00, 0x00, 0x00, 0x00, 0x00, 0x00, 0x00, 0x00],
      /*  27 control 27 */ [0x00, 0x00, 0x00, 0x00, 0x00, 0x00, 0x00, 0x00, 0x00, 0x00],
      /*  28 control 28 */ [0x00, 0x00, 0x00, 0x00, 0x00, 0x00, 0x00, 0x00, 0x00, 0x00],
      /*  29 control 29 */ [0x00, 0x00, 0x00, 0x00, 0x00, 0x00, 0x00, 0x00, 0x00, 0x00],
      /*  30 control 30 */ [0x00, 0x00, 0x00, 0x00, 0x00, 0x00, 0x00, 0x00, 0x00, 0x00],
      /*  31 control 31 */ [0x00, 0x00, 0x00, 0x00, 0x00, 0x00, 0x00, 0x00, 0x00, 0x00]
    ]

  const GLYPHS_4: GlyphBlock :=
    [
      /*  32 space */ [0x00, 0x00, 0x00, 0x00, 0x00, 0x00, 0x00, 0x00, 0x00, 0x00],
      /*  33 '!' */ [0x00, 0x01, 0x01, 0x01, 0x01, 0x00, 0x01, 0x00, 0x00, 0x00],
      /*  34 '"' */ [0x00, 0x05, 0x05, 0x00, 0x00, 0x00, 0x00, 0x00, 0x00, 0x00],
      /*  35 '#' */ [0x00, 0x00, 0x00, 0x00, 0x00, 0x00, 0x00, 0x00, 0x00, 0x00],
      /*  36 '$' */ [0x00, 0x00, 0x00, 0x00, 0x00, 0x00, 0x00, 0x00, 0x00, 0x00],
      /*  37 '%' */ [0x00, 0x00, 0x00, 0x09, 0x02, 0x04, 0x09, 0x00, 0x00, 0x00],
      /*  38 '&' */ [0x00, 0x00, 0x00, 0x00, 0x00, 0x00, 0x00, 0x00, 0x00, 0x00],
      /*  39 "'" */ [0x00, 0x01, 0x01, 0x00, 0x00, 0x00, 0x00, 0x00, 0x00, 0x00]
    ]

  const GLYPHS_5: GlyphBlock :=
    [
      /*  40 '(' */ [0x00, 0x01, 0x02, 0x02, 0x02, 0x02, 0x01, 0x00, 0x00, 0x00],
      /*  41 ')' */ [0x00, 0x02, 0x01, 0x01, 0x01, 0x01, 0x02, 0x00, 0x00, 0x00],
      /*  42 star */ [0x00, 0x15, 0x0E, 0x1F, 0x0E, 0x15, 0x00, 0x00, 0x00, 0x00],
      /*  43 '+' */ [0x00, 0x00, 0x00, 0x02, 0x07, 0x02, 0x00, 0x00, 0x00, 0x00],
      /*  44 ',' */ [0x00, 0x00, 0x00, 0x00, 0x00, 0x00, 0x01, 0x02, 0x00, 0x00],
      /*  45 '-' */ [0x00, 0x00, 0x00, 0x00, 0x07, 0x00, 0x00, 0x00, 0x00, 0x00],
      /*  46 '.' */ [0x00, 0x00, 0x00, 0x00, 0x00, 0x00, 0x01, 0x00, 0x00, 0x00],
      /*  47 slash */ [0x00, 0x00, 0x00, 0x01, 0x02, 0x04, 0x08, 0x00, 0x00, 0x00]
    ]

  const GLYPHS_6: GlyphBlock :=
    [
      /*  48 '0' */ [0x00, 0x02, 0x05, 0x05, 0x05, 0x05, 0x02, 0x00, 0x00, 0x00],
      /*  49 '1' */ [0x00, 0x02, 0x06, 0x02, 0x02, 0x02, 0x07, 0x00, 0x00, 0x00],
      /*  50 '2' */ [0x00, 0x02, 0x05, 0x01, 0x02, 0x04, 0x07, 0x00, 0x00, 0x00],
      /*  51 '3' */ [0x02, 0x05, 0x01, 0x02, 0x01, 0x05, 0x02, 0x00, 0x00, 0x00],
      /*  52 '4' */ [0x00, 0x02, 0x04, 0x05, 0x07, 0x01, 0x01, 0x00, 0x00, 0x00],
      /*  53 '5' */ [0x00, 0x07, 0x04, 0x07, 0x01, 0x01, 0x06, 0x00, 0x00, 0x00],
      /*  54 '6' */ [0x00, 0x02, 0x04, 0x06, 0x05, 0x05, 0x02, 0x00, 0x00, 0x00],
      /*  55 '7' */ [0x00, 0x07, 0x01, 0x02, 0x02, 0x04, 0x04, 0x00, 0x00, 0x00]
    ]

  const GLYPHS_7: GlyphBlock :=
    [
      /*  56 '8' */ [0x00, 0x02, 0x05, 0x02, 0x05, 0x05, 0x02, 0x00, 0x00, 0x00],
      /*  57 '9' */ [0x00, 0x02, 0x05, 0x03, 0x01, 0x01, 0x02, 0x00, 0x00, 0x00],
      /*  58 ':' */ [0x00, 0x00, 0x00, 0x01, 0x00, 0x01, 0x00, 0x00, 0x00, 0x00],
      /*  59 ';' */ [0x00, 0x00, 0x00, 0x01, 0x00, 0x01, 0x02, 0x00, 0x00, 0x00],
      /*  60 '<' */ [0x00, 0x00, 0x01, 0x02, 0x04, 0x02, 0x01, 0x00, 0x00, 0x00],
      /*  61 '=' */ [0x00, 0x00, 0x00, 0x07, 0x00, 0x07, 0x00, 0x00, 0x00, 0x00],
      /*  62 '>' */ [0x00, 0x00, 0x04, 0x02, 0x01, 0x02, 0x04, 0x00, 0x00, 0x00],
      /*  63 '?' */ [0x00, 0x0E, 0x11, 0x01, 0x06, 0x00, 0x04, 0x00, 0x00, 0x00]
    ]

  const GLYPHS_8: GlyphBlock :=
    [
      /*  64 '@' */ [0x00, 0x00, 0x00, 0x00, 0x00, 0x00, 0x00, 0x00, 0x00, 0x00],
      /*  65 'A' */ [0x00, 0x00, 0x00, 0x00, 0x00, 0x00, 0x00, 0x00, 0x00, 0x00],
      /*  66 'B' */ [0x00, 0x00, 0x00, 0x00, 0x00, 0x00, 0x00, 0x00, 0x00, 0x00],
      /*  67 'C' */ [0x00, 0x00, 0x00, 0x00, 0x00, 0x00, 0x00, 0x00, 0x00, 0x00],
      /*  68 'D' */ [0x00, 0x00, 0x00, 0x00, 0x00, 0x00, 0x00, 0x00, 0x00, 0x00],
      /*  69 'E' */ [0x00, 0x00, 0x00, 0x00, 0x00, 0x00, 0x00, 0x00, 0x00, 0x00],
      /*  70 'F' */ [0x00, 0x00, 0x00, 0x00, 0x00, 0x00, 0x00, 0x00, 0x00, 0x00],
      /*  71 'G' */ [0x00, 0x00, 0x00, 0x00, 0x00, 0x00, 0x00, 0x00, 0x00, 0x00]
    ]

  const GLYPHS_9: GlyphBlock :=
    [
      /*  72 'H' */ [0x00, 0x00, 0x00, 0x00, 0x00, 0x00, 0x00, 0x00, 0x00, 0x00],
      /*  73 'I' */ [0x00, 0x00, 0x00, 0x00, 0x00, 0x00, 0x00, 0x00, 0x00, 0x00],
      /*  74 'J' */ [0x00, 0x00, 0x00, 0x00, 0x00, 0x00, 0x00, 0x00, 0x00, 0x00],
      /*  75 'K' */ [0x00, 0x00, 0x00, 0x00, 0x00, 0x00, 0x00, 0x00, 0x00, 0x00],
      /*  76 'L' */ [0x00, 0x00, 0x00, 0x00, 0x00, 0x00, 0x00, 0x00, 0x00, 0x00],
      /*  77 'M' */ [0x00, 0x00, 0x00, 0x00, 0x00, 0x00, 0x00, 0x00, 0x00, 0x00],
      /*  78 'N' */ [0x00, 0x00, 0x00, 0x00, 0x00, 0x00, 0x00, 0x00, 0x00, 0x00],
      /*  79 'O' */ [0x00, 0x00, 0x00, 0x00, 0x00, 0x00, 0x00, 0x00, 0x00, 0x00]
    ]

  const GLYPHS_10: GlyphBlock :=
    [
      /*  80 'P' */ [0x00, 0x00, 0x00, 0x00, 0x00, 0x00, 0x00, 0x00, 0x00, 0x00],
      /*  81 'Q' */ [0x00, 0x00, 0x00, 0x00, 0x00, 0x00, 0x00, 0x00, 0x00, 0x00],
      /*  82 'R' */ [0x00, 0x00, 0x00, 0x00, 0x00, 0x00, 0x00, 0x00, 0x00, 0x00],
      /*  83 'S' */ [0x00, 0x00, 0x00, 0x00, 0x00, 0x00, 0x00, 0x00, 0x00, 0x00],
      /*  84 'T' */ [0x00, 0x00, 0x00, 0x00, 0x00, 0x00, 0x00, 0x00, 0x00, 0x00],
      /*  85 'U' */ [0x00, 0x00, 0x00, 0x00, 0x00, 0x00, 0x00, 0x00, 0x00, 0x00],
      /*  86 'V' */ [0x00, 0x00, 0x00, 0x00, 0x00, 0x00, 0x00, 0x00, 0x00, 0x00],
      /*  87 'W' */ [0x00, 0x00, 0x00, 0x00, 0x00, 0x00, 0x00, 0x00, 0x00, 0x00]
    ]

  const GLYPHS_11: GlyphBlock :=
    [
      /*  88 'X' */ [0x00, 0x00, 0x00, 0x00, 0x00, 0x00, 0x00, 0x00, 0x00, 0x00],
      /*  89 'Y' */ [0x00, 0x00, 0x00, 0x00, 0x00, 0x00, 0x00, 0x00, 0x00, 0x00],
      /*  90 'Z' */ [0x00, 0x00, 0x00, 0x00, 0x00, 0x00, 0x00, 0x00, 0x00, 0x00],
      /*  91 '[' */ [0x00, 0x03, 0x02, 0x02, 0x02, 0x02, 0x03, 0x00, 0x00, 0x00],
      /*  92 '\\' */ [0x00, 0x00, 0x00, 0x08, 0x04, 0x02, 0x01, 0x00, 0x00, 0x00],
      /*  93 ']' */ [0x00, 0x03, 0x01, 0x01, 0x01, 0x01, 0x03, 0x00, 0x00, 0x00],
      /*  94 '^' */ [0x00, 0x00, 0x00, 0x00, 0x00, 0x00, 0x00, 0x00, 0x00, 0x00],
      /*  95 '_' */ [0x00, 0x00, 0x00, 0x00, 0x00, 0x00, 0x0F, 0x00, 0x00, 0x00]
    ]

  const GLYPHS_12: GlyphBlock :=
    [
      /*  96 '`' */ [0x00, 0x00, 0x00, 0x00, 0x00, 0x00, 0x00, 0x00, 0x00, 0x00],
      /*  97 'a' */ [0x00, 0x00, 0x06, 0x01, 0x07, 0x09, 0x07, 0x00, 0x00, 0x00],
      /*  98 'b' */ [0x00, 0x08, 0x08, 0x08, 0x0E, 0x09, 0x0E, 0x00, 0x00, 0x00],
      /*  99 'c' */ [0x00, 0x00, 0x06, 0x09, 0x08, 0x09, 0x06, 0x00, 0x00, 0x00],
      /* 100 'd' */ [0x00, 0x01, 0x01, 0x01, 0x07, 0x09, 0x07, 0x00, 0x00, 0x00],
      /* 101 'e' */ [0x00, 0x00, 0x06, 0x09, 0x0F, 0x08, 0x06, 0x00, 0x00, 0x00],
      /* 102 'f' */ [0x00, 0x03, 0x04, 0x04, 0x0E, 0x04, 0x04, 0x00, 0x00, 0x00],
      /* 103 'g' */ [0x00, 0x00, 0x00, 0x07, 0x09, 0x09, 0x07, 0x01, 0x09, 0x06]
    ]

  const GLYPHS_13: GlyphBlock :=
    [
      /* 104 'h' */ [0x00, 0x08, 0x08, 0x08, 0x0E, 0x09, 0x09, 0x00, 0x00, 0x00],
      /* 105 'i' */ [0x00, 0x00, 0x01, 0x00, 0x01, 0x01, 0x01, 0x00, 0x00, 0x00],
      /* 106 'j' */ [0x00, 0x00, 0x01, 0x00, 0x03, 0x01, 0x01, 0x01, 0x01, 0x06],
      /* 107 'k' */ [0x00, 0x00, 0x04, 0x04, 0x05, 0x06, 0x05, 0x00, 0x00, 0x00],
      /* 108 'l' */ [0x00, 0x06, 0x02, 0x02, 0x02, 0x02, 0x03, 0x00, 0x00, 0x00],
      /* 109 'm' */ [0x00, 0x00, 0x00, 0x0A, 0x15, 0x15, 0x15, 0x00, 0x00, 0x00],
      /* 110 'n' */ [0x00, 0x00, 0x00, 0x0A, 0x05, 0x05, 0x05, 0x00, 0x00, 0x00],
      /* 111 'o' */ [0x00, 0x00, 0x00, 0x06, 0x09, 0x09, 0x06, 0x00, 0x00, 0x00]
    ]

  const GLYPHS_14: GlyphBlock :=
    [
      /* 112 'p' */ [0x00, 0x00, 0x00, 0x06, 0x09, 0x09, 0x0E, 0x08, 0x08, 0x08],
      /* 113 'q' */ [0x00, 0x00, 0x00, 0x07, 0x09, 0x09, 0x07, 0x01, 0x01, 0x01],
      /* 114 'r' */ [0x00, 0x00, 0x00, 0x0B, 0x0D, 0x08, 0x08, 0x00, 0x00, 0x00],
      /* 115 's' */ [0x00, 0x00, 0x07, 0x08, 0x06, 0x01, 0x0E, 0x00, 0x00, 0x00],
      /* 116 't' */ [0x00, 0x02, 0x02, 0x07, 0x02, 0x02, 0x03, 0x00, 0x00, 0x00],
      /* 117 'u' */ [0x00, 0x00, 0x00, 0x09, 0x09, 0x09, 0x07, 0x00, 0x00, 0x00],
      /* 118 'v' */ [0x00, 0x00, 0x00, 0x11, 0x11, 0x0A, 0x04, 0x00, 0x00, 0x00],
      /* 119 'w' */ [0x00, 0x00, 0x00, 0x15, 0x15, 0x15, 0x0A, 0x00, 0x00, 0x00]
    ]

  const GLYPHS_15: GlyphBlock :=
    [
      /* 120 'x' */ [0x00, 0x00, 0x11, 0x0A, 0x04, 0x0A, 0x11, 0x00, 0x00, 0x00],
      /* 121 'y' */ [0x00, 0x00, 0x00, 0x09, 0x09, 0x09, 0x07, 0x01, 0x01, 0x07],
      /* 122 'z' */ [0x00, 0x00, 0x00, 0x0F, 0x02, 0x04, 0x0F, 0x00, 0x00, 0x00],
      /* 123 '{' */ [0x00, 0x01, 0x02, 0x02, 0x06, 0x02, 0x02, 0x01, 0x00, 0x00],
      /* 124 '|' */ [0x00, 0x01, 0x01, 0x01, 0x01, 0x01, 0x01, 0x00, 0x00, 0x00],
      /* 125 '}' */ [0x00, 0x04, 0x02, 0x02, 0x03, 0x02, 0x02, 0x04, 0x00, 0x00],
      /* 126 '~' */ [0x00, 0x00, 0x00, 0x00, 0x00, 0x00, 0x00, 0x00, 0x00, 0x00],
      /* 127 delete */ [0x00, 0x00, 0x00, 0x00, 0x00, 0x00, 0x00, 0x00, 0x00, 0x00]
    ]

  /** `GLYPH_WIDTHS`: the number of columns of each glyph, in the same sixteen blocks. */
  const WIDTH_BLOCKS: seq<WidthBlock> :=
    [GLYPH_WIDTHS_0, GLYPH_WIDTHS_1, GLYPH_WIDTHS_2, GLYPH_WIDTHS_3, GLYPH_WIDTHS_4, GLYPH_WIDTHS_5,
     GLYPH_WIDTHS_6, GLYPH_WIDTHS_7, GLYPH_WIDTHS_8, GLYPH_WIDTHS_9, GLYPH_WIDTHS_10, GLYPH_WIDTHS_11,
     GLYPH_WIDTHS_12, GLYPH_WIDTHS_13, GLYPH_WIDTHS_14, GLYPH_WIDTHS_15]

  const GLYPH_WIDTHS: seq<Byte> := seq(GLYPH_COUNT, c requires 0 <= c < GLYPH_COUNT => WIDTH_BLOCKS[c / 8][c % 8])

  const GLYPH_WIDTHS_0: WidthBlock := [0, 0, 0, 0, 0, 0, 0, 0]
  const GLYPH_WIDTHS_1: WidthBlock := [0, 0, 0, 0, 0, 0, 0, 0]
  const GLYPH_WIDTHS_2: WidthBlock := [0, 0, 0, 0, 0, 0, 0, 0]
  const GLYPH_WIDTHS_3: WidthBlock := [0, 0, 0, 0, 0, 0, 0, 0]
  const GLYPH_WIDTHS_4: WidthBlock := [4, 1, 3, 0, 0, 4, 0, 1]
  const GLYPH_WIDTHS_5: WidthBlock := [2, 2, 5, 3, 2, 3, 1, 4]
  const GLYPH_WIDTHS_6: WidthBlock := [3, 3, 3, 3, 3, 3, 3, 3]
  const GLYPH_WIDTHS_7: WidthBlock := [3, 3, 1, 2, 3, 3, 3, 5]
  const GLYPH_WIDTHS_8: WidthBlock := [0, 0, 0, 0, 0, 0, 0, 0]
  const GLYPH_WIDTHS_9: WidthBlock := [0, 0, 0, 0, 0, 0, 0, 0]
  const GLYPH_WIDTHS_10: WidthBlock := [0, 0, 0, 0, 0, 0, 0, 0]
  const GLYPH_WIDTHS_11: WidthBlock := [0, 0, 0, 2, 4, 2, 0, 4]
  const GLYPH_WIDTHS_12: WidthBlock := [0, 4, 4, 4, 4, 4, 4, 4]
  const GLYPH_WIDTHS_13: WidthBlock := [4, 1, 3, 3, 3, 5, 4, 4]
  const GLYPH_WIDTHS_14: WidthBlock := [4, 4, 4, 4, 3, 4, 5, 5]
  const GLYPH_WIDTHS_15: WidthBlock := [5, 4, 4, 3, 1, 3, 0, 0]

  /** A bitmap font: a glyph (rows of bits) and a width per character code. */
  datatype Font = Font(glyphs: seq<seq<Byte>>, widths: seq<Byte>)

  /** One table entry: ten rows, at most 5 columns, and no bit set left of the glyph's width. */
  predicate EntryFits(glyph: seq<Byte>, width: Byte)
  {
    |glyph| == GLYPH_MAX_HEIGHT && width <= 5 &&
    forall r | 0 <= r < GLYPH_MAX_HEIGHT :: glyph[r] < Pow2(width)
  }

  /** The shape every lookup of the text sampler relies on: an entry for each of the 128 codes,
      ten rows per glyph, at most 5 columns (so a row shift stays below 8), and no bit set left
      of a glyph's width. */
  predicate ValidFont(f: Font)
  {
    |f.glyphs| == GLYPH_COUNT && |f.widths| == GLYPH_COUNT &&
    forall c | 0 <= c < GLYPH_COUNT :: EntryFits(f.glyphs[c], f.widths[c])
  }

  /** The font of the tables above. */
  const FONT: Font := Font(GLYPHS, GLYPH_WIDTHS)

  /** The tables form a valid font: every row of every glyph fits in the glyph's width, so no
      bit beyond the glyph's columns is ever set, and no glyph is wider than 5 columns, so a row
      shift stays below 8. */
  lemma FontValid()
    ensures ValidFont(FONT)
  {
    forall c | 0 <= c < GLYPH_COUNT
      ensures EntryFits(FONT.glyphs[c], FONT.widths[c])
    {
      BlockFits(c / 8);
    }
  }

  /** Every entry of block k fits. */
  lemma BlockFits(k: int)
    requires 0 <= k < 16
    ensures forall i | 0 <= i < 8 :: EntryFits(GLYPH_BLOCKS[k][i], WIDTH_BLOCKS[k][i])
  {
    if k == 0 {
      Block0Fits();
    } else if k == 1 {
      Block1Fits();
    } else if k == 2 {
      Block2Fits();
    } else if k == 3 {
      Block3Fits();
    } else if k == 4 {
      Block4Fits();
    } else if k == 5 {
      Block5Fits();
    } else if k == 6 {
      Block6Fits();
    } else if k == 7 {
      Block7Fits();
    } else if k == 8 {
      Block8Fits();
    } else if k == 9 {
      Block9Fits();
    } else if k == 10 {
      Block10Fits();
    } else if k == 11 {
      Block11Fits();
    } else if k == 12 {
      Block12Fits();
    } else if k == 13 {
      Block13Fits();
    } else if k == 14 {
      Block14Fits();
    } else {
      Block15Fits();
    }
  }

  lemma Block0Fits()
    ensures forall i | 0 <= i < 8 :: EntryFits(GLYPHS_0[i], GLYPH_WIDTHS_0[i])
  {
    RowsFit(GLYPHS_0[0], GLYPH_WIDTHS_0[0], 1);
    RowsFit(GLYPHS_0[1], GLYPH_WIDTHS_0[1], 1);
    RowsFit(GLYPHS_0[2], GLYPH_WIDTHS_0[2], 1);
    RowsFit(GLYPHS_0[3], GLYPH_WIDTHS_0[3], 1);
    RowsFit(GLYPHS_0[4], GLYPH_WIDTHS_0[4], 1);
    RowsFit(GLYPHS_0[5], GLYPH_WIDTHS_0[5], 1);
    RowsFit(GLYPHS_0[6], GLYPH_WIDTHS_0[6], 1);
    RowsFit(GLYPHS_0[7], GLYPH_WIDTHS_0[7], 1);
    forall i | 0 <= i < 8
      ensures EntryFits(GLYPHS_0[i], GLYPH_WIDTHS_0[i])
    {
      assert i == 0 || i == 1 || i == 2 || i == 3 || i == 4 || i == 5 || i == 6 || i == 7;
    }
  }

  lemma Block1Fits()
    ensures forall i | 0 <= i < 8 :: EntryFits(GLYPHS_1[i], GLYPH_WIDTHS_1[i])
  {
    RowsFit(GLYPHS_1[0], GLYPH_WIDTHS_1[0], 1);
    RowsFit(GLYPHS_1[1], GLYPH_WIDTHS_1[1], 1);
    RowsFit(GLYPHS_1[2], GLYPH_WIDTHS_1[2], 1);
    RowsFit(GLYPHS_1[3], GLYPH_WIDTHS_1[3], 1);
    RowsFit(GLYPHS_1[4], GLYPH_WIDTHS_1[4], 1);
    RowsFit(GLYPHS_1[5], GLYPH_WIDTHS_1[5], 1);
    RowsFit(GLYPHS_1[6], GLYPH_WIDTHS_1[6], 1);
    RowsFit(GLYPHS_1[7], GLYPH_WIDTHS_1[7], 1);
    forall i | 0 <= i < 8
      ensures EntryFits(GLYPHS_1[i], GLYPH_WIDTHS_1[i])
    {
      assert i == 0 || i == 1 || i == 2 || i == 3 || i == 4 || i == 5 || i == 6 || i == 7;
    }
  }

  lemma Block2Fits()
    ensures forall i | 0 <= i < 8 :: EntryFits(GLYPHS_2[i], GLYPH_WIDTHS_2[i])
  {
    RowsFit(GLYPHS_2[0], GLYPH_WIDTHS_2[0], 1);
    RowsFit(GLYPHS_2[1], GLYPH_WIDTHS_2[1], 1);
    RowsFit(GLYPHS_2[2], GLYPH_WIDTHS_2[2], 1);
    RowsFit(GLYPHS_2[3], GLYPH_WIDTHS_2[3], 1);
    RowsFit(GLYPHS_2[4], GLYPH_WIDTHS_2[4], 1);
    RowsFit(GLYPHS_2[5], GLYPH_WIDTHS_2[5], 1);
    RowsFit(GLYPHS_2[6], GLYPH_WIDTHS_2[6], 1);
    RowsFit(GLYPHS_2[7], GLYPH_WIDTHS_2[7], 1);
    forall i | 0 <= i < 8
      ensures EntryFits(GLYPHS_2[i], GLYPH_WIDTHS_2[i])
    {
      assert i == 0 || i == 1 || i == 2 || i == 3 || i == 4 || i == 5 || i == 6 || i == 7;
    }
  }

  lemma Block3Fits()
    ensures forall i | 0 <= i < 8 :: EntryFits(GLYPHS_3[i], GLYPH_WIDTHS_3[i])
  {
    RowsFit(GLYPHS_3[0], GLYPH_WIDTHS_3[0], 1);
    RowsFit(GLYPHS_3[1], GLYPH_WIDTHS_3[1], 1);
    RowsFit(GLYPHS_3[2], GLYPH_WIDTHS_3[2], 1);
    RowsFit(GLYPHS_3[3], GLYPH_WIDTHS_3[3], 1);
    RowsFit(GLYPHS_3[4], GLYPH_WIDTHS_3[4], 1);
    RowsFit(GLYPHS_3[5], GLYPH_WIDTHS_3[5], 1);
    RowsFit(GLYPHS_3[6], GLYPH_WIDTHS_3[6], 1);
    RowsFit(GLYPHS_3[7], GLYPH_WIDTHS_3[7], 1);
    forall i | 0 <= i < 8
      ensures EntryFits(GLYPHS_3[i], GLYPH_WIDTHS_3[i])
    {
      assert i == 0 || i == 1 || i == 2 || i == 3 || i == 4 || i == 5 || i == 6 || i == 7;
    }
  }

  lemma Block4Fits()
    ensures forall i | 0 <= i < 8 :: EntryFits(GLYPHS_4[i], GLYPH_WIDTHS_4[i])
  {
    RowsFit(GLYPHS_4[0], GLYPH_WIDTHS_4[0], 16);
    RowsFit(GLYPHS_4[1], GLYPH_WIDTHS_4[1], 2);
    RowsFit(GLYPHS_4[2], GLYPH_WIDTHS_4[2], 8);
    RowsFit(GLYPHS_4[3], GLYPH_WIDTHS_4[3], 1);
    RowsFit(GLYPHS_4[4], GLYPH_WIDTHS_4[4], 1);
    RowsFit(GLYPHS_4[5], GLYPH_WIDTHS_4[5], 16);
    RowsFit(GLYPHS_4[6], GLYPH_WIDTHS_4[6], 1);
    RowsFit(GLYPHS_4[7], GLYPH_WIDTHS_4[7], 2);
    forall i | 0 <= i < 8
      ensures EntryFits(GLYPHS_4[i], GLYPH_WIDTHS_4[i])
    {
      assert i == 0 || i == 1 || i == 2 || i == 3 || i == 4 || i == 5 || i == 6 || i == 7;
    }
  }

  lemma Block5Fits()
    ensures forall i | 0 <= i < 8 :: EntryFits(GLYPHS_5[i], GLYPH_WIDTHS_5[i])
  {
    RowsFit(GLYPHS_5[0], GLYPH_WIDTHS_5[0], 4);
    RowsFit(GLYPHS_5[1], GLYPH_WIDTHS_5[1], 4);
    RowsFit(GLYPHS_5[2], GLYPH_WIDTHS_5[2], 32);
    RowsFit(GLYPHS_5[3], GLYPH_WIDTHS_5[3], 8);
    RowsFit(GLYPHS_5[4], GLYPH_WIDTHS_5[4], 4);
    RowsFit(GLYPHS_5[5], GLYPH_WIDTHS_5[5], 8);
    RowsFit(GLYPHS_5[6], GLYPH_WIDTHS_5[6], 2);
    RowsFit(GLYPHS_5[7], GLYPH_WIDTHS_5[7], 16);
    forall i | 0 <= i < 8
      ensures EntryFits(GLYPHS_5[i], GLYPH_WIDTHS_5[i])
    {
      assert i == 0 || i == 1 || i == 2 || i == 3 || i == 4 || i == 5 || i == 6 || i == 7;
    }
  }

  lemma Block6Fits()
    ensures forall i | 0 <= i < 8 :: EntryFits(GLYPHS_6[i], GLYPH_WIDTHS_6[i])
  {
    RowsFit(GLYPHS_6[0], GLYPH_WIDTHS_6[0], 8);
    RowsFit(GLYPHS_6[1], GLYPH_WIDTHS_6[1], 8);
    RowsFit(GLYPHS_6[2], GLYPH_WIDTHS_6[2], 8);
    RowsFit(GLYPHS_6[3], GLYPH_WIDTHS_6[3], 8);
    RowsFit(GLYPHS_6[4], GLYPH_WIDTHS_6[4], 8);
    RowsFit(GLYPHS_6[5], GLYPH_WIDTHS_6[5], 8);
    RowsFit(GLYPHS_6[6], GLYPH_WIDTHS_6[6], 8);
    RowsFit(GLYPHS_6[7], GLYPH_WIDTHS_6[7], 8);
    forall i | 0 <= i < 8
      ensures EntryFits(GLYPHS_6[i], GLYPH_WIDTHS_6[i])
    {
      assert i == 0 || i == 1 || i == 2 || i == 3 || i == 4 || i == 5 || i == 6 || i == 7;
    }
  }

  lemma Block7Fits()
    ensures forall i | 0 <= i < 8 :: EntryFits(GLYPHS_7[i], GLYPH_WIDTHS_7[i])
  {
    RowsFit(GLYPHS_7[0], GLYPH_WIDTHS_7[0], 8);
    RowsFit(GLYPHS_7[1], GLYPH_WIDTHS_7[1], 8);
    RowsFit(GLYPHS_7[2], GLYPH_WIDTHS_7[2], 2);
    RowsFit(GLYPHS_7[3], GLYPH_WIDTHS_7[3], 4);
    RowsFit(GLYPHS_7[4], GLYPH_WIDTHS_7[4], 8);
    RowsFit(GLYPHS_7[5], GLYPH_WIDTHS_7[5], 8);
    RowsFit(GLYPHS_7[6], GLYPH_WIDTHS_7[6], 8);
    RowsFit(GLYPHS_7[7], GLYPH_WIDTHS_7[7], 32);
    forall i | 0 <= i < 8
      ensures EntryFits(GLYPHS_7[i], GLYPH_WIDTHS_7[i])
    {
      assert i == 0 || i == 1 || i == 2 || i == 3 || i == 4 || i == 5 || i == 6 || i == 7;
    }
  }

  lemma Block8Fits()
    ensures forall i | 0 <= i < 8 :: EntryFits(GLYPHS_8[i], GLYPH_WIDTHS_8[i])
  {
    RowsFit(GLYPHS_8[0], GLYPH_WIDTHS_8[0], 1);
    RowsFit(GLYPHS_8[1], GLYPH_WIDTHS_8[1], 1);
    RowsFit(GLYPHS_8[2], GLYPH_WIDTHS_8[2], 1);
    RowsFit(GLYPHS_8[3], GLYPH_WIDTHS_8[3], 1);
    RowsFit(GLYPHS_8[4], GLYPH_WIDTHS_8[4], 1);
    RowsFit(GLYPHS_8[5], GLYPH_WIDTHS_8[5], 1);
    RowsFit(GLYPHS_8[6], GLYPH_WIDTHS_8[6], 1);
    RowsFit(GLYPHS_8[7], GLYPH_WIDTHS_8[7], 1);
    forall i | 0 <= i < 8
      ensures EntryFits(GLYPHS_8[i], GLYPH_WIDTHS_8[i])
    {
      assert i == 0 || i == 1 || i == 2 || i == 3 || i == 4 || i == 5 || i == 6 || i == 7;
    }
  }

  lemma Block9Fits()
    ensures forall i | 0 <= i < 8 :: EntryFits(GLYPHS_9[i], GLYPH_WIDTHS_9[i])
  {
    RowsFit(GLYPHS_9[0], GLYPH_WIDTHS_9[0], 1);
    RowsFit(GLYPHS_9[1], GLYPH_WIDTHS_9[1], 1);
    RowsFit(GLYPHS_9[2], GLYPH_WIDTHS_9[2], 1);
    RowsFit(GLYPHS_9[3], GLYPH_WIDTHS_9[3], 1);
    RowsFit(GLYPHS_9[4], GLYPH_WIDTHS_9[4], 1);
    RowsFit(GLYPHS_9[5], GLYPH_WIDTHS_9[5], 1);
    RowsFit(GLYPHS_9[6], GLYPH_WIDTHS_9[6], 1);
    RowsFit(GLYPHS_9[7], GLYPH_WIDTHS_9[7], 1);
    forall i | 0 <= i < 8
      ensures EntryFits(GLYPHS_9[i], GLYPH_WIDTHS_9[i])
    {
      assert i == 0 || i == 1 || i == 2 || i == 3 || i == 4 || i == 5 || i == 6 || i == 7;
    }
  }

  lemma Block10Fits()
    ensures forall i | 0 <= i < 8 :: EntryFits(GLYPHS_10[i], GLYPH_WIDTHS_10[i])
  {
    RowsFit(GLYPHS_10[0], GLYPH_WIDTHS_10[0], 1);
    RowsFit(GLYPHS_10[1], GLYPH_WIDTHS_10[1], 1);
    RowsFit(GLYPHS_10[2], GLYPH_WIDTHS_10[2], 1);
    RowsFit(GLYPHS_10[3], GLYPH_WIDTHS_10[3], 1);
    RowsFit(GLYPHS_10[4], GLYPH_WIDTHS_10[4], 1);
    RowsFit(GLYPHS_10[5], GLYPH_WIDTHS_10[5], 1);
    RowsFit(GLYPHS_10[6], GLYPH_WIDTHS_10[6], 1);
    RowsFit(GLYPHS_10[7], GLYPH_WIDTHS_10[7], 1);
    forall i | 0 <= i < 8
      ensures EntryFits(GLYPHS_10[i], GLYPH_WIDTHS_10[i])
    {
      assert i == 0 || i == 1 || i == 2 || i == 3 || i == 4 || i == 5 || i == 6 || i == 7;
    }
  }

  lemma Block11Fits()
    ensures forall i | 0 <= i < 8 :: EntryFits(GLYPHS_11[i], GLYPH_WIDTHS_11[i])
  {
    RowsFit(GLYPHS_11[0], GLYPH_WIDTHS_11[0], 1);
    RowsFit(GLYPHS_11[1], GLYPH_WIDTHS_11[1], 1);
    RowsFit(GLYPHS_11[2], GLYPH_WIDTHS_11[2], 1);
    RowsFit(GLYPHS_11[3], GLYPH_WIDTHS_11[3], 4);
    RowsFit(GLYPHS_11[4], GLYPH_WIDTHS_11[4], 16);
    RowsFit(GLYPHS_11[5], GLYPH_WIDTHS_11[5], 4);
    RowsFit(GLYPHS_11[6], GLYPH_WIDTHS_11[6], 1);
    RowsFit(GLYPHS_11[7], GLYPH_WIDTHS_11[7], 16);
    forall i | 0 <= i < 8
      ensures EntryFits(GLYPHS_11[i], GLYPH_WIDTHS_11[i])
    {
      assert i == 0 || i == 1 || i == 2 || i == 3 || i == 4 || i == 5 || i == 6 || i == 7;
    }
  }

  lemma Block12Fits()
    ensures forall i | 0 <= i < 8 :: EntryFits(GLYPHS_12[i], GLYPH_WIDTHS_12[i])
  {
    RowsFit(GLYPHS_12[0], GLYPH_WIDTHS_12[0], 1);
    RowsFit(GLYPHS_12[1], GLYPH_WIDTHS_12[1], 16);
    RowsFit(GLYPHS_12[2], GLYPH_WIDTHS_12[2], 16);
    RowsFit(GLYPHS_12[3], GLYPH_WIDTHS_12[3], 16);
    RowsFit(GLYPHS_12[4], GLYPH_WIDTHS_12[4], 16);
    RowsFit(GLYPHS_12[5], GLYPH_WIDTHS_12[5], 16);
    RowsFit(GLYPHS_12[6], GLYPH_WIDTHS_12[6], 16);
    RowsFit(GLYPHS_12[7], GLYPH_WIDTHS_12[7], 16);
    forall i | 0 <= i < 8
      ensures EntryFits(GLYPHS_12[i], GLYPH_WIDTHS_12[i])
    {
      assert i == 0 || i == 1 || i == 2 || i == 3 || i == 4 || i == 5 || i == 6 || i == 7;
    }
  }

  lemma Block13Fits()
    ensures forall i | 0 <= i < 8 :: EntryFits(GLYPHS_13[i], GLYPH_WIDTHS_13[i])
  {
    RowsFit(GLYPHS_13[0], GLYPH_WIDTHS_13[0], 16);
    RowsFit(GLYPHS_13[1], GLYPH_WIDTHS_13[1], 2);
    RowsFit(GLYPHS_13[2], GLYPH_WIDTHS_13[2], 8);
    RowsFit(GLYPHS_13[3], GLYPH_WIDTHS_13[3], 8);
    RowsFit(GLYPHS_13[4], GLYPH_WIDTHS_13[4], 8);
    RowsFit(GLYPHS_13[5], GLYPH_WIDTHS_13[5], 32);
    RowsFit(GLYPHS_13[6], GLYPH_WIDTHS_13[6], 16);
    RowsFit(GLYPHS_13[7], GLYPH_WIDTHS_13[7], 16);
    forall i | 0 <= i < 8
      ensures EntryFits(GLYPHS_13[i], GLYPH_WIDTHS_13[i])
    {
      assert i == 0 || i == 1 || i == 2 || i == 3 || i == 4 || i == 5 || i == 6 || i == 7;
    }
  }

  lemma Block14Fits()
    ensures forall i | 0 <= i < 8 :: EntryFits(GLYPHS_14[i], GLYPH_WIDTHS_14[i])
  {
    RowsFit(GLYPHS_14[0], GLYPH_WIDTHS_14[0], 16);
    RowsFit(GLYPHS_14[1], GLYPH_WIDTHS_14[1], 16);
    RowsFit(GLYPHS_14[2], GLYPH_WIDTHS_14[2], 16);
    RowsFit(GLYPHS_14[3], GLYPH_WIDTHS_14[3], 16);
    RowsFit(GLYPHS_14[4], GLYPH_WIDTHS_14[4], 8);
    RowsFit(GLYPHS_14[5], GLYPH_WIDTHS_14[5], 16);
    RowsFit(GLYPHS_14[6], GLYPH_WIDTHS_14[6], 32);
    RowsFit(GLYPHS_14[7], GLYPH_WIDTHS_14[7], 32);
    forall i | 0 <= i < 8
      ensures EntryFits(GLYPHS_14[i], GLYPH_WIDTHS_14[i])
    {
      assert i == 0 || i == 1 || i == 2 || i == 3 || i == 4 || i == 5 || i == 6 || i == 7;
    }
  }

  lemma Block15Fits()
    ensures forall i | 0 <= i < 8 :: EntryFits(GLYPHS_15[i], GLYPH_WIDTHS_15[i])
  {
    RowsFit(GLYPHS_15[0], GLYPH_WIDTHS_15[0], 32);
    RowsFit(GLYPHS_15[1], GLYPH_WIDTHS_15[1], 16);
    RowsFit(GLYPHS_15[2], GLYPH_WIDTHS_15[2], 16);
    RowsFit(GLYPHS_15[3], GLYPH_WIDTHS_15[3], 8);
    RowsFit(GLYPHS_15[4], GLYPH_WIDTHS_15[4], 2);
    RowsFit(GLYPHS_15[5], GLYPH_WIDTHS_15[5], 8);
    RowsFit(GLYPHS_15[6], GLYPH_WIDTHS_15[6], 1);
    RowsFit(GLYPHS_15[7], GLYPH_WIDTHS_15[7], 1);
    forall i | 0 <= i < 8
      ensures EntryFits(GLYPHS_15[i], GLYPH_WIDTHS_15[i])
    {
      assert i == 0 || i == 1 || i == 2 || i == 3 || i == 4 || i == 5 || i == 6 || i == 7;
    }
  }

  /** An entry whose ten rows are all below `2^width` fits. */
  lemma RowsFit(glyph: seq<Byte>, width: Byte, bound: int)
    requires |glyph| == GLYPH_MAX_HEIGHT && width <= 5 && Pow2(width) == bound
    requires glyph[0] < bound && glyph[1] < bound && glyph[2] < bound && glyph[3] < bound && glyph[4] < bound
    requires glyph[5] < bound && glyph[6] < bound && glyph[7] < bound && glyph[8] < bound && glyph[9] < bound
    ensures EntryFits(glyph, width)
  {
    forall r | 0 <= r < GLYPH_MAX_HEIGHT
      ensures glyph[r] < bound
    {
      if r < 5 {
        assert r == 0 || r == 1 || r == 2 || r == 3 || r == 4;
      } else {
        assert r == 5 || r == 6 || r == 7 || r == 8 || r == 9;
      }
    }
  }
}
