# jeri rasterizer core, modelled in Dafny

jeri is a small software rasterizer. A canvas holds a row-major pixel buffer and a background
colour. Rendering hands the buffer to a list of drawable objects in order, and each object
writes the pixels of the box its draw loop walks:

- a rectangle blends its colour over its extent;
- a circle and a triangle report an anti-aliased colour per pixel (a count of covered
  subpixels scales the alpha), which is blended into the pixel;
- a text reports its colour where a bit of a glyph bitmap is set.

The repository holds three generations of this core, and the model covers all three:

- **src** (`src/color.rs`, `src/entities.rs`, `src/entities/text.rs`, `src/lib.rs`) keeps the
  buffer as RGBA bytes and blends with `+=` on a 4-byte pixel;
- **renderer** (`renderer/src/...`) keeps the buffer as `Color` values;
- **lib-jeri** (`lib-jeri/src/renderer.rs`) has a two-colour `Screen`, 1-based positions, draws
  that overwrite instead of blending, and a `Debug` view that prints one line per row.

Module layout:

- `Geometry`: sizes, positions and the index map.
- `Colors`: colours and blending of `src`.
- `RendererColors`: colours of `renderer`.
- `Sampling`: compositing an optional colour into a pixel.
- `Raster`: the row-major sweep of a box.
- `Rectangles`, `Circles` and `Triangles`: the shapes.
- `Glyphs` and `Texts`: the font table and the text sampler.
- `Drawables`: the closed set of shapes that can be rendered.
- `Canvases`: the byte canvas of `src`.
- `RendererCanvases`: the colour canvas of `renderer`.
- `Screens`: lib-jeri.

Every draw loop is proved against one specification, `Raster.Painted`. It is the buffer
after the nested `for x ... for y ...` sweep of an inclusive box, where each visited pixel is
replaced by `paint(pixel, x, y)`.

Rust's fixed-width integers are unbounded here. Some of the places where the source would
overflow, panic or index out of bounds are excluded by a `requires`:

- the pixel count fits in an `i32` (`PixelCountFits`);
- the drawn box lies on the canvas (`BoxFits`);
- a glyph span fits in a `u8` (`GlyphSpansFitU8`).

The rest are computed on unbounded integers, and "## Left out" lists them member by member.

Rust's truncating `/ 2` is written out as `Geometry.Half`.

## Model

| member | source | states |
|---|---|---|
| Geometry.SizeNew | src/lib.rs:16-18 | `Size::new(height, width)` stores its arguments crosswise: the first becomes the height, the second the width, so swapping them gives a different size |
| Geometry.Scale | src/lib.rs:21-30 | multiplying a size by k multiplies both sides; 1 is the identity and 0 gives the empty size |
| Geometry.Sub | src/lib.rs:44-56 | the difference of two positions added back to the subtrahend gives the minuend; it is the origin exactly when the positions are equal |
| Geometry.Half | src/entities.rs:37-38 | `n / 2` truncates toward zero: remainder in 0..1 for n >= 0 and in -1..0 for n <= 0 |
| Geometry.IndexOnCanvas | renderer/src/lib.rs:21-23 | `position_to_index`: `y * width + x` of an on-canvas position lies in the buffer, and its quotient and remainder by the width give back y and x |
| Geometry.IndexInjective | renderer/src/lib.rs:21-23 | two on-canvas positions with the same index are the same position |
| Geometry.IndexSurjective | renderer/src/lib.rs:21-23 | every buffer index is the index of exactly the on-canvas position (i % width, i / width) |
| Colors.FromRgba | src/color.rs:24-26 | the colour has the four given channels |
| Colors.FromRgbaArray | src/color.rs:28-35 | reading four bytes as a colour and writing it back gives the same bytes |
| Colors.ToRgbaArray | src/color.rs:37-39 | a colour is written as exactly four bytes |
| Colors.WithAlpha | src/color.rs:59-66 | replaces the alpha and keeps r, g and b; the colour is unchanged exactly when the new alpha equals the old one |
| Colors.NamedColors | src/color.rs:15-22 | there are eight named colours |
| Colors.NamedColorsOpaque | src/color.rs:15-22 | every named colour is opaque, and each of the eight has the channel values its hexadecimal literal spells |
| Colors.NamedColorsDistinct | src/color.rs:15-22 | no two of the eight named colours are equal |
| Colors.RgbaU32Channels | src/color.rs:42-49 | `from_rgba_u32`: the four channels, read as base-256 digits from red down to alpha, give back the word |
| Colors.U32Channels | src/color.rs:52-57 | `to_u32`: red is the top byte of the word, then green and blue, and alpha is the low byte |
| Colors.U32RoundTrip | src/color.rs:42-57 | `to_u32(from_rgba_u32(x)) == x` for every 32-bit word |
| Colors.ColorU32RoundTrip | src/color.rs:42-57 | `from_rgba_u32(to_u32(c)) == c` for every colour |
| Colors.ArrayRoundTrip | src/color.rs:28-39 | byte array to colour and back, in both directions, is the identity |
| Colors.MixBetween | src/color.rs:87-104 | a blended channel lies between the base channel and the overlay channel, so the cast back to `u8` never truncates |
| Colors.Blend | src/color.rs:87-104 | each colour channel is the alpha-weighted mix of base and overlay, bounded by the two; the alpha is the larger of the two alphas |
| Colors.BlendIdentities | src/color.rs:87-104 | a fully transparent overlay leaves the base unchanged; a fully opaque overlay replaces it |
| Colors.AddAssign | src/color.rs:71-85 | `+=` on a 4-byte pixel writes the blend of the old pixel and the colour into those bytes and changes no other byte |
| RendererColors.FromRgba | renderer/src/color.rs:17-19 | agrees with the `src` constructor |
| RendererColors.FromRgbaSlice | renderer/src/color.rs:21-28 | the colour is made of the slice's four bytes in order, and writing it back gives the slice |
| RendererColors.FromRgbaU32Bytes | renderer/src/color.rs:30-37 | the masked shifts give red = top byte, then green, blue and alpha = low byte; the result agrees with the unmasked `src` decoding |
| RendererColors.FromRgbaU32Injective | renderer/src/color.rs:30-37 | distinct words decode to distinct colours |
| RendererColors.ConstantsOpaque | renderer/src/color.rs:10-15 | the six named colours have the listed channels and are opaque |
| Sampling.Composite | src/entities.rs:98-100 | `if let Some(color) = ... { pixel += color }`: no report leaves the pixel, a report is blended over it |
| Sampling.ScaledAlpha | src/entities.rs:82-86 | the coverage-scaled alpha never exceeds the colour's alpha; full coverage keeps it and zero coverage gives 0 |
| Sampling.ScaledAlphaBound | src/entities.rs:86 | `a * count / total` stays within 0..a, so the `as u8` cast does not truncate |
| Raster.PaintedAt | src/entities.rs:35-43 | after the sweep, a pixel inside the box holds `paint` of its old value and every other pixel is unchanged |
| Raster.PartialStart | src/entities.rs:35-43 | before the first column the sweep has changed nothing |
| Raster.PartialStep | src/entities.rs:35-43 | one inner-loop step writes `paint` of the pixel at (x, y) and moves to (x, y + 1) |
| Raster.PartialNextColumn | src/entities.rs:35-43 | past the last row of a column, the sweep goes on at the top of the next column |
| Raster.PartialEnd | src/entities.rs:35-43 | past the last column, the sweep is the full painted buffer |
| Raster.PaintedEmpty | src/entities.rs:35-43 | the sweep of an empty box (an empty `..=` range on either axis) leaves the buffer as it was |
| Raster.PaintedOutsideIsNoop | src/entities.rs:92-105 | when `paint` changes nothing outside the box, sweeping the box equals painting every pixel of the canvas |
| Rectangles.Extent | src/entities.rs:37-38 | the box is symmetric about the centre, in both directions |
| Rectangles.ThreeByThreeExtent | src/entities.rs:37-38 | a 3x3 rectangle centred at (4, 4) covers columns and rows 3 to 5 |
| Rectangles.ExtentColumns | src/entities.rs:37-38 | the extent is symmetric about the centre; it spans `2 * (width / 2) + 1` columns, so an even width draws one column more than asked; a width of -2 or less draws nothing |
| Rectangles.Draw | src/entities.rs:35-43 | the buffer is the sweep of the extent with the rectangle's colour blended into every pixel of it |
| Rectangles.DrawThreeByThree | renderer/tests/rendering.rs:83-113 | a 3x3 white rectangle centred at (4, 4) on a black 9x9 canvas paints exactly cells 3..5 by 3..5 white |
| Rectangles.OverBlackAt | src/entities.rs:35-43 | an opaque rectangle drawn over a black canvas leaves a pixel its colour inside the extent and black outside it |
| Rectangles.BlackCanvas | renderer/tests/rendering.rs:84-87 | a 9x9 canvas whose every pixel is black |
| Circles.Coverage | src/entities.rs:56-80 | the subpixel count is at most `aa * aa` = 4 |
| Circles.CoverageTerms | src/entities.rs:60-80 | the count is the number of the four subpixels whose offset falls inside the scaled radius |
| Circles.ColorAt | src/entities.rs:56-89 | the doubly nested subpixel loop returns the specified sample |
| Circles.SampleShape | src/entities.rs:56-89 | no colour exactly when no subpixel is inside; otherwise 1 to 4 subpixels are inside and the colour is the circle's with alpha `a * n / 4` |
| Circles.SubsampleOutside | src/entities.rs:71-76 | a subpixel of a pixel more than r away along either axis is outside the scaled circle |
| Circles.SampleOutsideSquare | src/entities.rs:92-105 | for radius >= 0, no pixel outside the square the draw loop walks gets a colour |
| Circles.SampleSymmetric | src/entities.rs:56-89 | the sample is symmetric under reflection in both axes through the centre and under swapping the axes |
| Circles.CenterCovered | src/entities.rs:56-89 | for any non-zero radius, negative ones included, all four sub-samples of the centre pixel are inside |
| Circles.CenterAndZeroRadius | src/entities.rs:56-89 | the centre pixel of a circle of radius 1 or more is fully covered; a radius-0 circle covers nothing |
| Circles.Draw | src/entities.rs:92-105 | the buffer is the sweep of the bounding square, compositing each pixel's sample |
| Circles.DrawMissesNothing | src/entities.rs:92-105 | for radius >= 0, walking only the square gives the same buffer as compositing the sample at every pixel of the canvas |
| Circles.NegativeRadiusReportsOutsideSquare | src/entities.rs:56-105 | for a negative radius the walked square is empty and the draw leaves the buffer as it was, yet `color_at` reports a colour at the centre |
| Triangles.CrossProductSign | src/entities.rs:287-289 | the z component of the cross product of a vector with itself is 0 |
| Triangles.CrossProductAntisymmetric | src/entities.rs:287-289 | swapping the operands negates the cross product; a vector crossed with itself gives 0; a vector crossed with its quarter turn gives its squared length, which is never negative |
| Triangles.IsPointInside | src/entities.rs:257-284 | each of the three upscaled vertices passes the inside test |
| Triangles.Upscale | src/entities.rs:257-269 | an upscaled coordinate is 3 modulo 6: the centre of a pixel on the six-times grid |
| Triangles.EdgeSideSwap | src/entities.rs:257-284 | reversing an edge negates the side test |
| Triangles.IsPointInsidePermutation | src/entities.rs:257-284 | the inside test does not depend on the order or the orientation of the vertices |
| Triangles.Coverage | src/entities.rs:228-254 | the subpixel count is at most 4 |
| Triangles.CoverageTerms | src/entities.rs:232-245 | the count is the number of the four subpixel points the inside test accepts |
| Triangles.ColorAt | src/entities.rs:228-254 | the subpixel loops return the specified sample |
| Triangles.CountColumn | src/entities.rs:235-244 | the inner subpixel loop counts the accepted points of one column |
| Triangles.SampleShape | src/entities.rs:228-254 | no colour exactly when no subpixel is inside; otherwise 1 to 4 are inside and the colour is the triangle's with alpha `a * n / 4` |
| Triangles.SamplePermutation | src/entities.rs:228-254 | the sample does not depend on vertex order or orientation |
| Triangles.EdgeSidesSum | src/entities.rs:257-289 | the three edge tests of a point sum to twice the signed area, wherever the point lies |
| Triangles.Barycentric | src/entities.rs:257-289 | the edge tests are barycentric weights: they combine the vertices into twice the area times the point |
| Triangles.Area2Upscale | src/entities.rs:257-269 | upscaling multiplies twice the signed area by 36 |
| Triangles.BoundingBox | src/entities.rs:209-212 | the min/max box is non-empty and contains all three vertices |
| Triangles.SubsampleOutsideBox | src/entities.rs:257-284 | for a non-degenerate triangle, no subpixel of a pixel outside the bounding box passes the inside test |
| Triangles.SampleOutsideBox | src/entities.rs:207-254 | a non-degenerate triangle reports nothing outside its bounding box |
| Triangles.PointTriangleCoversEverything | src/entities.rs:207-284 | a triangle whose three vertices coincide is degenerate, and every edge test is 0, so it reports its full colour at every pixel; its bounding box is the single pixel of the vertex |
| Triangles.Parallel | src/entities.rs:287-289 | two vectors that are both parallel to a non-zero vector are parallel to each other |
| Triangles.CollinearCoversLine | src/entities.rs:257-284 | for a zero-area triangle with two distinct vertices, every point on the line through them passes the inside test, however far it lies from the vertices |
| Triangles.DiagonalTriangleCoversDiagonal | src/entities.rs:228-284 | a triangle with all three vertices on the diagonal x = y is degenerate and reports a colour at every pixel of the diagonal |
| Triangles.CollinearReportsOutsideBox | src/entities.rs:207-284 | the triangle (0,0), (2,2), (4,4) is degenerate, pixel (6,6) lies outside its bounding box, and `color_at` still reports a colour there |
| Triangles.BoxedSample | src/entities.rs:207-223 | the report a pixel gets from the triangle's draw loop: nothing outside the bounding box, and for a non-degenerate triangle the same as `color_at` everywhere |
| Triangles.Draw | src/entities.rs:207-223 | the buffer is the sweep of the bounding box, compositing each pixel's sample |
| Triangles.DrawMissesNothing | src/entities.rs:207-284 | for a non-degenerate triangle, walking only the bounding box gives the same buffer as compositing `color_at` at every pixel of the canvas; for every triangle, degenerate ones included, it gives the same buffer as compositing the draw loop's report (`BoxedSample`) everywhere |
| Glyphs.FontValid | src/entities/text.rs:79-1017 | every glyph has ten rows, every width is at most 5, and no row has a bit set at or beyond its glyph's width |
| Texts.Width | src/entities/text.rs:885-1017 | a glyph is at most 5 pixels wide |
| Texts.TextWidth | src/entities/text.rs:15-18 | each character adds its glyph width plus the 1-pixel gap, so the width lies between the length and six times the length |
| Texts.TextNew | src/entities/text.rs:14-27 | a text of ASCII characters is built with the given fields and its cached width is the sum above; any other text indexes past the 128-entry tables |
| Texts.TextWidthAppend | src/entities/text.rs:15-18 | the width of a concatenation is the sum of the widths |
| Texts.Scan | src/entities/text.rs:41-72 | the character scan reports nothing or the text's colour |
| Texts.Sample | src/entities/text.rs:32-72 | a colour is reported only inside the fast-path window, and it is the text's colour |
| Texts.ColorAt | src/entities/text.rs:32-72 | the fast path and the character loop return the specified sample |
| Texts.GlyphColorAt | src/entities/text.rs:47-63 | inside a glyph's span, the bit test of the glyph row returns the specified sample |
| Texts.CharStartStep | src/entities/text.rs:66-68 | the cursor advances by the glyph width plus the gap, times the size |
| Texts.CharStartMonotone | src/entities/text.rs:66-68 | cursor positions never decrease along the text |
| Texts.ScanSkips | src/entities/text.rs:41-70 | a pixel right of a character's start is not claimed by the characters before it |
| Texts.GlyphCell | src/entities/text.rs:46-68 | in a character's cell, the pixel is coloured exactly when the glyph bit at (row, column) = ((y - top) / size, (x - start) / size) is set; the 1-pixel gap is never coloured |
| Texts.ScanLeftOfCursor | src/entities/text.rs:46-68 | a pixel left of the cursor is never coloured |
| Texts.SampleFromCell | src/entities/text.rs:41-72 | the sample equals the scan from any character whose start is at or left of the pixel |
| Texts.ZeroWidthInvisible | src/entities/text.rs:46-68 | a zero-width glyph occupies just its gap and colours nothing |
| Texts.WindowIsCells | src/entities/text.rs:32-68 | every pixel of the window falls in the cell of some character |
| Texts.ZeroSizeInvisible | src/entities/text.rs:33-39 | a text of size 0 is never drawn |
| Drawables.PaintIsComposite | src/entities.rs:92-105 | inside its box, a shape composites its report into the pixel |
| Drawables.Drawn | renderer/src/lib.rs:63-65 | drawing keeps the buffer the size of the canvas |
| Drawables.Rendered | renderer/src/lib.rs:104-108 | rendering keeps the buffer the size of the canvas |
| Drawables.ColorAt | src/entities.rs:56-89 | dispatch over the shapes to the report each one's draw loop composites at a pixel: the circle's `color_at`; the triangle's `color_at` inside its bounding box and nothing outside it; for a rectangle, which has no `color_at` in the source, its colour inside its extent and nothing outside |
| Drawables.Draw | renderer/src/entities.rs:26-96 | a shape's draw is its sweep |
| Drawables.DrawnAt | renderer/src/entities.rs:26-96 | a drawn pixel inside the shape's box is the composite of its old value and the shape's report; a pixel outside keeps its value |
| Drawables.RenderedAppend | renderer/src/lib.rs:104-108 | rendering two lists in turn equals rendering their concatenation |
| Drawables.LastOpaqueWins | renderer/src/lib.rs:104-108 | where the last object reports an opaque colour, the pixel ends up exactly that colour |
| Drawables.RenderedOutside | renderer/src/lib.rs:104-108 | a pixel outside every object's box keeps its value |
| Canvases.PixelsOf | src/lib.rs:63-67 | a byte buffer of 4n bytes holds n pixels |
| Canvases.BytesOf | src/lib.rs:63-67 | n pixels take 4n bytes |
| Canvases.BytesOfAt | src/lib.rs:111-116 | bytes 4j..4j+4 of the buffer are pixel j |
| Canvases.PixelsRoundTrip | src/lib.rs:63-67 | the pixels-to-bytes and bytes-to-pixels views are inverse in both directions |
| Canvases.FilledPixels | src/lib.rs:94-98 | a buffer repeating one colour's four bytes is that colour at every pixel |
| Canvases.PixelsAfterAddAssign | src/color.rs:71-85 | `+=` on the bytes of pixel k blends pixel k and leaves every other pixel alone |
| Canvases.Canvas.WithSize | src/lib.rs:74-86 | a canvas of the given size, black background, `4 * width * height` bytes, every pixel black |
| Canvases.Canvas.Default | src/lib.rs:140-157 | a 640x480 canvas, black background, every pixel black |
| Canvases.Canvas.Resize | src/lib.rs:88-92 | the buffer gets `4 * width * height` bytes, then every pixel takes the background colour |
| Canvases.Canvas.FillBuffer | src/lib.rs:94-98 | every 4-byte chunk holds the colour's bytes, so every pixel is that colour |
| Canvases.Canvas.ClearBuffer | src/lib.rs:99-101 | every pixel takes the background colour |
| Canvases.Canvas.GetMutPixel | src/lib.rs:111-116 | the pixel's chunk starts at `4 * (y * width + x)` and holds that pixel; no chunk when the index is outside the buffer |
| Canvases.Canvas.CompositePixel | src/lib.rs:111-116 | compositing through the mutable chunk changes exactly that pixel, to the composite of its old value and the report |
| Canvases.Canvas.DrawColumn | src/entities.rs:94-103 | one column of the inner loop advances the sweep by one column |
| Canvases.Canvas.Draw | src/lib.rs:58-60 | drawing one shape on the byte canvas gives the same pixels as the colour-buffer draw |
| Canvases.Canvas.Render | src/lib.rs:103-109 | the pixels after render are the objects drawn in order |
| RendererCanvases.Canvas.WithSize | renderer/src/lib.rs:81-93 | a canvas of the given size, black background, `width * height` black pixels |
| RendererCanvases.Canvas.Default | renderer/src/lib.rs:132-149 | a 640x480 black canvas |
| RendererCanvases.Canvas.Resize | renderer/src/lib.rs:95-98 | `Vec::resize`: the kept prefix is unchanged and the added pixels are the background colour |
| RendererCanvases.Canvas.ClearBuffer | renderer/src/lib.rs:100-102 | every pixel takes the background colour |
| RendererCanvases.Canvas.Render | renderer/src/lib.rs:104-108 | the buffer after render is the objects drawn in order |
| Screens.IndexOnScreen | lib-jeri/src/renderer.rs:104-106 | `position_to_index`: the 1-based index of an on-screen position lies in the buffer and is the 0-based index of (x - 1, y - 1) |
| Screens.IndexInjective | lib-jeri/src/renderer.rs:104-106 | distinct on-screen positions have distinct indices |
| Screens.Drawn | lib-jeri/src/renderer.rs:128-151 | drawing keeps the buffer the size of the screen |
| Screens.DrawRectangle | lib-jeri/src/renderer.rs:128-136 | the rectangle's extent is overwritten with its colour |
| Screens.DrawCircle | lib-jeri/src/renderer.rs:138-151 | the pixels of the square that are within the radius are overwritten with the colour |
| Screens.Draw | lib-jeri/src/renderer.rs:128-151 | a shape's draw is its specified effect |
| Screens.DrawnAt | lib-jeri/src/renderer.rs:128-151 | a drawn pixel takes the shape's colour exactly when the shape covers it, otherwise it is unchanged |
| Screens.WithinBoundCentre | lib-jeri/src/renderer.rs:121-125 | `within_bound` holds at the centre, and for radius 0 it holds at the centre only |
| Screens.WithinBoundInSquare | lib-jeri/src/renderer.rs:121-125 | for radius >= 0, every point within the radius lies in the square the loop walks |
| Screens.CircleDrawnExactly | lib-jeri/src/renderer.rs:138-151 | for radius >= 0, the circle draw colours exactly the on-screen points within the radius |
| Screens.NegativeRadiusWithinBound | lib-jeri/src/renderer.rs:121-151 | for a negative radius `within_bound` holds at the centre, but the walked square is empty and the draw leaves the buffer as it was |
| Screens.RadiusTwoDiamond | lib-jeri/src/renderer.rs:179-207 | the radius-2 circle at (5, 5) covers exactly the diamond of points at taxicab distance at most 2 |
| Screens.Rendered | lib-jeri/src/renderer.rs:93-97 | rendering keeps the buffer the size of the screen |
| Screens.RenderedAt | lib-jeri/src/renderer.rs:93-97 | after render a pixel has the colour of the last object covering it, or its old value when none does |
| Screens.LastCovering | lib-jeri/src/renderer.rs:93-97 | the last covering object's index is -1 or a valid index |
| Screens.LastCoveringIsLast | lib-jeri/src/renderer.rs:93-97 | it is -1 exactly when no object covers the point; otherwise that object covers it and no later one does |
| Screens.Symbol | lib-jeri/src/renderer.rs:16-27 | a cell prints as `.` or `W`, and as `W` exactly when it is white |
| Screens.RowText | lib-jeri/src/renderer.rs:32-34 | one row prints as `width` symbols |
| Screens.DebugTextLength | lib-jeri/src/renderer.rs:29-40 | k rows print as `k * (width + 1)` characters |
| Screens.DebugTextChar | lib-jeri/src/renderer.rs:29-40 | character c of printed row r is the symbol of cell `r * width + c`, or the newline at c = width |
| Screens.DebugTextAt | lib-jeri/src/renderer.rs:16-40 | every cell of the printed rows is `.` for black or `W` for white, and every row ends with a newline |
| Screens.RowCount | lib-jeri/src/renderer.rs:31 | `chunks_exact` yields the whole rows only: a trailing partial row is dropped, and a negative width (cast to a huge `usize`) yields none |
| Screens.WriteRow | lib-jeri/src/renderer.rs:32-34 | the inner loop writes the symbol of each cell of the row |
| Screens.WriteRows | lib-jeri/src/renderer.rs:31-36 | the outer loop writes the full debug text, or nothing for a negative width |
| Screens.Screen.WithSize | lib-jeri/src/renderer.rs:66-78 | a screen of the given size, black background, `width * height` black cells |
| Screens.Screen.Default | lib-jeri/src/renderer.rs:42-59 | a 640x480 black screen |
| Screens.Screen.SetBackgroundColor | lib-jeri/src/renderer.rs:80-82 | only the background colour changes |
| Screens.Screen.Resize | lib-jeri/src/renderer.rs:84-87 | `Vec::resize`: the kept prefix is unchanged and the added cells are the background colour |
| Screens.Screen.ClearBuffer | lib-jeri/src/renderer.rs:89-91 | every cell takes the background colour |
| Screens.Screen.Render | lib-jeri/src/renderer.rs:93-97 | the buffer after render is the objects drawn in order |
| Screens.Screen.Fmt | lib-jeri/src/renderer.rs:29-40 | the output has `rows * (width + 1)` characters: each cell's symbol in row order and a newline after each whole row |

## Left out

- `Line` (`src/entities.rs:107-205`, `renderer/src/entities.rs:98-197`): its draw works in
  floating point, and floating point is not modelled.
- The thread pool (`src/threadpool.rs`) is not part of this model. Rendering here is
  sequential.
- The `Debug` output of `Color` and `Canvas` in `src` and `renderer` is not modelled. The
  lib-jeri `Debug` output of `Screen` is.
- PNG loading, saving and diffing in the integration tests is I/O and is not modelled.
- Integer widths: `i32` overflow, the `as usize` cast of a negative index, and out-of-bounds
  slice indexing are not modelled as wrap-around or panics. These are excluded by `requires`
  clauses:
  - `PixelCountFits` for canvas sizes;
  - `BoxFits` for the box a draw walks. It excludes more than the panics. A box that hangs
    over the right edge, or over the left edge on a row below the first, stays inside the
    buffer in the source: `position_to_index` wraps the pixel into the neighbouring row (a
    circle at (1900, 900) of radius 40 on a 1920-wide canvas, `tests/rendering.rs:309-311`,
    writes its pixel (1925, 900) to row 901, column 5). `BoxFits` rules out every box that is
    not wholly on the canvas, so shapes that fall partly off the canvas, and that wrap-around,
    are outside the model. The source itself leaves such shapes unhandled
    (`renderer/src/entities.rs:5`);
  - `Texts.GlyphSpansFitU8` for the `u8` product `glyph_width * size`.

  The ones listed next are not excluded. They are computed on unbounded integers.
- `Geometry.Scale`: the `i32` products `width * k` and `height * k` (`src/lib.rs:24-28`) are
  unbounded and do not overflow.
- `Geometry.Sub`: the componentwise subtraction (`src/lib.rs:50-54`) is unbounded, for both the
  `i32` and the `i64` positions it is used with.
- `Screens.WithinBound`: the `i32` squares and their sum (`lib-jeri/src/renderer.rs:122-124`)
  are unbounded.
- `Texts.ColorAt`: the `i32` sums of the fast-path window (`src/entities/text.rs:35-38`) and the
  cursor advance (`src/entities/text.rs:67`) are unbounded. Where the source would overflow,
  for a text placed near the end of the `i32` range, the model gives the mathematical value.
- `Canvases.Canvas.GetMutPixel`: the `i32` index `y * width + x` (`src/lib.rs:112`) is
  unbounded. A position whose index overflows `i32` is not modelled as a wrap-around.
- `Circles.ColorAt`: the `i64` products `dx * dx + dy * dy` and `sr * sr`
  (`src/entities.rs:71-76`) are unbounded, so centres and radii far beyond the canvas do not
  wrap.
- `Triangles.ColorAt`: the `i64` cross products (`src/entities.rs:287-289`) are unbounded in
  the same way.
- `Texts.ColorAt`: text is not one of the `Drawables.Shape` cases. `tests/rendering.rs:259-290`
  renders texts with `canvas.render`. But `impl Drawable for Text` (`src/entities/text.rs:30-72`)
  only defines `color_at`, and no `draw` for a text is in the `src` files this model covers. The
  model stops at `color_at`.
- `Drawables.Shape`: the drawable trait objects are modelled as a closed sum of rectangle,
  circle and triangle. `renderer` has no triangle, and there its render is used with the
  rectangle and circle cases only.
- `Canvases.Canvas.Draw`: the `src` tree has two signatures of `Drawable::draw`. `src/lib.rs`
  has `draw(&self, &mut Canvas)`, while the shapes in `src/entities.rs` implement
  `draw(buffer, size)`. The byte-canvas draw writes through `get_mut_pixel` and `+=`, and is
  proved equal to the colour-buffer sweep.
- `Canvases.Canvas.Resize`, `RendererCanvases.Canvas.Resize` and `Screens.Screen.Resize`:
  `Vec::resize` is modelled as allocating a fresh array that keeps the old prefix. Capacity and
  in-place growth are not modelled. As in the source, `size` is not updated.
- `size_ref` and `buffer_ref` (`src/lib.rs:118-124`) are plain field reads and have no member of
  their own.
- `with_alpha` and `+=` on a `renderer` colour are called in `renderer/src/entities.rs` but not
  defined in the `renderer` files this model covers. The `renderer` model uses the `src`
  versions of those two operations.
- lib-jeri `Size` and `Position` (defined in `lib-jeri/src/lib.rs`) reuse the `Geometry`
  datatypes.
- `Screens.Screen.Fmt`: a zero width, which makes `chunks_exact` panic, is excluded by a
  `requires`. I/O errors from the formatter are not modelled.

## Findings

| source | as written | input that shows it | evidently intended | confidence | as-written member | corrected member |
|---|---|---|---|---|---|---|
| src/entities.rs:207-284 | `is_point_inside` accepts a point when all three edge tests are `>= 0` or all are `<= 0`. For a zero-area triangle all three are 0 on the whole line through its vertices, so `color_at` reports a colour outside the bounding box that `draw` walks | triangle (0,0), (2,2), (4,4), pixel (6,6) | the bounding-box walk of `draw` never changes the outcome of `color_at`, which holds for every non-degenerate triangle (`Triangles.SampleOutsideBox`) | not executed | Triangles.CollinearReportsOutsideBox | Triangles.BoxedSample |
| src/entities.rs:56-105, lib-jeri/src/renderer.rs:121-151 | the radius is never checked. The draw loops walk `cx - r ..= cx + r`, which is empty for a negative radius, while `color_at` and `within_bound` compare with `(2 w r)^2` and `r * r`, which are positive whatever the sign of r | circle at (0, 0) of radius -1, pixel (0, 0) | a circle is drawn on exactly the pixels it reports or is within bound of, which holds for every radius >= 0 | not executed | Circles.NegativeRadiusReportsOutsideSquare, Screens.NegativeRadiusWithinBound | Circles.DrawMissesNothing, Screens.CircleDrawnExactly |

For the triangle, the rest of the model uses `Triangles.BoxedSample`, the report that `draw` actually composites,
and `Triangles.DrawMissesNothing` holds for it on every triangle. The buffer `draw` produces is
the same as in the source. `BoxedSample` differs from `color_at` only at pixels outside the box,
and `draw` never calls `color_at` there.

For the circle, the model keeps the source's draw loops for every radius. Its statements that
the draw matches the sample (`Circles.SampleOutsideSquare`, `Circles.DrawMissesNothing`,
`Screens.WithinBoundInSquare`, `Screens.CircleDrawnExactly`) are proved for radius >= 0, the
evidently intended domain.
