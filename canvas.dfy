/** The canvas of the newest renderer version: a size, a buffer of four bytes (r, g, b, a) per
    pixel in row-major order, and a background colour. Objects reach the buffer one pixel at a
    time through `get_mut_pixel`, and composite into it with `+=` on the pixel's four bytes. */
module Canvases {
  import opened Arith
  import opened Colors
  import opened Geometry
  import opened Raster
  import opened Sampling
  import opened Drawables

  const DEFAULT_CANVAS_WIDTH: int := 640
  const DEFAULT_CANVAS_HEIGHT: int := 480

  /** The colours of a byte buffer, four bytes per pixel. */
  function PixelsOf(bytes: seq<Byte>): (pixels: seq<Color>)
    requires |bytes| % CHANNELS == 0
    ensures CHANNELS * |pixels| == |bytes|
  {
    seq(|bytes| / CHANNELS, j requires 0 <= j < |bytes| / CHANNELS =>
      FromRgbaArray(bytes[CHANNELS * j .. CHANNELS * j + CHANNELS]))
  }

  /** The byte buffer of a list of colours. */
  function BytesOf(pixels: seq<Color>): (bytes: seq<Byte>)
    ensures |bytes| == CHANNELS * |pixels|
  {
    if pixels == [] then [] else BytesOf(pixels[..|pixels| - 1]) + ToRgbaArray(pixels[|pixels| - 1])
  }

  /** The bytes of pixel j are `to_rgba_array` of its colour. */
  lemma {:induction false} BytesOfAt(pixels: seq<Color>, j: int)
    requires 0 <= j < |pixels|
    ensures BytesOf(pixels)[CHANNELS * j .. CHANNELS * j + CHANNELS] == ToRgbaArray(pixels[j])
    decreases |pixels|
  {
    var init := pixels[..|pixels| - 1];
    if j < |pixels| - 1 {
      BytesOfAt(init, j);
      assert BytesOf(pixels)[CHANNELS * j .. CHANNELS * j + CHANNELS] == BytesOf(init)[CHANNELS * j .. CHANNELS * j + CHANNELS];
    } else {
      assert BytesOf(pixels)[CHANNELS * j .. CHANNELS * j + CHANNELS] == ToRgbaArray(pixels[j]);
    }
  }

  /** Reading a byte buffer as colours and writing the colours back gives the same bytes, and
      the other way round. */
  lemma PixelsRoundTrip(pixels: seq<Color>, bytes: seq<Byte>)
    requires |bytes| % CHANNELS == 0
    ensures PixelsOf(BytesOf(pixels)) == pixels
    ensures BytesOf(PixelsOf(bytes)) == bytes
  {
    forall j | 0 <= j < |pixels|
      ensures PixelsOf(BytesOf(pixels))[j] == pixels[j]
    {
      PixelsBackAt(pixels, j);
    }
    forall i | 0 <= i < |bytes|
      ensures BytesOf(PixelsOf(bytes))[i] == bytes[i]
    {
      BytesBackAt(bytes, i);
    }
  }

  lemma PixelsBackAt(pixels: seq<Color>, j: int)
    requires 0 <= j < |pixels|
    ensures |PixelsOf(BytesOf(pixels))| == |pixels|
    ensures PixelsOf(BytesOf(pixels))[j] == pixels[j]
  {
    BytesOfAt(pixels, j);
    ArrayRoundTrip(pixels[j], ToRgbaArray(pixels[j]));
  }

  lemma BytesBackAt(bytes: seq<Byte>, i: int)
    requires |bytes| % CHANNELS == 0 && 0 <= i < |bytes|
    ensures |BytesOf(PixelsOf(bytes))| == |bytes|
    ensures BytesOf(PixelsOf(bytes))[i] == bytes[i]
  {
    var back := BytesOf(PixelsOf(bytes));
    var j := i / CHANNELS;
    BytesOfAt(PixelsOf(bytes), j);
    assert back[i] == back[CHANNELS * j .. CHANNELS * j + CHANNELS][i - CHANNELS * j];
    assert bytes[i] == bytes[CHANNELS * j .. CHANNELS * j + CHANNELS][i - CHANNELS * j];
  }

  /** A buffer whose every byte is the matching channel of one colour reads as that colour at
      every pixel. */
  lemma FilledPixels(bytes: seq<Byte>, color: Color)
    requires |bytes| % CHANNELS == 0
    requires forall i | 0 <= i < |bytes| :: bytes[i] == ToRgbaArray(color)[i % CHANNELS]
    ensures forall j | 0 <= j < |PixelsOf(bytes)| :: PixelsOf(bytes)[j] == color
  {
    forall j | 0 <= j < |PixelsOf(bytes)|
      ensures PixelsOf(bytes)[j] == color
    {
      forall ch | 0 <= ch < CHANNELS
        ensures bytes[CHANNELS * j + ch] == ToRgbaArray(color)[ch]
      {
        DivUnique(CHANNELS * j + ch, CHANNELS, j, ch);
      }
      assert bytes[CHANNELS * j .. CHANNELS * j + CHANNELS] == ToRgbaArray(color);
    }
  }

  /** `+=` on the bytes of pixel k composites into that pixel and leaves the others as they are. */
  lemma PixelsAfterAddAssign(before: seq<Byte>, after: seq<Byte>, k: int, c: Color)
    requires |before| == |after| && |before| % CHANNELS == 0 && 0 <= k && CHANNELS * k + CHANNELS <= |before|
    requires after[CHANNELS * k .. CHANNELS * k + CHANNELS] ==
      ToRgbaArray(Blend(FromRgbaArray(before[CHANNELS * k .. CHANNELS * k + CHANNELS]), c))
    requires forall i | 0 <= i < |before| && !(CHANNELS * k <= i < CHANNELS * k + CHANNELS) :: after[i] == before[i]
    ensures 0 <= k < |PixelsOf(before)|
    ensures PixelsOf(after) == PixelsOf(before)[k := Blend(PixelsOf(before)[k], c)]
  {
    var p, q := PixelsOf(before), PixelsOf(after);
    forall j | 0 <= j < |p|
      ensures q[j] == p[k := Blend(p[k], c)][j]
    {
      if j != k {
        assert after[CHANNELS * j .. CHANNELS * j + CHANNELS] == before[CHANNELS * j .. CHANNELS * j + CHANNELS];
      }
    }
  }

  class Canvas {
    var size: Size
    var buffer: array<Byte>
    var backgroundColor: Color

    /** The buffer holds whole pixels. */
    ghost predicate Valid()
      reads this
    {
      buffer.Length % CHANNELS == 0
    }

    /** The colours of the buffer (`buffer_ref`, read four bytes at a time). */
    ghost function Pixels(): seq<Color>
      reads this, buffer
      requires Valid()
    {
      PixelsOf(buffer[..])
    }

    /** `Canvas::with_size`: a buffer of `4 * width * height` bytes, cleared to black. */
    constructor WithSize(size: Size)
      requires PixelCountFits(size.width, size.height) && CHANNELS * (size.width * size.height) <= I32_MAX
      ensures Valid() && this.size == size && backgroundColor == BLACK
      ensures buffer.Length == CHANNELS * (size.width * size.height)
      ensures forall i | 0 <= i < |Pixels()| :: Pixels()[i] == BLACK
    {
      this.size := size;
      buffer := new Byte[0];
      backgroundColor := BLACK;
      new;
      Resize(size.width, size.height);
    }

    /** `Canvas::default`: 640 by 480 pixels, cleared to black. */
    constructor Default()
      ensures Valid() && size == Size(DEFAULT_CANVAS_WIDTH, DEFAULT_CANVAS_HEIGHT) && backgroundColor == BLACK
      ensures buffer.Length == CHANNELS * (DEFAULT_CANVAS_WIDTH * DEFAULT_CANVAS_HEIGHT)
      ensures forall i | 0 <= i < |Pixels()| :: Pixels()[i] == BLACK
    {
      size := Size(DEFAULT_CANVAS_WIDTH, DEFAULT_CANVAS_HEIGHT);
      buffer := new Byte[0];
      backgroundColor := BLACK;
      new;
      Resize(DEFAULT_CANVAS_WIDTH, DEFAULT_CANVAS_HEIGHT);
    }

    /** `Canvas::resize`: the buffer gets `4 * width * height` bytes and is then cleared, so
        every pixel has the background colour. The size field is not updated. */
    method Resize(width: int, height: int)
      requires PixelCountFits(width, height)
      modifies this`buffer
      ensures Valid() && fresh(buffer) && buffer.Length == CHANNELS * (width * height)
      ensures forall i | 0 <= i < |Pixels()| :: Pixels()[i] == backgroundColor
    {
      buffer := new Byte[CHANNELS * (width * height)];
      ClearBuffer();
    }

    /** `Canvas::fill_buffer`: every four-byte pixel becomes `[c.r, c.g, c.b, c.a]`. */
    method FillBuffer(color: Color)
      requires Valid()
      modifies buffer
      ensures Valid()
      ensures forall i | 0 <= i < buffer.Length :: buffer[i] == ToRgbaArray(color)[i % CHANNELS]
      ensures forall i | 0 <= i < |Pixels()| :: Pixels()[i] == color
    {
      var chunks := buffer.Length / CHANNELS;
      var j := 0;
      while j < chunks
        invariant 0 <= j <= chunks
        invariant forall i | 0 <= i < CHANNELS * j :: buffer[i] == ToRgbaArray(color)[i % CHANNELS]
      {
        var rgba := ToRgbaArray(color);
        buffer[CHANNELS * j] := rgba[0];
        buffer[CHANNELS * j + 1] := rgba[1];
        buffer[CHANNELS * j + 2] := rgba[2];
        buffer[CHANNELS * j + 3] := rgba[3];
        j := j + 1;
      }
      FilledPixels(buffer[..], color);
    }

    /** `Canvas::clear_buffer`: `fill_buffer` with the background colour. */
    method ClearBuffer()
      requires Valid()
      modifies buffer
      ensures Valid()
      ensures forall i | 0 <= i < |Pixels()| :: Pixels()[i] == backgroundColor
    {
      FillBuffer(backgroundColor);
    }

    /** `Canvas::get_mut_pixel`: the first of the four bytes of the pixel at `position`, or
        nothing where the source's slice index panics. */
    method GetMutPixel(position: Position) returns (r: Option<int>)
      requires Valid()
      ensures r.Some? <==> 0 <= PositionToIndex(size, position) < |Pixels()|
      ensures r.Some? ==> (r.value == CHANNELS * PositionToIndex(size, position) &&
        FromRgbaArray(buffer[r.value .. r.value + CHANNELS]) == Pixels()[PositionToIndex(size, position)])
    {
      var pixel := position.y * size.width + position.x;
      if pixel < 0 || CHANNELS * pixel + CHANNELS > buffer.Length {
        return None;
      }
      return Some(CHANNELS * pixel);
    }

    /** `if let Some(color) = ... { *canvas.get_mut_pixel(position) += color }`: composites a
        report into the pixel at a position on the canvas. */
    method CompositePixel(position: Position, color: Option<Color>)
      requires Valid() && Fits(Pixels(), size) && OnCanvas(size, position)
      modifies buffer
      ensures Valid() && 0 <= PositionToIndex(size, position) < |Pixels()|
      ensures Pixels() == old(Pixels())[PositionToIndex(size, position) :=
        Composite(old(Pixels())[PositionToIndex(size, position)], color)]
    {
      IndexOnCanvas(size, position);
      if color.Some? {
        var at := GetMutPixel(position);
        ghost var before := buffer[..];
        AddAssign(buffer, at.value, color.value);
        PixelsAfterAddAssign(before, buffer[..], PositionToIndex(size, position), color.value);
      }
    }

    /** One column of the shape's loop over its box: the pixels (x, y0) to (x, y1). */
    method DrawColumn(shape: Shape, ghost prev: seq<Color>, x: int)
      requires Valid() && Fits(prev, size) && BoxFits(Bounds(shape), size)
      requires Bounds(shape).x0 <= x <= Bounds(shape).x1
      requires Pixels() == Partial(prev, size, Bounds(shape), x, Bounds(shape).y0, Paint(shape))
      modifies buffer
      ensures Valid() && Pixels() == Partial(prev, size, Bounds(shape), x + 1, Bounds(shape).y0, Paint(shape))
    {
      var b := Bounds(shape);
      var y := b.y0;
      while y <= b.y1
        invariant b.y0 <= y && (b.y0 <= b.y1 ==> y <= b.y1 + 1)
        invariant Valid() && Pixels() == Partial(prev, size, b, x, y, Paint(shape))
      {
        var position := Position(x, y);
        PartialStep(prev, size, b, x, y, Paint(shape));
        PaintIsComposite(shape, prev[PositionToIndex(size, position)], x, y);
        var color := ColorAt(shape, position);
        CompositePixel(position, color);
        y := y + 1;
      }
      PartialNextColumn(prev, size, b, x, y, Paint(shape));
    }

    /** `Drawable::draw(&self, canvas)`: the shape's loop over its box, compositing what it
        reports for each pixel into the pixel's bytes. */
    method Draw(shape: Shape)
      requires Valid() && Fits(Pixels(), size) && BoxFits(Bounds(shape), size)
      modifies buffer
      ensures Valid() && Pixels() == Drawn(old(Pixels()), size, shape)
    {
      ghost var prev := Pixels();
      var b := Bounds(shape);
      PartialStart(prev, size, b, Paint(shape));
      var x := b.x0;
      while x <= b.x1
        invariant b.x0 <= x && (b.x0 <= b.x1 ==> x <= b.x1 + 1)
        invariant Valid() && Pixels() == Partial(prev, size, b, x, b.y0, Paint(shape))
      {
        DrawColumn(shape, prev, x);
        x := x + 1;
      }
      PartialEnd(prev, size, b, x, Paint(shape));
    }

    /** `Canvas::render`: draws each object on the canvas, in the order given. */
    method Render(objects: seq<Shape>)
      requires Valid() && Fits(Pixels(), size) && AllFit(objects, size)
      modifies buffer
      ensures Valid() && Pixels() == Rendered(old(Pixels()), size, objects)
    {
      ghost var prev := Pixels();
      var k := 0;
      while k < |objects|
        invariant 0 <= k <= |objects|
        invariant Valid() && Pixels() == Rendered(prev, size, objects[..k])
      {
        assert objects[..k + 1][..k] == objects[..k];
        Draw(objects[k]);
        k := k + 1;
      }
      assert objects[..k] == objects;
    }
  }
}
