/** The canvas of the middle renderer version: a size, a buffer of one colour per pixel in
    row-major order, and a background colour. Resizing keeps the pixels already there and pads
    new ones with the background; rendering hands the buffer to each object in turn. */
module RendererCanvases {
  import opened Colors
  import opened Geometry
  import opened Raster
  import opened Drawables

  const DEFAULT_CANVAS_WIDTH: int := 640
  const DEFAULT_CANVAS_HEIGHT: int := 480

  class Canvas {
    var size: Size
    var buffer: array<Color>
    var backgroundColor: Color

    /** `Canvas::with_size`: an empty buffer resized to the canvas, so every pixel is black. */
    constructor WithSize(size: Size)
      requires PixelCountFits(size.width, size.height)
      ensures this.size == size && backgroundColor == BLACK
      ensures buffer.Length == size.width * size.height
      ensures forall i | 0 <= i < buffer.Length :: buffer[i] == BLACK
    {
      this.size := size;
      buffer := new Color[0];
      backgroundColor := BLACK;
      new;
      Resize(size.width, size.height);
    }

    /** `Canvas::default`: 640 by 480 pixels, all black, on a black background. */
    constructor Default()
      ensures size == Size(DEFAULT_CANVAS_WIDTH, DEFAULT_CANVAS_HEIGHT) && backgroundColor == BLACK
      ensures buffer.Length == DEFAULT_CANVAS_WIDTH * DEFAULT_CANVAS_HEIGHT
      ensures forall i | 0 <= i < buffer.Length :: buffer[i] == BLACK
    {
      size := Size(DEFAULT_CANVAS_WIDTH, DEFAULT_CANVAS_HEIGHT);
      buffer := new Color[0];
      backgroundColor := BLACK;
      new;
      Resize(DEFAULT_CANVAS_WIDTH, DEFAULT_CANVAS_HEIGHT);
    }

    /** `Canvas::resize` (`Vec::resize`): the buffer gets `width * height` pixels; the first
        ones keep their colour, the added ones take the background colour. The size field is
        not updated. */
    method Resize(width: int, height: int)
      requires PixelCountFits(width, height)
      modifies this`buffer
      ensures fresh(buffer) && buffer.Length == width * height
      ensures forall i | 0 <= i < buffer.Length && i < old(buffer.Length) :: buffer[i] == old(buffer[i])
      ensures forall i | old(buffer.Length) <= i < buffer.Length :: buffer[i] == backgroundColor
    {
      var n := width * height;
      var resized := new Color[n];
      var i := 0;
      while i < n
        invariant 0 <= i <= n
        invariant buffer[..] == old(buffer[..])
        invariant forall k | 0 <= k < i && k < buffer.Length :: resized[k] == buffer[k]
        invariant forall k | buffer.Length <= k < i :: resized[k] == backgroundColor
      {
        if i < buffer.Length {
          resized[i] := buffer[i];
        } else {
          resized[i] := backgroundColor;
        }
        i := i + 1;
      }
      buffer := resized;
    }

    /** `Canvas::clear_buffer`: every pixel takes the background colour. */
    method ClearBuffer()
      modifies buffer
      ensures forall i | 0 <= i < buffer.Length :: buffer[i] == backgroundColor
    {
      var i := 0;
      while i < buffer.Length
        invariant 0 <= i <= buffer.Length
        invariant forall k | 0 <= k < i :: buffer[k] == backgroundColor
      {
        buffer[i] := backgroundColor;
        i := i + 1;
      }
    }

    /** `Canvas::render`: draws each object on the buffer, in the order given. */
    method Render(objects: seq<Shape>)
      requires Fits(buffer[..], size) && AllFit(objects, size)
      modifies buffer
      ensures buffer[..] == Rendered(old(buffer[..]), size, objects)
    {
      ghost var prev := buffer[..];
      var k := 0;
      while k < |objects|
        invariant 0 <= k <= |objects|
        invariant buffer[..] == Rendered(prev, size, objects[..k])
      {
        assert objects[..k + 1][..k] == objects[..k];
        Drawables.Draw(objects[k], buffer, size);
        k := k + 1;
      }
      assert objects[..k] == objects;
    }
  }
}
