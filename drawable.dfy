/** The primitives a canvas can render, as one closed set of shapes, and what rendering a list
    of them does to a row-major buffer: each shape in turn, in the caller's order, composites
    what it reports for every pixel of the box its draw loop walks. */
module Drawables {
  import opened Colors
  import opened Geometry
  import opened Raster
  import opened Sampling
  import Rectangles
  import Circles
  import Triangles

  datatype Shape =
    | Rect(rect: Rectangles.Rectangle)
    | Circ(circle: Circles.Circle)
    | Tri(triangle: Triangles.Triangle)

  /** The box the shape's draw loop walks. */
  function Bounds(shape: Shape): Box
  {
    match shape
    case Rect(r) => Rectangles.Extent(r.center, r.size)
    case Circ(c) => Circles.Square(c)
    case Tri(t) => Triangles.BoundingBox(t)
  }

  /** What the shape reports for a pixel as its draw loop sees it: a rectangle covers its box
      with its own colour, a circle reports its anti-aliased sample, a triangle its sample
      inside its bounding box and nothing outside. */
  function Sample(shape: Shape, pos: Position): Option<Color>
  {
    match shape
    case Rect(r) => if InBox(Bounds(shape), pos.x, pos.y) then Some(r.color) else None
    case Circ(c) => Circles.Sample(c, pos)
    case Tri(t) => Triangles.BoxedSample(t, pos)
  }

  /** A pixel of the box as the shape's draw loop leaves it. */
  function Paint(shape: Shape): (Color, int, int) -> Color
  {
    match shape
    case Rect(r) => Rectangles.Paint(r)
    case Circ(c) => Circles.Paint(c)
    case Tri(t) => Triangles.Paint(t)
  }

  /** Inside its box, a shape composites its report into the pixel. */
  lemma PaintIsComposite(shape: Shape, pixel: Color, x: int, y: int)
    requires InBox(Bounds(shape), x, y)
    ensures Paint(shape)(pixel, x, y) == Composite(pixel, Sample(shape, Position(x, y)))
  {
  }

  /** The buffer after one shape has been drawn into it. */
  function Drawn(prev: seq<Color>, s: Size, shape: Shape): (r: seq<Color>)
    requires Fits(prev, s)
    ensures Fits(r, s)
  {
    Painted(prev, s, Bounds(shape), Paint(shape))
  }

  /** The buffer after every shape of the list has been drawn, first to last. */
  function Rendered(prev: seq<Color>, s: Size, objects: seq<Shape>): (r: seq<Color>)
    requires Fits(prev, s)
    ensures Fits(r, s)
    decreases |objects|
  {
    if objects == [] then prev
    else Drawn(Rendered(prev, s, objects[..|objects| - 1]), s, objects[|objects| - 1])
  }

  /** Every shape's box lies on the canvas (the source indexes out of bounds otherwise). */
  predicate AllFit(objects: seq<Shape>, s: Size)
  {
    forall i | 0 <= i < |objects| :: BoxFits(Bounds(objects[i]), s)
  }

  /** `color_at` of the shape, asked only inside the box its draw loop walks (a rectangle has
      none: its draw blends its colour over its box). */
  method ColorAt(shape: Shape, pos: Position) returns (r: Option<Color>)
    ensures r == Sample(shape, pos)
  {
    match shape
    case Rect(rc) =>
      var b := Rectangles.Extent(rc.center, rc.size);
      r := if b.x0 <= pos.x <= b.x1 && b.y0 <= pos.y <= b.y1 then Some(rc.color) else None;
    case Circ(c) =>
      r := Circles.ColorAt(c, pos);
    case Tri(t) =>
      var b := Triangles.BoundingBox(t);
      if b.x0 <= pos.x <= b.x1 && b.y0 <= pos.y <= b.y1 {
        r := Triangles.ColorAt(t, pos);
      } else {
        r := None;
      }
  }

  /** `Drawable::draw` of the shape on a buffer of colours. */
  method Draw(shape: Shape, buffer: array<Color>, canvasSize: Size)
    requires Fits(buffer[..], canvasSize) && BoxFits(Bounds(shape), canvasSize)
    modifies buffer
    ensures buffer[..] == Drawn(old(buffer[..]), canvasSize, shape)
  {
    match shape
    case Rect(r) => Rectangles.Draw(r, buffer, canvasSize);
    case Circ(c) => Circles.Draw(c, buffer, canvasSize);
    case Tri(t) => Triangles.Draw(t, buffer, canvasSize);
  }

  /** A drawn pixel: a pixel of the shape's box has the shape's report composited into it,
      every other pixel keeps its value. */
  lemma DrawnAt(prev: seq<Color>, s: Size, shape: Shape, p: Position)
    requires Fits(prev, s) && OnCanvas(s, p)
    ensures 0 <= PositionToIndex(s, p) < |prev|
    ensures Drawn(prev, s, shape)[PositionToIndex(s, p)] ==
      if InBox(Bounds(shape), p.x, p.y) then Composite(prev[PositionToIndex(s, p)], Sample(shape, p))
      else prev[PositionToIndex(s, p)]
  {
    PaintedAt(prev, s, Bounds(shape), Paint(shape), p);
    if InBox(Bounds(shape), p.x, p.y) {
      PaintIsComposite(shape, prev[PositionToIndex(s, p)], p.x, p.y);
    }
  }

  /** Rendering two lists one after the other is rendering their concatenation. */
  lemma {:induction false} RenderedAppend(prev: seq<Color>, s: Size, first: seq<Shape>, second: seq<Shape>)
    requires Fits(prev, s)
    ensures Rendered(prev, s, first + second) == Rendered(Rendered(prev, s, first), s, second)
    decreases |second|
  {
    if second == [] {
      assert first + second == first;
    } else {
      var init := second[..|second| - 1];
      assert (first + second)[..|first + second| - 1] == first + init;
      assert (first + second)[|first + second| - 1] == second[|second| - 1];
      RenderedAppend(prev, s, first, init);
    }
  }

  /** Later shapes paint over earlier ones: where the last shape reports an opaque colour, the
      pixel ends up with exactly that colour, whatever was drawn before. */
  lemma LastOpaqueWins(prev: seq<Color>, s: Size, objects: seq<Shape>, p: Position)
    requires Fits(prev, s) && OnCanvas(s, p) && objects != []
    requires InBox(Bounds(objects[|objects| - 1]), p.x, p.y)
    requires Sample(objects[|objects| - 1], p).Some? && Sample(objects[|objects| - 1], p).value.a == 0xFF
    ensures 0 <= PositionToIndex(s, p) < |prev|
    ensures Rendered(prev, s, objects)[PositionToIndex(s, p)] == Sample(objects[|objects| - 1], p).value
  {
    var before := Rendered(prev, s, objects[..|objects| - 1]);
    DrawnAt(before, s, objects[|objects| - 1], p);
    BlendIdentities(before[PositionToIndex(s, p)], Sample(objects[|objects| - 1], p).value);
  }

  /** A pixel outside the box of every shape keeps its value. */
  lemma {:induction false} RenderedOutside(prev: seq<Color>, s: Size, objects: seq<Shape>, p: Position)
    requires Fits(prev, s) && OnCanvas(s, p)
    requires forall i | 0 <= i < |objects| :: !InBox(Bounds(objects[i]), p.x, p.y)
    ensures 0 <= PositionToIndex(s, p) < |prev|
    ensures Rendered(prev, s, objects)[PositionToIndex(s, p)] == prev[PositionToIndex(s, p)]
    decreases |objects|
  {
    IndexOnCanvas(s, p);
    if objects != [] {
      var init := objects[..|objects| - 1];
      RenderedOutside(prev, s, init, p);
      DrawnAt(Rendered(prev, s, init), s, objects[|objects| - 1], p);
    }
  }
}
