/** The rectangle: a hard-edged box around its centre, `size / 2` (Rust's truncating division)
    to either side, both ends included. The newest and the middle renderer versions draw it
    with the same loop, blending the colour into every pixel of the box. */
module Rectangles {
  import opened Colors
  import opened Geometry
  import opened Raster
  import opened Sampling

  datatype Rectangle = Rectangle(center: Position, size: Size, color: Color)

  /** `cx - w/2 ..= cx + w/2` by `cy - h/2 ..= cy + h/2`. */
  function Extent(center: Position, size: Size): (b: Box)
    ensures center.x - b.x0 == b.x1 - center.x && center.y - b.y0 == b.y1 - center.y
  {
    Box(center.x - Half(size.width), center.x + Half(size.width),
        center.y - Half(size.height), center.y + Half(size.height))
  }

  /** The box is centred on the centre and spans `2*(w/2) + 1` columns: w columns for an odd
      width, w + 1 for an even one, none for a width of -2 or less. */
  lemma ExtentColumns(center: Position, size: Size)
    ensures center.x - Extent(center, size).x0 == Extent(center, size).x1 - center.x
    ensures Extent(center, size).x1 - Extent(center, size).x0 + 1 == 2 * Half(size.width) + 1
    ensures size.width >= 0 ==>
      Extent(center, size).x1 - Extent(center, size).x0 + 1 == if size.width % 2 == 1 then size.width else size.width + 1
    ensures size.width <= -2 ==> IsEmpty(Extent(center, size))
    ensures size.height >= 0 ==>
      Extent(center, size).y1 - Extent(center, size).y0 + 1 == if size.height % 2 == 1 then size.height else size.height + 1
  {
  }

  /** A pixel as the rectangle leaves it. */
  function Paint(r: Rectangle): (Color, int, int) -> Color
  {
    (pixel: Color, x: int, y: int) => Blend(pixel, r.color)
  }

  /** `Rectangle::draw`: blends the colour into every pixel of the box, in row-major buffer
      order `y * width + x`. */
  method Draw(r: Rectangle, buffer: array<Color>, canvasSize: Size)
    requires Fits(buffer[..], canvasSize) && BoxFits(Extent(r.center, r.size), canvasSize)
    modifies buffer
    ensures buffer[..] == Painted(old(buffer[..]), canvasSize, Extent(r.center, r.size), Paint(r))
  {
    ghost var prev := buffer[..];
    var b := Extent(r.center, r.size);
    PartialStart(prev, canvasSize, b, Paint(r));
    var halfWidth, halfHeight := Half(r.size.width), Half(r.size.height);
    var x := r.center.x - halfWidth;
    while x <= r.center.x + halfWidth
      invariant b.x0 <= x && (b.x0 <= b.x1 ==> x <= b.x1 + 1)
      invariant buffer[..] == Partial(prev, canvasSize, b, x, b.y0, Paint(r))
    {
      var y := r.center.y - halfHeight;
      while y <= r.center.y + halfHeight
        invariant b.y0 <= y && (b.y0 <= b.y1 ==> y <= b.y1 + 1)
        invariant buffer[..] == Partial(prev, canvasSize, b, x, y, Paint(r))
      {
        PartialStep(prev, canvasSize, b, x, y, Paint(r));
        var i := PositionToIndex(canvasSize, Position(x, y));
        buffer[i] := Blend(buffer[i], r.color);
        y := y + 1;
      }
      PartialNextColumn(prev, canvasSize, b, x, y, Paint(r));
      x := x + 1;
    }
    PartialEnd(prev, canvasSize, b, x, Paint(r));
  }

  /** On a 9 by 9 black canvas, a white 3 by 3 rectangle centred at (4, 4) turns exactly
      rows and columns 3 to 5 white. */
  lemma DrawThreeByThree(p: Position)
    requires OnCanvas(Size(9, 9), p)
    ensures 0 <= PositionToIndex(Size(9, 9), p) < 81
    ensures ThreeByThree()[PositionToIndex(Size(9, 9), p)] == if 3 <= p.x <= 5 && 3 <= p.y <= 5 then WHITE else BLACK
  {
    var r := Rectangle(Position(4, 4), Size(3, 3), WHITE);
    WhiteOverBlack();
    ThreeByThreeExtent();
    OverBlackAt(BlackCanvas(), Size(9, 9), r, p);
  }

  /** Any rectangle of an opaque colour over a uniformly black canvas. */
  lemma OverBlackAt(prev: seq<Color>, s: Size, r: Rectangle, p: Position)
    requires Fits(prev, s) && OnCanvas(s, p) && Blend(BLACK, r.color) == r.color
    requires forall i | 0 <= i < |prev| :: prev[i] == BLACK
    ensures 0 <= PositionToIndex(s, p) < |prev|
    ensures Painted(prev, s, Extent(r.center, r.size), Paint(r))[PositionToIndex(s, p)] ==
      if InBox(Extent(r.center, r.size), p.x, p.y) then r.color else BLACK
  {
    PaintedAt(prev, s, Extent(r.center, r.size), Paint(r), p);
  }

  lemma ThreeByThreeExtent()
    ensures Extent(Position(4, 4), Size(3, 3)) == Box(3, 5, 3, 5)
  {
    assert Half(3) == 1;
  }

  function BlackCanvas(): (r: seq<Color>)
    ensures Fits(r, Size(9, 9))
    ensures forall i | 0 <= i < |r| :: r[i] == BLACK
  {
    seq(81, _ => BLACK)
  }

  function ThreeByThree(): seq<Color>
  {
    Painted(BlackCanvas(), Size(9, 9), Extent(Position(4, 4), Size(3, 3)), Paint(Rectangle(Position(4, 4), Size(3, 3), WHITE)))
  }

  lemma WhiteOverBlack()
    ensures Blend(BLACK, WHITE) == WHITE
  {
    NamedColorsOpaque();
    BlendIdentities(BLACK, WHITE);
  }
}
