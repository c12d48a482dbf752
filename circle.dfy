/** The anti-aliased circle. Each pixel is split into 2 by 2 sub-samples; coordinates are
    scaled by `2 * (aa + 1) = 6` so that every sub-sample centre and the radius are integers.
    Sub-sample `s` (0 or 1) of a pixel `d` away from the centre sits at `6d - 1` or `6d + 1`,
    and it is inside when its squared distance is at most `(6r)^2`. The pixel's alpha is the
    colour's alpha scaled by the number of sub-samples inside, out of 4. The middle renderer
    version has the same sampler and draw loop, word for word. */
module Circles {
  import opened Arith
  import opened Colors
  import opened Geometry
  import opened Raster
  import opened Sampling

  datatype Circle = Circle(center: Position, radius: int, color: Color)

  /** Sub-samples per axis (`aa`) and the up-scaling factor `w = aa + 1`. */
  const AA: nat := 2
  const W: nat := AA + 1

  /** Up-scaled offset of sub-sample `s` of a pixel `d` away from the centre. */
  function SubOffset(d: int, s: int): int
  {
    2 * (W * d + s + 1) - W
  }

  predicate Within(dx: int, dy: int, sr: int)
  {
    dx * dx + dy * dy <= sr * sr
  }

  /** Is sub-sample (sx, sy) of the pixel at `pos` inside the circle? */
  predicate SubsampleIn(c: Circle, pos: Position, sx: int, sy: int)
  {
    Within(SubOffset(pos.x - c.center.x, sx), SubOffset(pos.y - c.center.y, sy), 2 * W * c.radius)
  }

  /** Sub-samples (sx, 0), ..., (sx, n-1) that are inside. */
  function ColumnCount(c: Circle, pos: Position, sx: int, n: nat): (k: nat)
    ensures k <= n
  {
    if n == 0 then 0 else ColumnCount(c, pos, sx, n - 1) + (if SubsampleIn(c, pos, sx, n - 1) then 1 else 0)
  }

  /** Sub-samples of the columns 0, ..., m-1 that are inside. */
  function CountBelow(c: Circle, pos: Position, m: nat): (k: nat)
    ensures k <= m * AA
  {
    if m == 0 then 0 else CountBelow(c, pos, m - 1) + ColumnCount(c, pos, m - 1, AA)
  }

  /** Number of the pixel's AA*AA sub-samples inside the circle. */
  function Coverage(c: Circle, pos: Position): (k: nat)
    ensures k <= AA * AA
  {
    CountBelow(c, pos, AA)
  }

  lemma CoverageTerms(c: Circle, pos: Position)
    ensures Coverage(c, pos) ==
      (if SubsampleIn(c, pos, 0, 0) then 1 else 0) + (if SubsampleIn(c, pos, 0, 1) then 1 else 0) +
      (if SubsampleIn(c, pos, 1, 0) then 1 else 0) + (if SubsampleIn(c, pos, 1, 1) then 1 else 0)
  {
    assert ColumnCount(c, pos, 0, 1) == (if SubsampleIn(c, pos, 0, 0) then 1 else 0);
    assert ColumnCount(c, pos, 1, 1) == (if SubsampleIn(c, pos, 1, 0) then 1 else 0);
    assert CountBelow(c, pos, 1) == ColumnCount(c, pos, 0, 2);
  }

  /** What `Circle::color_at` returns: nothing when no sub-sample is inside, otherwise the
      colour with its alpha scaled by the covered fraction. */
  function Sample(c: Circle, pos: Position): Option<Color>
  {
    var n := Coverage(c, pos);
    if n == 0 then None else Some(WithAlpha(c.color, ScaledAlpha(c.color.a, n, AA * AA)))
  }

  /** `Circle::color_at`, with its two nested sub-sample loops. */
  method ColorAt(c: Circle, pos: Position) returns (r: Option<Color>)
    ensures r == Sample(c, pos)
  {
    var subpixelCount := 0;
    var sx := 0;
    while sx < AA
      invariant 0 <= sx <= AA
      invariant subpixelCount == CountBelow(c, pos, sx)
    {
      var sy := 0;
      while sy < AA
        invariant 0 <= sy <= AA
        invariant subpixelCount == CountBelow(c, pos, sx) + ColumnCount(c, pos, sx, sy)
      {
        var x, y := pos.x, pos.y;
        var cx, cy := c.center.x, c.center.y;
        var rad := c.radius;
        var dx := 2 * (W * (x - cx) + sx + 1) - W;
        var dy := 2 * (W * (y - cy) + sy + 1) - W;
        var sr := 2 * W * rad;
        if dx * dx + dy * dy <= sr * sr {
          subpixelCount := subpixelCount + 1;
        }
        sy := sy + 1;
      }
      sx := sx + 1;
    }
    if subpixelCount == 0 {
      return None;
    }
    var alpha := AsU8(c.color.a * subpixelCount / (AA * AA));
    return Some(WithAlpha(c.color, alpha));
  }

  /** The colour at a position is absent exactly when no sub-sample is inside; otherwise it
      keeps r, g, b and carries `a * count / 4` for a count between 1 and 4. */
  lemma SampleShape(c: Circle, pos: Position)
    ensures Sample(c, pos).None? <==>
      !SubsampleIn(c, pos, 0, 0) && !SubsampleIn(c, pos, 0, 1) && !SubsampleIn(c, pos, 1, 0) && !SubsampleIn(c, pos, 1, 1)
    ensures Sample(c, pos).Some? ==>
      var n := Coverage(c, pos);
      1 <= n <= 4 && Sample(c, pos).value == WithAlpha(c.color, c.color.a * n / 4)
  {
    CoverageTerms(c, pos);
    if Coverage(c, pos) > 0 {
      ScaledAlphaBound(c.color.a, Coverage(c, pos), 4);
    }
  }

  // ----- geometry of the coverage -----

  lemma SquareGrows(a: int, b: int)
    requires 0 <= b && (a >= b || a <= -b)
    ensures a * a >= b * b
  {
    if a >= b {
      MulMonotone(b, a, b);
      MulMonotone(b, a, a);
    } else {
      MulMonotone(b, -a, b);
      MulMonotone(b, -a, -a);
    }
  }

  /** A sub-sample of a pixel more than `r` away from the centre along an axis lies more than
      `6r` away along that axis. */
  lemma SubsampleOutside(d: int, e: int, r: int, sx: int, sy: int)
    requires r >= 0 && 0 <= sx <= 1 && 0 <= sy <= 1
    requires d > r || -d > r || e > r || -e > r
    ensures !Within(SubOffset(d, sx), SubOffset(e, sy), 2 * W * r)
  {
    var dx, dy := SubOffset(d, sx), SubOffset(e, sy);
    SquareGrows(dy, 0);
    SquareGrows(dx, 0);
    if d > r || -d > r {
      assert dx >= 6 * r + 1 || dx <= -(6 * r + 1);
      SquareGrows(dx, 6 * r + 1);
    } else {
      assert dy >= 6 * r + 1 || dy <= -(6 * r + 1);
      SquareGrows(dy, 6 * r + 1);
    }
    SquareGrows(6 * r + 1, 6 * r);
  }

  /** A pixel more than `r` away from the centre along either axis has no sub-sample inside,
      so the draw loop's square `[cx-r, cx+r]^2` misses no covered pixel. */
  lemma SampleOutsideSquare(c: Circle, pos: Position)
    requires c.radius >= 0
    requires pos.x - c.center.x > c.radius || c.center.x - pos.x > c.radius ||
             pos.y - c.center.y > c.radius || c.center.y - pos.y > c.radius
    ensures Coverage(c, pos) == 0 && Sample(c, pos) == None
  {
    CoverageTerms(c, pos);
    var d, e, r := pos.x - c.center.x, pos.y - c.center.y, c.radius;
    SubsampleOutside(d, e, r, 0, 0);
    SubsampleOutside(d, e, r, 0, 1);
    SubsampleOutside(d, e, r, 1, 0);
    SubsampleOutside(d, e, r, 1, 1);
  }

  /** Mirroring a pixel in the centre's column or row, or swapping its x and y offsets,
      does not change what the circle reports for it. */
  lemma SampleSymmetric(c: Circle, d: int, e: int)
    ensures Sample(c, Position(c.center.x + d, c.center.y + e)) == Sample(c, Position(c.center.x - d, c.center.y + e))
    ensures Sample(c, Position(c.center.x + d, c.center.y + e)) == Sample(c, Position(c.center.x + d, c.center.y - e))
    ensures Sample(c, Position(c.center.x + d, c.center.y + e)) == Sample(c, Position(c.center.x + e, c.center.y + d))
  {
    var p := Position(c.center.x + d, c.center.y + e);
    var mx := Position(c.center.x - d, c.center.y + e);
    var my := Position(c.center.x + d, c.center.y - e);
    var sw := Position(c.center.x + e, c.center.y + d);
    CoverageTerms(c, p);
    CoverageTerms(c, mx);
    CoverageTerms(c, my);
    CoverageTerms(c, sw);
    assert SubOffset(-d, 0) == -SubOffset(d, 1) && SubOffset(-d, 1) == -SubOffset(d, 0);
    assert SubOffset(-e, 0) == -SubOffset(e, 1) && SubOffset(-e, 1) == -SubOffset(e, 0);
    forall a: int, b: int, sr: int ensures Within(-a, b, sr) == Within(a, b, sr) && Within(a, -b, sr) == Within(a, b, sr)
      && Within(b, a, sr) == Within(a, b, sr)
    {
      assert (-a) * (-a) == a * a;
      assert (-b) * (-b) == b * b;
    }
  }

  /** With radius at least 1 the centre pixel is fully covered and gets the colour itself;
      with radius 0 no pixel is covered at all, since every sub-sample offset is odd. */
  lemma CenterAndZeroRadius(c: Circle, pos: Position)
    ensures c.radius >= 1 ==> Sample(c, c.center) == Some(c.color)
    ensures c.radius == 0 ==> Sample(c, pos) == None
  {
    if c.radius >= 1 {
      CoverageTerms(c, c.center);
      assert SubOffset(0, 0) == -1 && SubOffset(0, 1) == 1;
      SquareGrows(2 * W * c.radius, 6);
      assert Coverage(c, c.center) == 4;
    }
    if c.radius == 0 {
      CoverageTerms(c, pos);
      var d, e := pos.x - c.center.x, pos.y - c.center.y;
      forall sx, sy | 0 <= sx <= 1 && 0 <= sy <= 1
        ensures !SubsampleIn(c, pos, sx, sy)
      {
        var dx, dy := SubOffset(d, sx), SubOffset(e, sy);
        assert dx != 0;
        SquareGrows(dx, 1);
        SquareGrows(dy, 0);
      }
    }
  }

  // ----- drawing -----

  /** The square `[cx-r, cx+r] x [cy-r, cy+r]` the draw loop walks. */
  function Square(c: Circle): Box
  {
    Box(c.center.x - c.radius, c.center.x + c.radius, c.center.y - c.radius, c.center.y + c.radius)
  }

  /** A pixel as the circle leaves it. */
  function Paint(c: Circle): (Color, int, int) -> Color
  {
    (pixel: Color, x: int, y: int) => Composite(pixel, Sample(c, Position(x, y)))
  }

  /** `Circle::draw`: blends the circle's colour at every pixel of its square into the
      row-major buffer. */
  method Draw(c: Circle, buffer: array<Color>, canvasSize: Size)
    requires Fits(buffer[..], canvasSize) && BoxFits(Square(c), canvasSize)
    modifies buffer
    ensures buffer[..] == Painted(old(buffer[..]), canvasSize, Square(c), Paint(c))
  {
    ghost var prev := buffer[..];
    var b := Square(c);
    PartialStart(prev, canvasSize, b, Paint(c));
    var x := c.center.x - c.radius;
    while x <= c.center.x + c.radius
      invariant b.x0 <= x && (b.x0 <= b.x1 ==> x <= b.x1 + 1)
      invariant buffer[..] == Partial(prev, canvasSize, b, x, b.y0, Paint(c))
    {
      var y := c.center.y - c.radius;
      while y <= c.center.y + c.radius
        invariant b.y0 <= y && y <= b.y1 + 1
        invariant buffer[..] == Partial(prev, canvasSize, b, x, y, Paint(c))
      {
        var position := Position(x, y);
        PartialStep(prev, canvasSize, b, x, y, Paint(c));
        var color := ColorAt(c, position);
        if color.Some? {
          var i := PositionToIndex(canvasSize, position);
          buffer[i] := Blend(buffer[i], color.value);
        }
        y := y + 1;
      }
      PartialNextColumn(prev, canvasSize, b, x, y, Paint(c));
      x := x + 1;
    }
    PartialEnd(prev, canvasSize, b, x, Paint(c));
  }

  /** Walking only the square gives the same buffer as asking the circle about every pixel
      of the canvas. */
  lemma DrawMissesNothing(c: Circle, prev: seq<Color>, s: Size)
    requires c.radius >= 0 && Fits(prev, s)
    ensures Painted(prev, s, Square(c), Paint(c)) == Everywhere(prev, s, Paint(c))
  {
    forall v: Color, x: int, y: int | !InBox(Square(c), x, y)
      ensures Paint(c)(v, x, y) == v
    {
      SampleOutsideSquare(c, Position(x, y));
    }
    PaintedOutsideIsNoop(prev, s, Square(c), Paint(c));
  }

  /** The source never checks the radius. With a negative radius the square the draw loop walks
      is empty, so the draw changes nothing, yet `color_at` still reports a colour at the centre:
      `(6r)^2` is positive whatever the sign of r. */
  lemma NegativeRadiusReportsOutsideSquare(c: Circle, prev: seq<Color>, s: Size)
    requires c.radius < 0 && Fits(prev, s)
    ensures !InBox(Square(c), c.center.x, c.center.y)
    ensures Sample(c, c.center).Some?
    ensures Painted(prev, s, Square(c), Paint(c)) == prev
  {
    CenterCovered(c);
    PaintedEmpty(prev, s, Square(c), Paint(c));
  }

  /** Every sub-sample of the centre pixel is inside a circle of non-zero radius. */
  lemma CenterCovered(c: Circle)
    requires c.radius != 0
    ensures Coverage(c, c.center) == 4
  {
    CoverageTerms(c, c.center);
    var sr := 2 * W * c.radius;
    assert sr * sr >= 36 by {
      SquareGrows(sr, 6);
    }
    assert SubOffset(0, 0) == -1 && SubOffset(0, 1) == 1;
  }
}
