/** The screen of the oldest renderer version (`lib-jeri`): a size, a buffer of black-or-white
    cells in row-major order, and a background colour. Positions are 1-based: the top-left cell
    is (1, 1). Shapes overwrite the cells they cover instead of blending into them. */
module Screens {
  import opened Arith
  import opened Geometry
  import opened Raster
  import Circles

  datatype Color = Black | White

  const DEFAULT_SCREEN_WIDTH: int := 640
  const DEFAULT_SCREEN_HEIGHT: int := 480

  /** `position_to_index`: 1-based and row-major, `(y - 1) * width + (x - 1)`. */
  function PositionToIndex(position: Position, screenSize: Size): int
  {
    (position.y - 1) * screenSize.width + (position.x - 1)
  }

  /** Every cell (x, y) with 1 <= x <= width and 1 <= y <= height. */
  predicate OnScreen(s: Size, p: Position)
  {
    1 <= p.x <= s.width && 1 <= p.y <= s.height
  }

  /** A cell on the screen maps into the buffer, at the 0-based index of the cell one up and
      one left of it. */
  lemma IndexOnScreen(s: Size, p: Position)
    requires OnScreen(s, p)
    ensures 0 <= PositionToIndex(p, s) < s.width * s.height
    ensures PositionToIndex(p, s) == Geometry.PositionToIndex(s, Position(p.x - 1, p.y - 1))
    ensures PositionToIndex(p, s) % s.width == p.x - 1 && PositionToIndex(p, s) / s.width == p.y - 1
  {
    IndexOnCanvas(s, Position(p.x - 1, p.y - 1));
  }

  /** Distinct cells of the screen have distinct indices. */
  lemma IndexInjective(s: Size, p: Position, q: Position)
    requires OnScreen(s, p) && OnScreen(s, q) && PositionToIndex(p, s) == PositionToIndex(q, s)
    ensures p == q
  {
    IndexOnScreen(s, p);
    IndexOnScreen(s, q);
  }

  // ----- shapes -----

  datatype Rectangle = Rectangle(center: Position, size: Size, color: Color)

  datatype Circle = Circle(center: Position, radius: int, color: Color)

  datatype Shape = Rect(rect: Rectangle) | Circ(circle: Circle)

  /** `Circle::within_bound`: the squared distance from the centre is at most `r * r`. */
  predicate WithinBound(c: Circle, p: Position)
  {
    (p.x - c.center.x) * (p.x - c.center.x) + (p.y - c.center.y) * (p.y - c.center.y) <= c.radius * c.radius
  }

  /** A circle always covers its centre cell, and one of radius 0 covers nothing else. */
  lemma WithinBoundCentre(c: Circle, p: Position)
    ensures p == c.center ==> WithinBound(c, p)
    ensures c.radius == 0 ==> (WithinBound(c, p) <==> p == c.center)
  {
    if p != c.center {
      var dx, dy := p.x - c.center.x, p.y - c.center.y;
      assert dx != 0 || dy != 0;
      assert dx * dx > 0 || dy * dy > 0;
      assert dx * dx >= 0 && dy * dy >= 0;
    }
  }

  /** The 1-based box a shape's draw loop walks: `cx - w/2 ..= cx + w/2` by `cy - h/2 ..= cy + h/2`
      for a rectangle, the square `[cx - r, cx + r]^2` for a circle. */
  function Bounds(shape: Shape): Box
  {
    match shape
    case Rect(r) =>
      Box(r.center.x - Half(r.size.width), r.center.x + Half(r.size.width),
          r.center.y - Half(r.size.height), r.center.y + Half(r.size.height))
    case Circ(c) =>
      Box(c.center.x - c.radius, c.center.x + c.radius, c.center.y - c.radius, c.center.y + c.radius)
  }

  /** The same box in 0-based coordinates. */
  function Shifted(b: Box): Box
  {
    Box(b.x0 - 1, b.x1 - 1, b.y0 - 1, b.y1 - 1)
  }

  /** A cell of the box, given by its 0-based coordinates, as the shape's draw leaves it: the
      rectangle overwrites it, the circle overwrites it when it is within bound. */
  function Paint(shape: Shape): (Color, int, int) -> Color
  {
    match shape
    case Rect(r) => (cell: Color, x: int, y: int) => r.color
    case Circ(c) => (cell: Color, x: int, y: int) => if WithinBound(c, Position(x + 1, y + 1)) then c.color else cell
  }

  /** The cell (1-based) takes the shape's colour. */
  predicate Covers(shape: Shape, p: Position)
  {
    InBox(Bounds(shape), p.x, p.y) && (shape.Circ? ==> WithinBound(shape.circle, p))
  }

  function ShapeColor(shape: Shape): Color
  {
    match shape
    case Rect(r) => r.color
    case Circ(c) => c.color
  }

  /** The buffer after one shape has been drawn on it. */
  function Drawn(prev: seq<Color>, s: Size, shape: Shape): (r: seq<Color>)
    requires Fits(prev, s)
    ensures Fits(r, s)
  {
    Painted(prev, s, Shifted(Bounds(shape)), Paint(shape))
  }

  /** `Rectangle::draw`: every cell of the box takes the rectangle's colour. */
  method DrawRectangle(r: Rectangle, buffer: array<Color>, screenSize: Size)
    requires Fits(buffer[..], screenSize) && BoxFits(Shifted(Bounds(Rect(r))), screenSize)
    modifies buffer
    ensures buffer[..] == Drawn(old(buffer[..]), screenSize, Rect(r))
  {
    ghost var prev := buffer[..];
    ghost var b, sb := Bounds(Rect(r)), Shifted(Bounds(Rect(r)));
    PartialStart(prev, screenSize, sb, Paint(Rect(r)));
    var x := r.center.x - Half(r.size.width);
    while x <= r.center.x + Half(r.size.width)
      invariant b.x0 <= x && (b.x0 <= b.x1 ==> x <= b.x1 + 1)
      invariant buffer[..] == Partial(prev, screenSize, sb, x - 1, sb.y0, Paint(Rect(r)))
    {
      var y := r.center.y - Half(r.size.height);
      while y <= r.center.y + Half(r.size.height)
        invariant b.y0 <= y && (b.y0 <= b.y1 ==> y <= b.y1 + 1)
        invariant buffer[..] == Partial(prev, screenSize, sb, x - 1, y - 1, Paint(Rect(r)))
      {
        PartialStep(prev, screenSize, sb, x - 1, y - 1, Paint(Rect(r)));
        buffer[PositionToIndex(Position(x, y), screenSize)] := r.color;
        y := y + 1;
      }
      PartialNextColumn(prev, screenSize, sb, x - 1, y - 1, Paint(Rect(r)));
      x := x + 1;
    }
    PartialEnd(prev, screenSize, sb, x - 1, Paint(Rect(r)));
  }

  /** `Circle::draw`: every cell of the square that is within bound takes the circle's colour. */
  method DrawCircle(c: Circle, buffer: array<Color>, screenSize: Size)
    requires Fits(buffer[..], screenSize) && BoxFits(Shifted(Bounds(Circ(c))), screenSize)
    modifies buffer
    ensures buffer[..] == Drawn(old(buffer[..]), screenSize, Circ(c))
  {
    ghost var prev := buffer[..];
    ghost var b, sb := Bounds(Circ(c)), Shifted(Bounds(Circ(c)));
    PartialStart(prev, screenSize, sb, Paint(Circ(c)));
    var x := c.center.x - c.radius;
    while x <= c.center.x + c.radius
      invariant b.x0 <= x && (b.x0 <= b.x1 ==> x <= b.x1 + 1)
      invariant buffer[..] == Partial(prev, screenSize, sb, x - 1, sb.y0, Paint(Circ(c)))
    {
      var y := c.center.y - c.radius;
      while y <= c.center.y + c.radius
        invariant b.y0 <= y && (b.y0 <= b.y1 ==> y <= b.y1 + 1)
        invariant buffer[..] == Partial(prev, screenSize, sb, x - 1, y - 1, Paint(Circ(c)))
      {
        var position := Position(x, y);
        PartialStep(prev, screenSize, sb, x - 1, y - 1, Paint(Circ(c)));
        if WithinBound(c, position) {
          buffer[PositionToIndex(position, screenSize)] := c.color;
        }
        y := y + 1;
      }
      PartialNextColumn(prev, screenSize, sb, x - 1, y - 1, Paint(Circ(c)));
      x := x + 1;
    }
    PartialEnd(prev, screenSize, sb, x - 1, Paint(Circ(c)));
  }

  /** `Drawable::draw` of either shape. */
  method Draw(shape: Shape, buffer: array<Color>, screenSize: Size)
    requires Fits(buffer[..], screenSize) && BoxFits(Shifted(Bounds(shape)), screenSize)
    modifies buffer
    ensures buffer[..] == Drawn(old(buffer[..]), screenSize, shape)
  {
    match shape
    case Rect(r) => DrawRectangle(r, buffer, screenSize);
    case Circ(c) => DrawCircle(c, buffer, screenSize);
  }

  /** A drawn cell: a cell the shape covers takes the shape's colour whatever it held before
      (no blending); every other cell keeps its value. */
  lemma DrawnAt(prev: seq<Color>, s: Size, shape: Shape, p: Position)
    requires Fits(prev, s) && OnScreen(s, p)
    ensures 0 <= PositionToIndex(p, s) < |prev|
    ensures Drawn(prev, s, shape)[PositionToIndex(p, s)] ==
      if Covers(shape, p) then ShapeColor(shape) else prev[PositionToIndex(p, s)]
  {
    IndexOnScreen(s, p);
    PaintedAt(prev, s, Shifted(Bounds(shape)), Paint(shape), Position(p.x - 1, p.y - 1));
  }

  lemma SquareAbove(d: int, r: int)
    requires 0 <= r && (d > r || -d > r)
    ensures d * d > r * r
  {
    Circles.SquareGrows(d, r + 1);
    Circles.SquareGrows(r + 1, r);
  }

  /** A cell within bound of a circle of non-negative radius lies in the square its draw loop
      walks, so the circle is drawn on exactly the cells within bound. */
  lemma WithinBoundInSquare(c: Circle, p: Position)
    requires c.radius >= 0 && WithinBound(c, p)
    ensures InBox(Bounds(Circ(c)), p.x, p.y)
  {
    var dx, dy := p.x - c.center.x, p.y - c.center.y;
    assert dx * dx >= 0 && dy * dy >= 0;
    if dx > c.radius || -dx > c.radius {
      SquareAbove(dx, c.radius);
    }
    if dy > c.radius || -dy > c.radius {
      SquareAbove(dy, c.radius);
    }
  }

  /** The source never checks the radius. With a negative radius `within_bound` holds at the
      centre, since `r * r` is positive, but the square the draw loop walks is empty and the
      draw changes nothing. */
  lemma NegativeRadiusWithinBound(c: Circle, prev: seq<Color>, s: Size)
    requires c.radius < 0 && Fits(prev, s)
    ensures WithinBound(c, c.center)
    ensures !InBox(Bounds(Circ(c)), c.center.x, c.center.y)
    ensures Drawn(prev, s, Circ(c)) == prev
  {
    WithinBoundCentre(c, c.center);
    PaintedEmpty(prev, s, Shifted(Bounds(Circ(c))), Paint(Circ(c)));
  }

  /** `Circle::draw` gives the circle's colour to exactly the cells within bound and leaves
      every other cell as it was. */
  lemma CircleDrawnExactly(prev: seq<Color>, s: Size, c: Circle, p: Position)
    requires Fits(prev, s) && OnScreen(s, p) && c.radius >= 0
    ensures 0 <= PositionToIndex(p, s) < |prev|
    ensures Drawn(prev, s, Circ(c))[PositionToIndex(p, s)] ==
      if WithinBound(c, p) then c.color else prev[PositionToIndex(p, s)]
  {
    DrawnAt(prev, s, Circ(c), p);
    if WithinBound(c, p) {
      WithinBoundInSquare(c, p);
    }
  }

  /** The circle of radius 2 centred at (5, 5) covers the 13-cell diamond of cells at most two
      steps (horizontal plus vertical) from its centre. */
  lemma RadiusTwoDiamond(color: Color, p: Position)
    ensures WithinBound(Circle(Position(5, 5), 2, color), p) <==> Abs(p.x - 5) + Abs(p.y - 5) <= 2
  {
    var dx, dy := p.x - 5, p.y - 5;
    assert dx * dx >= 0 && dy * dy >= 0;
    if Abs(dx) > 2 {
      SquareAbove(dx, 2);
    } else if Abs(dy) > 2 {
      SquareAbove(dy, 2);
    }
  }

  function Abs(n: int): nat
  {
    if n >= 0 then n else -n
  }

  // ----- rendering -----

  /** The buffer after every shape of the list has been drawn, first to last. */
  function Rendered(prev: seq<Color>, s: Size, objects: seq<Shape>): (r: seq<Color>)
    requires Fits(prev, s)
    ensures Fits(r, s)
    decreases |objects|
  {
    if objects == [] then prev
    else Drawn(Rendered(prev, s, objects[..|objects| - 1]), s, objects[|objects| - 1])
  }

  /** Later shapes overwrite earlier ones: a cell is left with the colour of the last shape
      that covers it, or with its old colour when none does. */
  lemma {:induction false} RenderedAt(prev: seq<Color>, s: Size, objects: seq<Shape>, p: Position)
    requires Fits(prev, s) && OnScreen(s, p)
    ensures 0 <= PositionToIndex(p, s) < |prev|
    ensures Rendered(prev, s, objects)[PositionToIndex(p, s)] ==
      if LastCovering(objects, p) >= 0 then ShapeColor(objects[LastCovering(objects, p)])
      else prev[PositionToIndex(p, s)]
    decreases |objects|
  {
    IndexOnScreen(s, p);
    if objects != [] {
      var init := objects[..|objects| - 1];
      RenderedAt(prev, s, init, p);
      DrawnAt(Rendered(prev, s, init), s, objects[|objects| - 1], p);
      if LastCovering(objects, p) >= 0 && !Covers(objects[|objects| - 1], p) {
        assert init[LastCovering(init, p)] == objects[LastCovering(objects, p)];
      }
    }
  }

  /** The index of the last shape that covers the cell, or -1 when none does. */
  function LastCovering(objects: seq<Shape>, p: Position): (k: int)
    ensures -1 <= k < |objects|
    decreases |objects|
  {
    if objects == [] then -1
    else if Covers(objects[|objects| - 1], p) then |objects| - 1
    else LastCovering(objects[..|objects| - 1], p)
  }

  /** `LastCovering` is -1 exactly when no shape covers the cell, and otherwise names a shape
      that covers it with none after it that does. */
  lemma {:induction false} LastCoveringIsLast(objects: seq<Shape>, p: Position)
    ensures LastCovering(objects, p) == -1 <==> forall k | 0 <= k < |objects| :: !Covers(objects[k], p)
    ensures LastCovering(objects, p) >= 0 ==>
      Covers(objects[LastCovering(objects, p)], p) &&
      forall j | LastCovering(objects, p) < j < |objects| :: !Covers(objects[j], p)
    decreases |objects|
  {
    if objects != [] {
      var init := objects[..|objects| - 1];
      LastCoveringIsLast(init, p);
      if !Covers(objects[|objects| - 1], p) {
        assert forall k | 0 <= k < |init| :: init[k] == objects[k];
      }
    }
  }

  // ----- the screen -----

  /** The character `Debug` writes for a cell. */
  function Symbol(c: Color): (ch: char)
    ensures ch == '.' || ch == 'W'
    ensures ch == 'W' <==> c == White
  {
    match c
    case Black => '.'
    case White => 'W'
  }

  /** Row k of the buffer, one character per cell. */
  function RowText(cells: seq<Color>, width: int, k: int): (line: seq<char>)
    requires 0 < width && 0 <= k && (k + 1) * width <= |cells|
    ensures |line| == width
  {
    seq(width, j requires 0 <= j < width => Symbol(cells[k * width + j]))
  }

  /** The first k rows, each followed by a newline. */
  function DebugText(cells: seq<Color>, width: int, k: int): (text: seq<char>)
    requires 0 < width && 0 <= k && k * width <= |cells|
    decreases k
  {
    if k == 0 then []
    else DebugText(cells, width, k - 1) + RowText(cells, width, k - 1) + ['\n']
  }

  /** The character at row r, column c of a text whose lines are `width + 1` characters long
      (a blank past its end). */
  function TextAt(text: seq<char>, width: int, r: int, c: int): char
  {
    var i := r * (width + 1) + c;
    if 0 <= i < |text| then text[i] else ' '
  }

  lemma {:induction false} DebugTextLength(cells: seq<Color>, width: int, k: int)
    requires 0 < width && 0 <= k && k * width <= |cells|
    ensures |DebugText(cells, width, k)| == k * (width + 1)
    decreases k
  {
    if k > 0 {
      DebugTextLength(cells, width, k - 1);
    }
  }

  /** Row r of the text of k rows holds the row's cells in columns 0 to width - 1 and a newline
      in column width. */
  lemma {:induction false} DebugTextChar(cells: seq<Color>, width: int, k: int, r: int, c: int)
    requires 0 < width && 0 <= k && k * width <= |cells| && 0 <= r < k && 0 <= c <= width
    ensures c < width ==> r * width + c < |cells|
    ensures 0 <= r * (width + 1) + c < |DebugText(cells, width, k)|
    ensures TextAt(DebugText(cells, width, k), width, r, c) == if c == width then '\n' else Symbol(cells[r * width + c])
    decreases k
  {
    MulMonotone(r + 1, k, width);
    MulMonotone(r + 1, k, width + 1);
    assert (r + 1) * (width + 1) == r * (width + 1) + width + 1;
    assert (r + 1) * width == r * width + width;
    DebugTextLength(cells, width, k - 1);
    DebugTextLength(cells, width, k);
    var prev, text := DebugText(cells, width, k - 1), DebugText(cells, width, k);
    var i := r * (width + 1) + c;
    if r < k - 1 {
      DebugTextChar(cells, width, k - 1, r, c);
      MulMonotone(r + 1, k - 1, width + 1);
      assert text[i] == prev[i];
    } else {
      assert i - |prev| == c;
    }
  }

  /** The text of k rows has `width + 1` characters per row: the row's cells, then a newline. */
  lemma DebugTextAt(cells: seq<Color>, width: int, k: int)
    requires 0 < width && 0 <= k && k * width <= |cells|
    ensures |DebugText(cells, width, k)| == k * (width + 1)
    ensures forall r, c | 0 <= r < k && 0 <= c < width ::
      r * width + c < |cells| && TextAt(DebugText(cells, width, k), width, r, c) == Symbol(cells[r * width + c])
    ensures forall r | 0 <= r < k :: TextAt(DebugText(cells, width, k), width, r, width) == '\n'
  {
    DebugTextLength(cells, width, k);
    forall r, c | 0 <= r < k && 0 <= c <= width
      ensures c < width ==> r * width + c < |cells|
      ensures TextAt(DebugText(cells, width, k), width, r, c) == if c == width then '\n' else Symbol(cells[r * width + c])
    {
      DebugTextChar(cells, width, k, r, c);
    }
  }

  /** The number of whole rows `chunks_exact(width)` yields. A negative width read as `usize`
      exceeds any buffer length, so it yields none. */
  function RowCount(cells: seq<Color>, width: int): (n: nat)
    requires width != 0
    ensures width > 0 ==> n * width <= |cells| < (n + 1) * width
    ensures width < 0 ==> n == 0
  {
    if width > 0 then
      DivBelow(|cells|, width, |cells| / width + 1);
      |cells| / width
    else 0
  }

  /** The `write!` loop over one chunk of `width` cells. */
  method WriteRow(cells: seq<Color>, width: int, k: int) returns (line: seq<char>)
    requires 0 < width && 0 <= k && (k + 1) * width <= |cells|
    ensures |line| == width
    ensures forall j | 0 <= j < width :: k * width + j < |cells| && line[j] == Symbol(cells[k * width + j])
  {
    line := [];
    var j := 0;
    while j < width
      invariant 0 <= j <= width && |line| == j
      invariant forall i | 0 <= i < j :: line[i] == Symbol(cells[k * width + i])
    {
      line := line + [Symbol(cells[k * width + j])];
      j := j + 1;
    }
  }

  /** The loop of `Debug for Screen` over the whole rows of the buffer. */
  method WriteRows(cells: seq<Color>, width: int) returns (out: seq<char>)
    requires width != 0
    ensures width > 0 ==> out == DebugText(cells, width, RowCount(cells, width))
    ensures width < 0 ==> out == []
  {
    var rows := RowCount(cells, width);
    out := [];
    var k := 0;
    while k < rows
      invariant 0 <= k <= rows
      invariant width > 0 ==> out == DebugText(cells, width, k)
      invariant width < 0 ==> out == []
    {
      MulMonotone(k + 1, rows, width);
      var line := WriteRow(cells, width, k);
      assert line == RowText(cells, width, k);
      out := out + line + ['\n'];
      k := k + 1;
    }
  }

  class Screen {
    var size: Size
    var buffer: array<Color>
    var backgroundColor: Color

    /** `Screen::with_size`: an empty buffer resized to the screen, so every cell is black. */
    constructor WithSize(size: Size)
      requires PixelCountFits(size.width, size.height)
      ensures this.size == size && backgroundColor == Black
      ensures buffer.Length == size.width * size.height
      ensures forall i | 0 <= i < buffer.Length :: buffer[i] == Black
    {
      this.size := size;
      buffer := new Color[0];
      backgroundColor := Black;
      new;
      Resize(size.width, size.height);
    }

    /** `Screen::default`: 640 by 480 black cells. */
    constructor Default()
      ensures size == Size(DEFAULT_SCREEN_WIDTH, DEFAULT_SCREEN_HEIGHT) && backgroundColor == Black
      ensures buffer.Length == DEFAULT_SCREEN_WIDTH * DEFAULT_SCREEN_HEIGHT
      ensures forall i | 0 <= i < buffer.Length :: buffer[i] == Black
    {
      size := Size(DEFAULT_SCREEN_WIDTH, DEFAULT_SCREEN_HEIGHT);
      buffer := new Color[0];
      backgroundColor := Black;
      new;
      Resize(DEFAULT_SCREEN_WIDTH, DEFAULT_SCREEN_HEIGHT);
    }

    /** `Screen::set_background_color`: only the background colour changes; the cells keep
        their colours until the next clear or resize. */
    method SetBackgroundColor(color: Color)
      modifies this`backgroundColor
      ensures backgroundColor == color
      ensures size == old(size) && buffer == old(buffer) && buffer[..] == old(buffer[..])
    {
      backgroundColor := color;
    }

    /** `Screen::resize` (`Vec::resize`): the buffer gets `width * height` cells; the first ones
        keep their colour, the added ones take the background colour. The size field is not
        updated. */
    method Resize(width: int, height: int)
      requires PixelCountFits(width, height)
      modifies this`buffer
      ensures fresh(buffer) && buffer.Length == width * height
      ensures forall i | 0 <= i < buffer.Length && i < old(buffer.Length) :: buffer[i] == old(buffer[i])
      ensures forall i | old(buffer.Length) <= i < buffer.Length :: buffer[i] == backgroundColor
    {
      var n := width * height;
      var resized := new Color[n];
      var i := 0;
      while i < n
        invariant 0 <= i <= n
        invariant buffer[..] == old(buffer[..])
        invariant forall k | 0 <= k < i && k < buffer.Length :: resized[k] == buffer[k]
        invariant forall k | buffer.Length <= k < i :: resized[k] == backgroundColor
      {
        if i < buffer.Length {
          resized[i] := buffer[i];
        } else {
          resized[i] := backgroundColor;
        }
        i := i + 1;
      }
      buffer := resized;
    }

    /** `Screen::clear_buffer`: every cell takes the background colour. */
    method ClearBuffer()
      modifies buffer
      ensures forall i | 0 <= i < buffer.Length :: buffer[i] == backgroundColor
    {
      var i := 0;
      while i < buffer.Length
        invariant 0 <= i <= buffer.Length
        invariant forall k | 0 <= k < i :: buffer[k] == backgroundColor
      {
        buffer[i] := backgroundColor;
        i := i + 1;
      }
    }

    /** `Screen::render`: draws each object on the buffer, in the order given. */
    method Render(objects: seq<Shape>)
      requires Fits(buffer[..], size)
      requires forall i | 0 <= i < |objects| :: BoxFits(Shifted(Bounds(objects[i])), size)
      modifies buffer
      ensures buffer[..] == Rendered(old(buffer[..]), size, objects)
    {
      ghost var prev := buffer[..];
      var k := 0;
      while k < |objects|
        invariant 0 <= k <= |objects|
        invariant buffer[..] == Rendered(prev, size, objects[..k])
      {
        assert objects[..k + 1][..k] == objects[..k];
        Draw(objects[k], buffer, size);
        k := k + 1;
      }
      assert objects[..k] == objects;
    }

    /** `Debug for Screen`: one line per whole row of `width` cells, '.' for black and 'W' for
        white, each line ended by a newline. */
    method Fmt() returns (out: seq<char>)
      requires size.width != 0
      ensures |out| == RowCount(buffer[..], size.width) * (size.width + 1)
      ensures forall r, c | 0 <= r < RowCount(buffer[..], size.width) && 0 <= c < size.width ::
        r * size.width + c < buffer.Length && TextAt(out, size.width, r, c) == Symbol(buffer[r * size.width + c])
      ensures forall r | 0 <= r < RowCount(buffer[..], size.width) :: TextAt(out, size.width, r, size.width) == '\n'
    {
      out := WriteRows(buffer[..], size.width);
      if size.width > 0 {
        DebugTextAt(buffer[..], size.width, RowCount(buffer[..], size.width));
      }
    }
  }
}
