/** What a draw loop of the form `for x in x0..=x1 { for y in y0..=y1 { ... } }` does to a
    row-major pixel buffer of a given width: every pixel (x, y) of the box is replaced by
    `paint(old pixel, x, y)` and every other pixel is kept. `Partial` describes the buffer
    part-way through the loops; the step lemmas carry a loop from one iteration to the next. */
module Raster {
  import opened Arith
  import opened Geometry

  /** The inclusive box `x0..=x1` by `y0..=y1` a draw loop visits (empty when x0 > x1 or y0 > y1). */
  datatype Box = Box(x0: int, x1: int, y0: int, y1: int)

  predicate InBox(b: Box, x: int, y: int)
  {
    b.x0 <= x <= b.x1 && b.y0 <= y <= b.y1
  }

  predicate IsEmpty(b: Box)
  {
    b.x0 > b.x1 || b.y0 > b.y1
  }

  /** The box is empty or lies on the canvas (the source indexes out of bounds, or into a
      neighbouring row, otherwise). */
  predicate BoxFits(b: Box, s: Size)
  {
    IsEmpty(b) || (0 <= b.x0 && b.x1 < s.width && 0 <= b.y0 && b.y1 < s.height)
  }

  /** A buffer of `width * height` pixels for a canvas of non-negative size. */
  predicate Fits<T>(buf: seq<T>, s: Size)
  {
    0 <= s.width && 0 <= s.height && |buf| == s.width * s.height
  }

  /** The box pixels the column-by-column sweep has handled before it reaches (x, y). */
  predicate Visited(b: Box, x: int, y: int, px: int, py: int)
  {
    InBox(b, px, py) && (px < x || (px == x && py < y))
  }

  /** The buffer after every box pixel has been painted. */
  function Painted<T>(prev: seq<T>, s: Size, b: Box, paint: (T, int, int) -> T): (r: seq<T>)
    requires Fits(prev, s)
    ensures |r| == |prev|
  {
    seq(|prev|, i requires 0 <= i < |prev| =>
      if InBox(b, i % s.width, i / s.width) then paint(prev[i], i % s.width, i / s.width) else prev[i])
  }

  /** The buffer when the sweep stands at (x, y). */
  function Partial<T>(prev: seq<T>, s: Size, b: Box, x: int, y: int, paint: (T, int, int) -> T): (r: seq<T>)
    requires Fits(prev, s)
    ensures |r| == |prev|
  {
    seq(|prev|, i requires 0 <= i < |prev| =>
      if Visited(b, x, y, i % s.width, i / s.width) then paint(prev[i], i % s.width, i / s.width) else prev[i])
  }

  /** Painted, read at a position: pixel (x, y) is painted exactly when it lies in the box. */
  lemma PaintedAt<T>(prev: seq<T>, s: Size, b: Box, paint: (T, int, int) -> T, p: Position)
    requires Fits(prev, s) && OnCanvas(s, p)
    ensures 0 <= PositionToIndex(s, p) < |prev|
    ensures Painted(prev, s, b, paint)[PositionToIndex(s, p)] ==
      if InBox(b, p.x, p.y) then paint(prev[PositionToIndex(s, p)], p.x, p.y) else prev[PositionToIndex(s, p)]
  {
    IndexOnCanvas(s, p);
  }

  /** Nothing is painted before the sweep starts. */
  lemma PartialStart<T>(prev: seq<T>, s: Size, b: Box, paint: (T, int, int) -> T)
    requires Fits(prev, s)
    ensures Partial(prev, s, b, b.x0, b.y0, paint) == prev
  {
    var r := Partial(prev, s, b, b.x0, b.y0, paint);
    forall i | 0 <= i < |prev|
      ensures r[i] == prev[i]
    {
      assert !Visited(b, b.x0, b.y0, i % s.width, i / s.width);
    }
  }

  /** Finishing a column (the inner loop stands past the box's last row) is the same as
      starting the next one. */
  lemma PartialNextColumn<T>(prev: seq<T>, s: Size, b: Box, x: int, y: int, paint: (T, int, int) -> T)
    requires Fits(prev, s) && y > b.y1
    ensures Partial(prev, s, b, x, y, paint) == Partial(prev, s, b, x + 1, b.y0, paint)
  {
    var r1, r2 := Partial(prev, s, b, x, y, paint), Partial(prev, s, b, x + 1, b.y0, paint);
    forall i | 0 <= i < |prev|
      ensures r1[i] == r2[i]
    {
      var px, py := i % s.width, i / s.width;
      assert Visited(b, x, y, px, py) == Visited(b, x + 1, b.y0, px, py);
    }
  }

  /** Once every column of the box is done, the whole box is painted. */
  lemma PartialEnd<T>(prev: seq<T>, s: Size, b: Box, x: int, paint: (T, int, int) -> T)
    requires Fits(prev, s) && x > b.x1
    ensures Partial(prev, s, b, x, b.y0, paint) == Painted(prev, s, b, paint)
  {
    var r1, r2 := Partial(prev, s, b, x, b.y0, paint), Painted(prev, s, b, paint);
    forall i | 0 <= i < |prev|
      ensures r1[i] == r2[i]
    {
      var px, py := i % s.width, i / s.width;
      assert Visited(b, x, b.y0, px, py) == InBox(b, px, py);
    }
  }

  /** One iteration of the inner loop paints pixel (x, y), which still holds its old value,
      and nothing else. */
  lemma PartialStep<T>(prev: seq<T>, s: Size, b: Box, x: int, y: int, paint: (T, int, int) -> T)
    requires Fits(prev, s) && InBox(b, x, y) && OnCanvas(s, Position(x, y))
    ensures 0 <= PositionToIndex(s, Position(x, y)) < |prev|
    ensures Partial(prev, s, b, x, y, paint)[PositionToIndex(s, Position(x, y))] == prev[PositionToIndex(s, Position(x, y))]
    ensures Partial(prev, s, b, x, y, paint)[PositionToIndex(s, Position(x, y)) := paint(prev[PositionToIndex(s, Position(x, y))], x, y)]
         == Partial(prev, s, b, x, y + 1, paint)
  {
    var p := Position(x, y);
    var k := PositionToIndex(s, p);
    IndexOnCanvas(s, p);
    var before := Partial(prev, s, b, x, y, paint);
    var after := Partial(prev, s, b, x, y + 1, paint);
    assert !Visited(b, x, y, x, y);
    assert before[k] == prev[k];
    forall i | 0 <= i < |prev|
      ensures before[k := paint(prev[k], x, y)][i] == after[i]
    {
      if i != k {
        IndexSurjective(s, i);
        assert (i % s.width, i / s.width) != (x, y);
        assert Visited(b, x, y + 1, i % s.width, i / s.width) == Visited(b, x, y, i % s.width, i / s.width);
      } else {
        assert i % s.width == x && i / s.width == y;
      }
    }
  }

  /** The buffer with every pixel of the canvas painted. */
  function Everywhere<T>(prev: seq<T>, s: Size, paint: (T, int, int) -> T): (r: seq<T>)
    requires Fits(prev, s)
    ensures |r| == |prev|
  {
    seq(|prev|, i requires 0 <= i < |prev| => paint(prev[i], i % s.width, i / s.width))
  }

  /** When painting leaves every pixel outside the box as it is, sweeping only the box gives
      the same buffer as painting the whole canvas. */
  lemma PaintedOutsideIsNoop<T>(prev: seq<T>, s: Size, b: Box, paint: (T, int, int) -> T)
    requires Fits(prev, s)
    requires forall v: T, x: int, y: int :: !InBox(b, x, y) ==> paint(v, x, y) == v
    ensures Painted(prev, s, b, paint) == Everywhere(prev, s, paint)
  {
    var r1, r2 := Painted(prev, s, b, paint), Everywhere(prev, s, paint);
    forall i | 0 <= i < |prev|
      ensures r1[i] == r2[i]
    {
      var px, py := i % s.width, i / s.width;
      if !InBox(b, px, py) {
        assert paint(prev[i], px, py) == prev[i];
      }
    }
  }

  /** Sweeping an empty box changes nothing. */
  lemma PaintedEmpty<T>(prev: seq<T>, s: Size, b: Box, paint: (T, int, int) -> T)
    requires Fits(prev, s) && IsEmpty(b)
    ensures Painted(prev, s, b, paint) == prev
  {
    var r := Painted(prev, s, b, paint);
    forall i | 0 <= i < |prev|
      ensures r[i] == prev[i]
    {
      assert !InBox(b, i % s.width, i / s.width);
    }
  }
}
