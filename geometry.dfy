/** Sizes and positions of the renderer (`Size`, `Position`), with Rust's integer division and
    the row-major map from a pixel position to its index in the pixel buffer. */
module Geometry {
  import opened Arith

  /** Rust's `i32`; the model works on unbounded integers and states this range where an
      operation of the source would overflow outside it. */
  const I32_MAX: int := 0x7FFF_FFFF

  datatype Size = Size(width: int, height: int)

  datatype Position = Position(x: int, y: int)

  /** `Size::new` takes the height first and the width second. */
  function SizeNew(height: int, width: int): (s: Size)
    ensures s.width == width && s.height == height
    ensures height != width ==> s != Size(height, width)
  {
    Size(width, height)
  }

  /** `Size * k` scales both dimensions. */
  function Scale(s: Size, k: int): (r: Size)
    ensures r.width == s.width * k && r.height == s.height * k
    ensures k == 1 ==> r == s
    ensures k == 0 ==> r == Size(0, 0)
  {
    Size(s.width * k, s.height * k)
  }

  /** `Position - Position` is componentwise. */
  function Sub(p: Position, q: Position): (r: Position)
    ensures Add(r, q) == p
    ensures p == q <==> r == Position(0, 0)
  {
    Position(p.x - q.x, p.y - q.y)
  }

  function Add(p: Position, q: Position): Position
  {
    Position(p.x + q.x, p.y + q.y)
  }

  /** Rust's `n / 2` on a signed integer: the quotient is truncated toward zero, so the
      remainder `n - 2*q` has the sign of `n` (and halving commutes with negation). */
  function Half(n: int): (q: int)
    ensures n >= 0 ==> 0 <= n - 2 * q <= 1
    ensures n <= 0 ==> -1 <= n - 2 * q <= 0
  {
    if n >= 0 then n / 2 else -((-n) / 2)
  }

  /** The number of pixels `width * height` is a non-negative `i32` (the source's product
      overflows, or its cast to `usize` wraps, otherwise). */
  predicate PixelCountFits(width: int, height: int)
  {
    0 <= width * height <= I32_MAX
  }

  /** Every (x, y) on a canvas of the given size: 0 <= x < width, 0 <= y < height. */
  predicate OnCanvas(s: Size, p: Position)
  {
    0 <= p.x < s.width && 0 <= p.y < s.height
  }

  /** `Size::position_to_index`: row-major and 0-based, `y * width + x`. */
  function PositionToIndex(s: Size, p: Position): int
  {
    p.y * s.width + p.x
  }

  /** A position on the canvas maps into the buffer, and back to itself by `%` and `/`. */
  lemma IndexOnCanvas(s: Size, p: Position)
    requires OnCanvas(s, p)
    ensures 0 <= PositionToIndex(s, p) < s.width * s.height
    ensures PositionToIndex(s, p) % s.width == p.x && PositionToIndex(s, p) / s.width == p.y
  {
    DivisionOfIndex(s.width, p.x, p.y);
    assert p.y * s.width <= (s.height - 1) * s.width by {
      MulMonotone(p.y, s.height - 1, s.width);
    }
  }

  /** Distinct positions on the canvas have distinct indices. */
  lemma IndexInjective(s: Size, p: Position, q: Position)
    requires OnCanvas(s, p) && OnCanvas(s, q)
    requires PositionToIndex(s, p) == PositionToIndex(s, q)
    ensures p == q
  {
    IndexOnCanvas(s, p);
    IndexOnCanvas(s, q);
  }

  /** Every index of a width*height buffer is the index of exactly one position on the canvas. */
  lemma IndexSurjective(s: Size, i: int)
    requires 0 < s.width && 0 <= i < s.width * s.height
    ensures OnCanvas(s, Position(i % s.width, i / s.width))
    ensures PositionToIndex(s, Position(i % s.width, i / s.width)) == i
  {
    var y := i / s.width;
    if y >= s.height {
      MulMonotone(s.height, y, s.width);
    }
  }

  lemma DivisionOfIndex(w: int, x: int, y: int)
    requires 0 <= x < w
    ensures (y * w + x) / w == y && (y * w + x) % w == x
  {
    DivUnique(y * w + x, w, y, x);
  }

}
