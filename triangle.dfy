/** The anti-aliased triangle. Coordinates are scaled by `2 * (aa + 1) = 6`: a vertex v sits at
    `3 * (2v + 1)` (the centre of its pixel) and sub-sample (i, j), i and j in 1..=2, of pixel p
    at `2 * (3p + (i, j))`. A sub-sample is inside when the three edge cross products
    `(a - b) x (a - q)` all have the same sign, zero counting as either sign. */
module Triangles {
  import opened Arith
  import opened Colors
  import opened Geometry
  import opened Raster
  import opened Sampling

  datatype Triangle = Triangle(p1: Position, p2: Position, p3: Position, color: Color)

  /** Sub-samples per axis (`aa`) and the up-scaling factor `w = aa + 1`. */
  const AA: nat := 2
  const W: nat := AA + 1

  /** `Triangle::cross_product_sign`: the z component of the cross product of two plane vectors. */
  function CrossProductSign(a: Position, b: Position): (r: int)
    ensures a == b ==> r == 0
  {
    a.x * b.y - b.x * a.y
  }

  /** The cross product is antisymmetric, so a vector crossed with itself gives 0; a quarter
      turn counter-clockwise gives the squared length, so the sign tells the turn direction. */
  lemma CrossProductAntisymmetric(a: Position, b: Position)
    ensures CrossProductSign(a, b) == -CrossProductSign(b, a)
    ensures CrossProductSign(a, a) == 0
    ensures CrossProductSign(a, Position(-a.y, a.x)) == a.x * a.x + a.y * a.y >= 0
  {
  }

  /** A vertex moved to the centre of its pixel in up-scaled coordinates. */
  function Upscale(v: Position): (u: Position)
    ensures u.x % 6 == 3 && u.y % 6 == 3
  {
    Position(W * (2 * v.x + 1), W * (2 * v.y + 1))
  }

  /** Sub-sample (i, j) of pixel p in up-scaled coordinates. */
  function SubsamplePoint(p: Position, i: int, j: int): Position
  {
    Position(2 * (W * p.x + i), 2 * (W * p.y + j))
  }

  /** The cross product of edge a-b with a-q: positive on one side of the line through a and b,
      negative on the other, zero on it. */
  function EdgeSide(a: Position, b: Position, q: Position): int
  {
    CrossProductSign(Sub(a, b), Sub(a, q))
  }

  /** `Triangle::is_point_inside`, on a point already in up-scaled coordinates. */
  predicate IsPointInside(t: Triangle, q: Position)
    ensures q == Upscale(t.p1) || q == Upscale(t.p2) || q == Upscale(t.p3) ==> IsPointInside(t, q)
  {
    var a, b, c := Upscale(t.p1), Upscale(t.p2), Upscale(t.p3);
    var abp, bcp, cap := EdgeSide(a, b, q), EdgeSide(b, c, q), EdgeSide(c, a, q);
    (abp >= 0 && bcp >= 0 && cap >= 0) || (abp <= 0 && bcp <= 0 && cap <= 0)
  }

  // ----- winding -----

  /** Swapping the ends of an edge flips the side of every point. */
  lemma EdgeSideSwap(a: Position, b: Position, q: Position)
    ensures EdgeSide(b, a, q) == -EdgeSide(a, b, q)
  {
    var ax, ay, bx, dy := a.x - q.x, a.y - q.y, b.x - q.x, b.y - q.y;
    calc {
      EdgeSide(b, a, q);
      (bx - ax) * dy - bx * (dy - ay);
      bx * ay - ax * dy;
      -((ax - bx) * ay - ax * (ay - dy));
      -EdgeSide(a, b, q);
    }
  }

  /** The answer does not depend on the order of the vertices: rotating them permutes the three
      cross products, and swapping two negates all three. */
  lemma IsPointInsidePermutation(t: Triangle, q: Position)
    ensures IsPointInside(Triangle(t.p2, t.p3, t.p1, t.color), q) == IsPointInside(t, q)
    ensures IsPointInside(Triangle(t.p2, t.p1, t.p3, t.color), q) == IsPointInside(t, q)
  {
    var a, b, c := Upscale(t.p1), Upscale(t.p2), Upscale(t.p3);
    EdgeSideSwap(a, b, q);
    EdgeSideSwap(b, c, q);
    EdgeSideSwap(c, a, q);
  }

  // ----- coverage -----

  predicate SubsampleIn(t: Triangle, pos: Position, i: int, j: int)
  {
    IsPointInside(t, SubsamplePoint(pos, i, j))
  }

  /** Sub-samples (i, 1), ..., (i, n) that are inside. */
  function ColumnCount(t: Triangle, pos: Position, i: int, n: nat): (k: nat)
    ensures k <= n
  {
    if n == 0 then 0 else ColumnCount(t, pos, i, n - 1) + (if SubsampleIn(t, pos, i, n) then 1 else 0)
  }

  /** Sub-samples of the columns 1, ..., m that are inside. */
  function CountBelow(t: Triangle, pos: Position, m: nat): (k: nat)
    ensures k <= m * AA
  {
    if m == 0 then 0 else CountBelow(t, pos, m - 1) + ColumnCount(t, pos, m, AA)
  }

  /** Number of the pixel's AA*AA sub-samples inside the triangle. */
  function Coverage(t: Triangle, pos: Position): (k: nat)
    ensures k <= AA * AA
  {
    CountBelow(t, pos, AA)
  }

  lemma CoverageTerms(t: Triangle, pos: Position)
    ensures Coverage(t, pos) ==
      (if SubsampleIn(t, pos, 1, 1) then 1 else 0) + (if SubsampleIn(t, pos, 1, 2) then 1 else 0) +
      (if SubsampleIn(t, pos, 2, 1) then 1 else 0) + (if SubsampleIn(t, pos, 2, 2) then 1 else 0)
  {
    assert ColumnCount(t, pos, 1, 1) == (if SubsampleIn(t, pos, 1, 1) then 1 else 0);
    assert ColumnCount(t, pos, 2, 1) == (if SubsampleIn(t, pos, 2, 1) then 1 else 0);
    assert CountBelow(t, pos, 1) == ColumnCount(t, pos, 1, 2);
  }

  /** What `Triangle::color_at` returns: nothing when no sub-sample is inside, otherwise the
      colour with its alpha scaled by the covered fraction. */
  function Sample(t: Triangle, pos: Position): Option<Color>
  {
    var n := Coverage(t, pos);
    if n == 0 then None else Some(WithAlpha(t.color, ScaledAlpha(t.color.a, n, AA * AA)))
  }

  /** `Triangle::color_at`: the outer sub-sample loop over the columns 1..=aa, then the
      alpha scaled by the count. */
  method ColorAt(t: Triangle, p: Position) returns (r: Option<Color>)
    ensures r == Sample(t, p)
  {
    var subpixelCount := 0;
    var sxo := 1;
    while sxo <= AA
      invariant 1 <= sxo <= AA + 1
      invariant subpixelCount == CountBelow(t, p, sxo - 1)
    {
      var inColumn := CountColumn(t, p, sxo);
      subpixelCount := subpixelCount + inColumn;
      sxo := sxo + 1;
    }
    assert subpixelCount == Coverage(t, p);
    if subpixelCount == 0 {
      return None;
    }
    var alpha := AsU8(t.color.a * subpixelCount / (AA * AA));
    return Some(WithAlpha(t.color, alpha));
  }

  /** The inner loop of `Triangle::color_at`: the sub-samples (sxo, 1..=aa) inside. */
  method CountColumn(t: Triangle, p: Position, sxo: int) returns (n: nat)
    ensures n == ColumnCount(t, p, sxo, AA)
  {
    n := 0;
    var syo := 1;
    while syo <= AA
      invariant 1 <= syo <= AA + 1
      invariant n == ColumnCount(t, p, sxo, syo - 1)
    {
      var q := Position(2 * (W * p.x + sxo), 2 * (W * p.y + syo));
      assert q == SubsamplePoint(p, sxo, syo);
      if IsPointInside(t, q) {
        n := n + 1;
      }
      syo := syo + 1;
    }
  }

  /** The colour at a position is absent exactly when no sub-sample is inside; otherwise it
      keeps r, g, b and carries `a * count / 4` for a count between 1 and 4. */
  lemma SampleShape(t: Triangle, pos: Position)
    ensures Sample(t, pos).None? <==>
      !SubsampleIn(t, pos, 1, 1) && !SubsampleIn(t, pos, 1, 2) && !SubsampleIn(t, pos, 2, 1) && !SubsampleIn(t, pos, 2, 2)
    ensures Sample(t, pos).Some? ==>
      var n := Coverage(t, pos);
      1 <= n <= 4 && Sample(t, pos).value == WithAlpha(t.color, t.color.a * n / 4)
  {
    CoverageTerms(t, pos);
    if Coverage(t, pos) > 0 {
      ScaledAlphaBound(t.color.a, Coverage(t, pos), 4);
    }
  }

  /** The colour at every pixel is the same for any order or winding of the vertices. */
  lemma SamplePermutation(t: Triangle, pos: Position)
    ensures Sample(Triangle(t.p2, t.p3, t.p1, t.color), pos) == Sample(t, pos)
    ensures Sample(Triangle(t.p2, t.p1, t.p3, t.color), pos) == Sample(t, pos)
  {
    var rot, swap := Triangle(t.p2, t.p3, t.p1, t.color), Triangle(t.p2, t.p1, t.p3, t.color);
    forall i, j
      ensures SubsampleIn(rot, pos, i, j) == SubsampleIn(t, pos, i, j)
      ensures SubsampleIn(swap, pos, i, j) == SubsampleIn(t, pos, i, j)
    {
      IsPointInsidePermutation(t, SubsamplePoint(pos, i, j));
    }
    CoverageTerms(t, pos);
    CoverageTerms(rot, pos);
    CoverageTerms(swap, pos);
  }

  // ----- the bounding box -----

  /** Twice the signed area of the triangle a, b, c: zero exactly when the three are collinear. */
  function Area2(a: Position, b: Position, c: Position): int
  {
    EdgeSide(a, b, c)
  }

  /** The three cross products of a point add up to twice the triangle's signed area. */
  lemma EdgeSidesSum(a: Position, b: Position, c: Position, q: Position)
    ensures EdgeSide(a, b, q) + EdgeSide(b, c, q) + EdgeSide(c, a, q) == Area2(a, b, c)
  {
  }

  /** The cross products are the barycentric weights of the point, scaled by twice the area. */
  lemma Barycentric(a: Position, b: Position, c: Position, q: Position)
    ensures EdgeSide(b, c, q) * a.x + EdgeSide(c, a, q) * b.x + EdgeSide(a, b, q) * c.x == Area2(a, b, c) * q.x
    ensures EdgeSide(b, c, q) * a.y + EdgeSide(c, a, q) * b.y + EdgeSide(a, b, q) * c.y == Area2(a, b, c) * q.y
  {
    EdgeSidesSum(a, b, c, q);
    BarycentricAxis(a, b, c, q);
    BarycentricAxis(Position(a.y, a.x), Position(b.y, b.x), Position(c.y, c.x), Position(q.y, q.x));
    EdgeSideMirror(b, c, q);
    EdgeSideMirror(c, a, q);
    EdgeSideMirror(a, b, q);
  }

  /** Swapping the two coordinates of every point negates the cross products. */
  lemma EdgeSideMirror(a: Position, b: Position, q: Position)
    ensures EdgeSide(Position(a.y, a.x), Position(b.y, b.x), Position(q.y, q.x)) == -EdgeSide(a, b, q)
  {
  }

  /** The x half of `Barycentric`. */
  lemma BarycentricAxis(a: Position, b: Position, c: Position, q: Position)
    ensures EdgeSide(b, c, q) * a.x + EdgeSide(c, a, q) * b.x + EdgeSide(a, b, q) * c.x ==
      (EdgeSide(a, b, q) + EdgeSide(b, c, q) + EdgeSide(c, a, q)) * q.x
  {
    var u, v, w := Sub(a, q), Sub(b, q), Sub(c, q);
    var eu, ev, ew := EdgeSide(b, c, q), EdgeSide(c, a, q), EdgeSide(a, b, q);
    EdgeSideOffsets(b, c, q);
    EdgeSideOffsets(c, a, q);
    EdgeSideOffsets(a, b, q);
    CrossIdentity(u.x, u.y, v.x, v.y, w.x, w.y);
    Shift(eu, ev, ew, a.x, b.x, c.x, q.x);
  }

  /** The cross product of an edge with a point, in the offsets of the edge's ends from the point. */
  lemma EdgeSideOffsets(a: Position, b: Position, q: Position)
    ensures EdgeSide(a, b, q) == (a.x - q.x) * (b.y - q.y) - (b.x - q.x) * (a.y - q.y)
  {
  }

  /** Moving the origin to q: a weighted sum of coordinates is the weighted sum of the offsets from
      q plus the total weight times q. */
  lemma Shift(e1: int, e2: int, e3: int, x1: int, x2: int, x3: int, q: int)
    ensures e1 * x1 + e2 * x2 + e3 * x3 == e1 * (x1 - q) + e2 * (x2 - q) + e3 * (x3 - q) + (e1 + e2 + e3) * q
  {
  }

  /** For any three plane vectors u, v, w: `(v x w) u + (w x u) v + (u x v) w == 0`, one coordinate. */
  lemma CrossIdentity(ux: int, uy: int, vx: int, vy: int, wx: int, wy: int)
    ensures (vx * wy - wx * vy) * ux + (wx * uy - ux * wy) * vx + (ux * vy - vx * uy) * wx == 0
  {
    calc {
      (vx * wy - wx * vy) * ux + (wx * uy - ux * wy) * vx + (ux * vy - vx * uy) * wx;
      vx * wy * ux - wx * vy * ux + wx * uy * vx - ux * wy * vx + ux * vy * wx - vx * uy * wx;
      0;
    }
  }

  /** A point whose three weights share a sign and do not all vanish is a weighted average of the
      vertices, so it cannot lie strictly beyond all three along one axis. */
  lemma WeightedAverageBetween(e1: int, e2: int, e3: int, x1: int, x2: int, x3: int, q: int)
    requires e1 * x1 + e2 * x2 + e3 * x3 == (e1 + e2 + e3) * q
    requires (e1 >= 0 && e2 >= 0 && e3 >= 0) || (e1 <= 0 && e2 <= 0 && e3 <= 0)
    requires e1 + e2 + e3 != 0
    ensures !(x1 < q && x2 < q && x3 < q)
    ensures !(x1 > q && x2 > q && x3 > q)
  {
    if e1 >= 0 && e2 >= 0 && e3 >= 0 {
      NonNegativeAverage(e1, e2, e3, x1, x2, x3, q);
    } else {
      assert (-e1) * x1 + (-e2) * x2 + (-e3) * x3 == ((-e1) + (-e2) + (-e3)) * q;
      NonNegativeAverage(-e1, -e2, -e3, x1, x2, x3, q);
    }
  }

  lemma NonNegativeAverage(e1: int, e2: int, e3: int, x1: int, x2: int, x3: int, q: int)
    requires e1 * x1 + e2 * x2 + e3 * x3 == (e1 + e2 + e3) * q
    requires e1 >= 0 && e2 >= 0 && e3 >= 0 && e1 + e2 + e3 > 0
    ensures !(x1 < q && x2 < q && x3 < q)
    ensures !(x1 > q && x2 > q && x3 > q)
  {
    var sum := e1 + e2 + e3;
    if x1 < q && x2 < q && x3 < q {
      var m := Max(Max(x1, x2), x3);
      assert e1 * x1 + e2 * x2 + e3 * x3 <= sum * m by {
        MulMonotone(x1, m, e1);
        MulMonotone(x2, m, e2);
        MulMonotone(x3, m, e3);
        assert m * e1 + m * e2 + m * e3 == sum * m;
      }
      MulCancel(sum, q, m);
    }
    if x1 > q && x2 > q && x3 > q {
      var m := Min(Min(x1, x2), x3);
      assert e1 * x1 + e2 * x2 + e3 * x3 >= sum * m by {
        MulMonotone(m, x1, e1);
        MulMonotone(m, x2, e2);
        MulMonotone(m, x3, e3);
        assert m * e1 + m * e2 + m * e3 == sum * m;
      }
      MulCancel(sum, m, q);
    }
  }

  /** Scaling by 6 multiplies twice the area by 36; the half-pixel shift does not change it. */
  lemma Area2Upscale(a: Position, b: Position, c: Position)
    ensures Area2(Upscale(a), Upscale(b), Upscale(c)) == 36 * Area2(a, b, c)
  {
    var ux, uy, vx, vy := a.x - b.x, a.y - b.y, a.x - c.x, a.y - c.y;
    assert Area2(a, b, c) == ux * vy - vx * uy;
    assert Area2(Upscale(a), Upscale(b), Upscale(c)) == (6 * ux) * (6 * vy) - (6 * vx) * (6 * uy);
  }

  /** The three vertices lie on one line (twice the area is zero). */
  predicate Degenerate(t: Triangle)
  {
    Area2(t.p1, t.p2, t.p3) == 0
  }

  /** The box `Triangle::draw` walks: from the smallest to the largest vertex coordinate. */
  function BoundingBox(t: Triangle): (b: Box)
    ensures !IsEmpty(b)
    ensures InBox(b, t.p1.x, t.p1.y) && InBox(b, t.p2.x, t.p2.y) && InBox(b, t.p3.x, t.p3.y)
  {
    Box(Min(Min(t.p1.x, t.p2.x), t.p3.x), Max(Max(t.p1.x, t.p2.x), t.p3.x),
        Min(Min(t.p1.y, t.p2.y), t.p3.y), Max(Max(t.p1.y, t.p2.y), t.p3.y))
  }

  /** A sub-sample of a pixel outside the bounding box of a triangle that is not degenerate is
      never inside: all three cross products would then share a sign, making the sub-sample a
      weighted average of the vertices. */
  lemma SubsampleOutsideBox(t: Triangle, pos: Position, i: int, j: int)
    requires !Degenerate(t) && !InBox(BoundingBox(t), pos.x, pos.y) && 1 <= i <= AA && 1 <= j <= AA
    ensures !SubsampleIn(t, pos, i, j)
  {
    var a, b, c := Upscale(t.p1), Upscale(t.p2), Upscale(t.p3);
    var q := SubsamplePoint(pos, i, j);
    if IsPointInside(t, q) {
      var e1, e2, e3 := EdgeSide(b, c, q), EdgeSide(c, a, q), EdgeSide(a, b, q);
      Area2Upscale(t.p1, t.p2, t.p3);
      EdgeSidesSum(a, b, c, q);
      Barycentric(a, b, c, q);
      WeightedAverageBetween(e1, e2, e3, a.x, b.x, c.x, q.x);
      WeightedAverageBetween(e1, e2, e3, a.y, b.y, c.y, q.y);
      assert false;
    }
  }

  /** Outside the bounding box a triangle that is not degenerate reports nothing. */
  lemma SampleOutsideBox(t: Triangle, pos: Position)
    requires !Degenerate(t) && !InBox(BoundingBox(t), pos.x, pos.y)
    ensures Sample(t, pos) == None
  {
    SubsampleOutsideBox(t, pos, 1, 1);
    SubsampleOutsideBox(t, pos, 1, 2);
    SubsampleOutsideBox(t, pos, 2, 1);
    SubsampleOutsideBox(t, pos, 2, 2);
    CoverageTerms(t, pos);
  }

  /** A triangle whose three vertices coincide has all three cross products zero at every point,
      so every pixel of the plane is fully covered, while its box holds the one vertex pixel. */
  lemma PointTriangleCoversEverything(t: Triangle, pos: Position)
    requires t.p1 == t.p2 == t.p3
    ensures Degenerate(t)
    ensures BoundingBox(t) == Box(t.p1.x, t.p1.x, t.p1.y, t.p1.y)
    ensures Sample(t, pos) == Some(t.color)
  {
    var a := Upscale(t.p1);
    forall i, j
      ensures SubsampleIn(t, pos, i, j)
    {
      assert EdgeSide(a, a, SubsamplePoint(pos, i, j)) == 0;
    }
    CoverageTerms(t, pos);
  }

  /** Two vectors that are both parallel to a non-zero vector are parallel to each other. */
  lemma Parallel(d: Position, u: Position, v: Position)
    requires d != Position(0, 0)
    requires CrossProductSign(d, u) == 0 && CrossProductSign(d, v) == 0
    ensures CrossProductSign(u, v) == 0
  {
    var k := CrossProductSign(u, v);
    assert d.x * k == u.x * (d.x * v.y) - v.x * (d.x * u.y);
    assert d.y * k == v.y * (u.x * d.y) - u.y * (v.x * d.y);
    if d.x != 0 {
      NonZeroFactor(d.x, k);
    } else {
      NonZeroFactor(d.y, k);
    }
  }

  lemma NonZeroFactor(m: int, k: int)
    requires m != 0 && m * k == 0
    ensures k == 0
  {
    if k != 0 {
      if m > 0 && k > 0 { MulMonotone(1, m, k); }
      if m > 0 && k < 0 { MulMonotone(1, m, -k); }
      if m < 0 && k > 0 { MulMonotone(1, -m, k); }
      if m < 0 && k < 0 { MulMonotone(1, -m, -k); }
    }
  }

  /** A triangle of zero area whose first two vertices differ accepts every point of the line
      through its vertices: all three cross products vanish there, and zero counts as both
      signs. The line is unbounded, so such a triangle accepts points far outside its box. */
  lemma CollinearCoversLine(t: Triangle, q: Position)
    requires Degenerate(t) && t.p1 != t.p2
    requires EdgeSide(Upscale(t.p1), Upscale(t.p2), q) == 0
    ensures IsPointInside(t, q)
  {
    var a, b, c := Upscale(t.p1), Upscale(t.p2), Upscale(t.p3);
    Area2Upscale(t.p1, t.p2, t.p3);
    var d := Sub(a, b);
    assert d != Position(0, 0);
    assert CrossProductSign(d, Sub(b, c)) == CrossProductSign(d, Sub(a, c));
    assert CrossProductSign(d, Sub(b, q)) == CrossProductSign(d, Sub(a, q));
    Parallel(d, Sub(b, c), Sub(b, q));
    assert CrossProductSign(d, Sub(c, a)) == -CrossProductSign(d, Sub(a, c));
    assert CrossProductSign(d, Sub(c, q)) == CrossProductSign(d, Sub(a, q)) - CrossProductSign(d, Sub(a, c));
    Parallel(d, Sub(c, a), Sub(c, q));
  }

  /** A triangle with its vertices on the diagonal x = y, two of them distinct, has zero area
      and covers every pixel of the diagonal, however far from its vertices. */
  lemma DiagonalTriangleCoversDiagonal(t: Triangle, pos: Position)
    requires t.p1.x == t.p1.y && t.p2.x == t.p2.y && t.p3.x == t.p3.y && t.p1 != t.p2
    requires pos.x == pos.y
    ensures Degenerate(t)
    ensures Sample(t, pos).Some?
  {
    var q := SubsamplePoint(pos, 1, 1);
    var a, b := Upscale(t.p1), Upscale(t.p2);
    assert a.x == a.y && b.x == b.y && q.x == q.y;
    assert EdgeSide(a, b, q) == (a.x - b.x) * (a.x - q.x) - (a.x - q.x) * (a.x - b.x);
    CollinearCoversLine(t, q);
    CoverageTerms(t, pos);
  }

  /** The zero-area triangle (0, 0), (2, 2), (4, 4) reports a colour at pixel (6, 6), which lies
      outside the box `Triangle::draw` walks: the bounding-box fast path changes the outcome of
      the precise test. */
  lemma CollinearReportsOutsideBox(t: Triangle, pos: Position)
    requires t.p1 == Position(0, 0) && t.p2 == Position(2, 2) && t.p3 == Position(4, 4)
    requires pos == Position(6, 6)
    ensures Degenerate(t)
    ensures !InBox(BoundingBox(t), pos.x, pos.y)
    ensures Sample(t, pos).Some?
  {
    DiagonalTriangleCoversDiagonal(t, pos);
  }

  /** What the draw loop composites at a pixel: `color_at` inside the bounding box, nothing
      outside. For a triangle of non-zero area this is `color_at` everywhere, so the fast path
      changes no outcome; for a zero-area one it cuts the unbounded line down to the box. */
  function BoxedSample(t: Triangle, pos: Position): (r: Option<Color>)
    ensures !InBox(BoundingBox(t), pos.x, pos.y) ==> r == None
    ensures !Degenerate(t) ==> r == Sample(t, pos)
  {
    if InBox(BoundingBox(t), pos.x, pos.y) then Sample(t, pos)
    else
      assert !Degenerate(t) ==> Sample(t, pos) == None by {
        if !Degenerate(t) {
          SampleOutsideBox(t, pos);
        }
      }
      None
  }

  // ----- drawing -----

  /** A pixel as the triangle's draw loop leaves it. */
  function Paint(t: Triangle): (Color, int, int) -> Color
  {
    (pixel: Color, x: int, y: int) => Composite(pixel, BoxedSample(t, Position(x, y)))
  }

  /** A pixel as compositing `color_at` itself would leave it. */
  function ColorAtPaint(t: Triangle): (Color, int, int) -> Color
  {
    (pixel: Color, x: int, y: int) => Composite(pixel, Sample(t, Position(x, y)))
  }

  /** `Triangle::draw`: blends the triangle's colour at every pixel of the vertices' bounding box
      into the row-major buffer. */
  method Draw(t: Triangle, buffer: array<Color>, canvasSize: Size)
    requires Fits(buffer[..], canvasSize) && BoxFits(BoundingBox(t), canvasSize)
    modifies buffer
    ensures buffer[..] == Painted(old(buffer[..]), canvasSize, BoundingBox(t), Paint(t))
  {
    ghost var prev := buffer[..];
    var b := BoundingBox(t);
    PartialStart(prev, canvasSize, b, Paint(t));
    var xStart := Min(Min(t.p1.x, t.p2.x), t.p3.x);
    var xEnd := Max(Max(t.p1.x, t.p2.x), t.p3.x);
    var yStart := Min(Min(t.p1.y, t.p2.y), t.p3.y);
    var yEnd := Max(Max(t.p1.y, t.p2.y), t.p3.y);
    var x := xStart;
    while x <= xEnd
      invariant b.x0 <= x <= b.x1 + 1
      invariant buffer[..] == Partial(prev, canvasSize, b, x, b.y0, Paint(t))
    {
      var y := yStart;
      while y <= yEnd
        invariant b.y0 <= y <= b.y1 + 1
        invariant buffer[..] == Partial(prev, canvasSize, b, x, y, Paint(t))
      {
        var position := Position(x, y);
        PartialStep(prev, canvasSize, b, x, y, Paint(t));
        var color := ColorAt(t, position);
        assert InBox(b, x, y) && BoxedSample(t, position) == color;
        if color.Some? {
          var i := PositionToIndex(canvasSize, position);
          buffer[i] := Blend(buffer[i], color.value);
        }
        y := y + 1;
      }
      PartialNextColumn(prev, canvasSize, b, x, y, Paint(t));
      x := x + 1;
    }
    PartialEnd(prev, canvasSize, b, x, Paint(t));
  }

  /** Walking only the bounding box gives the same buffer as compositing the boxed sample at
      every pixel of the canvas; for a triangle of non-zero area that sample is `color_at`. */
  lemma DrawMissesNothing(t: Triangle, prev: seq<Color>, s: Size)
    requires Fits(prev, s)
    ensures Painted(prev, s, BoundingBox(t), Paint(t)) == Everywhere(prev, s, Paint(t))
    ensures !Degenerate(t) ==> Painted(prev, s, BoundingBox(t), Paint(t)) == Everywhere(prev, s, ColorAtPaint(t))
  {
    forall v: Color, x: int, y: int | !InBox(BoundingBox(t), x, y)
      ensures Paint(t)(v, x, y) == v
    {
      assert BoxedSample(t, Position(x, y)) == None;
    }
    PaintedOutsideIsNoop(prev, s, BoundingBox(t), Paint(t));
    if !Degenerate(t) {
      var e, f := Everywhere(prev, s, Paint(t)), Everywhere(prev, s, ColorAtPaint(t));
      forall i | 0 <= i < |prev|
        ensures e[i] == f[i]
      {
        var p := Position(i % s.width, i / s.width);
        assert BoxedSample(t, p) == Sample(t, p);
      }
    }
  }
}
