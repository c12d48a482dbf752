/** What a primitive reports for one pixel (`Option<Color>`) and how a report is composited
    into the pixel it covers (`buffer[i] += color`, a blend, when there is a colour at all). */
module Sampling {
  import opened Colors
  import Arith

  datatype Option<T> = None | Some(value: T)

  /** The pixel after compositing a primitive's report for it. */
  function Composite(base: Color, over: Option<Color>): (r: Color)
    ensures over.None? ==> r == base
    ensures over.Some? ==> r == Blend(base, over.value)
  {
    match over
    case None => base
    case Some(c) => Blend(base, c)
  }

  /** The blended alpha a primitive reports for `count` covered sub-samples out of `total`:
      `(color.a as i64 * count / total) as u8`. */
  function ScaledAlpha(a: Byte, count: nat, total: nat): (r: Byte)
    requires 0 < total && count <= total
    ensures r <= a
    ensures count == total ==> r == a
    ensures count == 0 ==> r == 0
  {
    ScaledAlphaBound(a, count, total);
    AsU8(a * count / total)
  }

  lemma ScaledAlphaBound(a: Byte, count: nat, total: nat)
    requires 0 < total && count <= total
    ensures 0 <= a * count / total <= a
    ensures count == total ==> a * count / total == a
  {
    Arith.MulMonotone(count, total, a);
    assert a * count <= a * total;
    Arith.DivMonotone(0, a * count, total);
    Arith.DivMonotone(a * count, a * total, total);
    Arith.DivUnique(a * total, total, a, 0);
  }
}
