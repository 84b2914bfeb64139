/** Half-open pixel rectangles (crates/proto/src/image.rs) and the one conversion
    between remote-screen and window coordinates (`scale_rect`). */
module Rects {

  const U32_MAX: nat := 0xFFFF_FFFF

  // The ceiling on magnification, whether pinned or taken from the display.
  const MAX_SCALE: nat := 4

  function Min(a: int, b: int): int { if a < b then a else b }
  function Max(a: int, b: int): int { if a < b then b else a }

  datatype Rect = Rect(x: nat, y: nat, width: nat, height: nat) {

    predicate IsEmpty() { width == 0 || height == 0 }

    function Right(): nat { x + width }

    function Bottom(): nat { y + height }

    /** The pixels of the rectangle: left and top edges in, right and bottom out. */
    predicate Has(px: int, py: int) {
      x <= px < Right() && y <= py < Bottom()
    }

    /** Exactly the shared pixels. */
    function Intersect(o: Rect): (r: Rect)
      ensures forall px, py :: r.Has(px, py) <==> Has(px, py) && o.Has(px, py)
    {
      var x1 := Max(x, o.x);
      var y1 := Max(y, o.y);
      var x2 := Min(Right(), o.Right());
      var y2 := Min(Bottom(), o.Bottom());
      if x2 > x1 && y2 > y1 then Rect(x1, y1, x2 - x1, y2 - y1) else EMPTY
    }

    /** Covers both operands, and nothing that a rectangle covering both could avoid. */
    function Union(o: Rect): (r: Rect)
      ensures forall px, py :: Has(px, py) || o.Has(px, py) ==> r.Has(px, py)
      ensures forall q: Rect :: q.Contains(this) && q.Contains(o) ==> q.Contains(r)
    {
      if IsEmpty() then o
      else if o.IsEmpty() then this
      else
        var x1 := Min(x, o.x);
        var y1 := Min(y, o.y);
        var x2 := Max(Right(), o.Right());
        var y2 := Max(Bottom(), o.Bottom());
        Rect(x1, y1, x2 - x1, y2 - y1)
    }

    predicate Contains(o: Rect) {
      o.IsEmpty() || (x <= o.x && y <= o.y && o.Right() <= Right() && o.Bottom() <= Bottom())
    }
  }

  const EMPTY := Rect(0, 0, 0, 0)

  /** The corner arithmetic of `contains` decides inclusion of pixel sets, both ways. */
  lemma ContainsIsInclusion(a: Rect, b: Rect)
    ensures a.Contains(b) <==> forall px, py :: b.Has(px, py) ==> a.Has(px, py)
  {
    if !b.IsEmpty() && forall px, py :: b.Has(px, py) ==> a.Has(px, py) {
      assert b.Has(b.x, b.y);
      assert b.Has(b.Right() - 1, b.Bottom() - 1);
    }
  }

  /** Multiplication in `u32` that stops at the largest value. */
  function SaturatingMul(a: nat, b: nat): nat {
    if a * b > U32_MAX then U32_MAX else a * b
  }

  function ScaleRect(r: Rect, scale: nat): Rect {
    var s := Max(scale, 1);
    Rect(SaturatingMul(r.x, s), SaturatingMul(r.y, s), SaturatingMul(r.width, s), SaturatingMul(r.height, s))
  }

  /** `v / s`: which remote pixel a window coordinate magnifies. Written as repeated
      subtraction so that proofs about cells stay linear. */
  function Cell(v: nat, s: nat): nat
    requires s > 0
  {
    if v < s then 0 else 1 + Cell(v - s, s)
  }

  /** `(v / s + 1) * s`: where the magnified cell that holds `v` ends. */
  function CellEnd(v: nat, s: nat): (end: nat)
    requires s > 0
    ensures end > v
  {
    if v < s then s else s + CellEnd(v - s, s)
  }

  lemma {:induction false} CellBounds(v: nat, s: nat)
    requires s > 0
    ensures s * Cell(v, s) <= v < s * (Cell(v, s) + 1) == CellEnd(v, s)
  {
    if v < s {
    } else {
      CellBounds(v - s, s);
      var c := Cell(v - s, s);
      assert s * (1 + c) == s + s * c && s * (1 + c + 1) == s + s * (c + 1);
    }
  }

  lemma CellIsQuotient(v: nat, s: nat)
    requires s > 0
    ensures Cell(v, s) == v / s
    ensures CellEnd(v, s) == (v / s + 1) * s
  {
    CellBounds(v, s);
    CellOf(v, s, Cell(v, s));
  }

  /** Without magnification every cell is one pixel. */
  lemma {:induction false} UnitCell(v: nat)
    ensures Cell(v, 1) == v
  {
    if v > 0 {
      UnitCell(v - 1);
    }
  }

  lemma {:induction false} SameCell(v: nat, u: nat, s: nat)
    requires s > 0 && v <= u < CellEnd(v, s)
    ensures Cell(u, s) == Cell(v, s) && CellEnd(u, s) == CellEnd(v, s)
    decreases v
  {
    if v >= s {
      SameCell(v - s, u - s, s);
    }
  }

  /** Cell `k` of magnification `s` is the run of window pixels `s*k .. s*(k+1)`. */
  lemma CellOf(v: int, s: nat, k: int)
    requires s > 0
    ensures s * k <= v < s * (k + 1) <==> v / s == k
  {
    var q := v / s;
    assert v == s * q + v % s;
    if q < k {
      assert s * (q + 1) <= s * k by { MulMonotone(s, q + 1, k); }
      assert s * (q + 1) == s * q + s;
    } else if q > k {
      assert s * (k + 1) <= s * q by { MulMonotone(s, k + 1, q); }
    } else {
      assert s * (k + 1) == s * q + s;
    }
  }

  lemma MulMonotone(s: nat, a: int, b: int)
    requires a <= b
    ensures s * a <= s * b
  {
  }

  /** A pixel shows a remote coordinate of an interval exactly when it is in the magnified
      interval. */
  lemma ScaledInterval(v: nat, s: nat, lo: int, hi: int)
    requires s > 0
    ensures lo <= Cell(v, s) < hi <==> s * lo <= v < s * hi
  {
    var q := Cell(v, s);
    CellBounds(v, s);
    if lo <= q { MulMonotone(s, lo, q); } else { MulMonotone(s, q + 1, lo); }
    if q < hi { MulMonotone(s, q + 1, hi); } else { MulMonotone(s, hi, q); }
  }

  lemma ScaledAxis(v: nat, s: nat, lo: nat, len: nat)
    requires s > 0 && v < U32_MAX
    ensures lo <= Cell(v, s) < lo + len ==> SaturatingMul(lo, s) <= v < SaturatingMul(lo, s) + SaturatingMul(len, s)
    ensures (lo + len) * s <= U32_MAX && SaturatingMul(lo, s) <= v < SaturatingMul(lo, s) + SaturatingMul(len, s) ==>
              lo <= Cell(v, s) < lo + len
  {
    ScaledInterval(v, s, lo, lo + len);
    assert s * (lo + len) == (lo + len) * s == lo * s + len * s;
    assert s * lo == lo * s;
  }

  /** Every window pixel that shows a remote pixel of `r` lies in the scaled rectangle, even
      where the multiplication saturates; it is the exact image when nothing saturates. */
  lemma ScaleRectCovers(r: Rect, scale: nat, px: nat, py: nat)
    requires px < U32_MAX && py < U32_MAX
    ensures var s := Max(scale, 1);
            r.Has(Cell(px, s), Cell(py, s)) ==> ScaleRect(r, scale).Has(px, py)
    ensures var s := Max(scale, 1);
            r.Right() * s <= U32_MAX && r.Bottom() * s <= U32_MAX && ScaleRect(r, scale).Has(px, py) ==>
              r.Has(Cell(px, s), Cell(py, s))
  {
    ScaledAxis(px, Max(scale, 1), r.x, r.width);
    ScaledAxis(py, Max(scale, 1), r.y, r.height);
  }

  /** Inside a screen of 16-bit dimensions and at a magnification the client can have, a
      scaled rectangle's far edges are still representable in `u32`. */
  lemma ScaledEdgesFit(r: Rect, scale: nat)
    requires r.Right() <= 0xFFFF && r.Bottom() <= 0xFFFF && scale <= MAX_SCALE
    ensures ScaleRect(r, scale).Right() <= U32_MAX && ScaleRect(r, scale).Bottom() <= U32_MAX
    ensures ScaleRect(r, scale).Right() == Max(scale, 1) * r.Right()
    ensures ScaleRect(r, scale).Bottom() == Max(scale, 1) * r.Bottom()
  {
    var s := Max(scale, 1);
    MulMonotone(r.Right(), s, MAX_SCALE);
    MulMonotone(r.Bottom(), s, MAX_SCALE);
    assert s * r.Right() == r.x * s + r.width * s;
    assert s * r.Bottom() == r.y * s + r.height * s;
  }
}
