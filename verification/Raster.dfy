/** The scanline triangle and the bounding-box triangle it must agree with (`triangle` and
    `reference_triangle` in crates/client/src/gui_paint.rs), over exact reals. */
module Raster {
  import opened Rects
  import opened Geometry

  // --- number conversions -----------------------------------------------------------

  function Ceil(v: real): int { -((-v).Floor) }

  /** A float-to-`u32` cast: truncating, and saturating at both ends. */
  function ToU32(v: real): (n: nat)
    ensures n <= U32_MAX
    ensures 0.0 <= v && v.Floor <= U32_MAX ==> n == v.Floor
  {
    if v < 0.0 then 0 else if v.Floor > U32_MAX then U32_MAX else v.Floor
  }

  // --- where to look ----------------------------------------------------------------

  /** The first and one past the last row and column visited. */
  datatype Box = Box(x0: nat, y0: nat, x1: nat, y1: nat)

  function BoundingBox(t: Triangle, clip: Clip, w: nat, h: nat): Box {
    var minX := MaxR(MinR(t.a.x, MinR(t.b.x, t.c.x)), clip.min.x);
    var minY := MaxR(MinR(t.a.y, MinR(t.b.y, t.c.y)), clip.min.y);
    var maxX := MinR(MaxR(t.a.x, MaxR(t.b.x, t.c.x)), clip.max.x);
    var maxY := MinR(MaxR(t.a.y, MaxR(t.b.y, t.c.y)), clip.max.y);
    Box(ToU32(MaxR(minX, 0.0).Floor as real), ToU32(MaxR(minY, 0.0).Floor as real),
        ToU32(Ceil(MinR(maxX, w as real)) as real), ToU32(Ceil(MinR(maxY, h as real)) as real))
  }

  lemma BoundIsRound(lo: real, hi: real, n: nat, v: nat)
    requires lo <= v as real + 0.5 <= hi && v < n <= U32_MAX
    ensures ToU32(MaxR(lo, 0.0).Floor as real) <= v < ToU32(Ceil(MinR(hi, n as real)) as real) <= n
  {
  }

  /** The bounding box loses no covered pixel of the window, and never leaves the window. */
  lemma BoxHoldsCovered(t: Triangle, clip: Clip, w: nat, h: nat, x: nat, y: nat)
    requires t.Area() > 0.0 && CoveredAt(t, clip, x, y) && x < w <= U32_MAX && y < h <= U32_MAX
    ensures var box := BoundingBox(t, clip, w, h); box.x0 <= x < box.x1 && box.y0 <= y < box.y1
  {
    CoveredInBox(t, Centre(x, y));
    BoundIsRound(MaxR(MinR(t.a.x, MinR(t.b.x, t.c.x)), clip.min.x),
        MinR(MaxR(t.a.x, MaxR(t.b.x, t.c.x)), clip.max.x), w, x);
    BoundIsRound(MaxR(MinR(t.a.y, MinR(t.b.y, t.c.y)), clip.min.y),
        MinR(MaxR(t.a.y, MaxR(t.b.y, t.c.y)), clip.max.y), h, y);
  }

  lemma BoundIsTight(lo: real, hi: real, n: nat, v: nat)
    requires n <= U32_MAX
    requires ToU32(MaxR(lo, 0.0).Floor as real) <= v < ToU32(Ceil(MinR(hi, n as real)) as real)
    ensures v < n && lo < v as real + 1.0 && v as real < hi
  {
  }

  /** Nor does it visit a pixel that lies wholly beside the triangle or the clip. */
  lemma BoxIsTight(t: Triangle, clip: Clip, w: nat, h: nat, x: nat, y: nat)
    requires w <= U32_MAX && h <= U32_MAX
    requires var box := BoundingBox(t, clip, w, h); box.x0 <= x < box.x1 && box.y0 <= y < box.y1
    ensures x < w && y < h
    ensures MinR(t.a.x, MinR(t.b.x, t.c.x)) < x as real + 1.0 && x as real < MaxR(t.a.x, MaxR(t.b.x, t.c.x))
    ensures MinR(t.a.y, MinR(t.b.y, t.c.y)) < y as real + 1.0 && y as real < MaxR(t.a.y, MaxR(t.b.y, t.c.y))
    ensures clip.min.x < x as real + 1.0 && x as real < clip.max.x
    ensures clip.min.y < y as real + 1.0 && y as real < clip.max.y
  {
    BoundIsTight(MaxR(MinR(t.a.x, MinR(t.b.x, t.c.x)), clip.min.x),
        MinR(MaxR(t.a.x, MaxR(t.b.x, t.c.x)), clip.max.x), w, x);
    BoundIsTight(MaxR(MinR(t.a.y, MinR(t.b.y, t.c.y)), clip.min.y),
        MinR(MaxR(t.a.y, MaxR(t.b.y, t.c.y)), clip.max.y), h, y);
  }

  // --- one scanline -----------------------------------------------------------------

  /** A sloping edge narrows the span, rounding outwards. */
  function Narrow(a: Point, b: Point, py: real, start: nat, end: nat): (nat, nat)
    requires b.y - a.y != 0.0
  {
    var root := Root(a, b, py);
    if b.y - a.y < 0.0 then (Max(start, ToU32(MaxR(root.Floor as real, 0.0))), end)
    else (start, Min(end, Min(ToU32(MaxR(Ceil(root) as real, 0.0)) + 1, U32_MAX)))
  }

  /** Rounding outwards never drops a pixel inside the edge. */
  lemma NarrowKeepsInside(a: Point, b: Point, y: int, start: nat, end: nat, x: nat)
    requires b.y - a.y != 0.0 && Inside(a, b, Centre(x, y)) && start <= x < end && x < U32_MAX
    ensures var (s, e) := Narrow(a, b, y as real + 0.5, start, end); s <= x < e
  {
    EdgeFromRoot(a, b, x, y);
    RootSide(b.y - a.y, Root(a, b, y as real + 0.5), x as real);
    NarrowRounds(Root(a, b, y as real + 0.5), x);
  }

  lemma RootSide(dy: real, root: real, x: real)
    requires dy != 0.0 && dy * (root - x) >= 0.0
    ensures dy < 0.0 ==> root <= x
    ensures dy > 0.0 ==> x <= root
  {
  }

  lemma NarrowRounds(root: real, x: nat)
    requires x < U32_MAX
    ensures root <= x as real ==> ToU32(MaxR(root.Floor as real, 0.0)) <= x
    ensures x as real <= root ==> x < Min(ToU32(MaxR(Ceil(root) as real, 0.0)) + 1, U32_MAX)
  {
  }

  /** Nor does it keep a pixel more than one beyond the edge. */
  lemma NarrowIsTight(a: Point, b: Point, py: real, start: nat, end: nat, x: nat)
    requires b.y - a.y != 0.0 && end <= U32_MAX
    requires var (s, e) := Narrow(a, b, py, start, end); s <= x < e
    ensures start <= x < end
    ensures b.y < a.y ==> Root(a, b, py) < x as real + 1.0
    ensures b.y > a.y && x > 0 ==> x as real < Root(a, b, py) + 1.0
  {
    NarrowRoundsTightly(Root(a, b, py), x);
  }

  lemma NarrowRoundsTightly(root: real, x: nat)
    requires x < U32_MAX
    ensures ToU32(MaxR(root.Floor as real, 0.0)) <= x ==> root < x as real + 1.0
    ensures 0 < x < Min(ToU32(MaxR(Ceil(root) as real, 0.0)) + 1, U32_MAX) ==> x as real < root + 1.0
  {
  }

  function EdgesOf(t: Triangle): seq<(Point, Point)> { [(t.b, t.c), (t.c, t.a), (t.a, t.b)] }

  lemma CoveredIsInsideEdges(t: Triangle, clip: Clip, x: int, y: int)
    ensures CoveredAt(t, clip, x, y) <==>
            && clip.Contains(Centre(x, y))
            && forall i :: 0 <= i < 3 ==> Inside(EdgesOf(t)[i].0, EdgesOf(t)[i].1, Centre(x, y))
  {
    var es := EdgesOf(t);
    assert es[0] == (t.b, t.c) && es[1] == (t.c, t.a) && es[2] == (t.a, t.b);
  }

  /** THE SPAN: exactly the covered pixels of the row between the columns given. */
  ghost predicate SpanIsCovered(t: Triangle, clip: Clip, x0: nat, x1: nat, y: nat, start: nat, end: nat) {
    forall x :: x0 <= x < x1 ==> (start <= x < end <==> CoveredAt(t, clip, x, y))
  }

  /** Every covered pixel is still inside the span. */
  ghost predicate SpanHolds(t: Triangle, clip: Clip, x0: nat, x1: nat, y: nat, start: nat, end: nat) {
    forall x :: x0 <= x < x1 && CoveredAt(t, clip, x, y) ==> start <= x < end
  }

  lemma NoneCovered(t: Triangle, clip: Clip, x0: nat, x1: nat, y: nat, i: nat)
    requires i < 3
    requires var (a, b) := EdgesOf(t)[i];
             && b.y - a.y == 0.0
             && var e := (b.x - a.x) * (y as real + 0.5 - a.y);
                e < 0.0 || (e == 0.0 && !Inclusive(a, b))
    ensures SpanIsCovered(t, clip, x0, x1, y, x0, x0)
  {
  }

  lemma NarrowHolds(t: Triangle, clip: Clip, x0: nat, x1: nat, y: nat, start: nat, end: nat, i: nat)
    requires i < 3 && x1 <= U32_MAX && SpanHolds(t, clip, x0, x1, y, start, end)
    requires var (a, b) := EdgesOf(t)[i]; b.y - a.y != 0.0
    ensures var (a, b) := EdgesOf(t)[i]; var (s, e) := Narrow(a, b, y as real + 0.5, start, end);
            SpanHolds(t, clip, x0, x1, y, s, e) && start <= s && e <= end
  {
    var (a, b) := EdgesOf(t)[i];
    forall x | x0 <= x < x1 && CoveredAt(t, clip, x, y)
      ensures var (s, e) := Narrow(a, b, y as real + 0.5, start, end); s <= x < e
    {
      CoveredIsInsideEdges(t, clip, x, y);
      NarrowKeepsInside(a, b, y, start, end, x);
    }
  }

  lemma TrimmedIsCovered(t: Triangle, clip: Clip, x0: nat, x1: nat, y: nat, start: nat, end: nat)
    requires SpanHolds(t, clip, x0, x1, y, start, end)
    requires start < end ==> CoveredAt(t, clip, start, y) && CoveredAt(t, clip, end - 1, y)
    ensures SpanIsCovered(t, clip, x0, x1, y, start, end)
  {
    forall x | x0 <= x < x1 && start <= x < end ensures CoveredAt(t, clip, x, y) {
      CoveredRowIsConvex(t, clip, start, x, end - 1, y);
    }
  }

  method NarrowRow(t: Triangle, clip: Clip, x0: nat, x1: nat, y: nat) returns (empty: bool, start: nat, end: nat)
    requires x1 <= U32_MAX
    ensures empty ==> SpanIsCovered(t, clip, x0, x1, y, x0, x0)
    ensures !empty ==> SpanHolds(t, clip, x0, x1, y, start, end) && x0 <= start && end <= x1
  {
    var py := y as real + 0.5;
    start, end := x0, x1;
    var edges := EdgesOf(t);
    for i := 0 to 3
      invariant SpanHolds(t, clip, x0, x1, y, start, end) && x0 <= start && end <= x1
    {
      var (a, b) := edges[i];
      if b.y - a.y == 0.0 {
        var e := (b.x - a.x) * (py - a.y);
        if e < 0.0 || (e == 0.0 && !Inclusive(a, b)) {
          NoneCovered(t, clip, x0, x1, y, i);
          return true, x0, x0;
        }
      } else {
        NarrowHolds(t, clip, x0, x1, y, start, end, i);
        var narrowed := Narrow(a, b, py, start, end);
        start, end := narrowed.0, narrowed.1;
      }
    }
    empty := false;
  }

  /** Trimming a span to its first and last covered pixel. */
  method Trim(covered: nat -> bool, from: nat, to: nat) returns (start: nat, end: nat)
    ensures from <= start && end <= to
    ensures forall x :: from <= x < to && covered(x) ==> start <= x < end
    ensures start < end ==> covered(start) && covered(end - 1)
  {
    start, end := from, to;
    while start < end && !covered(start)
      invariant from <= start
      invariant forall x :: from <= x < to && covered(x) ==> start <= x
      decreases end - start
    {
      start := start + 1;
    }
    while start < end && !covered(end - 1)
      invariant end <= to
      invariant forall x :: from <= x < to && covered(x) ==> start <= x < end
      decreases end - start
    {
      end := end - 1;
    }
  }

  /** Whether a pixel of the row is covered, as the scanline asks. */
  function CoveredInRow(t: Triangle, clip: Clip, y: nat): nat -> bool {
    (x: nat) => CoveredAt(t, clip, x, y)
  }

  lemma RowOutsideClip(t: Triangle, clip: Clip, x0: nat, x1: nat, y: nat)
    requires y as real + 0.5 < clip.min.y || y as real + 0.5 > clip.max.y
    ensures SpanIsCovered(t, clip, x0, x1, y, x0, x0)
  {
  }

  /** The trimmed scanline span of one row. */
  method RowSpan(t: Triangle, clip: Clip, x0: nat, x1: nat, y: nat) returns (start: nat, end: nat)
    requires x1 <= U32_MAX
    ensures SpanIsCovered(t, clip, x0, x1, y, start, end)
    ensures start < end ==> x0 <= start && end <= x1
  {
    if y as real + 0.5 < clip.min.y || y as real + 0.5 > clip.max.y {
      RowOutsideClip(t, clip, x0, x1, y);
      return x0, x0;
    }
    var empty, from, to := NarrowRow(t, clip, x0, x1, y);
    if empty {
      return x0, x0;
    }
    start, end := Trim(CoveredInRow(t, clip, y), from, to);
    TrimmedSpan(t, clip, x0, x1, y, from, to, start, end);
  }

  lemma TrimmedSpan(t: Triangle, clip: Clip, x0: nat, x1: nat, y: nat, from: nat, to: nat, start: nat, end: nat)
    requires SpanHolds(t, clip, x0, x1, y, from, to)
    requires forall x :: from <= x < to && CoveredInRow(t, clip, y)(x) ==> start <= x < end
    requires start < end ==> CoveredInRow(t, clip, y)(start) && CoveredInRow(t, clip, y)(end - 1)
    ensures SpanIsCovered(t, clip, x0, x1, y, start, end)
  {
    forall x | x0 <= x < x1 && CoveredAt(t, clip, x, y) ensures start <= x < end {
      assert CoveredInRow(t, clip, y)(x);
    }
    TrimmedIsCovered(t, clip, x0, x1, y, start, end);
  }
}
