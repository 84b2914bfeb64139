/** Which pixel centres a triangle covers (`edge`, `triangle` in crates/client/src/gui_paint.rs),
    over exact reals: half-open edges, convex rows, and shared edges owned by one side. */
module Geometry {

  datatype Point = Point(x: real, y: real)

  function Edge(a: Point, b: Point, p: Point): real {
    (b.x - a.x) * (p.y - a.y) - (b.y - a.y) * (p.x - a.x)
  }

  /** Which of the two directions of an edge owns the pixels exactly on it. */
  predicate Inclusive(a: Point, b: Point) {
    b.y < a.y || (b.y == a.y && b.x > a.x)
  }

  predicate Inside(a: Point, b: Point, p: Point) {
    Edge(a, b, p) > 0.0 || (Edge(a, b, p) == 0.0 && Inclusive(a, b))
  }

  /** A closed clip rectangle. */
  datatype Clip = Clip(min: Point, max: Point) {
    predicate Contains(p: Point) {
      min.x <= p.x <= max.x && min.y <= p.y <= max.y
    }
  }

  /** The centre of a pixel. */
  function Centre(x: int, y: int): Point { Point(x as real + 0.5, y as real + 0.5) }

  /** A triangle whose vertices turn the positive way. */
  datatype Triangle = Triangle(a: Point, b: Point, c: Point) {
    function Area(): real { Edge(a, b, c) }

    predicate Covers(p: Point) { Inside(b, c, p) && Inside(c, a, p) && Inside(a, b, p) }
  }

  /** The vertices in the order given, turned the positive way; nothing when they are in line. */
  datatype Oriented = Flat | Turned(t: Triangle, swapped: bool)

  function Orient(a: Point, b: Point, c: Point): (o: Oriented)
    ensures o.Turned? ==> o.t.Area() > 0.0
    ensures o.Flat? <==> Edge(a, b, c) == 0.0
  {
    var area := Edge(a, b, c);
    if area == 0.0 then Flat
    else if area < 0.0 then
      SwapNegates(a, b, c);
      Turned(Triangle(a, c, b), true)
    else Turned(Triangle(a, b, c), false)
  }

  lemma SwapNegates(a: Point, b: Point, c: Point)
    ensures Edge(a, c, b) == -Edge(a, b, c)
  {
  }

  // --- barycentric ------------------------------------------------------------------

  /** The three edge values add up to the area, so the weights they give add up to one. */
  lemma EdgesSumToArea(t: Triangle, p: Point)
    ensures Edge(t.b, t.c, p) + Edge(t.c, t.a, p) + Edge(t.a, t.b, p) == t.Area()
  {
  }

  /** Weighted by the edge values, the vertices balance about the point. */
  lemma EdgesWeighTheVertices(t: Triangle, p: Point)
    ensures Edge(t.b, t.c, p) * (t.a.x - p.x) + Edge(t.c, t.a, p) * (t.b.x - p.x)
            + Edge(t.a, t.b, p) * (t.c.x - p.x) == 0.0
    ensures Edge(t.b, t.c, p) * (t.a.y - p.y) + Edge(t.c, t.a, p) * (t.b.y - p.y)
            + Edge(t.a, t.b, p) * (t.c.y - p.y) == 0.0
  {
  }

  /** Three weights that are not all zero cannot balance distances all on one side. */
  lemma BalanceTakesBothSides(e0: real, e1: real, e2: real, d0: real, d1: real, d2: real)
    requires e0 >= 0.0 && e1 >= 0.0 && e2 >= 0.0 && e0 + e1 + e2 > 0.0
    requires e0 * d0 + e1 * d1 + e2 * d2 == 0.0
    ensures d0 <= 0.0 || d1 <= 0.0 || d2 <= 0.0
    ensures d0 >= 0.0 || d1 >= 0.0 || d2 >= 0.0
  {
    Product(e0, d0);
    Product(e1, d1);
    Product(e2, d2);
  }

  /** A nonnegative factor keeps order. */
  lemma Ordered(x: real, y: real, k: real)
    requires k >= 0.0 && x <= y
    ensures x * k <= y * k
  {
  }

  lemma NotNegative(x: real, k: real)
    requires x >= 0.0 && k >= 0.0
    ensures x * k >= 0.0
  {
  }

  lemma Product(e: real, d: real)
    requires e >= 0.0
    ensures d > 0.0 ==> e * d >= 0.0 && (e > 0.0 ==> e * d > 0.0)
    ensures d < 0.0 ==> e * d <= 0.0 && (e > 0.0 ==> e * d < 0.0)
  {
  }

  function MinR(a: real, b: real): real { if a < b then a else b }
  function MaxR(a: real, b: real): real { if a < b then b else a }

  /** A covered point lies in the triangle's bounding box. */
  lemma CoveredInBox(t: Triangle, p: Point)
    requires t.Area() > 0.0 && t.Covers(p)
    ensures MinR(t.a.x, MinR(t.b.x, t.c.x)) <= p.x <= MaxR(t.a.x, MaxR(t.b.x, t.c.x))
    ensures MinR(t.a.y, MinR(t.b.y, t.c.y)) <= p.y <= MaxR(t.a.y, MaxR(t.b.y, t.c.y))
  {
    var e0, e1, e2 := Edge(t.b, t.c, p), Edge(t.c, t.a, p), Edge(t.a, t.b, p);
    EdgesSumToArea(t, p);
    EdgesWeighTheVertices(t, p);
    BalanceTakesBothSides(e0, e1, e2, t.a.x - p.x, t.b.x - p.x, t.c.x - p.x);
    BalanceTakesBothSides(e0, e1, e2, t.a.y - p.y, t.b.y - p.y, t.c.y - p.y);
  }

  // --- one row ----------------------------------------------------------------------

  /** Where a sloping edge meets the row of centres at height `py`, in pixel coordinates. */
  function Root(a: Point, b: Point, py: real): real
    requires b.y - a.y != 0.0
  {
    a.x + (py - a.y) * (b.x - a.x) / (b.y - a.y) - 0.5
  }

  lemma EdgeFromRoot(a: Point, b: Point, x: int, y: int)
    requires b.y - a.y != 0.0
    ensures Edge(a, b, Centre(x, y)) == (b.y - a.y) * (Root(a, b, y as real + 0.5) - x as real)
  {
  }

  /** Along a row the edge value changes by the slope's height for every pixel. */
  lemma EdgeAlongRow(a: Point, b: Point, x: int, x': int, y: int)
    ensures Edge(a, b, Centre(x', y)) == Edge(a, b, Centre(x, y)) - (b.y - a.y) * ((x' - x) as real)
  {
  }

  /** Between two pixels of a row inside an edge, every pixel is inside it. */
  lemma RowInsideIsConvex(a: Point, b: Point, x1: int, x: int, x2: int, y: int)
    requires x1 <= x <= x2 && Inside(a, b, Centre(x1, y)) && Inside(a, b, Centre(x2, y))
    ensures Inside(a, b, Centre(x, y))
  {
    EdgeAlongRow(a, b, x1, x, y);
    EdgeAlongRow(a, b, x, x2, y);
    var dy := b.y - a.y;
    if x1 < x < x2 {
      if dy < 0.0 {
        SignOfProduct(-dy, (x - x1) as real);
      } else if dy > 0.0 {
        SignOfProduct(dy, (x2 - x) as real);
      }
    }
  }

  lemma SignOfProduct(k: real, n: real)
    requires k > 0.0 && n > 0.0
    ensures k * n > 0.0 && (-k) * n < 0.0
  {
  }

  predicate CoveredAt(t: Triangle, clip: Clip, x: int, y: int) {
    clip.Contains(Centre(x, y)) && t.Covers(Centre(x, y))
  }

  /** THE CONVEX ROW: the covered pixels of a row have no gaps. */
  lemma CoveredRowIsConvex(t: Triangle, clip: Clip, x1: int, x: int, x2: int, y: int)
    requires x1 <= x <= x2 && CoveredAt(t, clip, x1, y) && CoveredAt(t, clip, x2, y)
    ensures CoveredAt(t, clip, x, y)
  {
    RowInsideIsConvex(t.b, t.c, x1, x, x2, y);
    RowInsideIsConvex(t.c, t.a, x1, x, x2, y);
    RowInsideIsConvex(t.a, t.b, x1, x, x2, y);
  }

  // --- shared edges -----------------------------------------------------------------

  /** Reversing an edge negates its value and gives the boundary to the other side. */
  lemma ReversedEdge(a: Point, b: Point, p: Point)
    requires a != b
    ensures Edge(b, a, p) == -Edge(a, b, p)
    ensures Inclusive(b, a) <==> !Inclusive(a, b)
    ensures Inside(b, a, p) <==> !Inside(a, b, p)
  {
  }

  /** Rotating or swapping vertices does not change what the drawn triangle covers. */
  ghost predicate Drawn(a: Point, b: Point, c: Point, p: Point) {
    var o := Orient(a, b, c);
    o.Turned? && o.t.Covers(p)
  }

  lemma DrawnInAnyOrder(a: Point, b: Point, c: Point, p: Point)
    ensures Drawn(a, b, c, p) == Drawn(b, c, a, p) == Drawn(c, a, b, p)
    ensures Drawn(a, b, c, p) == Drawn(a, c, b, p) == Drawn(c, b, a, p) == Drawn(b, a, c, p)
  {
    Turns(a, b, c);
    DrawnIsInside(a, b, c, p);
    DrawnIsInside(b, c, a, p);
    DrawnIsInside(c, a, b, p);
    DrawnIsInside(a, c, b, p);
    DrawnIsInside(c, b, a, p);
    DrawnIsInside(b, a, c, p);
  }

  /** The turn of three points is the same from each of them, and opposite the other way. */
  lemma Turns(a: Point, b: Point, c: Point)
    ensures Edge(b, c, a) == Edge(a, b, c) && Edge(c, a, b) == Edge(a, b, c)
    ensures Edge(a, c, b) == -Edge(a, b, c) && Edge(c, b, a) == -Edge(a, b, c) && Edge(b, a, c) == -Edge(a, b, c)
  {
  }

  lemma DrawnIsInside(a: Point, b: Point, c: Point, p: Point)
    ensures Edge(a, b, c) > 0.0 ==> (Drawn(a, b, c, p) <==> Inside(b, c, p) && Inside(c, a, p) && Inside(a, b, p))
    ensures Edge(a, b, c) < 0.0 ==> (Drawn(a, b, c, p) <==> Inside(c, b, p) && Inside(b, a, p) && Inside(a, c, p))
    ensures Edge(a, b, c) == 0.0 ==> !Drawn(a, b, c, p)
  {
  }

  lemma TurningMeansApart(a: Point, b: Point, c: Point)
    requires Edge(a, b, c) != 0.0
    ensures a != b && b != c && a != c
  {
  }

  /** Two triangles on opposite sides of a shared edge never both cover a point, whatever the
      order their vertices are given in. */
  lemma SharedEdgeIsOwnedOnce(a: Point, b: Point, c: Point, d: Point, p: Point)
    requires Edge(a, b, c) > 0.0 > Edge(a, b, d)
    ensures !(Drawn(a, b, c, p) && Drawn(a, b, d, p))
  {
    DrawnIsInside(a, b, c, p);
    DrawnIsInside(a, b, d, p);
    TurningMeansApart(a, b, c);
    ReversedEdge(a, b, p);
  }

  /** A convex quad, and a point strictly inside it. */
  ghost predicate ConvexQuad(a: Point, b: Point, c: Point, d: Point) {
    Edge(a, b, c) > 0.0 && Edge(b, c, d) > 0.0 && Edge(c, d, a) > 0.0 && Edge(d, a, b) > 0.0
  }

  ghost predicate StrictlyInside(a: Point, b: Point, c: Point, d: Point, p: Point) {
    Edge(a, b, p) > 0.0 && Edge(b, c, p) > 0.0 && Edge(c, d, p) > 0.0 && Edge(d, a, p) > 0.0
  }

  /** Split along a diagonal, the two triangles of a convex quad cover each point strictly
      inside it exactly once. */
  lemma QuadIsCoveredOnce(a: Point, b: Point, c: Point, d: Point, p: Point)
    requires ConvexQuad(a, b, c, d) && StrictlyInside(a, b, c, d, p)
    ensures Drawn(a, b, c, p) <==> !Drawn(a, c, d, p)
  {
    Turns(c, d, a);
    TurningMeansApart(a, c, d);
    ReversedEdge(a, c, p);
    DrawnIsInside(a, b, c, p);
    DrawnIsInside(a, c, d, p);
    assert Drawn(a, b, c, p) <==> Inside(c, a, p);
    assert Drawn(a, c, d, p) <==> Inside(a, c, p);
  }

  /** The same for a quad listed either way round; by `DrawnInAnyOrder` the order inside each
      triangle does not matter either. */
  lemma QuadIsCoveredOnceEitherWay(a: Point, b: Point, c: Point, d: Point, p: Point)
    requires || (ConvexQuad(a, b, c, d) && StrictlyInside(a, b, c, d, p))
             || (ConvexQuad(d, c, b, a) && StrictlyInside(d, c, b, a, p))
    ensures Drawn(a, b, c, p) <==> !Drawn(a, c, d, p)
  {
    if ConvexQuad(a, b, c, d) && StrictlyInside(a, b, c, d, p) {
      QuadIsCoveredOnce(a, b, c, d, p);
    } else {
      QuadIsCoveredOnce(c, b, a, d, p);
      DrawnInAnyOrder(a, b, c, p);
      DrawnInAnyOrder(a, c, d, p);
    }
  }

  // --- a rectangle on the axes --------------------------------------------------------

  lemma SideOfHorizontal(x: real, x': real, y: real, p: Point)
    requires x != x'
    ensures Inside(Point(x, y), Point(x', y), p) <==> if x < x' then p.y >= y else p.y < y
  {
    assert Edge(Point(x, y), Point(x', y), p) == (x' - x) * (p.y - y);
    SignOf(x' - x, p.y - y);
  }

  lemma SideOfVertical(x: real, y: real, y': real, p: Point)
    requires y != y'
    ensures Inside(Point(x, y), Point(x, y'), p) <==> if y < y' then p.x < x else p.x >= x
  {
    assert Edge(Point(x, y), Point(x, y'), p) == (y - y') * (p.x - x);
    SignOf(y - y', p.x - x);
  }

  lemma SignOf(k: real, v: real)
    requires k != 0.0
    ensures k * v == 0.0 <==> v == 0.0
    ensures k > 0.0 ==> (k * v > 0.0 <==> v > 0.0)
    ensures k < 0.0 ==> (k * v > 0.0 <==> v < 0.0)
  {
  }

  /** On either side of the diagonal, two sides of the rectangle bound the other two. */
  lemma DiagonalBounds(w: real, h: real, u: real, v: real)
    requires w > 0.0 && h > 0.0
    ensures w * v <= h * u && v >= 0.0 ==> u >= 0.0
    ensures w * v <= h * u && u < w ==> v < h
    ensures w * v >= h * u && u >= 0.0 ==> v >= 0.0
    ensures w * v >= h * u && v < h ==> u < w
  {
    if w * v <= h * u && v >= 0.0 { NotNegative(v, w); SignOf(h, u); }
    if w * v <= h * u && u < w { SignOf(h, w - u); SignOf(w, h - v); }
    if w * v >= h * u && u >= 0.0 { NotNegative(u, h); SignOf(w, v); }
    if w * v >= h * u && v < h { SignOf(w, h - v); SignOf(h, w - u); }
  }

  /** A RECTANGLE drawn as two triangles covers its left and top sides and not its right and
      bottom ones, so rectangles side by side share no point and leave none out. */
  lemma RectangleIsHalfOpen(x0: real, y0: real, x1: real, y1: real, p: Point)
    requires x0 < x1 && y0 < y1
    ensures var a, b, c, d := Point(x0, y0), Point(x1, y0), Point(x1, y1), Point(x0, y1);
            && (Drawn(a, b, c, p) || Drawn(a, c, d, p) <==> x0 <= p.x < x1 && y0 <= p.y < y1)
            && !(Drawn(a, b, c, p) && Drawn(a, c, d, p))
  {
    var a, b, c, d := Point(x0, y0), Point(x1, y0), Point(x1, y1), Point(x0, y1);
    var w, h := x1 - x0, y1 - y0;
    assert Edge(a, b, c) == w * h && Edge(a, c, d) == w * h;
    SignOf(w, h);
    DrawnIsInside(a, b, c, p);
    DrawnIsInside(a, c, d, p);
    SideOfHorizontal(x0, x1, y0, p);
    SideOfVertical(x1, y0, y1, p);
    SideOfHorizontal(x1, x0, y1, p);
    SideOfVertical(x0, y1, y0, p);
    ReversedEdge(a, c, p);
    assert Edge(a, c, p) == w * (p.y - y0) - h * (p.x - x0);
    DiagonalBounds(w, h, p.x - x0, p.y - y0);
  }

  /** On whole pixels that is the pixels between the corners, and a clip there lets in the same
      ones; a clip whose sides run through pixel centres lets those in too. */
  lemma WholePixels(x0: int, y0: int, x1: int, y1: int, x: int, y: int)
    requires x0 < x1 && y0 < y1
    ensures var a, c := Point(x0 as real, y0 as real), Point(x1 as real, y1 as real);
            var b, d, p := Point(c.x, a.y), Point(a.x, c.y), Centre(x, y);
            && (Drawn(a, b, c, p) || Drawn(a, c, d, p) <==> x0 <= x < x1 && y0 <= y < y1)
            && (Clip(a, c).Contains(p) <==> x0 <= x < x1 && y0 <= y < y1)
    ensures Clip(Centre(x0, y0), Centre(x1, y1)).Contains(Centre(x, y)) <==> x0 <= x <= x1 && y0 <= y <= y1
  {
    RectangleIsHalfOpen(x0 as real, y0 as real, x1 as real, y1 as real, Centre(x, y));
  }

  // --- scaling --------------------------------------------------------------------------

  function Scaled(p: Point, k: real): Point { Point(p.x * k, p.y * k) }

  lemma ScaledEdge(a: Point, b: Point, p: Point, k: real)
    ensures Edge(Scaled(a, k), Scaled(b, k), Scaled(p, k)) == k * k * Edge(a, b, p)
  {
    assert (b.x * k - a.x * k) * (p.y * k - a.y * k) == k * k * ((b.x - a.x) * (p.y - a.y)) by {
      ScaledProduct(b.x - a.x, p.y - a.y, k);
    }
    assert (b.y * k - a.y * k) * (p.x * k - a.x * k) == k * k * ((b.y - a.y) * (p.x - a.x)) by {
      ScaledProduct(b.y - a.y, p.x - a.x, k);
    }
  }

  lemma ScaledProduct(u: real, v: real, k: real)
    ensures (u * k) * (v * k) == k * k * (u * v)
  {
  }

  lemma ScaledInside(a: Point, b: Point, p: Point, k: real)
    requires k != 0.0
    ensures k > 0.0 || Edge(a, b, p) != 0.0 ==>
              (Inside(Scaled(a, k), Scaled(b, k), Scaled(p, k)) <==> Inside(a, b, p))
    ensures Edge(Scaled(a, k), Scaled(b, k), Scaled(p, k)) > 0.0 <==> Edge(a, b, p) > 0.0
    ensures Edge(Scaled(a, k), Scaled(b, k), Scaled(p, k)) == 0.0 <==> Edge(a, b, p) == 0.0
  {
    ScaledEdge(a, b, p, k);
    SignOf(k, k);
    SignOf(k * k, Edge(a, b, p));
    assert b.y * k - a.y * k == k * (b.y - a.y) && b.x * k - a.x * k == k * (b.x - a.x);
    SignOf(k, b.y - a.y);
    SignOf(k, b.x - a.x);
  }

  /** SCALING a triangle scales what it covers; turning it over about the origin too, but for
      the points on its edges, and nothing is left of it at scale zero. */
  lemma ScalingScalesDrawn(a: Point, b: Point, c: Point, p: Point, k: real)
    ensures var drawn := Drawn(Scaled(a, k), Scaled(b, k), Scaled(c, k), Scaled(p, k));
            && (k > 0.0 ==> (drawn <==> Drawn(a, b, c, p)))
            && (k < 0.0 && Edge(a, b, p) != 0.0 && Edge(b, c, p) != 0.0 && Edge(c, a, p) != 0.0 ==>
                  (drawn <==> Drawn(a, b, c, p)))
            && (k == 0.0 ==> !drawn)
  {
    ScaledEdge(a, b, c, k);
    DrawnIsInside(a, b, c, p);
    DrawnIsInside(Scaled(a, k), Scaled(b, k), Scaled(c, k), Scaled(p, k));
    if k != 0.0 {
      ScaledInside(a, b, c, k);
      ScaledInside(a, b, p, k); ScaledInside(b, c, p, k); ScaledInside(c, a, p, k);
      ScaledInside(b, a, p, k); ScaledInside(c, b, p, k); ScaledInside(a, c, p, k);
      EdgeNegates(a, b, p); EdgeNegates(b, c, p); EdgeNegates(c, a, p);
    }
  }

  lemma EdgeNegates(a: Point, b: Point, p: Point)
    ensures Edge(b, a, p) == -Edge(a, b, p)
  {
  }
}
