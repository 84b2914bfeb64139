/** What colour a covered pixel gets (`sample` and the blend of `triangle` in
    crates/client/src/gui_paint.rs), over exact reals, and why the shortcuts for constant
    textures, constant colours and opaque fills change nothing. */
module Shading {
  import opened Rects
  import opened Pixels
  import opened Geometry

  /** Four channels, each a byte's worth. */
  datatype Rgba = Rgba(r: real, g: real, b: real, a: real) {
    predicate InRange() {
      0.0 <= r <= 255.0 && 0.0 <= g <= 255.0 && 0.0 <= b <= 255.0 && 0.0 <= a <= 255.0
    }

    function Plus(o: Rgba): Rgba { Rgba(r + o.r, g + o.g, b + o.b, a + o.a) }

    function Times(k: real): Rgba { Rgba(r * k, g * k, b * k, a * k) }

    /** Channel by channel, as fractions of 255. */
    function Modulate(o: Rgba): Rgba { Rgba(r * o.r / 255.0, g * o.g / 255.0, b * o.b / 255.0, a * o.a / 255.0) }
  }

  const CLEAR := Rgba(0.0, 0.0, 0.0, 0.0)

  /** A texel or vertex colour, from its bytes. */
  function Colour(c: Pixel): (k: Rgba)
    ensures k.InRange()
  {
    Rgba(c.r as real, c.g as real, c.b as real, c.a as real)
  }

  const WHITE := Rgba(255.0, 255.0, 255.0, 255.0)

  /** White leaves a colour as it is, and a part of white takes that part of each channel. */
  lemma ModulateTakesAPart(k: Rgba, part: Rgba)
    ensures k.Modulate(WHITE) == k == WHITE.Modulate(k)
    ensures var p := Rgba(255.0 * part.r, 255.0 * part.g, 255.0 * part.b, 255.0 * part.a);
            k.Modulate(p) == p.Modulate(k) == Rgba(k.r * part.r, k.g * part.g, k.b * part.b, k.a * part.a)
  {
    PartOfChannel(k.r, part.r); PartOfChannel(k.g, part.g); PartOfChannel(k.b, part.b); PartOfChannel(k.a, part.a);
  }

  lemma PartOfChannel(k: real, part: real)
    ensures k * (255.0 * part) / 255.0 == k * part == 255.0 * part * k / 255.0
  {
    assert k * (255.0 * part) == 255.0 * (k * part) == 255.0 * part * k;
  }

  /** A quantity that changes evenly over the plane. */
  datatype Even = Even(base: real, perX: real, perY: real) {
    function At(p: Point): real { base + perX * p.x + perY * p.y }
  }

  /** A colour whose channels do. */
  datatype Gradient = Gradient(r: Even, g: Even, b: Even, a: Even) {
    function At(p: Point): Rgba { Rgba(r.At(p), g.At(p), b.At(p), a.At(p)) }
  }

  // --- texture ----------------------------------------------------------------------

  datatype Texture = Texture(width: nat, height: nat, pixels: seq<Pixel>) {
    predicate Valid() { width > 0 && height > 0 && |pixels| == RowStart(width, height) }

    function Texel(x: nat, y: nat): (k: Rgba)
      requires Valid() && x < width && y < height
      ensures k.InRange()
    {
      InBuffer(width, height, x, y);
      Colour(pixels[Index(width, x, y)])
    }
  }

  function ClampR(v: real, lo: real, hi: real): real { if v < lo then lo else if v > hi then hi else v }

  /** `a` at 0 and `b` at 1. */
  function Mix(a: Rgba, b: Rgba, f: real): (m: Rgba)
    requires a.InRange() && b.InRange() && 0.0 <= f <= 1.0
    ensures m.InRange()
  {
    MixInRange(a.r, b.r, f); MixInRange(a.g, b.g, f); MixInRange(a.b, b.b, f); MixInRange(a.a, b.a, f);
    a.Times(1.0 - f).Plus(b.Times(f))
  }

  lemma MixInRange(a: real, b: real, f: real)
    requires 0.0 <= a <= 255.0 && 0.0 <= b <= 255.0 && 0.0 <= f <= 1.0
    ensures 0.0 <= a * (1.0 - f) + b * f <= 255.0
  {
    var p := Share(a, 1.0 - f);
    var q := Share(b, f);
    SharesInRange(p, q, 1.0 - f, f);
  }

  lemma Share(x: real, k: real) returns (p: real)
    requires 0.0 <= x <= 255.0 && k >= 0.0
    ensures p == x * k && 0.0 <= p <= 255.0 * k
  {
    p := x * k;
    NotNegative(x, k);
    Ordered(x, 255.0, k);
  }

  lemma SharesInRange(p: real, q: real, g: real, f: real)
    requires 0.0 <= p <= 255.0 * g && 0.0 <= q <= 255.0 * f && g + f == 1.0
    ensures 0.0 <= p + q <= 255.0
  {
  }

  /** Between the texels of one row. */
  function MixRow(t: Texture, x0: nat, x1: nat, f: real, row: nat): (k: Rgba)
    requires t.Valid() && x0 < t.width && x1 < t.width && row < t.height && 0.0 <= f <= 1.0
    ensures k.InRange()
  {
    Mix(t.Texel(x0, row), t.Texel(x1, row), f)
  }

  /** Between the four texels around a place in the texture. */
  function Bilinear(t: Texture, x: real, y: real): (k: Rgba)
    requires t.Valid() && 0.0 <= x <= (t.width - 1) as real && 0.0 <= y <= (t.height - 1) as real
    ensures k.InRange()
  {
    var x0, y0 := x.Floor, y.Floor;
    var x1, y1 := Min(x0 + 1, t.width - 1), Min(y0 + 1, t.height - 1);
    var fx, fy := x - x0 as real, y - y0 as real;
    Mix(MixRow(t, x0, x1, fx, y0), MixRow(t, x0, x1, fx, y1), fy)
  }

  /** Where along a side of `n` texels a sample falls, clamped to it. */
  function Along(u: real, n: nat): (v: real)
    requires n > 0
    ensures 0.0 <= v <= (n - 1) as real
  {
    ClampR(u * n as real - 0.5, 0.0, (n - 1) as real)
  }

  /** Bilinear sampling, clamped to the texture: always a colour. */
  function Sample(t: Texture, uv: Point): (k: Rgba)
    requires t.Valid()
    ensures k.InRange()
  {
    Bilinear(t, Along(uv.x, t.width), Along(uv.y, t.height))
  }

  lemma BilinearAtTexel(t: Texture, i: nat, j: nat)
    requires t.Valid() && i < t.width && j < t.height
    ensures Bilinear(t, i as real, j as real) == t.Texel(i, j)
  {
    var x1, y1 := Min(i + 1, t.width - 1), Min(j + 1, t.height - 1);
    MixNone(t.Texel(i, j), t.Texel(x1, j));
    MixNone(t.Texel(i, y1), t.Texel(x1, y1));
    MixNone(t.Texel(i, j), t.Texel(i, y1));
  }

  lemma CentreAlong(u: real, i: nat, n: nat)
    requires i < n && u * n as real == i as real + 0.5
    ensures Along(u, n) == i as real
  {
  }

  /** At the centre of a texel the sample is that texel. */
  lemma SampleAtTexelCentre(t: Texture, uv: Point, i: nat, j: nat)
    requires t.Valid() && i < t.width && j < t.height
    requires uv.x * t.width as real == i as real + 0.5 && uv.y * t.height as real == j as real + 0.5
    ensures Sample(t, uv) == t.Texel(i, j)
  {
    CentreAlong(uv.x, i, t.width);
    CentreAlong(uv.y, j, t.height);
    BilinearAtTexel(t, i, j);
  }

  lemma MixNone(a: Rgba, b: Rgba)
    requires a.InRange() && b.InRange()
    ensures Mix(a, b, 0.0) == a
  {
  }

  /** Part of the way from one place to another. */
  predicate Toward(p: Point, q: Point, f: real, r: Point) {
    r.x == p.x + f * (q.x - p.x) && r.y == p.y + f * (q.y - p.y)
  }

  lemma MixedEvenly(e: Even, p: Point, q: Point, f: real, r: Point, a: real, b: real)
    requires Toward(p, q, f, r) && a == e.At(p) && b == e.At(q)
    ensures a * (1.0 - f) + b * f == e.At(r)
  {
    assert e.perX * r.x == e.perX * p.x * (1.0 - f) + e.perX * q.x * f;
    assert e.perY * r.y == e.perY * p.y * (1.0 - f) + e.perY * q.y * f;
    assert e.base == e.base * (1.0 - f) + e.base * f;
  }

  lemma MixedGradient(g: Gradient, p: Point, q: Point, f: real, r: Point, a: Rgba, b: Rgba)
    requires Toward(p, q, f, r) && a == g.At(p) && b == g.At(q) && a.InRange() && b.InRange() && 0.0 <= f <= 1.0
    ensures Mix(a, b, f) == g.At(r)
  {
    MixedEvenly(g.r, p, q, f, r, a.r, b.r);
    MixedEvenly(g.g, p, q, f, r, a.g, b.g);
    MixedEvenly(g.b, p, q, f, r, a.b, b.b);
    MixedEvenly(g.a, p, q, f, r, a.a, b.a);
  }

  /** The next texel is one further, unless there is none and nothing of it is taken. */
  lemma Stepped(v: real, n: nat) returns (v0: nat, v1: nat, f: real)
    requires n > 0 && 0.0 <= v <= (n - 1) as real
    ensures v0 == v.Floor && v1 == Min(v0 + 1, n - 1) && f == v - v0 as real
    ensures v0 <= v1 < n && 0.0 <= f < 1.0 && v0 as real + f * (v1 as real - v0 as real) == v
  {
    v0, v1, f := v.Floor, Min(v.Floor + 1, n - 1), v - v.Floor as real;
    if v1 == v0 {
      assert f == 0.0;
    } else {
      assert v1 as real - v0 as real == 1.0;
    }
  }

  type Field = Point -> Rgba

  /** Mixing what the field has at two places gives what it has in between. */
  ghost predicate MixesAlong(g: Field) {
    forall p, q, f, r {:trigger Toward(p, q, f, r)} ::
      Toward(p, q, f, r) && 0.0 <= f <= 1.0 && g(p).InRange() && g(q).InRange() ==> Mix(g(p), g(q), f) == g(r)
  }

  /** The texels are the field's values at their places. */
  ghost predicate SamplesField(t: Texture, g: Field)
    requires t.Valid()
  {
    forall i, j :: 0 <= i < t.width && 0 <= j < t.height ==> t.Texel(i, j) == g(Point(i as real, j as real))
  }

  lemma RowOfField(t: Texture, g: Field, x: real, row: nat) returns (x0: nat, x1: nat, f: real)
    requires t.Valid() && SamplesField(t, g) && MixesAlong(g)
    requires 0.0 <= x <= (t.width - 1) as real && row < t.height
    ensures x0 == x.Floor && x1 == Min(x0 + 1, t.width - 1) < t.width && f == x - x0 as real && 0.0 <= f <= 1.0
    ensures MixRow(t, x0, x1, f, row) == g(Point(x, row as real))
  {
    x0, x1, f := Stepped(x, t.width);
    assert Toward(Point(x0 as real, row as real), Point(x1 as real, row as real), f, Point(x, row as real));
  }

  lemma ColumnOfField(g: Field, x: real, y: real, n: nat, above: Rgba, below: Rgba)
    requires MixesAlong(g) && above.InRange() && below.InRange() && n > 0 && 0.0 <= y <= (n - 1) as real
    requires above == g(Point(x, y.Floor as real)) && below == g(Point(x, Min(y.Floor + 1, n - 1) as real))
    ensures 0.0 <= y - y.Floor as real <= 1.0 && Mix(above, below, y - y.Floor as real) == g(Point(x, y))
  {
    var y0, y1, f := Stepped(y, n);
    assert Toward(Point(x, y0 as real), Point(x, y1 as real), f, Point(x, y));
  }

  lemma BilinearIs(t: Texture, x: real, y: real, x0: nat, x1: nat, fx: real, y0: nat, y1: nat, fy: real)
    requires t.Valid() && 0.0 <= x <= (t.width - 1) as real && 0.0 <= y <= (t.height - 1) as real
    requires x0 == x.Floor && x1 == Min(x0 + 1, t.width - 1) && fx == x - x0 as real && x1 < t.width
    requires y0 == y.Floor && y1 == Min(y0 + 1, t.height - 1) && fy == y - y0 as real && y1 < t.height
    requires 0.0 <= fx <= 1.0 && 0.0 <= fy <= 1.0 && x0 < t.width && y0 < t.height
    ensures Bilinear(t, x, y) == Mix(MixRow(t, x0, x1, fx, y0), MixRow(t, x0, x1, fx, y1), fy)
  {
  }

  lemma BilinearOfField(t: Texture, g: Field, x: real, y: real)
    requires t.Valid() && SamplesField(t, g) && MixesAlong(g)
    requires 0.0 <= x <= (t.width - 1) as real && 0.0 <= y <= (t.height - 1) as real
    ensures Bilinear(t, x, y) == g(Point(x, y))
  {
    var y0, y1 := y.Floor, Min(y.Floor + 1, t.height - 1);
    var x0, x1, fx := RowOfField(t, g, x, y0);
    var _, _, _ := RowOfField(t, g, x, y1);
    BilinearIs(t, x, y, x0, x1, fx, y0, y1, y - y0 as real);
    ColumnOfField(g, x, y, t.height, MixRow(t, x0, x1, fx, y0), MixRow(t, x0, x1, fx, y1));
  }

  /** Sampling a gradient gives its value at the place sampled: nothing is lost between texels. */
  lemma SampleOfGradient(t: Texture, g: Gradient, uv: Point)
    requires t.Valid() && SamplesField(t, p => g.At(p))
    ensures Sample(t, uv) == g.At(Point(Along(uv.x, t.width), Along(uv.y, t.height)))
  {
    var field: Field := p => g.At(p);
    forall p, q, f, r | Toward(p, q, f, r) && 0.0 <= f <= 1.0 && field(p).InRange() && field(q).InRange()
      ensures Mix(field(p), field(q), f) == field(r)
    {
      MixedGradient(g, p, q, f, r, field(p), field(q));
    }
    BilinearOfField(t, field, Along(uv.x, t.width), Along(uv.y, t.height));
  }

  // --- interpolation ----------------------------------------------------------------

  datatype Vertex = Vertex(pos: Point, uv: Point, colour: Pixel)

  /** The three vertices of a drawn triangle, turned the positive way. */
  datatype Mesh = Mesh(a: Vertex, b: Vertex, c: Vertex) {
    function Shape(): Triangle { Triangle(a.pos, b.pos, c.pos) }
  }

  datatype Weights = Weights(a: real, b: real, c: real) {
    predicate SumToOne() { a + b + c == 1.0 }
  }

  function WeightsAt(m: Mesh, p: Point): (w: Weights)
    requires m.Shape().Area() > 0.0
    ensures w.SumToOne()
  {
    var t, area := m.Shape(), m.Shape().Area();
    EdgesSumToArea(t, p);
    QuotientsSum(Edge(t.b, t.c, p), Edge(t.c, t.a, p), Edge(t.a, t.b, p), area);
    Weights(Edge(t.b, t.c, p) / area, Edge(t.c, t.a, p) / area, Edge(t.a, t.b, p) / area)
  }

  /** The vertices weighted average to the point. */
  ghost predicate Locates(m: Mesh, w: Weights, p: Point) {
    && w.SumToOne()
    && m.a.pos.x * w.a + m.b.pos.x * w.b + m.c.pos.x * w.c == p.x
    && m.a.pos.y * w.a + m.b.pos.y * w.b + m.c.pos.y * w.c == p.y
  }

  /** The weights place the point: the vertices weighted by them average to it. */
  lemma WeightsLocateThePoint(m: Mesh, p: Point)
    requires m.Shape().Area() > 0.0
    ensures Locates(m, WeightsAt(m, p), p)
  {
  }

  lemma QuotientsSum(e0: real, e1: real, e2: real, sum: real)
    requires e0 + e1 + e2 == sum && sum != 0.0
    ensures e0 / sum + e1 / sum + e2 / sum == 1.0
  {
  }

  function MixUv(m: Mesh, w: Weights): Point {
    Point(m.a.uv.x * w.a + m.b.uv.x * w.b + m.c.uv.x * w.c, m.a.uv.y * w.a + m.b.uv.y * w.b + m.c.uv.y * w.c)
  }

  function MixColour(m: Mesh, w: Weights): Rgba {
    Colour(m.a.colour).Times(w.a).Plus(Colour(m.b.colour).Times(w.b)).Plus(Colour(m.c.colour).Times(w.c))
  }

  lemma EdgeAtItsEnds(a: Point, b: Point)
    ensures Edge(a, b, a) == 0.0 && Edge(a, b, b) == 0.0
  {
  }

  lemma WholeAndNothing(area: real)
    requires area != 0.0
    ensures area / area == 1.0 && 0.0 / area == 0.0
  {
  }

  /** At a vertex the weights are all its own. */
  lemma WeightsAtVertices(m: Mesh)
    requires m.Shape().Area() > 0.0
    ensures WeightsAt(m, m.a.pos) == Weights(1.0, 0.0, 0.0)
    ensures WeightsAt(m, m.b.pos) == Weights(0.0, 1.0, 0.0)
    ensures WeightsAt(m, m.c.pos) == Weights(0.0, 0.0, 1.0)
  {
    var a, b, c, area := m.a.pos, m.b.pos, m.c.pos, m.Shape().Area();
    WholeAndNothing(area);
    assert Edge(b, c, a) == area && Edge(c, a, b) == area by { Turns(a, b, c); }
    WeightsFromEdges(m, a, area, 0.0, 0.0) by { EdgeAtItsEnds(c, a); EdgeAtItsEnds(a, b); }
    WeightsFromEdges(m, b, 0.0, area, 0.0) by { EdgeAtItsEnds(b, c); EdgeAtItsEnds(a, b); }
    WeightsFromEdges(m, c, 0.0, 0.0, area) by { EdgeAtItsEnds(b, c); EdgeAtItsEnds(c, a); }
  }

  lemma WeightsFromEdges(m: Mesh, p: Point, ea: real, eb: real, ec: real)
    requires m.Shape().Area() > 0.0
    requires Edge(m.b.pos, m.c.pos, p) == ea && Edge(m.c.pos, m.a.pos, p) == eb && Edge(m.a.pos, m.b.pos, p) == ec
    ensures var area := m.Shape().Area(); WeightsAt(m, p) == Weights(ea / area, eb / area, ec / area)
  {
  }

  /** A weight of one takes its own of three values, in whichever place. */
  lemma OneOfThree(x: real, y: real, z: real, w: Weights)
    ensures w == Weights(1.0, 0.0, 0.0) ==> x * w.a + y * w.b + z * w.c == x
    ensures w == Weights(0.0, 1.0, 0.0) ==> x * w.a + y * w.b + z * w.c == y
    ensures w == Weights(0.0, 0.0, 1.0) ==> x * w.a + y * w.b + z * w.c == z
  {
  }

  ghost predicate OwnWeights(m: Mesh, w: Weights, v: Vertex) {
    || (w == Weights(1.0, 0.0, 0.0) && v == m.a) || (w == Weights(0.0, 1.0, 0.0) && v == m.b)
    || (w == Weights(0.0, 0.0, 1.0) && v == m.c)
  }

  lemma OneColour(m: Mesh, w: Weights, v: Vertex)
    requires OwnWeights(m, w, v)
    ensures MixColour(m, w) == Colour(v.colour)
  {
    var a, b, c := Colour(m.a.colour), Colour(m.b.colour), Colour(m.c.colour);
    OneOfThree(a.r, b.r, c.r, w);
    OneOfThree(a.g, b.g, c.g, w);
    OneOfThree(a.b, b.b, c.b, w);
    OneOfThree(a.a, b.a, c.a, w);
  }

  lemma OneUv(m: Mesh, w: Weights, v: Vertex)
    requires OwnWeights(m, w, v)
    ensures MixUv(m, w) == v.uv
  {
    OneOfThree(m.a.uv.x, m.b.uv.x, m.c.uv.x, w);
    OneOfThree(m.a.uv.y, m.b.uv.y, m.c.uv.y, w);
  }

  /** AT ITS VERTICES a triangle has their colours and samples at their places. */
  lemma MixesAtVertices(m: Mesh)
    requires m.Shape().Area() > 0.0
    ensures MixColour(m, WeightsAt(m, m.a.pos)) == Colour(m.a.colour) && MixUv(m, WeightsAt(m, m.a.pos)) == m.a.uv
    ensures MixColour(m, WeightsAt(m, m.b.pos)) == Colour(m.b.colour) && MixUv(m, WeightsAt(m, m.b.pos)) == m.b.uv
    ensures MixColour(m, WeightsAt(m, m.c.pos)) == Colour(m.c.colour) && MixUv(m, WeightsAt(m, m.c.pos)) == m.c.uv
  {
    WeightsAtVertices(m);
    OneColour(m, WeightsAt(m, m.a.pos), m.a);
    OneUv(m, WeightsAt(m, m.a.pos), m.a);
    OneColour(m, WeightsAt(m, m.b.pos), m.b);
    OneUv(m, WeightsAt(m, m.b.pos), m.b);
    OneColour(m, WeightsAt(m, m.c.pos), m.c);
    OneUv(m, WeightsAt(m, m.c.pos), m.c);
  }

  lemma EvenMixes(e: Even, m: Mesh, w: Weights, p: Point, ka: real, kb: real, kc: real)
    requires Locates(m, w, p) && ka == e.At(m.a.pos) && kb == e.At(m.b.pos) && kc == e.At(m.c.pos)
    ensures ka * w.a + kb * w.b + kc * w.c == e.At(p)
  {
    assert e.perX * p.x == e.perX * m.a.pos.x * w.a + e.perX * m.b.pos.x * w.b + e.perX * m.c.pos.x * w.c;
    assert e.perY * p.y == e.perY * m.a.pos.y * w.a + e.perY * m.b.pos.y * w.b + e.perY * m.c.pos.y * w.c;
    MixOfOne(e.base, w);
  }

  lemma GradientMixes(m: Mesh, g: Gradient, w: Weights, p: Point, a: Rgba, b: Rgba, c: Rgba)
    requires Locates(m, w, p) && a == g.At(m.a.pos) && b == g.At(m.b.pos) && c == g.At(m.c.pos)
    ensures a.Times(w.a).Plus(b.Times(w.b)).Plus(c.Times(w.c)) == g.At(p)
  {
    EvenMixes(g.r, m, w, p, a.r, b.r, c.r);
    EvenMixes(g.g, m, w, p, a.g, b.g, c.g);
    EvenMixes(g.b, m, w, p, a.b, b.b, c.b);
    EvenMixes(g.a, m, w, p, a.a, b.a, c.a);
  }

  /** IN BETWEEN: vertex colours that are a gradient of position mix to that gradient at every
      point, which pins which vertex has which weight. */
  lemma ColourMixesEvenly(m: Mesh, g: Gradient, p: Point)
    requires m.Shape().Area() > 0.0
    requires Colour(m.a.colour) == g.At(m.a.pos) && Colour(m.b.colour) == g.At(m.b.pos)
             && Colour(m.c.colour) == g.At(m.c.pos)
    ensures MixColour(m, WeightsAt(m, p)) == g.At(p)
  {
    WeightsLocateThePoint(m, p);
    GradientMixes(m, g, WeightsAt(m, p), p, Colour(m.a.colour), Colour(m.b.colour), Colour(m.c.colour));
  }

  ghost predicate UFollows(v: Vertex, e: Even) { v.uv.x == e.At(v.pos) }

  ghost predicate VFollows(v: Vertex, e: Even) { v.uv.y == e.At(v.pos) }

  lemma UMixes(m: Mesh, e: Even, w: Weights, p: Point)
    requires Locates(m, w, p) && UFollows(m.a, e) && UFollows(m.b, e) && UFollows(m.c, e)
    ensures MixUv(m, w).x == e.At(p)
  {
    EvenMixes(e, m, w, p, m.a.uv.x, m.b.uv.x, m.c.uv.x);
  }

  lemma VMixes(m: Mesh, e: Even, w: Weights, p: Point)
    requires Locates(m, w, p) && VFollows(m.a, e) && VFollows(m.b, e) && VFollows(m.c, e)
    ensures MixUv(m, w).y == e.At(p)
  {
    EvenMixes(e, m, w, p, m.a.uv.y, m.b.uv.y, m.c.uv.y);
  }

  /** And places in the texture likewise. */
  lemma UvMixesEvenly(m: Mesh, u: Even, v: Even, p: Point)
    requires m.Shape().Area() > 0.0
    requires UFollows(m.a, u) && UFollows(m.b, u) && UFollows(m.c, u)
    requires VFollows(m.a, v) && VFollows(m.b, v) && VFollows(m.c, v)
    ensures MixUv(m, WeightsAt(m, p)) == Point(u.At(p), v.At(p))
  {
    WeightsLocateThePoint(m, p);
    UMixes(m, u, WeightsAt(m, p), p);
    VMixes(m, v, WeightsAt(m, p), p);
  }

  /** A texture as what it gives at a place. */
  type Sampler = Point -> Rgba

  function SamplerOf(t: Texture): Sampler
    requires t.Valid()
  {
    (uv: Point) => Sample(t, uv)
  }

  lemma SamplesInRange(t: Texture, uv: Point)
    requires t.Valid()
    ensures SamplerOf(t)(uv).InRange()
  {
  }

  /** The plain rule: interpolate everything at every pixel. */
  function ReferenceShade(m: Mesh, tex: Sampler, p: Point): Rgba
    requires m.Shape().Area() > 0.0
  {
    var w := WeightsAt(m, p);
    tex(MixUv(m, w)).Modulate(MixColour(m, w))
  }

  predicate ConstantUv(m: Mesh) { m.a.uv == m.b.uv == m.c.uv }

  predicate ConstantColour(m: Mesh) { m.a.colour == m.b.colour == m.c.colour }

  /** The colour of a triangle that has only one. */
  function ConstantShade(m: Mesh, tex: Sampler): Rgba {
    tex(m.a.uv).Modulate(Colour(m.a.colour))
  }

  lemma ModulateInRange(x: Rgba, y: Rgba)
    requires x.InRange() && y.InRange()
    ensures x.Modulate(y).InRange()
  {
    FractionInRange(x.r, y.r); FractionInRange(x.g, y.g); FractionInRange(x.b, y.b); FractionInRange(x.a, y.a);
  }

  lemma FractionInRange(x: real, y: real)
    requires 0.0 <= x <= 255.0 && 0.0 <= y <= 255.0
    ensures 0.0 <= x * y / 255.0 <= 255.0
  {
    var p := Share(x, y);
    ProductInRange(p, y);
  }

  lemma ProductInRange(p: real, y: real)
    requires 0.0 <= p <= 255.0 * y && y <= 255.0
    ensures 0.0 <= p / 255.0 <= 255.0
  {
  }

  /** What the optimised path computes at a pixel. */
  function FastShade(m: Mesh, tex: Sampler, p: Point): Rgba
    requires m.Shape().Area() > 0.0
  {
    if ConstantUv(m) && ConstantColour(m) then ConstantShade(m, tex)
    else
      var w := WeightsAt(m, p);
      var texel := if ConstantUv(m) then tex(m.a.uv) else tex(MixUv(m, w));
      texel.Modulate(MixColour(m, w))
  }

  /** Interpolating a constant gives the constant back, because the weights sum to one. */
  lemma MixOfOne(k: real, w: Weights)
    requires w.SumToOne()
    ensures k * w.a + k * w.b + k * w.c == k
  {
  }

  lemma ConstantUvMixes(m: Mesh, w: Weights)
    requires w.SumToOne() && ConstantUv(m)
    ensures MixUv(m, w) == m.a.uv
  {
  }

  lemma ConstantColourMixes(m: Mesh, w: Weights)
    requires w.SumToOne() && ConstantColour(m)
    ensures MixColour(m, w) == Colour(m.a.colour)
  {
    var c := Colour(m.a.colour);
    MixOfOne(c.r, w); MixOfOne(c.g, w); MixOfOne(c.b, w); MixOfOne(c.a, w);
  }

  /** THE SHORTCUTS: sampling a constant texture once, and shading a constant triangle once,
      give every pixel the colour the plain rule gives it. */
  lemma FastShadeIsReference(m: Mesh, tex: Sampler, p: Point)
    requires m.Shape().Area() > 0.0
    ensures FastShade(m, tex, p) == ReferenceShade(m, tex, p)
  {
    ShadesAgree(m, tex, WeightsAt(m, p));
  }

  lemma ShadesAgree(m: Mesh, tex: Sampler, w: Weights)
    requires w.SumToOne()
    ensures ConstantUv(m) ==> tex(m.a.uv) == tex(MixUv(m, w))
    ensures ConstantUv(m) && ConstantColour(m) ==> ConstantShade(m, tex) == tex(MixUv(m, w)).Modulate(MixColour(m, w))
  {
    if ConstantUv(m) {
      ConstantUvMixes(m, w);
    }
    if ConstantColour(m) {
      ConstantColourMixes(m, w);
    }
  }

  // --- blending into the buffer -----------------------------------------------------

  /** To the nearest integer, halves away from zero. */
  function Round(v: real): int {
    if v >= 0.0 then (v + 0.5).Floor else -((0.5 - v).Floor)
  }

  function BlendChannel(c: real, a: real, old_: byte): byte {
    Max(0, Min(Round(c + old_ as real * (1.0 - a / 255.0)), 255))
  }

  function BlendOver(k: Rgba, u: Pixel): Pixel {
    Pixel(0, BlendChannel(k.r, k.a, u.r), BlendChannel(k.g, k.a, u.g), BlendChannel(k.b, k.a, u.b))
  }

  lemma RoundIsNearest(v: real)
    ensures -0.5 <= Round(v) as real - v <= 0.5
    ensures v >= 0.0 && v - v.Floor as real == 0.5 ==> Round(v) == v.Floor + 1
  {
  }

  /** A channel becomes what is added over the part of the old that shows through, to nearest,
      and stops at the ends. */
  lemma BlendChannelIsNearest(c: real, a: real, under: byte)
    ensures var v, r := c + under as real * (1.0 - a / 255.0), BlendChannel(c, a, under) as real;
            && (0.0 <= v <= 255.0 ==> -0.5 <= r - v <= 0.5)
            && (v <= 0.0 ==> r == 0.0)
            && (v >= 255.0 ==> r == 255.0)
  {
    RoundIsNearest(c + under as real * (1.0 - a / 255.0));
  }

  lemma RoundInRange(v: real)
    requires 0.0 <= v <= 255.0
    ensures 0 <= Round(v) <= 255
  {
  }

  /** The word an opaque constant colour fills with. */
  function OpaqueFill(k: Rgba): Pixel
    requires k.InRange()
  {
    RoundInRange(k.r); RoundInRange(k.g); RoundInRange(k.b);
    Pixel(0, Round(k.r), Round(k.g), Round(k.b))
  }

  /** An opaque colour covers what was there. */
  lemma OpaqueIsBlend(k: Rgba, u: Pixel)
    requires k.InRange() && k.a == 255.0
    ensures BlendOver(k, u) == OpaqueFill(k)
  {
  }

  /** The bytes of an opaque colour come out as they went in. */
  lemma OpaqueBytes(c: Pixel)
    requires c.a == 255
    ensures OpaqueFill(Colour(c)) == c.(a := 0)
  {
    RoundWhole(c.r);
    RoundWhole(c.g);
    RoundWhole(c.b);
  }

  lemma RoundWhole(n: byte)
    ensures Round(n as real) == n
  {
  }

  /** A clear colour blends to what was there, its top byte dropped. */
  lemma ClearIsBlend(u: Pixel)
    ensures BlendOver(CLEAR, u) == u.(a := 0)
  {
  }
}
