/** Drawing a triangle: the scanline method with its fast paths, the bounding-box method it is
    measured against, and their agreement on every buffer. */
module Triangles {
  import opened Rects
  import opened Pixels
  import opened Canvas
  import opened Geometry
  import opened Shading
  import opened Raster
  import opened Options
  import Blit

  function ScaleVertex(v: Vertex, scale: real): Vertex {
    v.(pos := Scaled(v.pos, scale))
  }

  /** The vertices scaled and turned the positive way; nothing when they are in line. */
  function Prepare(v0: Vertex, v1: Vertex, v2: Vertex, scale: real): (m: Option<Mesh>)
    ensures m.Some? ==> m.value.Shape().Area() > 0.0
  {
    var a, b, c := ScaleVertex(v0, scale), ScaleVertex(v1, scale), ScaleVertex(v2, scale);
    match Orient(a.pos, b.pos, c.pos)
    case Flat => None
    case Turned(t, swapped) => Some(if swapped then Mesh(a, c, b) else Mesh(a, b, c))
  }

  /** The prepared triangle still has each vertex's own colour and place in the texture where the
      scale has put it. */
  lemma PreparedKeepsVertices(v0: Vertex, v1: Vertex, v2: Vertex, scale: real, v: Vertex)
    requires v == v0 || v == v1 || v == v2
    ensures var m := Prepare(v0, v1, v2, scale);
            m.Some? ==>
              var w := WeightsAt(m.value, Scaled(v.pos, scale));
              MixColour(m.value, w) == Colour(v.colour) && MixUv(m.value, w) == v.uv
  {
    var m := Prepare(v0, v1, v2, scale);
    if m.Some? {
      MixesAtVertices(m.value);
      var s := ScaleVertex(v, scale);
      assert s == m.value.a || s == m.value.b || s == m.value.c;
    }
  }

  /** Nothing at all to draw: one colour, and it is clear. */
  predicate DrawsNothing(m: Mesh, tex: Sampler) {
    ConstantUv(m) && ConstantColour(m) && ConstantShade(m, tex) == CLEAR
  }

  /** The plain rule at a pixel. */
  function ReferencePixel(m: Mesh, tex: Sampler, clip: Clip, x: nat, y: nat, u: Pixel): Pixel
    requires m.Shape().Area() > 0.0
  {
    if CoveredAt(m.Shape(), clip, x, y) then BlendOver(ReferenceShade(m, tex, Centre(x, y)), u) else u
  }

  /** What the scanline method does to a pixel. */
  function FastPixel(m: Mesh, tex: Sampler, clip: Clip, x: nat, y: nat, u: Pixel): Pixel
    requires m.Shape().Area() > 0.0
  {
    if !DrawsNothing(m, tex) && CoveredAt(m.Shape(), clip, x, y)
    then BlendOver(FastShade(m, tex, Centre(x, y)), u) else u
  }

  function ReferenceOp(m: Mesh, tex: Sampler, clip: Clip): PixelOp
    requires m.Shape().Area() > 0.0
  {
    (x: nat, y: nat, u: Pixel) => ReferencePixel(m, tex, clip, x, y, u)
  }

  function FastOp(m: Mesh, tex: Sampler, clip: Clip): PixelOp
    requires m.Shape().Area() > 0.0
  {
    (x: nat, y: nat, u: Pixel) => FastPixel(m, tex, clip, x, y, u)
  }

  /** THE FAST PATHS ARE THE PLAIN RULE at a pixel, exactly when the pixel has a clear top
      byte or the triangle does not have a clear constant colour over it: the early return for
      such a triangle keeps a top byte that blending would have dropped. */
  lemma FastPixelIsReference(m: Mesh, tex: Sampler, clip: Clip, x: nat, y: nat, u: Pixel)
    requires m.Shape().Area() > 0.0
    ensures FastPixel(m, tex, clip, x, y, u) == ReferencePixel(m, tex, clip, x, y, u) <==>
            u.a == 0 || !DrawsNothing(m, tex) || !CoveredAt(m.Shape(), clip, x, y)
  {
    FastShadeIsReference(m, tex, Centre(x, y));
    if DrawsNothing(m, tex) {
      ClearIsBlend(u);
    }
  }

  /** A SOLID TRIANGLE, opaque and on the white of its texture, shows its own colour at every pixel
      it covers, whatever was there. */
  lemma SolidShowsItsColour(m: Mesh, tex: Sampler, clip: Clip, x: nat, y: nat, u: Pixel)
    requires m.Shape().Area() > 0.0 && CoveredAt(m.Shape(), clip, x, y)
    requires ConstantUv(m) && ConstantColour(m) && tex(m.a.uv) == WHITE && m.a.colour.a == 255
    ensures FastPixel(m, tex, clip, x, y, u) == m.a.colour.(a := 0) == ReferencePixel(m, tex, clip, x, y, u)
  {
    var k := Colour(m.a.colour);
    ModulateTakesAPart(k, k);
    assert ConstantShade(m, tex) == k;
    OpaqueIsBlend(k, u);
    OpaqueBytes(m.a.colour);
    FastShadeIsReference(m, tex, Centre(x, y));
  }

  /** A triangle without colour is one: it keeps the top byte that the plain rule drops. */
  lemma ColourlessKeepsTopByte(m: Mesh, tex: Sampler, clip: Clip, x: nat, y: nat, u: Pixel)
    requires m.Shape().Area() > 0.0 && CoveredAt(m.Shape(), clip, x, y)
    requires ConstantUv(m) && ConstantColour(m) && m.a.colour == Pixel(0, 0, 0, 0)
    ensures FastPixel(m, tex, clip, x, y, u) == u && ReferencePixel(m, tex, clip, x, y, u) == u.(a := 0)
  {
    FastShadeIsReference(m, tex, Centre(x, y));
    ClearIsBlend(u);
  }

  /** `0x00RRGGBB` at every pixel covered. */
  ghost predicate TopBytesClear(b: seq<Pixel>, w: nat, h: nat, t: Triangle, clip: Clip)
    requires RowStart(w, h) <= |b|
  {
    forall x, y :: 0 <= x < w && 0 <= y < h && CoveredAt(t, clip, x, y) ==>
        Index(w, x, y) < |b| && Px(b, w, x, y).a == 0
  }

  /** THE TWO TRIANGLES leave the same buffer, exactly when the triangle is not a clear
      constant one or every pixel it covers was `0x00RRGGBB`. */
  lemma FastBufferIsReference(b: seq<Pixel>, w: nat, h: nat, m: Mesh, tex: Sampler, clip: Clip)
    requires m.Shape().Area() > 0.0 && RowStart(w, h) <= |b|
    ensures MapAll(b, w, h, FastOp(m, tex, clip)) == MapAll(b, w, h, ReferenceOp(m, tex, clip)) <==>
            !DrawsNothing(m, tex) || TopBytesClear(b, w, h, m.Shape(), clip)
  {
    OpsAgree(b, w, h, m, tex, clip);
    MapsAgree(b, w, h, FastOp(m, tex, clip), ReferenceOp(m, tex, clip));
  }

  lemma OpsAgree(b: seq<Pixel>, w: nat, h: nat, m: Mesh, tex: Sampler, clip: Clip)
    requires m.Shape().Area() > 0.0 && RowStart(w, h) <= |b|
    ensures AgreeOn(b, w, h, FastOp(m, tex, clip), ReferenceOp(m, tex, clip)) <==>
            !DrawsNothing(m, tex) || TopBytesClear(b, w, h, m.Shape(), clip)
  {
    var f, g := FastOp(m, tex, clip), ReferenceOp(m, tex, clip);
    forall x, y | 0 <= x < w && 0 <= y < h
      ensures Index(w, x, y) < |b|
      ensures f(x, y, Px(b, w, x, y)) == g(x, y, Px(b, w, x, y)) <==>
              Px(b, w, x, y).a == 0 || !DrawsNothing(m, tex) || !CoveredAt(m.Shape(), clip, x, y)
    {
      InBuffer(w, h, x, y);
      FastPixelIsReference(m, tex, clip, x, y, Px(b, w, x, y));
    }
  }

  // --- a quad is blended once ---------------------------------------------------------

  /** The prepared triangle covers what the vertices draw, in whichever order they came. */
  lemma PreparedCoversDrawn(v0: Vertex, v1: Vertex, v2: Vertex, scale: real, p: Point)
    ensures var m, a, b, c := Prepare(v0, v1, v2, scale), ScaleVertex(v0, scale).pos, ScaleVertex(v1, scale).pos,
            ScaleVertex(v2, scale).pos;
            && (m.Some? && m.value.Shape().Covers(p) <==> Drawn(a, b, c, p))
            && Drawn(a, b, c, p) == Drawn(b, c, a, p) == Drawn(c, a, b, p) == Drawn(a, c, b, p) ==
               Drawn(c, b, a, p) == Drawn(b, a, c, p)
  {
  }

  /** It covers, scaled, what the vertices as given cover. */
  lemma PreparedCoversScaled(v0: Vertex, v1: Vertex, v2: Vertex, scale: real, p: Point)
    requires scale > 0.0
    ensures var m := Prepare(v0, v1, v2, scale);
            m.Some? && m.value.Shape().Covers(Scaled(p, scale)) <==> Drawn(v0.pos, v1.pos, v2.pos, p)
  {
    PreparedCoversDrawn(v0, v1, v2, scale, Scaled(p, scale));
    ScalingScalesDrawn(v0.pos, v1.pos, v2.pos, p, scale);
  }

  /** Drawing a convex quad as two triangles blends a pixel whose centre is strictly inside
      it exactly once: with the one triangle's colour or with the other's, never both, never
      neither. */
  lemma QuadIsBlendedOnce(v: seq<Vertex>, scale: real, tex: Sampler, clip: Clip, x: nat, y: nat, u: Pixel)
    requires |v| == 4
    requires var a, b, c, d, p := ScaleVertex(v[0], scale).pos, ScaleVertex(v[1], scale).pos,
             ScaleVertex(v[2], scale).pos, ScaleVertex(v[3], scale).pos, Centre(x, y);
             || (ConvexQuad(a, b, c, d) && StrictlyInside(a, b, c, d, p))
             || (ConvexQuad(d, c, b, a) && StrictlyInside(d, c, b, a, p))
    requires clip.Contains(Centre(x, y))
    ensures var m, n := Prepare(v[0], v[1], v[2], scale), Prepare(v[0], v[2], v[3], scale);
            && m.Some? && n.Some?
            && ReferencePixel(n.value, tex, clip, x, y, ReferencePixel(m.value, tex, clip, x, y, u)) ==
               if CoveredAt(m.value.Shape(), clip, x, y) then BlendOver(ReferenceShade(m.value, tex, Centre(x, y)), u)
               else BlendOver(ReferenceShade(n.value, tex, Centre(x, y)), u)
  {
    var a, b, c, d, p := ScaleVertex(v[0], scale).pos, ScaleVertex(v[1], scale).pos, ScaleVertex(v[2], scale).pos,
        ScaleVertex(v[3], scale).pos, Centre(x, y);
    QuadIsCoveredOnceEitherWay(a, b, c, d, p);
    QuadHalvesTurn(a, b, c, d);
    PreparedCoversDrawn(v[0], v[1], v[2], scale, p);
    PreparedCoversDrawn(v[0], v[2], v[3], scale, p);
  }

  lemma QuadHalvesTurn(a: Point, b: Point, c: Point, d: Point)
    requires ConvexQuad(a, b, c, d) || ConvexQuad(d, c, b, a)
    ensures Edge(a, b, c) != 0.0 && Edge(a, c, d) != 0.0
  {
  }

  // --- the scanline method ----------------------------------------------------------

  /** The single colour of a triangle that has one. */
  function ConstantRgba(m: Mesh, tex: Sampler): Option<Rgba> {
    if ConstantUv(m) && ConstantColour(m) then Some(ConstantShade(m, tex)) else None
  }

  /** The colour of one covered pixel, from whatever is known for the whole triangle. */
  function PixelRgba(m: Mesh, tex: Sampler, constant: Option<Rgba>, p: Point): Rgba
    requires m.Shape().Area() > 0.0
  {
    if constant.Some? then constant.value
    else
      var w := WeightsAt(m, p);
      (if ConstantUv(m) then tex(m.a.uv) else tex(MixUv(m, w))).Modulate(MixColour(m, w))
  }

  function SpanPixel(m: Mesh, tex: Sampler, constant: Option<Rgba>, x: nat, y: nat, u: Pixel): Pixel
    requires m.Shape().Area() > 0.0
  {
    BlendOver(PixelRgba(m, tex, constant, Centre(x, y)), u)
  }

  function SpanOp(m: Mesh, tex: Sampler, constant: Option<Rgba>): PixelOp
    requires m.Shape().Area() > 0.0
  {
    (x: nat, y: nat, u: Pixel) => SpanPixel(m, tex, constant, x, y, u)
  }

  /** Within the covered span, the loop's pixel is the picture's. */
  lemma SpanPixelIsFast(m: Mesh, tex: Sampler, clip: Clip, x: nat, y: nat, u: Pixel)
    requires m.Shape().Area() > 0.0 && !DrawsNothing(m, tex) && CoveredAt(m.Shape(), clip, x, y)
    ensures SpanOp(m, tex, ConstantRgba(m, tex))(x, y, u) == FastOp(m, tex, clip)(x, y, u)
  {
  }

  /** An opaque constant colour is the same at every pixel, whatever was there. */
  lemma OpaqueSpanPixel(m: Mesh, tex: Sampler, k: Rgba, x: nat, y: nat, u: Pixel)
    requires m.Shape().Area() > 0.0 && k.InRange() && k.a == 255.0
    ensures SpanOp(m, tex, Some(k))(x, y, u) == OpaqueFill(k)
  {
    OpaqueIsBlend(k, u);
    assert SpanPixel(m, tex, Some(k), x, y, u) == BlendOver(k, u);
  }

  lemma OutsideSpan(m: Mesh, tex: Sampler, clip: Clip, x: nat, y: nat, u: Pixel)
    requires m.Shape().Area() > 0.0 && (DrawsNothing(m, tex) || !CoveredAt(m.Shape(), clip, x, y))
    ensures FastOp(m, tex, clip)(x, y, u) == u
  {
  }

  /** The covered span of a row is all that changes of it. */
  lemma RowOutsideSpan(m: Mesh, tex: Sampler, clip: Clip, w: nat, h: nat, y: nat, start: nat, end: nat)
    requires m.Shape().Area() > 0.0 && w <= U32_MAX && y < h <= U32_MAX
    requires var box := BoundingBox(m.Shape(), clip, w, h);
             SpanIsCovered(m.Shape(), clip, box.x0, box.x1, y, start, end)
    ensures forall x: nat, u: Pixel :: x < w && !(start <= x < end) ==> FastOp(m, tex, clip)(x, y, u) == u
  {
    forall x: nat, u: Pixel | x < w && !(start <= x < end) ensures FastOp(m, tex, clip)(x, y, u) == u {
      if CoveredAt(m.Shape(), clip, x, y) {
        BoxHoldsCovered(m.Shape(), clip, w, h, x, y);
      }
      OutsideSpan(m, tex, clip, x, y, u);
    }
  }

  /** `fill` on a span. */
  method FillSpan(dst: array<Pixel>, w: nat, y: nat, start: nat, end: nat, colour: Pixel)
    requires start <= end && RowStart(w, y) + end <= dst.Length
    modifies dst
    ensures dst[..] == PutRun(old(dst[..]), w, start, y, seq(end - start, _ => colour))
  {
    var row := RowStart(w, y);
    forall i | row + start <= i < row + end {
      dst[i] := colour;
    }
  }

  lemma FillIsRun(b: seq<Pixel>, w: nat, y: nat, m: Mesh, tex: Sampler, k: Rgba, start: nat, end: nat)
    requires m.Shape().Area() > 0.0 && k.InRange() && k.a == 255.0
    requires start <= end && RowStart(w, y) + end <= |b|
    ensures seq(end - start, _ => OpaqueFill(k)) == RunAfter(b, w, start, y, end - start, SpanOp(m, tex, Some(k)))
  {
    var fill, run := seq(end - start, _ => OpaqueFill(k)),
        RunAfter(b, w, start, y, end - start, SpanOp(m, tex, Some(k)));
    forall i | 0 <= i < end - start ensures fill[i] == run[i] {
      OpaqueSpanPixel(m, tex, k, start + i, y, b[RowStart(w, y) + start + i]);
    }
  }

  /** Painting a span: filled when one opaque colour does for all of it, else pixel by pixel. */
  method PaintSpan(dst: array<Pixel>, w: nat, y: nat, m: Mesh, tex: Sampler, constant: Option<Rgba>,
                   start: nat, end: nat)
    requires m.Shape().Area() > 0.0 && (constant.Some? ==> constant.value.InRange())
    requires start <= end && RowStart(w, y) + end <= dst.Length
    modifies dst
    ensures dst[..] == PutRun(old(dst[..]), w, start, y,
            RunAfter(old(dst[..]), w, start, y, end - start, SpanOp(m, tex, constant)))
  {
    if constant.Some? && constant.value.a == 255.0 {
      FillIsRun(dst[..], w, y, m, tex, constant.value, start, end);
      FillSpan(dst, w, y, start, end, OpaqueFill(constant.value));
    } else {
      Blit.MapRun(dst, w, start, y, end - start, SpanOp(m, tex, constant));
    }
  }

  /** Painting the covered span does the next row of the picture. */
  lemma SpanIsNextRow(was: seq<Pixel>, before: seq<Pixel>, w: nat, h: nat, y: nat, m: Mesh, tex: Sampler, clip: Clip,
      start: nat, end: nat)
    requires m.Shape().Area() > 0.0 && !DrawsNothing(m, tex)
    requires w <= U32_MAX && h <= U32_MAX && RowStart(w, h) <= |was| && y < h && start <= end <= w
    requires before == Repaint(was, w, h, RowsAbove(w, y), FastOp(m, tex, clip)) && RowStart(w, y) + end <= |was|
    requires var box := BoundingBox(m.Shape(), clip, w, h);
             && SpanIsCovered(m.Shape(), clip, box.x0, box.x1, y, start, end)
             && (start < end ==> box.x0 <= start && end <= box.x1)
    ensures PutRun(before, w, start, y,
            RunAfter(before, w, start, y, end - start, SpanOp(m, tex, ConstantRgba(m, tex)))) ==
            Repaint(was, w, h, RowsAbove(w, y + 1), FastOp(m, tex, clip))
  {
    var f, g := FastOp(m, tex, clip), SpanOp(m, tex, ConstantRgba(m, tex));
    forall x: nat, u: Pixel | start <= x < end ensures g(x, y, u) == f(x, y, u) {
      SpanPixelIsFast(m, tex, clip, x, y, u);
    }
    RowOutsideSpan(m, tex, clip, w, h, y, start, end);
    SpanRunAdvances(was, before, w, h, y, f, g, start, end);
  }

  /** A triangle turned the positive way with something to draw, and its one colour if it has
      one. */
  predicate Drawable(m: Mesh, tex: Sampler, constant: Option<Rgba>) {
    && m.Shape().Area() > 0.0 && !DrawsNothing(m, tex) && constant == ConstantRgba(m, tex)
    && (constant.Some? ==> constant.value.InRange())
  }

  /** One row of the scanline method. */
  method DrawRow(dst: array<Pixel>, w: nat, h: nat, y: nat, m: Mesh, tex: Sampler, clip: Clip,
                 constant: Option<Rgba>, ghost was: seq<Pixel>, ghost f: PixelOp)
    requires Drawable(m, tex, constant) && f == FastOp(m, tex, clip)
    requires w <= U32_MAX && h <= U32_MAX && RowStart(w, h) <= |was| && y < h
    requires dst[..] == Repaint(was, w, h, RowsAbove(w, y), f)
    modifies dst
    ensures dst[..] == Repaint(was, w, h, RowsAbove(w, y + 1), f)
  {
    var box := BoundingBox(m.Shape(), clip, w, h);
    BoxInWindow(m.Shape(), clip, w, h);
    RowsAscend(w, y, h);
    var start, end := RowSpan(m.Shape(), clip, box.x0, box.x1, y);
    if start >= end {
      SpanIsNextRow(was, dst[..], w, h, y, m, tex, clip, 0, 0);
      assert PutRun(dst[..], w, 0, y, []) == dst[..];
      return;
    }
    SpanIsNextRow(was, dst[..], w, h, y, m, tex, clip, start, end);
    PaintSpan(dst, w, y, m, tex, constant, start, end);
  }

  lemma BoxInWindow(t: Triangle, clip: Clip, w: nat, h: nat)
    requires w <= U32_MAX && h <= U32_MAX
    ensures var box := BoundingBox(t, clip, w, h); box.x1 <= w && box.y1 <= h
  {
  }

  /** No row outside the box has a covered pixel. */
  lemma RowsOutsideBox(b: seq<Pixel>, w: nat, h: nat, m: Mesh, tex: Sampler, clip: Clip)
    requires m.Shape().Area() > 0.0 && w <= U32_MAX && h <= U32_MAX && RowStart(w, h) <= |b|
    ensures var box := BoundingBox(m.Shape(), clip, w, h);
            && Repaint(b, w, h, RowsAbove(w, box.y0), FastOp(m, tex, clip)) == b
            && Repaint(b, w, h, RowsAbove(w, Max(box.y0, box.y1)), FastOp(m, tex, clip)) ==
               MapAll(b, w, h, FastOp(m, tex, clip))
  {
    var box, f := BoundingBox(m.Shape(), clip, w, h), FastOp(m, tex, clip);
    forall x: nat, y: nat, u: Pixel | x < w && y < h && !(box.y0 <= y < box.y1) ensures f(x, y, u) == u {
      if CoveredAt(m.Shape(), clip, x, y) {
        BoxHoldsCovered(m.Shape(), clip, w, h, x, y);
      }
      OutsideSpan(m, tex, clip, x, y, u);
    }
    NothingChanges(b, w, h, RowsAbove(w, box.y0), f);
    SameRepaint(b, w, h, RowsAbove(w, Max(box.y0, box.y1)), f, Window(w, h), f);
  }

  /** The rows from `y0` to `y1`. */
  method DrawRows(dst: array<Pixel>, w: nat, h: nat, m: Mesh, tex: Sampler, clip: Clip, constant: Option<Rgba>,
                  y0: nat, y1: nat, ghost was: seq<Pixel>, ghost f: PixelOp)
    requires Drawable(m, tex, constant) && f == FastOp(m, tex, clip)
    requires w <= U32_MAX && h <= U32_MAX && RowStart(w, h) <= |was| && y0 <= y1 <= h
    requires dst[..] == Repaint(was, w, h, RowsAbove(w, y0), f)
    modifies dst
    ensures dst[..] == Repaint(was, w, h, RowsAbove(w, y1), f)
  {
    for y := y0 to y1
      invariant dst[..] == Repaint(was, w, h, RowsAbove(w, y), f)
    {
      DrawRow(dst, w, h, y, m, tex, clip, constant, was, f);
    }
  }

  /** The optimised triangle. */
  method DrawTriangle(dst: array<Pixel>, w: nat, h: nat, clip: Clip, v0: Vertex, v1: Vertex, v2: Vertex,
                      scale: real, texture: Texture)
    requires texture.Valid() && w <= U32_MAX && h <= U32_MAX && RowStart(w, h) <= dst.Length
    modifies dst
    ensures var m := Prepare(v0, v1, v2, scale);
            && (m.None? ==> dst[..] == old(dst[..]))
            && (m.Some? ==> dst[..] == MapAll(old(dst[..]), w, h, FastOp(m.value, SamplerOf(texture), clip)))
  {
    ghost var was := dst[..];
    var prepared := Prepare(v0, v1, v2, scale);
    if prepared.None? {
      return;
    }
    var m, tex := prepared.value, SamplerOf(texture);
    var constant := ConstantRgba(m, tex);
    if constant.Some? {
      SamplesInRange(texture, m.a.uv);
      ModulateInRange(tex(m.a.uv), Colour(m.a.colour));
    }
    if constant == Some(CLEAR) {
      ClearDrawsNothing(was, w, h, m, tex, clip);
      return;
    }
    var box := BoundingBox(m.Shape(), clip, w, h);
    BoxInWindow(m.Shape(), clip, w, h);
    RowsOutsideBox(was, w, h, m, tex, clip);
    if box.y0 < box.y1 {
      DrawRows(dst, w, h, m, tex, clip, constant, box.y0, box.y1, was, FastOp(m, tex, clip));
    }
  }

  lemma ClearDrawsNothing(b: seq<Pixel>, w: nat, h: nat, m: Mesh, tex: Sampler, clip: Clip)
    requires m.Shape().Area() > 0.0 && DrawsNothing(m, tex) && RowStart(w, h) <= |b|
    ensures MapAll(b, w, h, FastOp(m, tex, clip)) == b
  {
    forall x: nat, y: nat, u: Pixel ensures FastOp(m, tex, clip)(x, y, u) == u {
      OutsideSpan(m, tex, clip, x, y, u);
    }
    MapNothing(b, w, h, FastOp(m, tex, clip));
  }

  // --- the bounding-box method ------------------------------------------------------

  /** The bounding box of the drawn part, as a rectangle. */
  function Visited(m: Mesh, clip: Clip, w: nat, h: nat): Rect {
    var box := BoundingBox(m.Shape(), clip, w, h);
    Rect(box.x0, box.y0, Max(0, box.x1 - box.x0), Max(0, box.y1 - box.y0))
  }

  lemma VisitedIsEnough(b: seq<Pixel>, w: nat, h: nat, m: Mesh, tex: Sampler, clip: Clip)
    requires m.Shape().Area() > 0.0 && w <= U32_MAX && h <= U32_MAX && RowStart(w, h) <= |b|
    ensures Repaint(b, w, h, Visited(m, clip, w, h), ReferenceOp(m, tex, clip)) ==
            MapAll(b, w, h, ReferenceOp(m, tex, clip))
  {
    var r, f := Visited(m, clip, w, h), ReferenceOp(m, tex, clip);
    forall x: nat, y: nat, u: Pixel | x < w && y < h ensures f(x, y, u) == if r.Has(x, y) then f(x, y, u) else u {
      if CoveredAt(m.Shape(), clip, x, y) {
        BoxHoldsCovered(m.Shape(), clip, w, h, x, y);
      }
      assert f(x, y, u) == ReferencePixel(m, tex, clip, x, y, u);
    }
    RepaintAsMap(b, w, h, r, f, f);
  }

  /** The plain triangle: every pixel of the bounding box is asked. */
  method ReferenceTriangle(dst: array<Pixel>, w: nat, h: nat, clip: Clip, v0: Vertex, v1: Vertex, v2: Vertex,
                           scale: real, texture: Texture)
    requires texture.Valid() && w <= U32_MAX && h <= U32_MAX && RowStart(w, h) <= dst.Length
    modifies dst
    ensures var m := Prepare(v0, v1, v2, scale);
            && (m.None? ==> dst[..] == old(dst[..]))
            && (m.Some? ==> dst[..] == MapAll(old(dst[..]), w, h, ReferenceOp(m.value, SamplerOf(texture), clip)))
  {
    var prepared := Prepare(v0, v1, v2, scale);
    if prepared.None? {
      return;
    }
    var m, tex := prepared.value, SamplerOf(texture);
    VisitedIsEnough(dst[..], w, h, m, tex, clip);
    Blit.MapRect(dst, w, h, Visited(m, clip, w, h), ReferenceOp(m, tex, clip));
  }
}
