/** The remote pointer drawn over the picture, magnified about its hotspot
    (`draw_cursor_scaled` and `cursor_bounds_scaled` in crates/client/src/app.rs). */
module Cursor {
  import opened Rects
  import opened Pixels
  import opened Canvas

  /** Premultiplied `0xAARRGGBB` pixels, row major. */
  datatype CursorImage = CursorImage(width: nat, height: nat, hotX: nat, hotY: nat, argb: seq<Pixel>) {
    predicate Valid() { |argb| == RowStart(width, height) }

    function At(cx: nat, cy: nat): Pixel
      requires Valid() && cx < width && cy < height
    {
      InBuffer(width, height, cx, cy);
      argb[Index(width, cx, cy)]
    }
  }

  /** One channel of a premultiplied source over a pixel, never past 255. */
  function OverChannel(sc: byte, a: byte, dc: byte): byte {
    Min(sc + (Times(dc, 255 - a) + 127) / 255, 255)
  }

  /** The blend of all three channels. */
  function Blended(src: Pixel, under: Pixel): Pixel {
    Pixel(0, OverChannel(src.r, src.a, under.r), OverChannel(src.g, src.a, under.g), OverChannel(src.b, src.a, under.b))
  }

  /** A source pixel over the pixel under it, with the two shortcuts the code takes. */
  function Over(src: Pixel, under: Pixel): Pixel {
    if src.a == 0 then under
    else if src.a == 255 then src.(a := 0)
    else Blended(src, under)
  }

  /** Blending changes nothing in a channel: it adds no colour, or the channel is full. */
  predicate AddsNothing(sc: byte, dc: byte) { sc == 0 || dc == 255 }

  /** The shortcuts agree with the blend they skip exactly when the source is not transparent,
      or is so without any colour that would show. An opaque source always replaces the pixel;
      a transparent one is premultiplied, so colour in it would be an error of its sender. */
  lemma OverShortcutsAreTheBlend(src: Pixel, under: Pixel)
    ensures (Over(src, under).(a := 0) == Blended(src, under)) <==>
            (src.a != 0 ||
             (AddsNothing(src.r, under.r) && AddsNothing(src.g, under.g) && AddsNothing(src.b, under.b)))
  {
    OverChannelEnds(src.r, under.r);
    OverChannelEnds(src.g, under.g);
    OverChannelEnds(src.b, under.b);
  }

  /** An opaque source replaces the colour, and what it or a blend leaves has a clear top byte. */
  lemma OpaqueReplaces(src: Pixel, under: Pixel)
    ensures src.a == 255 ==> Over(src, under) == Pixel(0, src.r, src.g, src.b)
    ensures Over(src, under).a == if src.a == 0 then under.a else 0
  {
  }

  lemma OverChannelEnds(sc: byte, dc: byte)
    ensures OverChannel(sc, 255, dc) == sc
    ensures OverChannel(sc, 0, dc) == Min(sc + dc, 255)
  {
    TimesIsProduct(dc, 255);
  }

  /** What shows through is rounded to nearest, and the sum stops at a full channel. */
  lemma OverChannelIsNearest(sc: byte, a: byte, dc: byte) returns (through: nat)
    ensures Nearest(through, dc * (255 - a)) && OverChannel(sc, a, dc) == Min(sc + through, 255)
  {
    TimesIsProduct(dc, 255 - a);
    through := (Times(dc, 255 - a) + 127) / 255;
  }

  /** A premultiplied channel, no brighter than its opacity, never reaches that stop. */
  lemma PremultipliedIsNearest(sc: byte, a: byte, dc: byte)
    requires sc <= a
    ensures Nearest(OverChannel(sc, a, dc) - sc, dc * (255 - a))
  {
    var through := OverChannelIsNearest(sc, a, dc);
    MulMonotone(255 - a, dc, 255);
  }

  /** Pixel by pixel: what the pointer makes of the window, with the image's corner at
      `(ox, oy)`, which may lie left of or above the window. */
  function CursorPixel(cur: CursorImage, s: nat, ox: int, oy: int, x: nat, y: nat, under: Pixel): Pixel
    requires cur.Valid() && s > 0
  {
    if x < ox || y < oy then under
    else
      var cx, cy := Cell(x - ox, s), Cell(y - oy, s);
      if cx < cur.width && cy < cur.height then Over(cur.At(cx, cy), under) else under
  }

  /** `hot * s` window pixels before the pointer. */
  function Origin(p: nat, hot: nat, s: nat): int { p - RowStart(s, hot) }

  function BoundsScaled(cur: CursorImage, px: nat, py: nat, scale: nat): Rect {
    var s := Max(scale, 1);
    var x, y := Origin(px, cur.hotX, s), Origin(py, cur.hotY, s);
    var x0, y0 := Max(x, 0), Max(y, 0);
    Rect(x0, y0, Max(x + RowStart(s, cur.width) - x0, 0), Max(y + RowStart(s, cur.height) - y0, 0))
  }

  lemma {:induction false} CellInRun(v: nat, s: nat, k: nat)
    requires s > 0
    ensures RowStart(s, k) <= v < RowStart(s, k) + s <==> Cell(v, s) == k
    ensures v < RowStart(s, k) <==> Cell(v, s) < k
    decreases k
  {
    if k > 0 {
      if v >= s {
        CellInRun(v - s, s, k - 1);
      } else {
        RowsAscend(s, 0, k);
      }
    }
  }

  /** The bounds hold exactly the window pixels the image reaches. */
  lemma BoundsAreTheImage(cur: CursorImage, px: nat, py: nat, scale: nat, x: nat, y: nat)
    requires scale > 0
    ensures var ox, oy := Origin(px, cur.hotX, scale), Origin(py, cur.hotY, scale);
            BoundsScaled(cur, px, py, scale).Has(x, y) <==>
            ox <= x && oy <= y && Cell(x - ox, scale) < cur.width && Cell(y - oy, scale) < cur.height
  {
    var ox, oy := Origin(px, cur.hotX, scale), Origin(py, cur.hotY, scale);
    if ox <= x { CellInRun(x - ox, scale, cur.width); }
    if oy <= y { CellInRun(y - oy, scale, cur.height); }
  }

  /** Rows of a block above `dy`, and the first `dx` pixels of the next. */
  function BlockPart(src: Pixel, x0: int, y0: int, s: nat, dy: nat, dx: nat): PixelOp {
    (x: nat, y: nat, u: Pixel) =>
      if x0 <= x < x0 + s && y0 <= y && (y < y0 + dy || (y == y0 + dy && x < x0 + dx)) then Over(src, u) else u
  }

  /** Setting one pixel takes the picture from `g` to `g'` when they differ there alone. */
  lemma PixelAdvances(b: seq<Pixel>, w: nat, h: nat, g: PixelOp, g': PixelOp, px: nat, py: nat)
    requires RowStart(w, h) <= |b| && px < w && py < h && Index(w, px, py) < |b|
    requires forall x: nat, y: nat, u: Pixel :: x != px || y != py ==> g'(x, y, u) == g(x, y, u)
    ensures MapAll(b, w, h, g)[Index(w, px, py) := g'(px, py, Px(b, w, px, py))] == MapAll(b, w, h, g')
    ensures Px(MapAll(b, w, h, g), w, px, py) == g(px, py, Px(b, w, px, py))
  {
    var win, before := Window(w, h), MapAll(b, w, h, g);
    RepaintPixels(b, w, h, win, g);
    assert Px(before, w, px, py) == PixelAfter(b, w, px, py, win, g);
    InBuffer(w, h, px, py);
    var now := before[Index(w, px, py) := g'(px, py, Px(b, w, px, py))];
    forall x, y | 0 <= x < w && 0 <= y < h
      ensures Index(w, x, y) < |b| && Px(now, w, x, y) == PixelAfter(b, w, x, y, win, g')
    {
      InBuffer(w, h, x, y);
      assert Px(before, w, x, y) == PixelAfter(b, w, x, y, win, g);
      if Index(w, x, y) == Index(w, px, py) {
        SameIndex(w, x, y, px, py);
      }
    }
    RepaintIsUnique(b, now, w, h, win, g');
  }

  /** One row of a magnified source pixel. */
  method DrawBlockRow(dst: array<Pixel>, w: nat, h: nat, src: Pixel, x0: int, y0: int, s: nat, dy: nat,
      ghost was: seq<Pixel>)
    requires RowStart(w, h) <= |was| && dy < s && 0 <= y0 + dy < h
    requires dst[..] == MapAll(was, w, h, BlockPart(src, x0, y0, s, dy, 0))
    modifies dst
    ensures dst[..] == MapAll(was, w, h, BlockPart(src, x0, y0, s, dy + 1, 0))
  {
    var y := y0 + dy;
    for dx := 0 to s
      invariant dst[..] == MapAll(was, w, h, BlockPart(src, x0, y0, s, dy, dx))
    {
      var x := x0 + dx;
      if x < 0 || x >= w {
        SameMap(was, w, h, BlockPart(src, x0, y0, s, dy, dx), BlockPart(src, x0, y0, s, dy, dx + 1));
        continue;
      }
      InBuffer(w, h, x, y);
      PixelAdvances(was, w, h, BlockPart(src, x0, y0, s, dy, dx), BlockPart(src, x0, y0, s, dy, dx + 1), x, y);
      var idx := Index(w, x, y);
      assert dst[idx] == Px(dst[..], w, x, y);
      dst[idx] := Over(src, dst[idx]);
    }
    SameMap(was, w, h, BlockPart(src, x0, y0, s, dy, s), BlockPart(src, x0, y0, s, dy + 1, 0));
  }

  /** One magnified source pixel. */
  method DrawBlock(dst: array<Pixel>, w: nat, h: nat, src: Pixel, x0: int, y0: int, s: nat)
    requires RowStart(w, h) <= dst.Length
    modifies dst
    ensures dst[..] == MapAll(old(dst[..]), w, h, BlockPart(src, x0, y0, s, s, 0))
  {
    ghost var was := dst[..];
    MapNothing(was, w, h, BlockPart(src, x0, y0, s, 0, 0));
    for dy := 0 to s
      invariant dst[..] == MapAll(was, w, h, BlockPart(src, x0, y0, s, dy, 0))
    {
      if y0 + dy < 0 || y0 + dy >= h {
        SameMap(was, w, h, BlockPart(src, x0, y0, s, dy, 0), BlockPart(src, x0, y0, s, dy + 1, 0));
        continue;
      }
      DrawBlockRow(dst, w, h, src, x0, y0, s, dy, was);
    }
  }

  /** Source rows above `cy`, and the first `cx` pixels of the next. */
  function ImagePart(cur: CursorImage, s: nat, ox: int, oy: int, cy: nat, cx: nat): PixelOp
    requires cur.Valid() && s > 0
  {
    (x: nat, y: nat, u: Pixel) =>
      if ox <= x && oy <= y && (Cell(y - oy, s) < cy || (Cell(y - oy, s) == cy && Cell(x - ox, s) < cx))
      then CursorPixel(cur, s, ox, oy, x, y, u) else u
  }

  /** A block holds the window pixels whose cell is its source pixel. */
  lemma InBlock(v: int, o: int, s: nat, k: nat)
    requires s > 0
    ensures o + RowStart(s, k) <= v < o + RowStart(s, k) + s <==> o <= v && Cell(v - o, s) == k
  {
    if o <= v {
      CellInRun(v - o, s, k);
    }
  }

  lemma BlockAdvances(cur: CursorImage, s: nat, ox: int, oy: int, cy: nat, cx: nat, x: nat, y: nat, u: Pixel)
    requires cur.Valid() && s > 0 && cx < cur.width && cy < cur.height
    ensures var x0, y0 := ox + RowStart(s, cx), oy + RowStart(s, cy);
            ImagePart(cur, s, ox, oy, cy, cx + 1)(x, y, u) ==
            BlockPart(cur.At(cx, cy), x0, y0, s, s, 0)(x, y, ImagePart(cur, s, ox, oy, cy, cx)(x, y, u))
  {
    InBlock(x, ox, s, cx);
    InBlock(y, oy, s, cy);
  }

  lemma SourcePixelAdvances(b: seq<Pixel>, w: nat, h: nat, cur: CursorImage, s: nat, ox: int, oy: int, cy: nat, cx: nat)
    requires cur.Valid() && s > 0 && cx < cur.width && cy < cur.height && RowStart(w, h) <= |b|
    ensures var block := BlockPart(cur.At(cx, cy), ox + RowStart(s, cx), oy + RowStart(s, cy), s, s, 0);
            MapAll(MapAll(b, w, h, ImagePart(cur, s, ox, oy, cy, cx)), w, h, block) ==
            MapAll(b, w, h, ImagePart(cur, s, ox, oy, cy, cx + 1))
  {
    var f, fg := ImagePart(cur, s, ox, oy, cy, cx), ImagePart(cur, s, ox, oy, cy, cx + 1);
    var block := BlockPart(cur.At(cx, cy), ox + RowStart(s, cx), oy + RowStart(s, cy), s, s, 0);
    forall x: nat, y: nat, u: Pixel | x < w && y < h ensures fg(x, y, u) == block(x, y, f(x, y, u)) {
      BlockAdvances(cur, s, ox, oy, cy, cx, x, y, u);
    }
    MapThenMap(b, w, h, f, block, fg);
  }

  lemma TransparentPixel(src: Pixel, x0: int, y0: int, s: nat, x: nat, y: nat, u: Pixel)
    requires src.a == 0
    ensures BlockPart(src, x0, y0, s, s, 0)(x, y, u) == u
  {
    assert Over(src, u) == u;
  }

  lemma TransparentBlock(b: seq<Pixel>, w: nat, h: nat, src: Pixel, x0: int, y0: int, s: nat)
    requires RowStart(w, h) <= |b| && src.a == 0
    ensures MapAll(b, w, h, BlockPart(src, x0, y0, s, s, 0)) == b
  {
    forall x: nat, y: nat, u: Pixel ensures BlockPart(src, x0, y0, s, s, 0)(x, y, u) == u {
      TransparentPixel(src, x0, y0, s, x, y, u);
    }
    MapNothing(b, w, h, BlockPart(src, x0, y0, s, s, 0));
  }

  method DrawImage(dst: array<Pixel>, w: nat, h: nat, cur: CursorImage, s: nat, ox: int, oy: int)
    requires cur.Valid() && s > 0 && RowStart(w, h) <= dst.Length
    modifies dst
    ensures dst[..] == MapAll(old(dst[..]), w, h, ImagePart(cur, s, ox, oy, cur.height, 0))
  {
    ghost var was := dst[..];
    MapNothing(was, w, h, ImagePart(cur, s, ox, oy, 0, 0));
    for cy := 0 to cur.height
      invariant dst[..] == MapAll(was, w, h, ImagePart(cur, s, ox, oy, cy, 0))
    {
      for cx := 0 to cur.width
        invariant dst[..] == MapAll(was, w, h, ImagePart(cur, s, ox, oy, cy, cx))
      {
        var src := cur.At(cx, cy);
        SourcePixelAdvances(was, w, h, cur, s, ox, oy, cy, cx);
        if src.a == 0 {
          TransparentBlock(dst[..], w, h, src, ox + RowStart(s, cx), oy + RowStart(s, cy), s);
          continue;
        }
        DrawBlock(dst, w, h, src, ox + RowStart(s, cx), oy + RowStart(s, cy), s);
      }
      SameMap(was, w, h, ImagePart(cur, s, ox, oy, cy, cur.width), ImagePart(cur, s, ox, oy, cy + 1, 0));
    }
  }

  function CursorAt(cur: CursorImage, scale: nat, px: nat, py: nat): PixelOp
    requires cur.Valid()
  {
    (x: nat, y: nat, u: Pixel) =>
      if scale == 0 then u
      else CursorPixel(cur, scale, Origin(px, cur.hotX, scale), Origin(py, cur.hotY, scale), x, y, u)
  }

  /** The whole pointer: every window pixel is blended at most once, with the source pixel it
      magnifies, and only pixels inside `BoundsScaled` can change. */
  method DrawCursorScaled(dst: array<Pixel>, w: nat, h: nat, cur: CursorImage, px: nat, py: nat, scale: nat)
    requires cur.Valid() && RowStart(w, h) <= dst.Length
    modifies dst
    ensures dst[..] == MapAll(old(dst[..]), w, h, CursorAt(cur, scale, px, py))
    ensures dst[..] == Repaint(old(dst[..]), w, h, BoundsScaled(cur, px, py, scale), CursorAt(cur, scale, px, py))
  {
    ghost var was := dst[..];
    WithinBounds(was, w, h, cur, px, py, scale);
    if cur.width == 0 || cur.height == 0 || scale == 0 {
      MapNothing(was, w, h, CursorAt(cur, scale, px, py));
      return;
    }
    var ox, oy := Origin(px, cur.hotX, scale), Origin(py, cur.hotY, scale);
    WholeImage(was, w, h, cur, scale, px, py);
    DrawImage(dst, w, h, cur, scale, ox, oy);
  }

  lemma WholeImage(b: seq<Pixel>, w: nat, h: nat, cur: CursorImage, scale: nat, px: nat, py: nat)
    requires cur.Valid() && scale > 0 && RowStart(w, h) <= |b|
    ensures MapAll(b, w, h, ImagePart(cur, scale, Origin(px, cur.hotX, scale), Origin(py, cur.hotY, scale),
            cur.height, 0)) ==
            MapAll(b, w, h, CursorAt(cur, scale, px, py))
  {
    var ox, oy := Origin(px, cur.hotX, scale), Origin(py, cur.hotY, scale);
    forall x: nat, y: nat, u: Pixel | x < w && y < h
      ensures ImagePart(cur, scale, ox, oy, cur.height, 0)(x, y, u) == CursorAt(cur, scale, px, py)(x, y, u)
    {
      WholeImagePixel(cur, scale, ox, oy, x, y, u);
    }
    SameMap(b, w, h, ImagePart(cur, scale, ox, oy, cur.height, 0), CursorAt(cur, scale, px, py));
  }

  lemma WholeImagePixel(cur: CursorImage, s: nat, ox: int, oy: int, x: nat, y: nat, u: Pixel)
    requires cur.Valid() && s > 0
    ensures ImagePart(cur, s, ox, oy, cur.height, 0)(x, y, u) == CursorPixel(cur, s, ox, oy, x, y, u)
  {
  }

  /** MAGNIFIED ABOUT ITS HOTSPOT: each image pixel is a block of window pixels, as many blocks
      from the pointer as it lies pixels from the hotspot, and the bounds hold it. */
  lemma MagnifiedAboutHotspot(cur: CursorImage, scale: nat, px: nat, py: nat, cx: nat, cy: nat,
                              x: nat, y: nat, u: Pixel)
    requires cur.Valid() && scale > 0 && cx < cur.width && cy < cur.height
    requires px + (cx - cur.hotX) * scale <= x < px + (cx - cur.hotX) * scale + scale
    requires py + (cy - cur.hotY) * scale <= y < py + (cy - cur.hotY) * scale + scale
    ensures CursorAt(cur, scale, px, py)(x, y, u) == Over(cur.At(cx, cy), u)
    ensures BoundsScaled(cur, px, py, scale).Has(x, y)
  {
    BlocksFromHotspot(scale, cx, cur.hotX);
    BlocksFromHotspot(scale, cy, cur.hotY);
    InBlock(x, Origin(px, cur.hotX, scale), scale, cx);
    InBlock(y, Origin(py, cur.hotY, scale), scale, cy);
    BoundsAreTheImage(cur, px, py, scale, x, y);
  }

  lemma BlocksFromHotspot(s: nat, c: nat, hot: nat)
    ensures RowStart(s, c) - RowStart(s, hot) == (c - hot) * s
  {
    RowStartIsProduct(s, c);
    RowStartIsProduct(s, hot);
  }

  /** The point of the arrow is where the user points. */
  lemma HotspotIsAtThePointer(cur: CursorImage, scale: nat, px: nat, py: nat, x: nat, y: nat, u: Pixel)
    requires cur.Valid() && scale > 0 && cur.hotX < cur.width && cur.hotY < cur.height
    requires px <= x < px + scale && py <= y < py + scale
    ensures CursorAt(cur, scale, px, py)(x, y, u) == Over(cur.At(cur.hotX, cur.hotY), u)
    ensures BoundsScaled(cur, px, py, scale).Has(x, y)
  {
    MagnifiedAboutHotspot(cur, scale, px, py, cur.hotX, cur.hotY, x, y, u);
  }

  /** Outside its bounds the pointer changes nothing. */
  lemma OutsideBounds(cur: CursorImage, scale: nat, px: nat, py: nat, x: nat, y: nat, u: Pixel)
    requires cur.Valid() && !BoundsScaled(cur, px, py, scale).Has(x, y)
    ensures CursorAt(cur, scale, px, py)(x, y, u) == u
  {
    if scale > 0 {
      BoundsAreTheImage(cur, px, py, scale, x, y);
    }
  }

  lemma WithinBounds(b: seq<Pixel>, w: nat, h: nat, cur: CursorImage, px: nat, py: nat, scale: nat)
    requires cur.Valid() && RowStart(w, h) <= |b|
    ensures Repaint(b, w, h, BoundsScaled(cur, px, py, scale), CursorAt(cur, scale, px, py)) ==
            MapAll(b, w, h, CursorAt(cur, scale, px, py))
  {
    var r, f := BoundsScaled(cur, px, py, scale), CursorAt(cur, scale, px, py);
    forall x: nat, y: nat, u: Pixel | x < w && y < h ensures f(x, y, u) == if r.Has(x, y) then f(x, y, u) else u {
      if !r.Has(x, y) {
        OutsideBounds(cur, scale, px, py, x, y, u);
      }
    }
    RepaintAsMap(b, w, h, r, f, f);
  }
}
