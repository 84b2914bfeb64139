/** `App::redraw` on a real buffer: the loops that blit, dim and draw, the records they keep,
    and the tie between them and the state machine of module `Frames`. */
module Presenter {
  import opened Rects
  import opened Pixels
  import opened Canvas
  import opened Blit
  import opened Cursor
  import opened Damage
  import opened Options
  import opened Frames

  /** The picture's base wherever one of the first `n` regions was painted. */
  ghost function BaseOver(s: Scene, regions: seq<Rect>, n: nat): PixelOp
    requires ValidScene(s) && n <= |regions|
  {
    (x: nat, y: nat, u: Pixel) => BasePixel(s, regions[..n], x, y, u)
  }

  ghost function BasePixel(s: Scene, regions: seq<Rect>, x: nat, y: nat, u: Pixel): Pixel {
    if ValidScene(s) && Covers(regions, x, y) then Base(s, x, y) else u
  }

  lemma CoversOneMore(regions: seq<Rect>, i: nat, x: nat, y: nat)
    requires i < |regions|
    ensures Covers(regions[..i + 1], x, y) <==> Covers(regions[..i], x, y) || regions[i].Has(x, y)
  {
  }

  function DimAt(): PixelOp { BlendAt(BLACK, DIM_ALPHA) }

  /** One region blitted, and dimmed once if the frame is dimmed, joins the painted part --
      also where it overlaps a region already painted. */
  lemma RegionJoins(b: seq<Pixel>, w: nat, h: nat, s: Scene, regions: seq<Rect>, i: nat)
    requires RowStart(w, h) <= |b| && ValidScene(s) && i < |regions|
    ensures var blitted := Repaint(MapAll(b, w, h, BaseOver(s, regions, i)), w, h, regions[i], ShownAt(s.fb, s.scale));
            MapAll(b, w, h, BaseOver(s, regions, i + 1)) ==
            if s.dimmed then Repaint(blitted, w, h, regions[i], DimAt()) else blitted
  {
    var r, before := regions[i], MapAll(b, w, h, BaseOver(s, regions, i));
    var blitted := Repaint(before, w, h, r, ShownAt(s.fb, s.scale));
    var after := if s.dimmed then Repaint(blitted, w, h, r, DimAt()) else blitted;
    RepaintPixels(b, w, h, Window(w, h), BaseOver(s, regions, i));
    RepaintPixels(before, w, h, r, ShownAt(s.fb, s.scale));
    RepaintPixels(blitted, w, h, r, DimAt());
    forall x, y | 0 <= x < w && 0 <= y < h
      ensures Index(w, x, y) < |b|
      ensures Px(after, w, x, y) == PixelAfter(b, w, x, y, Window(w, h), BaseOver(s, regions, i + 1))
    {
      InBuffer(w, h, x, y);
      CoversOneMore(regions, i, x, y);
      assert Px(before, w, x, y) == PixelAfter(b, w, x, y, Window(w, h), BaseOver(s, regions, i));
      assert Px(blitted, w, x, y) == PixelAfter(before, w, x, y, r, ShownAt(s.fb, s.scale));
      assert s.dimmed ==> Px(after, w, x, y) == PixelAfter(blitted, w, x, y, r, DimAt());
      assert BasePixel(s, regions[..i + 1], x, y, Px(b, w, x, y)) ==
             if r.Has(x, y) then Base(s, x, y) else BasePixel(s, regions[..i], x, y, Px(b, w, x, y));
      assert DimAt()(x, y, Shown(s.fb, s.scale, x, y)) == BlendPixel(BLACK, DIM_ALPHA, Shown(s.fb, s.scale, x, y));
    }
    RepaintIsUnique(b, after, w, h, Window(w, h), BaseOver(s, regions, i + 1));
  }

  /** ANY COVERING LIST IS ONE FULL REPAINT: rectangles that between them cover the window,
      overlapping or not, in any order, leave the buffer a single full repaint leaves. */
  lemma CoveringListIsFullRepaint(b: seq<Pixel>, w: nat, h: nat, s: Scene, regions: seq<Rect>)
    requires RowStart(w, h) <= |b| && ValidScene(s)
    requires forall x, y :: 0 <= x < w && 0 <= y < h ==> Covers(regions, x, y)
    ensures MapAll(b, w, h, BaseOver(s, regions, |regions|)) == MapAll(b, w, h, BaseOver(s, [Window(w, h)], 1))
  {
    assert regions[..|regions|] == regions && [Window(w, h)][..1] == [Window(w, h)];
    forall x: nat, y: nat, u: Pixel | x < w && y < h
      ensures BaseOver(s, regions, |regions|)(x, y, u) == BaseOver(s, [Window(w, h)], 1)(x, y, u)
    {
      assert Window(w, h) in [Window(w, h)] && Window(w, h).Has(x, y);
      assert BasePixel(s, regions, x, y, u) == Base(s, x, y) == BasePixel(s, [Window(w, h)], x, y, u);
    }
    SameMap(b, w, h, BaseOver(s, regions, |regions|), BaseOver(s, [Window(w, h)], 1));
  }

  /** What the whole frame makes of a pixel. */
  ghost function PaintedAt(s: Scene, regions: seq<Rect>): PixelOp {
    (x: nat, y: nat, u: Pixel) => if ValidScene(s) then PaintedPixel(s, regions, x, y, u) else u
  }

  /** A layer drawn inside its bounds is the layer drawn everywhere. */
  lemma LayerInBounds(b: seq<Pixel>, w: nat, h: nat, layer: Layer)
    requires RowStart(w, h) <= |b| && StaysInside(Some(layer))
    ensures Repaint(b, w, h, layer.bounds, layer.paint) == MapAll(b, w, h, layer.paint)
  {
    RepaintAsMap(b, w, h, layer.bounds, layer.paint, layer.paint);
  }

  ghost function LayerAt(layer: Option<Layer>): PixelOp {
    (x: nat, y: nat, u: Pixel) => ApplyLayer(layer, x, y, u)
  }

  ghost function PointerAt(s: Scene): PixelOp {
    (x: nat, y: nat, u: Pixel) => if ValidScene(s) then ApplyPointer(s, x, y, u) else u
  }

  /** Base, bar, GUI and pointer in turn are the painted frame. */
  lemma LayersCompose(b: seq<Pixel>, w: nat, h: nat, s: Scene, regions: seq<Rect>)
    requires RowStart(w, h) <= |b| && ValidScene(s)
    ensures MapAll(MapAll(MapAll(MapAll(b, w, h, BaseOver(s, regions, |regions|)), w, h, LayerAt(s.bar)),
                          w, h, LayerAt(s.gui)), w, h, PointerAt(s)) ==
            MapAll(b, w, h, PaintedAt(s, regions))
  {
    assert regions[..|regions|] == regions;
    var f0 := BaseOver(s, regions, |regions|);
    var f1: PixelOp := (x: nat, y: nat, u: Pixel) => ApplyLayer(s.bar, x, y, BasePixel(s, regions, x, y, u));
    var f2: PixelOp :=
      (x: nat, y: nat, u: Pixel) => ApplyLayer(s.gui, x, y, ApplyLayer(s.bar, x, y, BasePixel(s, regions, x, y, u)));
    MapThenMap(b, w, h, f0, LayerAt(s.bar), f1);
    MapThenMap(b, w, h, f1, LayerAt(s.gui), f2);
    forall x: nat, y: nat, u: Pixel | x < w && y < h
      ensures PaintedAt(s, regions)(x, y, u) == PointerAt(s)(x, y, f2(x, y, u))
    {
      assert BasePixel(s, regions, x, y, u) == if Covers(regions, x, y) then Base(s, x, y) else u;
      assert PaintedPixel(s, regions, x, y, u) ==
             ApplyPointer(s, x, y, ApplyLayer(s.gui, x, y, ApplyLayer(s.bar, x, y, BasePixel(s, regions, x, y, u))));
    }
    MapThenMap(b, w, h, f2, PointerAt(s), PaintedAt(s, regions));
  }

  /** The bar or the GUI, painted inside the bounds it reports. */
  method DrawLayer(buf: array<Pixel>, w: nat, h: nat, layer: Option<Layer>)
    requires RowStart(w, h) <= buf.Length && StaysInside(layer)
    modifies buf
    ensures buf[..] == MapAll(old(buf[..]), w, h, LayerAt(layer))
  {
    ghost var was := buf[..];
    if layer.Some? {
      LayerInBounds(was, w, h, layer.value);
      SameMap(was, w, h, layer.value.paint, LayerAt(layer));
      MapRect(buf, w, h, layer.value.bounds, layer.value.paint);
    } else {
      MapNothing(was, w, h, LayerAt(layer));
    }
  }

  method DrawPointer(buf: array<Pixel>, w: nat, h: nat, s: Scene)
    requires RowStart(w, h) <= buf.Length && ValidScene(s)
    modifies buf
    ensures buf[..] == MapAll(old(buf[..]), w, h, PointerAt(s))
  {
    ghost var was := buf[..];
    if s.pointer.Some? {
      var p := s.pointer.value;
      var px, py := Times(p.px, s.scale), Times(p.py, s.scale);
      SameMap(was, w, h, CursorAt(p.image, s.scale, px, py), PointerAt(s));
      DrawCursorScaled(buf, w, h, p.image, px, py, s.scale);
    } else {
      MapNothing(was, w, h, PointerAt(s));
    }
  }

  /** Each region out of the framebuffer, dimmed straight after the blit that produced it. */
  method PaintRegions(buf: array<Pixel>, w: nat, h: nat, s: Scene, regions: seq<Rect>)
    requires RowStart(w, h) <= buf.Length && ValidScene(s)
    modifies buf
    ensures buf[..] == MapAll(old(buf[..]), w, h, BaseOver(s, regions, |regions|))
  {
    ghost var was := buf[..];
    MapNothing(was, w, h, BaseOver(s, regions, 0));
    for i := 0 to |regions|
      invariant buf[..] == MapAll(was, w, h, BaseOver(s, regions, i))
    {
      RegionJoins(was, w, h, s, regions, i);
      BlitRectScaled(buf, w, h, s.fb, regions[i], s.scale);
      if s.dimmed {
        BlendRect(buf, w, h, regions[i], BLACK, DIM_ALPHA);
      }
    }
  }

  class WindowState {
    var dirty: Option<Rect>
    var lastCursor: Option<Rect>
    var lastBar: Option<Rect>
    var lastGui: Option<Rect>
    var presentLog: seq<seq<Rect>>
    var presentedSize: Option<(nat, nat)>
    var fullRedraw: bool
    var redrawAsked: bool

    function State(): App
      reads this
    {
      App(dirty, lastCursor, lastBar, lastGui, presentLog, presentedSize, fullRedraw, redrawAsked)
    }

    constructor ()
      ensures State() == App(None, None, None, None, [], None, true, false)
    {
      dirty, lastCursor, lastBar, lastGui := None, None, None, None;
      presentLog, presentedSize := [], None;
      fullRedraw, redrawAsked := true, false;
    }

    /** A decoded frame, taken into window pixels once. */
    method NoteDirty(rect: Rect, scale: nat)
      modifies this
      ensures State() == old(State()).(dirty := Some(
                if old(dirty).Some? then old(dirty).value.Union(ScaleRect(rect, scale)) else ScaleRect(rect, scale)))
    {
      var scaled := ScaleRect(rect, scale);
      dirty := Some(if dirty.Some? then dirty.value.Union(scaled) else scaled);
    }

    /** `RedrawRequested`: one nobody asked for is an expose. */
    method TakeRequest()
      modifies this
      ensures State() == old(State()).(fullRedraw := old(fullRedraw) || !old(redrawAsked), redrawAsked := false)
    {
      if !redrawAsked {
        fullRedraw := true;
      }
      redrawAsked := false;
    }

    /** What the window remembers of a frame, whether or not it reached the screen. */
    method Record(size: (nat, nat), s: Scene, plan: Plan, presented: bool)
      modifies this
      ensures State() == AfterFrame(old(State()), s, size, plan, presented)
    {
      ghost var app := State();
      lastCursor, lastBar, lastGui := PointerBounds(s), BoundsOf(s.bar), BoundsOf(s.gui);
      dirty := None;
      presentedSize := Some(size);
      if !presented {
        presentLog := [];
        fullRedraw := true;
        return;
      }
      if plan.full {
        presentLog := [];
      }
      presentLog := [plan.changed] + presentLog;
      fullRedraw := false;
      ghost var pushed := presentLog;
      while |presentLog| > PRESENT_LOG_DEPTH
        invariant presentLog <= pushed && |presentLog| >= Min(|pushed|, PRESENT_LOG_DEPTH)
        invariant State() == AfterFrame(app, s, size, plan, true).(log := presentLog)
      {
        presentLog := presentLog[..|presentLog| - 1];
      }
    }

    /** One frame into the buffer the surface handed out, at the age it reported. The pixels
        become what `Frames` says a frame paints, and the records what it says they become. */
    method Redraw(buf: array<Pixel>, size: (nat, nat), age: nat, s: Scene, presented: bool) returns (damage: seq<Rect>)
      requires ValidScene(s) && RowStart(size.0, size.1) <= buf.Length
      modifies this, buf
      ensures var plan := PlanFrame(old(State()), s, size, age);
              && damage == plan.regions
              && State() == AfterFrame(old(State()), s, size, plan, presented)
              && buf[..] == MapAll(old(buf[..]), size.0, size.1, PaintedAt(s, plan.regions))
    {
      var w, h := size.0, size.1;
      ghost var app, was := State(), buf[..];
      if presentedSize != Some(size) {
        fullRedraw := true;
      }
      var askedFull := fullRedraw || s.dimmed;
      var stale := StaleRegions(age, presentLog);
      var full := askedFull || stale.None?;
      var own := [OrEmpty(dirty), OrEmpty(lastCursor), OrEmpty(PointerBounds(s)),
                  OrEmpty(BoundsOf(s.bar)), OrEmpty(lastBar), OrEmpty(BoundsOf(s.gui)), OrEmpty(lastGui)];
      var changed;
      damage, changed := PlanPresent(Window(w, h), full, own, if stale.Some? then stale.value else []);

      PaintRegions(buf, w, h, s, damage);
      DrawLayer(buf, w, h, s.bar);
      DrawLayer(buf, w, h, s.gui);
      DrawPointer(buf, w, h, s);
      LayersCompose(was, w, h, s, damage);

      Record(size, s, Plan(full, damage, changed), presented);
    }
  }

  /** The method's buffer is the frame the state machine presents, pixel by pixel. */
  lemma RedrawPaintsTheFrame(was: seq<Pixel>, w: nat, h: nat, s: Scene, regions: seq<Rect>, x: nat, y: nat)
    requires ValidScene(s) && RowStart(w, h) <= |was| && x < w && y < h
    ensures Index(w, x, y) < |was|
    ensures Px(MapAll(was, w, h, PaintedAt(s, regions)), w, x, y) == PaintedPixel(s, regions, x, y, Px(was, w, x, y))
  {
    InBuffer(w, h, x, y);
    RepaintPixels(was, w, h, Window(w, h), PaintedAt(s, regions));
  }
}
