/** Damage-driven presentation (`App::redraw` in crates/client/src/app.rs) as a state machine:
    a window that paints and presents only rectangles, over a swap chain whose buffers come
    back old, must show what repainting the whole picture every frame would. */
module Frames {
  import opened Rects
  import opened Pixels
  import opened Canvas
  import opened Blit
  import opened Cursor
  import opened Damage
  import opened Options

  // The opacity of the black laid over a frame shown without a link.
  const DIM_ALPHA: nat := 140

  const WHITE := Pixel(0, 0xff, 0xff, 0xff)

  // --- the picture ------------------------------------------------------------------

  /** Chrome painted over the picture: where it says it paints, and what it does to a pixel. */
  datatype Layer = Layer(bounds: Rect, paint: PixelOp)

  /** The contract taken from the bar and the GUI: they paint inside their reported bounds. */
  ghost predicate StaysInside(layer: Option<Layer>) {
    layer.Some? ==>
      forall x: nat, y: nat, u: Pixel :: !layer.value.bounds.Has(x, y) ==> layer.value.paint(x, y, u) == u
  }

  /** The session's pointer, at a remote pixel. */
  datatype Pointer = Pointer(image: CursorImage, px: nat, py: nat)

  /** Everything a frame is painted from. */
  datatype Scene = Scene(fb: Framebuffer, scale: nat, dimmed: bool,
                         bar: Option<Layer>, gui: Option<Layer>, pointer: Option<Pointer>)

  ghost predicate ValidScene(s: Scene) {
    && s.fb.Valid() && s.scale > 0
    && StaysInside(s.bar) && StaysInside(s.gui)
    && (s.pointer.Some? ==> s.pointer.value.image.Valid())
  }

  /** The magnified framebuffer, dimmed while the link is down. */
  ghost function Base(s: Scene, x: nat, y: nat): Pixel
    requires ValidScene(s)
  {
    var p := Shown(s.fb, s.scale, x, y);
    if s.dimmed then BlendPixel(BLACK, DIM_ALPHA, p) else p
  }

  /** The dimming leaves each channel 115 parts of its 255, to nearest; the top byte goes. */
  lemma DimmedToNearest(s: Scene, x: nat, y: nat)
    requires ValidScene(s)
    ensures var p, base := Shown(s.fb, s.scale, x, y), Base(s, x, y);
            if s.dimmed then base.a == 0 && Nearest(base.r, p.r * 115) && Nearest(base.g, p.g * 115)
                             && Nearest(base.b, p.b * 115)
            else base == p
  {
    BlendPixelIsNearest(BLACK, DIM_ALPHA, Shown(s.fb, s.scale, x, y));
  }

  ghost function ApplyLayer(layer: Option<Layer>, x: nat, y: nat, u: Pixel): Pixel {
    if layer.Some? then layer.value.paint(x, y, u) else u
  }

  ghost function ApplyPointer(s: Scene, x: nat, y: nat, u: Pixel): Pixel
    requires ValidScene(s)
  {
    if s.pointer.Some? then
      var p := s.pointer.value;
      CursorAt(p.image, s.scale, Times(p.px, s.scale), Times(p.py, s.scale))(x, y, u)
    else u
  }

  /** The remote pixel pointed at shows the pointer's hotspot, at every magnification. */
  lemma HotspotOverItsPixel(s: Scene, x: nat, y: nat, u: Pixel)
    requires ValidScene(s) && s.pointer.Some?
    requires var p := s.pointer.value;
             && p.image.hotX < p.image.width && p.image.hotY < p.image.height
             && Cell(x, s.scale) == p.px && Cell(y, s.scale) == p.py
    ensures var i := s.pointer.value.image; ApplyPointer(s, x, y, u) == Over(i.At(i.hotX, i.hotY), u)
  {
    var p := s.pointer.value;
    CellOfPixel(x, s.scale, p.px);
    CellOfPixel(y, s.scale, p.py);
    HotspotIsAtThePointer(p.image, s.scale, Times(p.px, s.scale), Times(p.py, s.scale), x, y, u);
  }

  lemma CellOfPixel(v: nat, s: nat, k: nat)
    requires s > 0 && Cell(v, s) == k
    ensures Times(k, s) <= v < Times(k, s) + s
  {
    CellBounds(v, s);
    TimesIsProduct(k, s);
  }

  /** The bar, then the GUI, then the pointer, over what is there. */
  ghost function Chrome(s: Scene, x: nat, y: nat, u: Pixel): Pixel
    requires ValidScene(s)
  {
    ApplyPointer(s, x, y, ApplyLayer(s.gui, x, y, ApplyLayer(s.bar, x, y, u)))
  }

  /** The whole picture: what a full repaint shows at a pixel. */
  ghost function Picture(s: Scene, x: nat, y: nat): Pixel
    requires ValidScene(s)
  {
    Chrome(s, x, y, Base(s, x, y))
  }

  function BoundsOf(layer: Option<Layer>): Option<Rect> {
    if layer.Some? then Some(layer.value.bounds) else None
  }

  function PointerBounds(s: Scene): Option<Rect> {
    if s.pointer.Some? then
      var p := s.pointer.value;
      Some(BoundsScaled(p.image, Times(p.px, s.scale), Times(p.py, s.scale), s.scale))
    else None
  }

  // --- the window's own state -------------------------------------------------------

  datatype App = App(
    dirty: Option<Rect>,
    lastCursor: Option<Rect>,
    lastBar: Option<Rect>,
    lastGui: Option<Rect>,
    log: seq<seq<Rect>>,
    presentedSize: Option<(nat, nat)>,
    fullRedraw: bool,
    redrawAsked: bool)

  function OrEmpty(r: Option<Rect>): Rect { if r.Some? then r.value else EMPTY }

  /** What this frame's own state changed: decoded damage, and where the pointer, the bar and
      the GUI are and were. */
  function Own(app: App, s: Scene): seq<Rect> {
    [OrEmpty(app.dirty), OrEmpty(app.lastCursor), OrEmpty(PointerBounds(s)),
     OrEmpty(BoundsOf(s.bar)), OrEmpty(app.lastBar), OrEmpty(BoundsOf(s.gui)), OrEmpty(app.lastGui)]
  }

  /** Whether a full repaint is asked for before the buffer's age is known. */
  function AskedFull(app: App, s: Scene, size: (nat, nat)): bool {
    app.fullRedraw || app.presentedSize != Some(size) || s.dimmed
  }

  /** What a frame decides: full or not, what it paints and presents, what it remembers. */
  datatype Plan = Plan(full: bool, regions: seq<Rect>, changed: seq<Rect>)

  function PlanFrame(app: App, s: Scene, size: (nat, nat), age: nat): Plan {
    var stale := StaleRegions(age, app.log);
    var full := AskedFull(app, s, size) || stale.None?;
    var (regions, changed) :=
      PresentPlan(Window(size.0, size.1), full, Own(app, s), if stale.Some? then stale.value else []);
    Plan(full, regions, changed)
  }

  /** A full frame clears the log; the newest entry goes in front; the depth is bounded. */
  function PushLog(log: seq<seq<Rect>>, plan: Plan): seq<seq<Rect>> {
    var pushed := [plan.changed] + (if plan.full then [] else log);
    pushed[..Min(|pushed|, PRESENT_LOG_DEPTH)]
  }

  /** The window's records after a frame, presented or not. */
  function AfterFrame(app: App, s: Scene, size: (nat, nat), plan: Plan, presented: bool): App {
    app.(lastCursor := PointerBounds(s), lastBar := BoundsOf(s.bar), lastGui := BoundsOf(s.gui),
         dirty := None, presentedSize := Some(size),
         log := if presented then PushLog(app.log, plan) else [],
         fullRedraw := !presented)
  }

  /** The painted buffer: the listed rectangles repainted from the framebuffer, and the chrome
      over everything, whatever was there. */
  ghost function PaintedPixel(s: Scene, regions: seq<Rect>, x: nat, y: nat, under: Pixel): Pixel
    requires ValidScene(s)
  {
    Chrome(s, x, y, if Covers(regions, x, y) then Base(s, x, y) else under)
  }

  // --- the window system ------------------------------------------------------------

  type Image = (nat, nat) -> Pixel

  /** One presented frame, as the history keeps it. */
  datatype Frame = Frame(full: bool, own: seq<Rect>)

  /** `ring` is what was presented since the buffers were last replaced, newest first;
      `drawn` is the scene last presented; `exposed` says window pixels were lost since. */
  datatype World = World(app: App, scene: Scene, size: (nat, nat), ring: seq<Image>, screen: Image,
                         drawn: Scene, exposed: bool, history: seq<Frame>)

  ghost predicate InWindow(size: (nat, nat), x: nat, y: nat) { x < size.0 && y < size.1 }

  /** What `buffer_mut` may hand out: a buffer whose age is covered by what was presented
      since the last replacement holds that picture; any other holds anything. */
  ghost predicate HandsOut(w: World, age: nat, buf: Image) {
    0 < age <= |w.ring| ==>
      forall x: nat, y: nat :: InWindow(w.size, x, y) ==> buf(x, y) == w.ring[age - 1](x, y)
  }

  /** A frame that reaches the screen. Outside the presented rectangles a pixel of the screen
      may keep its old value or take the buffer's. */
  ghost predicate Presents(w: World, w': World, age: nat, buf: Image) {
    var plan := PlanFrame(w.app, w.scene, w.size, age);
    && ValidScene(w.scene) && HandsOut(w, age, buf)
    && w'.app == AfterFrame(w.app, w.scene, w.size, plan, true)
    && w'.scene == w.scene && w'.size == w.size && w'.drawn == w.scene
    && w'.exposed == (w.exposed && !plan.full)
    && w'.history == [Frame(plan.full, Own(w.app, w.scene))] + w.history
    && 0 < |w'.ring|
    && (w'.ring[1..] == w.ring || (AskedFull(w.app, w.scene, w.size) && w'.ring[1..] == []))
    && (forall x: nat, y: nat :: InWindow(w.size, x, y) ==>
          w'.ring[0](x, y) == PaintedPixel(w.scene, plan.regions, x, y, buf(x, y)))
    && (forall x: nat, y: nat :: InWindow(w.size, x, y) ==>
          w'.screen(x, y) == w'.ring[0](x, y) || (!Covers(plan.regions, x, y) && w'.screen(x, y) == w.screen(x, y)))
  }

  /** A present that failed: nothing is known of the surface afterwards. */
  ghost predicate PresentFails(w: World, w': World) {
    exists age :: && w'.app == AfterFrame(w.app, w.scene, w.size, PlanFrame(w.app, w.scene, w.size, age), false)
                  && w'.scene == w.scene && w'.size == w.size && w'.ring == [] && w'.history == w.history
  }

  /** The surface refused a buffer before anything was painted. */
  ghost predicate RedrawAborts(w: World, w': World) {
    && w'.app == w.app.(fullRedraw := w.app.fullRedraw || w.app.presentedSize != Some(w.size))
    && w' == w.(app := w'.app, ring := w'.ring)
    && (w'.ring == w.ring || (w'.app.fullRedraw && w'.ring == []))
  }

  /** Buffers go away behind the window's back only while a full repaint is owed. */
  ghost predicate BuffersReplaced(w: World, w': World) {
    w.app.fullRedraw && w' == w.(ring := [])
  }

  /** The window changed size; the event that says so, and sets `full_redraw`, may be late. */
  ghost predicate SizeChanges(w: World, w': World) {
    && 0 < w'.size.0 <= U32_MAX && 0 < w'.size.1 <= U32_MAX
    && w' == w.(size := w'.size, screen := w'.screen, exposed := true)
  }

  /** A decoded frame: pixels change only inside the dirty rectangle. */
  ghost predicate FrameDecoded(w: World, w': World, dirty: Rect) {
    var scaled := ScaleRect(dirty, w.scene.scale);
    && w'.scene == w.scene.(fb := w'.scene.fb)
    && w'.scene.fb.Valid() && w.scene.fb.Valid()
    && w'.scene.fb.width == w.scene.fb.width && w'.scene.fb.height == w.scene.fb.height
    && (forall x, y :: 0 <= x < w.scene.fb.width && 0 <= y < w.scene.fb.height && !dirty.Has(x, y) ==>
          w'.scene.fb.Get(x, y) == w.scene.fb.Get(x, y))
    && w' == w.(scene := w'.scene,
                app := w.app.(dirty := Some(if w.app.dirty.Some? then w.app.dirty.value.Union(scaled) else scaled)))
  }

  /** The pointer, the bar or the GUI moved or repainted itself. */
  ghost predicate ChromeMoves(w: World, w': World) {
    && ValidScene(w'.scene)
    && w'.scene == w.scene.(bar := w'.scene.bar, gui := w'.scene.gui, pointer := w'.scene.pointer)
    && w' == w.(scene := w'.scene)
  }

  /** The remote screen or the magnification changed, or something else set `full_redraw`. */
  ghost predicate FullRepaintOwed(w: World, w': World) {
    && ValidScene(w'.scene) && w'.scene.dimmed == w.scene.dimmed
    && w' == w.(scene := w'.scene, app := w.app.(fullRedraw := true))
  }

  /** The link dropped: the last frame stays, dimmed. */
  ghost predicate LinkLost(w: World, w': World) {
    && ValidScene(w'.scene)
    && w'.scene == w.scene.(dimmed := true, bar := w'.scene.bar, gui := w'.scene.gui, pointer := w'.scene.pointer)
    && w' == w.(scene := w'.scene, app := w.app.(fullRedraw := true))
  }

  /** A new connection is adopted: a new framebuffer, and nothing known of the old one. */
  ghost predicate Adopts(w: World, w': World) {
    && ValidScene(w'.scene) && !w'.scene.dimmed
    && w' == w.(scene := w'.scene, app := w.app.(dirty := None, log := [], fullRedraw := true))
  }

  ghost predicate RedrawAsked(w: World, w': World) {
    w' == w.(app := w.app.(redrawAsked := true))
  }

  /** An unasked redraw is taken for an expose: a full repaint is owed. */
  ghost predicate RedrawRequested(w: World, w': World) {
    w' == w.(app := w.app.(fullRedraw := w.app.fullRedraw || !w.app.redrawAsked, redrawAsked := false))
  }

  /** Something covered the window and went away again. */
  ghost predicate PixelsLost(w: World, w': World) {
    w' == w.(screen := w'.screen, exposed := true)
  }

  ghost predicate PresentsSome(w: World, w': World) {
    exists age, buf :: Presents(w, w', age, buf)
  }

  ghost predicate DecodesSome(w: World, w': World) {
    exists dirty :: FrameDecoded(w, w', dirty)
  }

  ghost predicate Next(w: World, w': World) {
    || PresentsSome(w, w') || PresentFails(w, w') || RedrawAborts(w, w') || BuffersReplaced(w, w')
    || SizeChanges(w, w') || DecodesSome(w, w') || ChromeMoves(w, w') || FullRepaintOwed(w, w')
    || LinkLost(w, w') || Adopts(w, w') || RedrawAsked(w, w') || RedrawRequested(w, w') || PixelsLost(w, w')
  }

  ghost predicate Init(w: World) {
    && ValidScene(w.scene) && 0 < w.size.0 <= U32_MAX && 0 < w.size.1 <= U32_MAX
    && w.app.fullRedraw && w.app.log == [] && w.app.presentedSize.None?
  }

  // --- what holds between frames ----------------------------------------------------

  /** The log reaches no further back than the buffers that can be trusted, and where it
      reaches exactly as far, its oldest entry is the whole window. */
  ghost predicate LogIsTrusted(log: seq<seq<Rect>>, ring: seq<Image>, size: (nat, nat)) {
    && 0 < |log| <= |ring| && |log| <= PRESENT_LOG_DEPTH
    && (|log| == |ring| ==>
          forall x: nat, y: nat :: InWindow(size, x, y) ==> Covers(log[|log| - 1], x, y))
  }

  /** Each entry of the log covers the difference it made. */
  ghost predicate LogCovers(log: seq<seq<Rect>>, ring: seq<Image>, size: (nat, nat)) {
    forall i, x: nat, y: nat ::
      0 <= i < |log| && i + 1 < |ring| && InWindow(size, x, y) && !Covers(log[i], x, y) ==>
        ring[i](x, y) == ring[i + 1](x, y)
  }

  /** The frames presented since the last full one, and it. */
  function SinceFull(history: seq<Frame>): nat {
    if history == [] then 0 else if history[0].full then 1 else 1 + SinceFull(history[1..])
  }

  ghost predicate LogIsHistory(log: seq<seq<Rect>>, history: seq<Frame>, size: (nat, nat)) {
    && |log| <= |history| && |log| == Min(PRESENT_LOG_DEPTH, SinceFull(history))
    && forall i :: 0 <= i < |log| ==>
         log[i] == Regions(Window(size.0, size.1), history[i].full, history[i].own)
  }

  /** The scene differs from the one last drawn only where the window's records say. */
  ghost predicate RecordsDiffer(w: World, size: (nat, nat))
    requires ValidScene(w.scene)
  {
    && ValidScene(w.drawn)
    && w.drawn.scale == w.scene.scale && w.drawn.dimmed == w.scene.dimmed
    && w.app.lastCursor == PointerBounds(w.drawn)
    && w.app.lastBar == BoundsOf(w.drawn.bar)
    && w.app.lastGui == BoundsOf(w.drawn.gui)
    && (forall x: nat, y: nat :: InWindow(size, x, y) && !OrEmpty(w.app.dirty).Has(x, y) ==>
          Base(w.drawn, x, y) == Base(w.scene, x, y))
  }

  ghost predicate ShowsPicture(img: Image, s: Scene, size: (nat, nat))
    requires ValidScene(s)
  {
    forall x: nat, y: nat :: InWindow(size, x, y) ==> img(x, y) == Picture(s, x, y)
  }

  ghost predicate Good(w: World)
    requires ValidScene(w.scene)
  {
    && w.app.presentedSize.Some?
    && var size := w.app.presentedSize.value;
    && size.0 <= U32_MAX && size.1 <= U32_MAX
    && LogIsTrusted(w.app.log, w.ring, size)
    && LogCovers(w.app.log, w.ring, size)
    && LogIsHistory(w.app.log, w.history, size)
    && RecordsDiffer(w, size)
    && ShowsPicture(w.ring[0], w.drawn, size)
    && (!w.exposed ==> ShowsPicture(w.screen, w.drawn, size))
  }

  ghost predicate Inv(w: World) {
    && ValidScene(w.scene)
    && 0 < w.size.0 <= U32_MAX && 0 < w.size.1 <= U32_MAX
    && (w.app.fullRedraw || Good(w))
  }

  // --- one frame --------------------------------------------------------------------

  /** Chrome changes nothing outside the rectangles a frame reports for it. */
  lemma ChromeInside(s: Scene, x: nat, y: nat, u: Pixel)
    requires ValidScene(s)
    requires !OrEmpty(PointerBounds(s)).Has(x, y) && !OrEmpty(BoundsOf(s.bar)).Has(x, y)
             && !OrEmpty(BoundsOf(s.gui)).Has(x, y)
    ensures Chrome(s, x, y, u) == u
  {
    if s.pointer.Some? {
      var p := s.pointer.value;
      OutsideBounds(p.image, s.scale, Times(p.px, s.scale), Times(p.py, s.scale), x, y, u);
    }
  }

  lemma OwnHas(app: App, s: Scene, x: nat, y: nat)
    ensures Covers(Own(app, s), x, y) <==>
            || OrEmpty(app.dirty).Has(x, y) || OrEmpty(app.lastCursor).Has(x, y) || OrEmpty(PointerBounds(s)).Has(x, y)
            || OrEmpty(BoundsOf(s.bar)).Has(x, y) || OrEmpty(app.lastBar).Has(x, y)
            || OrEmpty(BoundsOf(s.gui)).Has(x, y) || OrEmpty(app.lastGui).Has(x, y)
  {
    SevenCover(OrEmpty(app.dirty), OrEmpty(app.lastCursor), OrEmpty(PointerBounds(s)), OrEmpty(BoundsOf(s.bar)),
               OrEmpty(app.lastBar), OrEmpty(BoundsOf(s.gui)), OrEmpty(app.lastGui), x, y);
  }

  /** Outside the frame's own damage the picture is still the last one drawn. */
  lemma UnchangedOutsideOwn(w: World, size: (nat, nat), x: nat, y: nat)
    requires ValidScene(w.scene) && RecordsDiffer(w, size) && InWindow(size, x, y)
    requires !Covers(Own(w.app, w.scene), x, y)
    ensures Picture(w.drawn, x, y) == Picture(w.scene, x, y)
    ensures forall u :: Chrome(w.scene, x, y, u) == u
  {
    OwnHas(w.app, w.scene, x, y);
    ChromeInside(w.drawn, x, y, Base(w.drawn, x, y));
    forall u ensures Chrome(w.scene, x, y, u) == u {
      ChromeInside(w.scene, x, y, u);
    }
  }

  /** The frames since a trusted buffer was presented cover its difference from the newest. */
  lemma {:induction false} StaleCovers(log: seq<seq<Rect>>, ring: seq<Image>, size: (nat, nat), back: nat,
                                       x: nat, y: nat)
    requires LogCovers(log, ring, size) && back < |ring| && back <= |log| && InWindow(size, x, y)
    requires !Covers(Flatten(log[..back]), x, y)
    ensures ring[back](x, y) == ring[0](x, y)
  {
    if back > 0 {
      FlattenCovers(log[..back], x, y);
      FlattenCovers(log[..back - 1], x, y);
      assert forall i :: 0 <= i < back - 1 ==> log[..back - 1][i] == log[..back][i];
      StaleCovers(log, ring, size, back - 1, x, y);
      assert log[..back][back - 1] == log[back - 1];
    }
  }

  /** An age that reaches past the trusted buffers reaches the whole-window entry too, so any
      pixel not stale is one the buffer is trusted for. */
  lemma UnstaleIsTrusted(log: seq<seq<Rect>>, ring: seq<Image>, size: (nat, nat), age: nat, x: nat, y: nat)
    requires LogIsTrusted(log, ring, size) && 0 < age && age - 1 <= |log| && InWindow(size, x, y)
    requires !Covers(Flatten(log[..age - 1]), x, y)
    ensures age <= |ring|
  {
    if |ring| < age {
      var back := log[..age - 1];
      FlattenCovers(back, x, y);
    }
  }

  /** What a frame that is not full knows about a pixel it does not paint. */
  lemma UnpaintedPixel(app: App, s: Scene, size: (nat, nat), age: nat, x: nat, y: nat)
    requires var plan := PlanFrame(app, s, size, age); !plan.full && !Covers(plan.regions, x, y)
    requires InWindow(size, x, y)
    ensures app.presentedSize == Some(size) && 0 < age && age - 1 <= |app.log|
    ensures !Covers(Own(app, s), x, y) && !Covers(Flatten(app.log[..age - 1]), x, y)
  {
    var win := Window(size.0, size.1);
    assert win.Has(x, y);
    PlanCovers(win, false, Own(app, s), StaleRegions(age, app.log).value, x, y);
  }

  lemma TrustedPixel(log: seq<seq<Rect>>, ring: seq<Image>, size: (nat, nat), age: nat, buf: Image, x: nat, y: nat)
    requires LogIsTrusted(log, ring, size) && LogCovers(log, ring, size) && InWindow(size, x, y)
    requires 0 < age && age - 1 <= |log| && !Covers(Flatten(log[..age - 1]), x, y)
    requires age <= |ring| ==> buf(x, y) == ring[age - 1](x, y)
    ensures buf(x, y) == ring[0](x, y)
  {
    UnstaleIsTrusted(log, ring, size, age, x, y);
    StaleCovers(log, ring, size, age - 1, x, y);
  }

  /** Wherever a frame that is not full does not paint, the buffer already holds the picture. */
  lemma BufferIsCurrent(w: World, age: nat, buf: Image, x: nat, y: nat)
    requires ValidScene(w.scene) && Good(w) && HandsOut(w, age, buf) && InWindow(w.size, x, y)
    requires var plan := PlanFrame(w.app, w.scene, w.size, age); !plan.full && !Covers(plan.regions, x, y)
    ensures buf(x, y) == Picture(w.scene, x, y) == w.ring[0](x, y)
    ensures forall u :: Chrome(w.scene, x, y, u) == u
  {
    UnpaintedPixel(w.app, w.scene, w.size, age, x, y);
    TrustedPixel(w.app.log, w.ring, w.size, age, buf, x, y);
    UnchangedOutsideOwn(w, w.size, x, y);
  }

  /** THE FRAME: after a present that reaches the screen, the buffer is the full picture, and
      so is the screen unless pixels were lost and the frame was not full. */
  lemma PresentShowsPicture(w: World, w': World, age: nat, buf: Image)
    requires Inv(w) && Presents(w, w', age, buf)
    ensures ShowsPicture(w'.ring[0], w.scene, w.size)
    ensures !w'.exposed ==> ShowsPicture(w'.screen, w.scene, w.size)
  {
    var plan := PlanFrame(w.app, w.scene, w.size, age);
    var stale := StaleRegions(age, w.app.log);
    forall x: nat, y: nat | InWindow(w.size, x, y)
      ensures w'.ring[0](x, y) == Picture(w.scene, x, y)
      ensures !w'.exposed ==> w'.screen(x, y) == Picture(w.scene, x, y)
    {
      assert Window(w.size.0, w.size.1).Has(x, y);
      if plan.full {
        PlanCovers(Window(w.size.0, w.size.1), true, Own(w.app, w.scene),
                   if stale.Some? then stale.value else [], x, y);
        RegionsUnion(Window(w.size.0, w.size.1), true, Own(w.app, w.scene));
      } else if !Covers(plan.regions, x, y) {
        BufferIsCurrent(w, age, buf, x, y);
      }
    }
  }

  // --- every run --------------------------------------------------------------------

  /** The whole window is remembered of a full frame. */
  lemma FullFrameIsRemembered(app: App, s: Scene, size: (nat, nat), age: nat, x: nat, y: nat)
    requires PlanFrame(app, s, size, age).full && InWindow(size, x, y)
    ensures Covers(PlanFrame(app, s, size, age).changed, x, y)
    ensures Covers(PlanFrame(app, s, size, age).regions, x, y)
  {
    var win := Window(size.0, size.1);
    assert win.Has(x, y);
    assert win in [win];
  }

  lemma OwnIsRemembered(app: App, s: Scene, size: (nat, nat), age: nat, x: nat, y: nat)
    requires InWindow(size, x, y) && Covers(Own(app, s), x, y)
    ensures Covers(PlanFrame(app, s, size, age).changed, x, y)
  {
    var win := Window(size.0, size.1);
    assert win.Has(x, y);
    var stale := StaleRegions(age, app.log);
    PlanCovers(win, PlanFrame(app, s, size, age).full, Own(app, s), if stale.Some? then stale.value else [], x, y);
  }

  /** Pushing a frame keeps the log within what the buffers can be trusted for. */
  lemma TrustAfterPush(log: seq<seq<Rect>>, ring: seq<Image>, ring': seq<Image>, size: (nat, nat), plan: Plan)
    requires 0 < |ring'|
    requires plan.full ==> forall x: nat, y: nat :: InWindow(size, x, y) ==> Covers(plan.changed, x, y)
    requires !plan.full ==> ring'[1..] == ring && LogIsTrusted(log, ring, size)
    ensures LogIsTrusted(PushLog(log, plan), ring', size)
  {
  }

  /** Each entry still covers the difference it made. */
  lemma CoverAfterPush(log: seq<seq<Rect>>, ring: seq<Image>, ring': seq<Image>, size: (nat, nat), plan: Plan)
    requires 0 < |ring'|
    requires plan.full ==> forall x: nat, y: nat :: InWindow(size, x, y) ==> Covers(plan.changed, x, y)
    requires !plan.full ==> ring'[1..] == ring && LogCovers(log, ring, size) && 0 < |ring|
    requires !plan.full ==> forall x: nat, y: nat :: InWindow(size, x, y) && !Covers(plan.changed, x, y) ==>
                              ring'[0](x, y) == ring[0](x, y)
    ensures LogCovers(PushLog(log, plan), ring', size)
  {
  }

  lemma HistoryAfterPush(log: seq<seq<Rect>>, history: seq<Frame>, size: (nat, nat), plan: Plan, own: seq<Rect>)
    requires plan.changed == Regions(Window(size.0, size.1), plan.full, own)
    requires !plan.full ==> LogIsHistory(log, history, size)
    ensures LogIsHistory(PushLog(log, plan), [Frame(plan.full, own)] + history, size)
  {
  }

  /** A frame that is not full differs from the last one only inside what it remembers. */
  lemma FrameDiffersInsideChanged(w: World, w': World, age: nat, buf: Image, x: nat, y: nat)
    requires Inv(w) && Presents(w, w', age, buf) && InWindow(w.size, x, y)
    requires var plan := PlanFrame(w.app, w.scene, w.size, age); !plan.full && !Covers(plan.changed, x, y)
    ensures |w.ring| > 0 && w'.ring[0](x, y) == w.ring[0](x, y)
  {
    PresentShowsPicture(w, w', age, buf);
    if Covers(Own(w.app, w.scene), x, y) {
      OwnIsRemembered(w.app, w.scene, w.size, age, x, y);
    }
    UnchangedOutsideOwn(w, w.size, x, y);
  }

  /** What a present leaves behind is trusted again, whatever was before it. */
  lemma PresentKeepsLog(w: World, w': World, age: nat, buf: Image)
    requires Inv(w) && Presents(w, w', age, buf)
    ensures LogIsTrusted(w'.app.log, w'.ring, w.size)
    ensures LogCovers(w'.app.log, w'.ring, w.size)
    ensures LogIsHistory(w'.app.log, w'.history, w.size)
  {
    var plan := PlanFrame(w.app, w.scene, w.size, age);
    if plan.full {
      forall x: nat, y: nat | InWindow(w.size, x, y) ensures Covers(plan.changed, x, y) {
        FullFrameIsRemembered(w.app, w.scene, w.size, age, x, y);
      }
    } else {
      forall x: nat, y: nat | InWindow(w.size, x, y) && !Covers(plan.changed, x, y)
        ensures w'.ring[0](x, y) == w.ring[0](x, y)
      {
        FrameDiffersInsideChanged(w, w', age, buf, x, y);
      }
    }
    TrustAfterPush(w.app.log, w.ring, w'.ring, w.size, plan);
    CoverAfterPush(w.app.log, w.ring, w'.ring, w.size, plan);
    HistoryAfterPush(w.app.log, w.history, w.size, plan, Own(w.app, w.scene));
  }

  /** Right after a present the records describe the scene exactly. */
  lemma PresentRecords(w: World, w': World, age: nat, buf: Image)
    requires Presents(w, w', age, buf)
    ensures RecordsDiffer(w', w.size)
    ensures w'.app.presentedSize == Some(w.size) && w'.drawn == w.scene
  {
  }

  /** The parts of `Good`, put together. */
  lemma GoodIntro(w: World, size: (nat, nat))
    requires ValidScene(w.scene) && w.app.presentedSize == Some(size) && size.0 <= U32_MAX && size.1 <= U32_MAX
    requires LogIsTrusted(w.app.log, w.ring, size) && LogCovers(w.app.log, w.ring, size)
             && LogIsHistory(w.app.log, w.history, size)
    requires RecordsDiffer(w, size) && ShowsPicture(w.ring[0], w.drawn, size)
    requires !w.exposed ==> ShowsPicture(w.screen, w.drawn, size)
    ensures Good(w)
  {
  }

  lemma PresentKeeps(w: World, w': World, age: nat, buf: Image)
    requires Inv(w) && Presents(w, w', age, buf)
    ensures Inv(w')
  {
    PresentKeepsLog(w, w', age, buf);
    PresentShowsPicture(w, w', age, buf);
    PresentRecords(w, w', age, buf);
    assert w'.scene == w.scene && w'.size == w.size;
    GoodIntro(w', w.size);
  }

  /** A decoded frame changes the window only under its magnified dirty rectangle. */
  lemma DecodeKeeps(w: World, w': World, dirty: Rect)
    requires Inv(w) && FrameDecoded(w, w', dirty)
    ensures Inv(w')
  {
    if !w'.app.fullRedraw {
      var size := w.app.presentedSize.value;
      forall x: nat, y: nat | InWindow(size, x, y) && !OrEmpty(w'.app.dirty).Has(x, y)
        ensures Base(w'.drawn, x, y) == Base(w'.scene, x, y)
      {
        DecodedPixel(w, w', dirty, size, x, y);
      }
      GoodStays(w, w');
    }
  }

  lemma DecodedPixel(w: World, w': World, dirty: Rect, size: (nat, nat), x: nat, y: nat)
    requires ValidScene(w.scene) && ValidScene(w'.scene) && FrameDecoded(w, w', dirty)
    requires RecordsDiffer(w, size) && InWindow(size, x, y) && size.0 <= U32_MAX && size.1 <= U32_MAX
    requires !OrEmpty(w'.app.dirty).Has(x, y)
    ensures Base(w.drawn, x, y) == Base(w'.scene, x, y)
  {
    assert !OrEmpty(w.app.dirty).Has(x, y);
    ShownOutsideDirty(w.scene.fb, w'.scene.fb, w.scene.scale, dirty, x, y);
  }

  lemma ShownOutsideDirty(fb: Framebuffer, fb': Framebuffer, scale: nat, dirty: Rect, x: nat, y: nat)
    requires fb.Valid() && fb'.Valid() && fb'.width == fb.width && fb'.height == fb.height && scale > 0
    requires forall x, y :: 0 <= x < fb.width && 0 <= y < fb.height && !dirty.Has(x, y) ==>
             fb'.Get(x, y) == fb.Get(x, y)
    requires x < U32_MAX && y < U32_MAX && !ScaleRect(dirty, scale).Has(x, y)
    ensures Shown(fb', scale, x, y) == Shown(fb, scale, x, y)
  {
    ScaleRectCovers(dirty, scale, x, y);
  }

  /** A step that keeps the surface and the records keeps what is known, given the base. */
  lemma GoodStays(w: World, w': World)
    requires ValidScene(w.scene) && ValidScene(w'.scene) && Good(w)
    requires w'.app == w.app.(dirty := w'.app.dirty, fullRedraw := w'.app.fullRedraw, redrawAsked := w'.app.redrawAsked)
    requires w'.ring == w.ring && w'.drawn == w.drawn && w'.history == w.history
    requires w'.scene.scale == w.scene.scale && w'.scene.dimmed == w.scene.dimmed
    requires w'.exposed || (!w.exposed && w'.screen == w.screen)
    requires forall x: nat, y: nat :: InWindow(w.app.presentedSize.value, x, y) && !OrEmpty(w'.app.dirty).Has(x, y) ==>
               Base(w.drawn, x, y) == Base(w'.scene, x, y)
    ensures Good(w')
  {
  }

  lemma StepKeeps(w: World, w': World)
    requires Inv(w) && Next(w, w')
    ensures Inv(w')
  {
    if age, buf :| Presents(w, w', age, buf) {
      PresentKeeps(w, w', age, buf);
    } else if dirty :| FrameDecoded(w, w', dirty) {
      DecodeKeeps(w, w', dirty);
    } else {
      QuietStepKeeps(w, w');
    }
  }

  lemma QuietStepKeeps(w: World, w': World)
    requires Inv(w)
    requires || PresentFails(w, w') || RedrawAborts(w, w') || BuffersReplaced(w, w') || SizeChanges(w, w')
             || ChromeMoves(w, w') || FullRepaintOwed(w, w') || LinkLost(w, w') || Adopts(w, w')
             || RedrawAsked(w, w') || RedrawRequested(w, w') || PixelsLost(w, w')
    ensures Inv(w')
  {
    if !w'.app.fullRedraw {
      forall x: nat, y: nat ensures Base(w'.scene, x, y) == Base(w.scene, x, y) {
      }
      GoodStays(w, w');
    }
  }

  ghost predicate IsRun(run: seq<World>) {
    && 0 < |run| && Init(run[0])
    && forall i :: 0 <= i < |run| - 1 ==> Next(run[i], run[i + 1])
  }

  lemma {:induction false} RunKeeps(run: seq<World>, i: nat)
    requires IsRun(run) && i < |run|
    ensures Inv(run[i])
  {
    if i > 0 {
      RunKeeps(run, i - 1);
      assert Next(run[i - 1], run[(i - 1) + 1]);
      StepKeeps(run[i - 1], run[i]);
    }
  }

  /** IN EVERY RUN, whatever ages the backend reports and whatever happens between frames,
      each present that reaches the screen leaves the buffer showing the whole picture, and
      the screen too unless pixels were lost since the last full frame. */
  lemma EveryPresentShowsThePicture(run: seq<World>, i: nat, age: nat, buf: Image)
    requires IsRun(run) && i + 1 < |run|
    ensures Presents(run[i], run[i + 1], age, buf) ==>
              && ShowsPicture(run[i + 1].ring[0], run[i].scene, run[i].size)
              && (!run[i + 1].exposed ==> ShowsPicture(run[i + 1].screen, run[i].scene, run[i].size))
  {
    RunKeeps(run, i);
    if Presents(run[i], run[i + 1], age, buf) {
      PresentShowsPicture(run[i], run[i + 1], age, buf);
    }
  }

  /** FULL EXACTLY WHEN NEEDED: in every run a frame is full exactly when a full repaint is asked
      for, or the buffer's age is unknown, or reaches past the last full frame or the log's depth. */
  lemma FullExactlyWhenNeeded(run: seq<World>, i: nat, age: nat)
    requires IsRun(run) && i < |run|
    ensures var w := run[i];
            PlanFrame(w.app, w.scene, w.size, age).full <==>
            || AskedFull(w.app, w.scene, w.size)
            || age == 0 || age - 1 > Min(PRESENT_LOG_DEPTH, SinceFull(w.history))
  {
    RunKeeps(run, i);
  }

  /** A FRAME WITH NOTHING NEW, straight after a present, is not full and paints the chrome's and the
      pointer's own rectangles and no other pixel, if they are in the window at all. */
  lemma NothingNewNothingPainted(w: World, w': World, age: nat, buf: Image, x: nat, y: nat)
    requires Inv(w) && Presents(w, w', age, buf) && !w.scene.dimmed && InWindow(w.size, x, y)
    ensures var plan := PlanFrame(w'.app, w'.scene, w'.size, 1);
            && !plan.full
            && (TouchesWindow(Window(w.size.0, w.size.1), Own(w'.app, w'.scene)) ==>
                  (Covers(plan.regions, x, y) <==>
                   || OrEmpty(PointerBounds(w.scene)).Has(x, y) || OrEmpty(BoundsOf(w.scene.bar)).Has(x, y)
                   || OrEmpty(BoundsOf(w.scene.gui)).Has(x, y)))
  {
    FrameSettlesRecords(w.app, w.scene, w.size, PlanFrame(w.app, w.scene, w.size, age));
    FreshPlanCovers(w'.app, w.scene, w.size, x, y);
  }

  /** The records name what the scene shows, and nothing is dirty or asked for. */
  ghost predicate RecordsSettled(app: App, s: Scene, size: (nat, nat)) {
    && app.log != [] && !AskedFull(app, s, size) && app.dirty.None?
    && app.lastCursor == PointerBounds(s) && app.lastBar == BoundsOf(s.bar) && app.lastGui == BoundsOf(s.gui)
  }

  lemma FrameSettlesRecords(app: App, s: Scene, size: (nat, nat), plan: Plan)
    requires !s.dimmed
    ensures RecordsSettled(AfterFrame(app, s, size, plan, true), s, size)
  {
  }

  lemma FreshPlanCovers(app: App, s: Scene, size: (nat, nat), x: nat, y: nat)
    requires RecordsSettled(app, s, size) && InWindow(size, x, y)
    ensures var plan := PlanFrame(app, s, size, 1);
            && !plan.full
            && (TouchesWindow(Window(size.0, size.1), Own(app, s)) ==>
                  (Covers(plan.regions, x, y) <==>
                   || OrEmpty(PointerBounds(s)).Has(x, y) || OrEmpty(BoundsOf(s.bar)).Has(x, y)
                   || OrEmpty(BoundsOf(s.gui)).Has(x, y)))
  {
    SettledOwn(app, s, size, x, y);
    PlanOfFreshBuffer(app, s, size);
    if TouchesWindow(Window(size.0, size.1), Own(app, s)) {
      OwnAlone(size, Own(app, s), x, y);
    }
  }

  lemma SettledOwn(app: App, s: Scene, size: (nat, nat), x: nat, y: nat)
    requires RecordsSettled(app, s, size)
    ensures Covers(Own(app, s), x, y) <==>
            || OrEmpty(PointerBounds(s)).Has(x, y) || OrEmpty(BoundsOf(s.bar)).Has(x, y)
            || OrEmpty(BoundsOf(s.gui)).Has(x, y)
  {
    OwnHas(app, s, x, y);
  }

  lemma OwnAlone(size: (nat, nat), own: seq<Rect>, x: nat, y: nat)
    requires InWindow(size, x, y) && TouchesWindow(Window(size.0, size.1), own)
    ensures Covers(PresentPlan(Window(size.0, size.1), false, own, []).0, x, y) <==> Covers(own, x, y)
  {
    PlanCovers(Window(size.0, size.1), false, own, [], x, y);
  }

  lemma PlanOfFreshBuffer(app: App, s: Scene, size: (nat, nat))
    requires app.log != [] && !AskedFull(app, s, size)
    ensures var plan := PlanFrame(app, s, size, 1);
            !plan.full && plan.regions == PresentPlan(Window(size.0, size.1), false, Own(app, s), []).0
  {
    assert app.log[..0] == [];
  }

  // --- exposes ----------------------------------------------------------------------

  /** The outcome where the screen takes nothing but the presented rectangles. */
  lemma LazyPresent(w: World, age: nat, buf: Image) returns (w': World)
    requires ValidScene(w.scene) && HandsOut(w, age, buf)
    ensures Presents(w, w', age, buf)
    ensures var plan := PlanFrame(w.app, w.scene, w.size, age);
            forall x: nat, y: nat :: InWindow(w.size, x, y) && !Covers(plan.regions, x, y) ==>
              w'.screen(x, y) == w.screen(x, y)
  {
    var plan := PlanFrame(w.app, w.scene, w.size, age);
    var s, old_ := w.scene, w.screen;
    var img: Image := (x: nat, y: nat) => if ValidScene(s) then PaintedPixel(s, plan.regions, x, y, buf(x, y))
        else BLACK;
    var screen: Image := (x: nat, y: nat) => if Covers(plan.regions, x, y) then img(x, y) else old_(x, y);
    w' := w.(app := AfterFrame(w.app, w.scene, w.size, plan, true), ring := [img] + w.ring, screen := screen,
             drawn := w.scene, exposed := w.exposed && !plan.full,
             history := [Frame(plan.full, Own(w.app, w.scene))] + w.history);
    assert w'.ring[1..] == w.ring;
  }

  /** `w` with the pixels on screen replaced by whatever uncovering the window left there. */
  function Lost(w: World, screen: Image): World { w.(screen := screen, exposed := true) }

  /** The frame paints and presents every window pixel. */
  ghost predicate PaintsWindow(w: World, age: nat) {
    forall x: nat, y: nat :: InWindow(w.size, x, y) ==> Covers(PlanFrame(w.app, w.scene, w.size, age).regions, x, y)
  }

  ghost predicate Repairs(w: World, age: nat, buf: Image) {
    forall lost, w' :: Presents(Lost(w, lost), w', age, buf) ==> ShowsPicture(w'.screen, w'.scene, w'.size)
  }

  /** A present repairs every loss, whatever was lost and however the screen takes the
      buffer, exactly when its rectangles cover the window. */
  lemma LossIsRepairedExactly(w: World, age: nat, buf: Image)
    requires Inv(w) && HandsOut(w, age, buf)
    ensures Repairs(w, age, buf) <==> PaintsWindow(w, age)
  {
    if PaintsWindow(w, age) {
      forall lost, w' | Presents(Lost(w, lost), w', age, buf) ensures ShowsPicture(w'.screen, w'.scene, w'.size) {
        assert Inv(Lost(w, lost));
        PresentShowsPicture(Lost(w, lost), w', age, buf);
      }
    } else {
      var s := w.scene;
      var lost: Image := (x: nat, y: nat) => if ValidScene(s) && Picture(s, x, y) == BLACK then WHITE else BLACK;
      var w' := LazyPresent(Lost(w, lost), age, buf);
      var x: nat, y: nat :| InWindow(w.size, x, y) && !Covers(PlanFrame(w.app, w.scene, w.size, age).regions, x, y);
      assert w'.screen(x, y) == lost(x, y) != Picture(s, x, y);
    }
  }

  /** What a frame that is not full has to paint: its own damage and what the buffer missed. */
  function Listed(w: World, age: nat): seq<Rect>
    requires StaleRegions(age, w.app.log).Some?
  {
    Own(w.app, w.scene) + StaleRegions(age, w.app.log).value
  }

  /** Those rectangles cover the window, or, naming no pixel of it, stand for all of it. */
  ghost predicate ListsWindow(w: World, age: nat)
    requires StaleRegions(age, w.app.log).Some?
  {
    || !TouchesWindow(Window(w.size.0, w.size.1), Listed(w, age))
    || forall x: nat, y: nat :: InWindow(w.size, x, y) ==> Covers(Listed(w, age), x, y)
  }

  lemma PaintsWindowExactly(w: World, age: nat)
    ensures PaintsWindow(w, age) <==>
            || AskedFull(w.app, w.scene, w.size)
            || StaleRegions(age, w.app.log).None?
            || ListsWindow(w, age)
  {
    var win, plan, stale := Window(w.size.0, w.size.1), PlanFrame(w.app, w.scene, w.size, age),
        StaleRegions(age, w.app.log);
    PlanPaintsWindow(win, plan.full, Own(w.app, w.scene), if stale.Some? then stale.value else []);
    InWindowIsHas(w.size, plan.regions);
    if stale.Some? {
      InWindowIsHas(w.size, Listed(w, age));
    }
  }

  lemma InWindowIsHas(size: (nat, nat), rs: seq<Rect>)
    ensures (forall x: nat, y: nat :: InWindow(size, x, y) ==> Covers(rs, x, y)) <==>
            (forall px, py :: Window(size.0, size.1).Has(px, py) ==> Covers(rs, px, py))
  {
    assert forall x: nat, y: nat :: InWindow(size, x, y) <==> Window(size.0, size.1).Has(x, y);
  }

  /** What the network may bring between a redraw request and its frame, and what may move
      meanwhile: frames, the pointer and the chrome, a new size, the end of the link, and
      requests of our own. */
  ghost predicate DrainStep(w: World, w': World) {
    || DecodesSome(w, w') || ChromeMoves(w, w') || SizeChanges(w, w')
    || FullRepaintOwed(w, w') || LinkLost(w, w') || RedrawAsked(w, w')
  }

  ghost predicate Drains(ws: seq<World>) {
    0 < |ws| && forall i :: 0 <= i < |ws| - 1 ==> DrainStep(ws[i], ws[i + 1])
  }

  ghost predicate Owes(w: World, w': World) { FullRepaintOwed(w, w') || LinkLost(w, w') }

  /** Something in the first `n` steps drained owes a full repaint. */
  ghost predicate OwedMeanwhile(ws: seq<World>, n: nat)
    requires n < |ws|
  {
    exists i :: 0 <= i < n && Owes(ws[i], ws[i + 1])
  }

  lemma DrainStepKeeps(w: World, w': World)
    requires Inv(w) && DrainStep(w, w')
    ensures Inv(w') && (w'.app.fullRedraw <==> w.app.fullRedraw || Owes(w, w'))
  {
    StepKeeps(w, w');
  }

  /** Draining keeps what is known, and owes a full repaint only by what it brings. */
  lemma {:induction false} DrainKeeps(ws: seq<World>, n: nat)
    requires Drains(ws) && Inv(ws[0]) && n < |ws|
    ensures Inv(ws[n]) && (ws[n].app.fullRedraw <==> ws[0].app.fullRedraw || OwedMeanwhile(ws, n))
  {
    if n > 0 {
      DrainKeeps(ws, n - 1);
      assert DrainStep(ws[n - 1], ws[n - 1 + 1]);
      DrainStepKeeps(ws[n - 1], ws[n]);
      OwedSoFar(ws, n);
    }
  }

  lemma OwedSoFar(ws: seq<World>, n: nat)
    requires 0 < n < |ws|
    ensures OwedMeanwhile(ws, n) <==> OwedMeanwhile(ws, n - 1) || Owes(ws[n - 1], ws[n])
  {
    assert Owes(ws[n - 1], ws[n]) ==> Owes(ws[n - 1], ws[n - 1 + 1]);
  }

  /** THE EXPOSE: pixels lost before the frame of a redraw request are back after it, whatever
      they were and whatever is drained first, exactly when nobody had asked for that redraw,
      or a full repaint was owed or came to be, or the window has a new size or is dimmed, or
      nothing is known of the buffer, or what the frame has to paint covers the window. */
  lemma ExposeIsRepairedExactly(w: World, ws: seq<World>, age: nat, buf: Image)
    requires Inv(w) && Drains(ws) && RedrawRequested(w, ws[0]) && HandsOut(ws[|ws| - 1], age, buf)
    ensures var d := ws[|ws| - 1];
            Repairs(d, age, buf) <==>
            || !w.app.redrawAsked || w.app.fullRedraw || OwedMeanwhile(ws, |ws| - 1)
            || d.app.presentedSize != Some(d.size) || d.scene.dimmed
            || StaleRegions(age, d.app.log).None? || ListsWindow(d, age)
  {
    var d := ws[|ws| - 1];
    RequestKeeps(w, ws[0]);
    DrainKeeps(ws, |ws| - 1);
    LossIsRepairedExactly(d, age, buf);
    PaintsWindowExactly(d, age);
  }

  lemma RequestKeeps(w: World, w1: World)
    requires Inv(w) && RedrawRequested(w, w1)
    ensures Inv(w1)
  {
    StepKeeps(w, w1);
  }

  /** The frame of a request nobody had asked for shows everything, whatever was lost before it
      and whatever is drained first. */
  lemma UnaskedFrameRepairs(w: World, ws: seq<World>, w': World, age: nat, buf: Image)
    requires Inv(w) && !w.app.redrawAsked && Drains(ws) && RedrawRequested(w, ws[0])
    requires Presents(ws[|ws| - 1], w', age, buf)
    ensures !w'.exposed && ShowsPicture(w'.screen, ws[|ws| - 1].scene, ws[|ws| - 1].size)
  {
    RequestKeeps(w, ws[0]);
    DrainKeeps(ws, |ws| - 1);
    PresentShowsPicture(ws[|ws| - 1], w', age, buf);
  }

  // --- an expose that is not repaired -----------------------------------------------

  const SMALL: (nat, nat) := (2, 1)
  const BLACK_SCENE := Scene(Framebuffer(2, 1, [BLACK, BLACK]), 1, false, None, None, None)
  const FIRST_PIXEL := Rect(0, 0, 1, 1)

  lemma BlackPicture(x: nat, y: nat)
    requires InWindow(SMALL, x, y)
    ensures ValidScene(BLACK_SCENE) && Picture(BLACK_SCENE, x, y) == BLACK
  {
    assert RowStart(2, 1) == 2;
    UnitCell(x);
    UnitCell(y);
  }

  /** A window of two black pixels after its first frame. */
  lemma FirstFrame() returns (w0: World, w1: World)
    ensures Init(w0) && PresentsSome(w0, w1)
    ensures w1.scene == BLACK_SCENE && w1.size == SMALL && |w1.ring| == 1
    ensures w1.app == App(None, None, None, None, [[Window(2, 1)]], Some(SMALL), false, false)
  {
    assert RowStart(2, 1) == 2;
    var black: Image := (x: nat, y: nat) => BLACK;
    var app := App(None, None, None, None, [], None, true, false);
    w0 := World(app, BLACK_SCENE, SMALL, [], black, BLACK_SCENE, true, []);
    w1 := LazyPresent(w0, 0, black);
    assert Presents(w0, w1, 0, black);
    assert PlanFrame(w0.app, w0.scene, w0.size, 0).changed == [Window(2, 1)];
  }

  lemma FirstPixelDamaged(app: App)
    requires app.dirty == Some(FIRST_PIXEL) && app.lastCursor.None? && app.lastBar.None? && app.lastGui.None?
    ensures Covers(Own(app, BLACK_SCENE), 0, 0) && !Covers(Own(app, BLACK_SCENE), 1, 0)
  {
    OwnHas(app, BLACK_SCENE, 0, 0);
    OwnHas(app, BLACK_SCENE, 1, 0);
  }

  /** The second pixel is in nothing the frame presents. */
  lemma SecondPixelUnpainted(app: App)
    requires app == App(Some(FIRST_PIXEL), None, None, None, [[Window(2, 1)]], Some(SMALL), false, false)
    ensures !Covers(PlanFrame(app, BLACK_SCENE, SMALL, 1).regions, 1, 0)
  {
    FirstPixelDamaged(app);
    PlanOfFreshBuffer(app, BLACK_SCENE, SMALL);
    NotListedNotPainted(Own(app, BLACK_SCENE));
  }

  lemma NotListedNotPainted(own: seq<Rect>)
    requires Covers(own, 0, 0) && !Covers(own, 1, 0)
    ensures !Covers(PresentPlan(Window(2, 1), false, own, []).0, 1, 0)
  {
    assert Window(2, 1).Has(0, 0) && TouchesWindow(Window(2, 1), own);
    PlanCovers(Window(2, 1), false, own, [], 1, 0);
  }

  lemma SmallDecode(w1: World, w2: World)
    requires w1.scene == BLACK_SCENE
    requires w2 == w1.(app := w1.app.(dirty := Some(FIRST_PIXEL))) && w1.app.dirty.None?
    ensures DecodesSome(w1, w2)
  {
    assert RowStart(2, 1) == 2;
    assert ScaleRect(FIRST_PIXEL, 1) == FIRST_PIXEL;
    assert FrameDecoded(w1, w2, FIRST_PIXEL);
  }

  /** A frame asked for by nothing but the first pixel leaves a lost second pixel lost. */
  lemma FrameOfOnePixel(w: World) returns (w': World)
    requires w.scene == BLACK_SCENE && w.size == SMALL && |w.ring| == 1 && w.screen(1, 0) == WHITE
    requires w.app == App(Some(FIRST_PIXEL), None, None, None, [[Window(2, 1)]], Some(SMALL), false, false)
    ensures PresentsSome(w, w') && w'.scene == BLACK_SCENE && w'.size == SMALL && w'.screen(1, 0) == WHITE
  {
    BlackPicture(1, 0);
    SecondPixelUnpainted(w.app);
    w' := LazyPresent(w, 1, w.ring[0]);
    assert Presents(w, w', 1, w.ring[0]);
  }

  lemma LostPixelShows(w: World)
    requires w.scene == BLACK_SCENE && w.size == SMALL && w.screen(1, 0) == WHITE
    ensures ValidScene(w.scene) && !ShowsPicture(w.screen, w.scene, w.size)
  {
    BlackPicture(1, 0);
    assert InWindow(w.size, 1, 0);
  }

  lemma RunGrows(run: seq<World>, w: World) returns (longer: seq<World>)
    requires IsRun(run) && Next(run[|run| - 1], w)
    ensures IsRun(longer) && longer == run + [w]
  {
    longer := run + [w];
    assert longer[0] == run[0];
    forall i | 0 <= i < |longer| - 1 ensures Next(longer[i], longer[i + 1]) {
      if i < |run| - 1 {
        assert longer[i] == run[i] && longer[i + 1] == run[i + 1] && Next(run[i], run[i + 1]);
      } else {
        assert longer[i] == run[|run| - 1] && longer[i + 1] == w;
      }
    }
  }

  /** It happens: a frame is asked for, the window is uncovered, the expose is taken for that
      request, and a pixel stays lost on a window whose buffer is right. */
  lemma ExposeTakenForARequest() returns (run: seq<World>)
    ensures IsRun(run) && |run| == 7
    ensures RedrawAsked(run[2], run[3]) && PixelsLost(run[3], run[4]) && RedrawRequested(run[4], run[5])
    ensures PresentsSome(run[5], run[6]) && ValidScene(run[6].scene)
    ensures !ShowsPicture(run[6].screen, run[6].scene, run[6].size)
  {
    var w0, w1 := FirstFrame();
    var white: Image := (x: nat, y: nat) => WHITE;
    var w2 := w1.(app := w1.app.(dirty := Some(FIRST_PIXEL)));
    var w3 := w2.(app := w2.app.(redrawAsked := true));
    var w4 := w3.(screen := white, exposed := true);
    var w5 := w4.(app := w4.app.(redrawAsked := false));
    SmallDecode(w1, w2);
    assert RedrawAsked(w2, w3) && PixelsLost(w3, w4) && RedrawRequested(w4, w5);
    var w6 := FrameOfOnePixel(w5);
    LostPixelShows(w6);
    run := RunGrows([w0], w1);
    run := RunGrows(run, w2);
    run := RunGrows(run, w3);
    run := RunGrows(run, w4);
    run := RunGrows(run, w5);
    run := RunGrows(run, w6);
  }

  // --- repaint decay ----------------------------------------------------------------

  /** What this frame and the `n - 1` presented before it changed, newest first. */
  ghost function RecentOwn(own: seq<Rect>, history: seq<Frame>, n: nat): (owns: seq<seq<Rect>>)
    requires 0 < n && n - 1 <= |history|
    ensures |owns| == n
  {
    [own] + seq(n - 1, k requires 0 <= k < n - 1 => history[k].own)
  }

  /** This frame and the `n - 1` before it were not full, each with damage in the window, and
      the buffer is `n` frames old. */
  ghost predicate DamagedLately(w: World, n: nat) {
    && 0 < n && n - 1 <= |w.history| && !PlanFrame(w.app, w.scene, w.size, n).full
    && (forall k :: 0 <= k < n - 1 ==> !w.history[k].full)
    && var owns := RecentOwn(Own(w.app, w.scene), w.history, n);
       forall k :: 0 <= k < n ==> TouchesWindow(Window(w.size.0, w.size.1), owns[k])
  }

  /** THE REPAINT DECAYS: in every run, such a frame paints exactly those frames' damage, so a
      full repaint among the frames before them is never painted again. */
  lemma RepaintDecays(run: seq<World>, i: nat, n: nat, x: int, y: int)
    requires IsRun(run) && i < |run|
    ensures DamagedLately(run[i], n) ==>
              var w := run[i]; var owns := RecentOwn(Own(w.app, w.scene), w.history, n);
              (Covers(PlanFrame(w.app, w.scene, w.size, n).regions, x, y) <==>
               Window(w.size.0, w.size.1).Has(x, y) && exists k :: 0 <= k < n && Covers(owns[k], x, y))
  {
    var w := run[i];
    if DamagedLately(w, n) {
      RunKeeps(run, i);
      DecayOfHistory(w.size, Own(w.app, w.scene), w.app.log, w.history, n, x, y);
    }
  }

  lemma DecayOfHistory(size: (nat, nat), own: seq<Rect>, log: seq<seq<Rect>>, history: seq<Frame>,
                       n: nat, x: int, y: int)
    requires 0 < n && n - 1 <= |log| && log != [] && LogIsHistory(log, history, size)
    requires forall k :: 0 <= k < n - 1 ==> !history[k].full
    requires var owns := RecentOwn(own, history, n);
             forall k :: 0 <= k < n ==> TouchesWindow(Window(size.0, size.1), owns[k])
    ensures var owns := RecentOwn(own, history, n); var win := Window(size.0, size.1);
            Covers(PresentPlan(win, false, own, StaleRegions(n, log).value).0, x, y) <==>
            win.Has(x, y) && exists k :: 0 <= k < n && Covers(owns[k], x, y)
  {
    var owns, win := RecentOwn(own, history, n), Window(size.0, size.1);
    forall j | 0 <= j < |owns| - 1 ensures log[j] == Regions(win, false, owns[j + 1]) {
      assert owns[j + 1] == history[j].own;
    }
    RepaintDecay(win, owns, log, x, y);
  }
}
