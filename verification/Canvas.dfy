/** What drawing into a window buffer amounts to, as functions on its contents: a rectangle of
    pixels each replaced by what a per-pixel operation makes of it, and nothing else. */
module Canvas {
  import opened Rects
  import opened Pixels

  /** What becomes of the pixel at a place, given what is there. */
  type PixelOp = (nat, nat, Pixel) -> Pixel

  /** The buffer with every window pixel of `r` replaced by what `f` says there. */
  ghost function Repaint(b: seq<Pixel>, w: nat, h: nat, r: Rect, f: PixelOp): (now: seq<Pixel>)
    requires RowStart(w, h) <= |b|
    ensures |now| == |b|
  {
    if h == 0 then b
    else
      var y, start := h - 1, RowStart(w, h - 1);
      var above := Repaint(b, w, y, r, f);
      above[..start] + RowAfter(b, w, y, r, f) + above[start + w..]
  }

  ghost function RowAfter(b: seq<Pixel>, w: nat, y: nat, r: Rect, f: PixelOp): (row: seq<Pixel>)
    requires RowStart(w, y) + w <= |b|
    ensures |row| == w
  {
    seq(w, x requires 0 <= x < w => PixelAfter(b, w, x, y, r, f))
  }

  ghost function PixelAfter(b: seq<Pixel>, w: nat, x: nat, y: nat, r: Rect, f: PixelOp): Pixel
    requires Index(w, x, y) < |b|
  {
    if r.Has(x, y) then f(x, y, Px(b, w, x, y)) else Px(b, w, x, y)
  }

  /** Pixel by pixel: `now` is `was` repainted, and the buffer past the window is untouched. */
  ghost predicate Repainted(was: seq<Pixel>, now: seq<Pixel>, w: nat, h: nat, r: Rect, f: PixelOp) {
    && |now| == |was|
    && RowStart(w, h) <= |was|
    && (forall i :: RowStart(w, h) <= i < |was| ==> now[i] == was[i])
    && (forall x, y :: 0 <= x < w && 0 <= y < h ==>
          Index(w, x, y) < |was| && Px(now, w, x, y) == PixelAfter(was, w, x, y, r, f))
  }

  lemma {:induction false} RepaintPixels(b: seq<Pixel>, w: nat, h: nat, r: Rect, f: PixelOp)
    requires RowStart(w, h) <= |b|
    ensures Repainted(b, Repaint(b, w, h, r, f), w, h, r, f)
  {
    if h > 0 {
      RepaintPixels(b, w, h - 1, r, f);
      RowIsRepainted(b, Repaint(b, w, h - 1, r, f), Repaint(b, w, h, r, f), w, h, r, f);
    }
  }

  /** The rows above repainted and this one put in its place make one row more. */
  lemma RowIsRepainted(b: seq<Pixel>, above: seq<Pixel>, now: seq<Pixel>, w: nat, h: nat, r: Rect, f: PixelOp)
    requires h > 0 && RowStart(w, h) <= |b| && Repainted(b, above, w, h - 1, r, f)
    requires var start := RowStart(w, h - 1);
             now == above[..start] + RowAfter(b, w, h - 1, r, f) + above[start + w..]
    ensures Repainted(b, now, w, h, r, f)
  {
    var row := RowAfter(b, w, h - 1, r, f);
    forall x', y' | 0 <= x' < w && 0 <= y' < h
      ensures Index(w, x', y') < |b| && Px(now, w, x', y') == PixelAfter(b, w, x', y', r, f)
    {
      InBuffer(w, h, x', y');
      if y' < h - 1 {
        InBuffer(w, h - 1, x', y');
        assert Px(now, w, x', y') == Px(above, w, x', y');
      } else {
        assert Px(now, w, x', y') == row[x'];
      }
    }
  }

  /** A pixel of the window, by its place in the buffer. */
  lemma {:induction false} PixelAt(w: nat, h: nat, i: nat) returns (x: nat, y: nat)
    requires i < RowStart(w, h)
    ensures x < w && y < h && Index(w, x, y) == i
  {
    if i < RowStart(w, h - 1) {
      x, y := PixelAt(w, h - 1, i);
    } else {
      x, y := i - RowStart(w, h - 1), h - 1;
    }
  }

  /** The pixels decide the buffer. */
  lemma RepaintIsUnique(was: seq<Pixel>, now: seq<Pixel>, w: nat, h: nat, r: Rect, f: PixelOp)
    requires Repainted(was, now, w, h, r, f)
    ensures now == Repaint(was, w, h, r, f)
  {
    RepaintPixels(was, w, h, r, f);
    var want := Repaint(was, w, h, r, f);
    forall i | 0 <= i < |now| ensures now[i] == want[i] {
      if i < RowStart(w, h) {
        var x, y := PixelAt(w, h, i);
        assert Px(now, w, x, y) == Px(want, w, x, y);
      }
    }
  }

  /** Two operations on two rectangles that agree on every window pixel. */
  lemma SameRepaint(b: seq<Pixel>, w: nat, h: nat, r: Rect, f: PixelOp, r': Rect, f': PixelOp)
    requires RowStart(w, h) <= |b|
    requires forall x: nat, y: nat, u: Pixel :: x < w && y < h ==>
               (if r.Has(x, y) then f(x, y, u) else u) == (if r'.Has(x, y) then f'(x, y, u) else u)
    ensures Repaint(b, w, h, r, f) == Repaint(b, w, h, r', f')
  {
  }

  function Window(w: nat, h: nat): Rect { Rect(0, 0, w, h) }

  /** Every window pixel through `f`. */
  ghost function MapAll(b: seq<Pixel>, w: nat, h: nat, f: PixelOp): seq<Pixel>
    requires RowStart(w, h) <= |b|
  {
    Repaint(b, w, h, Window(w, h), f)
  }

  lemma RepaintAsMap(b: seq<Pixel>, w: nat, h: nat, r: Rect, f: PixelOp, g: PixelOp)
    requires RowStart(w, h) <= |b|
    requires forall x: nat, y: nat, u: Pixel :: x < w && y < h ==> g(x, y, u) == if r.Has(x, y) then f(x, y, u) else u
    ensures Repaint(b, w, h, r, f) == MapAll(b, w, h, g)
  {
    SameRepaint(b, w, h, r, f, Window(w, h), g);
  }

  /** One operation after another is their composition, pixel by pixel. */
  lemma MapThenMap(b: seq<Pixel>, w: nat, h: nat, f: PixelOp, g: PixelOp, fg: PixelOp)
    requires RowStart(w, h) <= |b|
    requires forall x: nat, y: nat, u: Pixel :: x < w && y < h ==> fg(x, y, u) == g(x, y, f(x, y, u))
    ensures MapAll(MapAll(b, w, h, f), w, h, g) == MapAll(b, w, h, fg)
  {
    var win, mid := Window(w, h), MapAll(b, w, h, f);
    RepaintPixels(b, w, h, win, f);
    RepaintPixels(mid, w, h, win, g);
    var now := MapAll(mid, w, h, g);
    forall x, y | 0 <= x < w && 0 <= y < h ensures Px(now, w, x, y) == PixelAfter(b, w, x, y, win, fg) {
      assert Px(mid, w, x, y) == PixelAfter(b, w, x, y, win, f);
      assert Px(now, w, x, y) == PixelAfter(mid, w, x, y, win, g);
    }
    RepaintIsUnique(b, now, w, h, win, fg);
  }

  lemma SameMap(b: seq<Pixel>, w: nat, h: nat, f: PixelOp, g: PixelOp)
    requires RowStart(w, h) <= |b|
    requires forall x: nat, y: nat, u: Pixel :: x < w && y < h ==> f(x, y, u) == g(x, y, u)
    ensures MapAll(b, w, h, f) == MapAll(b, w, h, g)
  {
    SameRepaint(b, w, h, Window(w, h), f, Window(w, h), g);
  }

  lemma NothingChanges(b: seq<Pixel>, w: nat, h: nat, r: Rect, f: PixelOp)
    requires RowStart(w, h) <= |b|
    requires forall x: nat, y: nat, u: Pixel :: x < w && y < h && r.Has(x, y) ==> f(x, y, u) == u
    ensures Repaint(b, w, h, r, f) == b
  {
  }

  lemma MapNothing(b: seq<Pixel>, w: nat, h: nat, f: PixelOp)
    requires RowStart(w, h) <= |b|
    requires forall x: nat, y: nat, u: Pixel :: x < w && y < h ==> f(x, y, u) == u
    ensures MapAll(b, w, h, f) == b
  {
    NothingChanges(b, w, h, Window(w, h), f);
  }

  // --- row by row -------------------------------------------------------------------

  /** The rows of `r` above `y`. */
  function Above(r: Rect, y: nat): Rect { Rect(r.x, r.y, r.width, Max(0, y - r.y)) }

  /** `b` with one run of row `y` replaced, from column `x`. */
  function PutRun(b: seq<Pixel>, w: nat, x: nat, y: nat, run: seq<Pixel>): seq<Pixel>
    requires RowStart(w, y) + x + |run| <= |b|
  {
    var start := RowStart(w, y) + x;
    b[..start] + run + b[start + |run|..]
  }

  lemma RowFits(w: nat, h: nat, r: Rect, y: nat)
    requires r.Right() <= w && y < h
    ensures RowStart(w, y) + r.x + r.width <= RowStart(w, h)
  {
  }

  /** Putting the next row's run where the rows above are done does one more row. */
  lemma RunAdvances(b: seq<Pixel>, w: nat, h: nat, r: Rect, y: nat, f: PixelOp, run: seq<Pixel>)
    requires RowStart(w, h) <= |b| && r.Right() <= w && r.Bottom() <= h && r.y <= y < r.Bottom()
    requires |run| == r.width && RowStart(w, y) + r.x + r.width <= |b|
    requires forall x :: r.x <= x < r.Right() ==>
               Index(w, x, y) < |b| && run[x - r.x] == f(x, y, Px(b, w, x, y))
    ensures PutRun(Repaint(b, w, h, Above(r, y), f), w, r.x, y, run) == Repaint(b, w, h, Above(r, y + 1), f)
  {
    var before := Repaint(b, w, h, Above(r, y), f);
    var now := PutRun(before, w, r.x, y, run);
    RepaintPixels(b, w, h, Above(r, y), f);
    RowFits(w, h, r, y);
    forall x, y' | 0 <= x < w && 0 <= y' < h
      ensures Index(w, x, y') < |b|
      ensures Px(now, w, x, y') == PixelAfter(b, w, x, y', Above(r, y + 1), f)
    {
      InBuffer(w, h, x, y');
      InRun(w, x, y', y, r.x, r.Right());
      if y' == y && r.x <= x < r.Right() {
        assert Px(now, w, x, y') == run[x - r.x];
      } else {
        assert Px(now, w, x, y') == Px(before, w, x, y');
      }
    }
    RepaintIsUnique(b, now, w, h, Above(r, y + 1), f);
  }

  lemma NoRowsYet(b: seq<Pixel>, w: nat, h: nat, r: Rect, f: PixelOp)
    requires RowStart(w, h) <= |b|
    ensures Repaint(b, w, h, Above(r, r.y), f) == b
  {
    NothingChanges(b, w, h, Above(r, r.y), f);
  }

  /** Once its last row is done, the clipped rectangle has repainted what the rectangle would. */
  lemma ClipIsEnough(b: seq<Pixel>, w: nat, h: nat, rect: Rect, f: PixelOp)
    requires RowStart(w, h) <= |b|
    ensures var r := rect.Intersect(Window(w, h));
            Repaint(b, w, h, Above(r, r.Bottom()), f) == Repaint(b, w, h, rect, f)
  {
    var r := rect.Intersect(Window(w, h));
    assert Above(r, r.Bottom()) == r;
    forall x: nat, y: nat | x < w && y < h ensures r.Has(x, y) <==> rect.Has(x, y) {
      assert Window(w, h).Has(x, y);
    }
    SameRepaint(b, w, h, r, f, rect, f);
  }

  lemma WithinWindow(r: Rect, w: nat, h: nat)
    requires !r.IsEmpty() && forall x, y :: r.Has(x, y) ==> Window(w, h).Has(x, y)
    ensures r.Right() <= w && r.Bottom() <= h
  {
    assert r.Has(r.Right() - 1, r.Bottom() - 1);
  }

  /** The rows of the window above `y`. */
  function RowsAbove(w: nat, y: nat): Rect { Rect(0, 0, w, y) }

  /** Changing only a span of the next row, where `f` leaves the rest of the row alone, does
      one more row. */
  lemma SpanAdvances(b: seq<Pixel>, w: nat, h: nat, y: nat, f: PixelOp, start: nat, end: nat, run: seq<Pixel>)
    requires RowStart(w, h) <= |b| && y < h && start <= end <= w && |run| == end - start
    requires RowStart(w, y) + end <= |b|
    requires forall x :: start <= x < end ==> Index(w, x, y) < |b| && run[x - start] == f(x, y, Px(b, w, x, y))
    requires forall x: nat, u: Pixel :: x < w && !(start <= x < end) ==> f(x, y, u) == u
    ensures PutRun(Repaint(b, w, h, RowsAbove(w, y), f), w, start, y, run) == Repaint(b, w, h, RowsAbove(w, y + 1), f)
  {
    var before := Repaint(b, w, h, RowsAbove(w, y), f);
    var now := PutRun(before, w, start, y, run);
    RepaintPixels(b, w, h, RowsAbove(w, y), f);
    RowsAscend(w, y, h);
    forall x, y' | 0 <= x < w && 0 <= y' < h
      ensures Index(w, x, y') < |b|
      ensures Px(now, w, x, y') == PixelAfter(b, w, x, y', RowsAbove(w, y + 1), f)
    {
      InBuffer(w, h, x, y');
      InRun(w, x, y', y, start, end);
      if y' == y && start <= x < end {
        assert Px(now, w, x, y') == run[x - start];
      } else {
        assert Px(now, w, x, y') == Px(before, w, x, y');
      }
    }
    RepaintIsUnique(b, now, w, h, RowsAbove(w, y + 1), f);
  }

  /** A run of row `y`, each pixel replaced by what `f` makes of it. */
  ghost function RunAfter(b: seq<Pixel>, w: nat, x0: nat, y: nat, n: nat, f: PixelOp): (run: seq<Pixel>)
    requires RowStart(w, y) + x0 + n <= |b|
    ensures |run| == n
  {
    seq(n, k requires 0 <= k < n => f(x0 + k, y, b[RowStart(w, y) + x0 + k]))
  }

  /** Where `g` is `f` along the span, and `f` leaves the rest of the row alone, putting `g`'s
      run over the rows done so far does one more row of `f`. */
  lemma SpanRunAdvances(was: seq<Pixel>, before: seq<Pixel>, w: nat, h: nat, y: nat, f: PixelOp, g: PixelOp,
      start: nat, end: nat)
    requires RowStart(w, h) <= |was| && y < h && start <= end <= w
    requires before == Repaint(was, w, h, RowsAbove(w, y), f) && RowStart(w, y) + end <= |was|
    requires forall x: nat, u: Pixel :: start <= x < end ==> g(x, y, u) == f(x, y, u)
    requires forall x: nat, u: Pixel :: x < w && !(start <= x < end) ==> f(x, y, u) == u
    ensures PutRun(before, w, start, y, RunAfter(before, w, start, y, end - start, g)) ==
            Repaint(was, w, h, RowsAbove(w, y + 1), f)
  {
    RepaintPixels(was, w, h, RowsAbove(w, y), f);
    var run := RunAfter(before, w, start, y, end - start, g);
    forall x | start <= x < end
      ensures Index(w, x, y) < |was| && run[x - start] == f(x, y, Px(was, w, x, y))
    {
      InBuffer(w, h, x, y);
      assert Px(before, w, x, y) == PixelAfter(was, w, x, y, RowsAbove(w, y), f);
    }
    SpanAdvances(was, w, h, y, f, start, end, run);
  }

  ghost predicate AgreeOn(b: seq<Pixel>, w: nat, h: nat, f: PixelOp, g: PixelOp) {
    forall x, y :: 0 <= x < w && 0 <= y < h ==>
        Index(w, x, y) < |b| && f(x, y, Px(b, w, x, y)) == g(x, y, Px(b, w, x, y))
  }

  /** Two operations give the same buffer exactly when they agree on the pixels it holds. */
  lemma MapsAgree(b: seq<Pixel>, w: nat, h: nat, f: PixelOp, g: PixelOp)
    requires RowStart(w, h) <= |b|
    ensures MapAll(b, w, h, f) == MapAll(b, w, h, g) <==> AgreeOn(b, w, h, f, g)
  {
    var now, other := MapAll(b, w, h, f), MapAll(b, w, h, g);
    RepaintPixels(b, w, h, Window(w, h), f);
    RepaintPixels(b, w, h, Window(w, h), g);
    forall x, y | 0 <= x < w && 0 <= y < h
      ensures Index(w, x, y) < |b|
      ensures Px(now, w, x, y) == f(x, y, Px(b, w, x, y)) && Px(other, w, x, y) == g(x, y, Px(b, w, x, y))
    {
      InBuffer(w, h, x, y);
      assert Px(now, w, x, y) == PixelAfter(b, w, x, y, Window(w, h), f);
      assert Px(other, w, x, y) == PixelAfter(b, w, x, y, Window(w, h), g);
    }
    if AgreeOn(b, w, h, f, g) {
      forall x, y | 0 <= x < w && 0 <= y < h ensures Px(now, w, x, y) == PixelAfter(b, w, x, y, Window(w, h), g) {
        assert f(x, y, Px(b, w, x, y)) == g(x, y, Px(b, w, x, y));
      }
      RepaintIsUnique(b, now, w, h, Window(w, h), g);
    }
  }
}
