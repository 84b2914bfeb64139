/** Copying the remote screen into the window buffer (`blit`, `blit_rect`,
    `blit_rect_scaled` in crates/client/src/app.rs) and dimming it (`blend_rect`). */
module Blit {
  import opened Rects
  import opened Pixels
  import opened Canvas

  datatype Framebuffer = Framebuffer(width: nat, height: nat, pixels: seq<Pixel>) {
    predicate Valid() { |pixels| == RowStart(width, height) }

    function Get(x: nat, y: nat): Pixel
      requires Valid() && x < width && y < height
    {
      InBuffer(width, height, x, y);
      pixels[Index(width, x, y)]
    }

    /** A run of one row, as the slice the copy reads. */
    function Row(y: nat, x: nat, len: nat): (run: seq<Pixel>)
      requires Valid() && y < height && x + len <= width
      ensures |run| == len
      ensures forall k :: 0 <= k < len ==> run[k] == Get(x + k, y)
    {
      var start := Index(width, x, y);
      if len > 0 then
        InBuffer(width, height, x + len - 1, y);
        pixels[start..start + len]
      else []
    }
  }

  /** What the window shows at a pixel: the remote pixel it magnifies, or black padding. */
  function Shown(fb: Framebuffer, scale: nat, x: nat, y: nat): Pixel
    requires fb.Valid()
  {
    var s := Max(scale, 1);
    if Cell(x, s) < fb.width && Cell(y, s) < fb.height then fb.Get(Cell(x, s), Cell(y, s)) else BLACK
  }

  function ShownAt(fb: Framebuffer, scale: nat): PixelOp
    requires fb.Valid()
  {
    (x: nat, y: nat, under: Pixel) => Shown(fb, scale, x, y)
  }

  /** A run holds what the window shows along row `y` from column `x0`. */
  ghost predicate Expanded(fb: Framebuffer, scale: nat, x0: nat, y: nat, run: seq<Pixel>)
    requires fb.Valid()
  {
    forall x :: x0 <= x < x0 + |run| ==> run[x - x0] == Shown(fb, scale, x, y)
  }

  /** One row of the rectangle, as the source's `copy_from_slice` into a row slice. */
  method PutRow(dst: array<Pixel>, w: nat, x: nat, y: nat, run: seq<Pixel>)
    requires RowStart(w, y) + x + |run| <= dst.Length
    modifies dst
    ensures dst[..] == PutRun(old(dst[..]), w, x, y, run)
  {
    var start := RowStart(w, y) + x;
    forall i | start <= i < start + |run| {
      dst[i] := run[i - start];
    }
  }

  lemma ShownRowAdvances(b: seq<Pixel>, w: nat, h: nat, r: Rect, y: nat, fb: Framebuffer, scale: nat, run: seq<Pixel>)
    requires RowStart(w, h) <= |b| && r.Right() <= w && r.Bottom() <= h && r.y <= y < r.Bottom()
    requires fb.Valid() && |run| == r.width && Expanded(fb, scale, r.x, y, run)
    ensures RowStart(w, y) + r.x + r.width <= |b|
    ensures PutRun(Repaint(b, w, h, Above(r, y), ShownAt(fb, scale)), w, r.x, y, run) ==
            Repaint(b, w, h, Above(r, y + 1), ShownAt(fb, scale))
  {
    RowFits(w, h, r, y);
    forall x | r.x <= x < r.Right()
      ensures Index(w, x, y) < |b| && run[x - r.x] == ShownAt(fb, scale)(x, y, Px(b, w, x, y))
    {
      InBuffer(w, h, x, y);
    }
    RunAdvances(b, w, h, r, y, ShownAt(fb, scale), run);
  }

  /** The framebuffer's part of one row of a rectangle, then black. */
  function PaddedRow(fb: Framebuffer, x: nat, y: nat, width: nat): (run: seq<Pixel>)
    requires fb.Valid()
    ensures |run| == width
    ensures Expanded(fb, 1, x, y, run)
  {
    var copyW := Max(0, Min(x + width, fb.width) - x);
    assert forall v: nat :: Cell(v, 1) == v by {
      forall v: nat ensures Cell(v, 1) == v { UnitCell(v); }
    }
    if y < fb.height && copyW > 0 then
      fb.Row(y, x, copyW) + seq(width - copyW, _ => BLACK)
    else seq(width, _ => BLACK)
  }

  /** The whole window, unmagnified. */
  method Blit(dst: array<Pixel>, w: nat, h: nat, fb: Framebuffer)
    requires fb.Valid() && RowStart(w, h) <= dst.Length
    modifies dst
    ensures dst[..] == MapAll(old(dst[..]), w, h, ShownAt(fb, 1))
  {
    ghost var was := dst[..];
    ghost var win := Window(w, h);
    NoRowsYet(was, w, h, win, ShownAt(fb, 1));
    for y := 0 to h
      invariant dst[..] == Repaint(was, w, h, Above(win, y), ShownAt(fb, 1))
    {
      var run := PaddedRow(fb, 0, y, w);
      ShownRowAdvances(was, w, h, win, y, fb, 1, run);
      PutRow(dst, w, 0, y, run);
    }
    assert Above(win, h) == win;
  }

  method BlitRect(dst: array<Pixel>, w: nat, h: nat, fb: Framebuffer, rect: Rect)
    requires fb.Valid()
    modifies dst
    ensures dst.Length < RowStart(w, h) ==> dst[..] == old(dst[..])
    ensures dst.Length >= RowStart(w, h) ==> dst[..] == Repaint(old(dst[..]), w, h, rect, ShownAt(fb, 1))
  {
    if dst.Length < RowStart(w, h) {
      return;
    }
    ghost var was := dst[..];
    ClipIsEnough(was, w, h, rect, ShownAt(fb, 1));
    var r := rect.Intersect(Window(w, h));
    NoRowsYet(was, w, h, r, ShownAt(fb, 1));
    if r.IsEmpty() {
      return;
    }
    WithinWindow(r, w, h);
    for y := r.y to r.Bottom()
      invariant dst[..] == Repaint(was, w, h, Above(r, y), ShownAt(fb, 1))
    {
      var run := PaddedRow(fb, r.x, y, r.width);
      ShownRowAdvances(was, w, h, r, y, fb, 1, run);
      PutRow(dst, w, r.x, y, run);
    }
  }

  /** Painting the whole window by rectangle is the full repaint. */
  lemma BlitIsBlitRectOfWindow(b: seq<Pixel>, w: nat, h: nat, fb: Framebuffer, rect: Rect)
    requires fb.Valid() && RowStart(w, h) <= |b| && rect.Contains(Window(w, h))
    ensures Repaint(b, w, h, rect, ShownAt(fb, 1)) == MapAll(b, w, h, ShownAt(fb, 1))
  {
    ContainsIsInclusion(rect, Window(w, h));
    forall x: nat, y: nat | x < w && y < h ensures rect.Has(x, y) {
      assert Window(w, h).Has(x, y);
    }
    SameRepaint(b, w, h, rect, ShownAt(fb, 1), Window(w, h), ShownAt(fb, 1));
  }

  // --- magnified --------------------------------------------------------------------

  /** A cell of one row shows one remote pixel. */
  lemma CellShowsOne(fb: Framebuffer, scale: nat, y: nat, lo: nat, hi: nat)
    requires fb.Valid() && scale > 1 && lo < hi <= CellEnd(lo, scale)
    ensures forall x :: lo <= x < hi ==> Shown(fb, scale, x, y) == Shown(fb, scale, lo, y)
  {
    forall x | lo <= x < hi ensures Shown(fb, scale, x, y) == Shown(fb, scale, lo, y) {
      SameCell(lo, x, scale);
    }
  }

  /** Rows of one band show the same remote row. */
  lemma BandShowsOne(fb: Framebuffer, scale: nat, x0: nat, y: nat, y': nat, run: seq<Pixel>)
    requires fb.Valid() && scale > 1 && y <= y' < CellEnd(y, scale)
    requires Expanded(fb, scale, x0, y, run)
    ensures Expanded(fb, scale, x0, y', run)
  {
    SameCell(y, y', scale);
    forall x | x0 <= x < x0 + |run| ensures run[x - x0] == Shown(fb, scale, x, y') {
      assert run[x - x0] == Shown(fb, scale, x, y);
    }
  }

  /** `row[lo..hi].fill(v)`. */
  method Fill(row: array<Pixel>, lo: nat, hi: nat, v: Pixel)
    requires lo <= hi <= row.Length
    modifies row
    ensures row[..] == old(row[..lo]) + seq(hi - lo, _ => v) + old(row[hi..])
  {
    forall k | lo <= k < hi {
      row[k] := v;
    }
  }

  lemma ExpandedGrows(fb: Framebuffer, scale: nat, x0: nat, y: nat, done: seq<Pixel>, n: nat, v: Pixel)
    requires fb.Valid() && Expanded(fb, scale, x0, y, done)
    requires forall x :: x0 + |done| <= x < x0 + |done| + n ==> Shown(fb, scale, x, y) == v
    ensures Expanded(fb, scale, x0, y, done + seq(n, _ => v))
  {
  }

  /** One run of equal pixels of a source row. */
  method ExpandCell(row: array<Pixel>, fb: Framebuffer, r: Rect, y: nat, scale: nat, x: nat) returns (end: nat)
    requires fb.Valid() && scale > 1 && row.Length == r.width && Cell(y, scale) < fb.height
    requires r.x <= x < r.Right() && Expanded(fb, scale, r.x, y, row[..x - r.x])
    modifies row
    ensures x < end <= r.Right() && Expanded(fb, scale, r.x, y, row[..end - r.x])
  {
    var sx := Cell(x, scale);
    end := Min(CellEnd(x, scale), r.Right());
    var v := if sx < fb.width then fb.Get(sx, Cell(y, scale)) else BLACK;
    CellShowsOne(fb, scale, y, x, end);
    ghost var done := row[..x - r.x];
    Fill(row, x - r.x, end - r.x, v);
    ExpandedGrows(fb, scale, r.x, y, done, end - x, v);
    assert row[..end - r.x] == done + seq(end - x, _ => v);
  }

  /** One source row expanded into the scratch row. */
  method ExpandRow(row: array<Pixel>, fb: Framebuffer, r: Rect, y: nat, scale: nat)
    requires fb.Valid() && scale > 1 && row.Length == r.width
    modifies row
    ensures Expanded(fb, scale, r.x, y, row[..])
  {
    if Cell(y, scale) < fb.height {
      var x := r.x;
      while x < r.Right()
        invariant r.x <= x <= r.Right()
        invariant Expanded(fb, scale, r.x, y, row[..x - r.x])
        decreases r.Right() - x
      {
        x := ExpandCell(row, fb, r, y, scale, x);
      }
      assert row[..] == row[..x - r.x];
    } else {
      Fill(row, 0, row.Length, BLACK);
    }
  }

  /** Every window pixel of the rectangle becomes the remote pixel it magnifies, or black past
      the remote screen; every other pixel is left alone. */
  method BlitRectScaled(dst: array<Pixel>, w: nat, h: nat, fb: Framebuffer, rect: Rect, scale: nat)
    requires fb.Valid()
    modifies dst
    ensures dst.Length < RowStart(w, h) ==> dst[..] == old(dst[..])
    ensures dst.Length >= RowStart(w, h) ==> dst[..] == Repaint(old(dst[..]), w, h, rect, ShownAt(fb, scale))
  {
    ghost var was := dst[..];
    if scale <= 1 {
      BlitRect(dst, w, h, fb, rect);
      if dst.Length >= RowStart(w, h) {
        SameRepaint(was, w, h, rect, ShownAt(fb, 1), rect, ShownAt(fb, scale));
      }
      return;
    }
    if dst.Length < RowStart(w, h) {
      return;
    }
    ClipIsEnough(was, w, h, rect, ShownAt(fb, scale));
    var r := rect.Intersect(Window(w, h));
    NoRowsYet(was, w, h, r, ShownAt(fb, scale));
    if r.IsEmpty() {
      return;
    }
    WithinWindow(r, w, h);
    var row := new Pixel[r.width](_ => BLACK);
    var y := r.y;
    while y < r.Bottom()
      invariant r.y <= y <= r.Bottom()
      invariant dst[..] == Repaint(was, w, h, Above(r, y), ShownAt(fb, scale))
      decreases r.Bottom() - y
    {
      y := BlitBand(dst, w, h, fb, r, y, scale, row, was);
    }
  }

  /** The window rows of the rectangle that share one source row: one expansion serves all. */
  method BlitBand(dst: array<Pixel>, w: nat, h: nat, fb: Framebuffer, r: Rect, y: nat, scale: nat,
                  row: array<Pixel>, ghost was: seq<Pixel>) returns (band: nat)
    requires fb.Valid() && scale > 1 && row != dst && row.Length == r.width
    requires RowStart(w, h) <= |was| && r.Right() <= w && r.Bottom() <= h && r.y <= y < r.Bottom()
    requires dst[..] == Repaint(was, w, h, Above(r, y), ShownAt(fb, scale))
    modifies dst, row
    ensures y < band <= r.Bottom()
    ensures dst[..] == Repaint(was, w, h, Above(r, band), ShownAt(fb, scale))
  {
    band := Min(CellEnd(y, scale), r.Bottom());
    ExpandRow(row, fb, r, y, scale);
    for yy := y to band
      invariant dst[..] == Repaint(was, w, h, Above(r, yy), ShownAt(fb, scale))
      invariant Expanded(fb, scale, r.x, y, row[..])
    {
      BandShowsOne(fb, scale, r.x, y, yy, row[..]);
      ShownRowAdvances(was, w, h, r, yy, fb, scale, row[..]);
      PutRow(dst, w, r.x, yy, row[..]);
    }
  }

  // --- blending in place ------------------------------------------------------------

  /** The pixels from `at`, the first of them in column `x0`, in place. */
  method MapCells(dst: array<Pixel>, at: nat, x0: nat, y: nat, n: nat, f: PixelOp)
    requires at + n <= dst.Length
    modifies dst
    ensures forall i :: 0 <= i < dst.Length ==>
              dst[i] == if at <= i < at + n then f(x0 + (i - at), y, old(dst[i])) else old(dst[i])
  {
    for k := 0 to n
      invariant forall i :: 0 <= i < dst.Length ==>
                  dst[i] == if at <= i < at + k then f(x0 + (i - at), y, old(dst[i])) else old(dst[i])
    {
      dst[at + k] := f(x0 + k, y, dst[at + k]);
    }
  }

  method MapRun(dst: array<Pixel>, w: nat, x0: nat, y: nat, n: nat, f: PixelOp)
    requires RowStart(w, y) + x0 + n <= dst.Length
    modifies dst
    ensures dst[..] == PutRun(old(dst[..]), w, x0, y, RunAfter(old(dst[..]), w, x0, y, n, f))
  {
    MapCells(dst, RowStart(w, y) + x0, x0, y, n, f);
  }

  lemma MappedRowAdvances(was: seq<Pixel>, before: seq<Pixel>, w: nat, h: nat, r: Rect, y: nat, f: PixelOp)
    requires RowStart(w, h) <= |was| && r.Right() <= w && r.Bottom() <= h && r.y <= y < r.Bottom()
    requires before == Repaint(was, w, h, Above(r, y), f)
    ensures RowStart(w, y) + r.x + r.width <= |was|
    ensures PutRun(before, w, r.x, y, RunAfter(before, w, r.x, y, r.width, f)) == Repaint(was, w, h, Above(r, y + 1), f)
  {
    RowFits(w, h, r, y);
    RepaintPixels(was, w, h, Above(r, y), f);
    var run := RunAfter(before, w, r.x, y, r.width, f);
    forall x | r.x <= x < r.Right()
      ensures Index(w, x, y) < |was| && run[x - r.x] == f(x, y, Px(was, w, x, y))
    {
      assert Px(before, w, x, y) == PixelAfter(was, w, x, y, Above(r, y), f);
    }
    RunAdvances(was, w, h, r, y, f, run);
  }

  /** Every window pixel of a rectangle replaced by what `f` makes of it, top to bottom. */
  method MapRect(dst: array<Pixel>, w: nat, h: nat, rect: Rect, f: PixelOp)
    requires RowStart(w, h) <= dst.Length
    modifies dst
    ensures dst[..] == Repaint(old(dst[..]), w, h, rect, f)
  {
    ghost var was := dst[..];
    ClipIsEnough(was, w, h, rect, f);
    var r := rect.Intersect(Window(w, h));
    NoRowsYet(was, w, h, r, f);
    if !r.IsEmpty() {
      WithinWindow(r, w, h);
    }
    for y := r.y to r.Bottom()
      invariant dst[..] == Repaint(was, w, h, Above(r, y), f)
    {
      MappedRowAdvances(was, dst[..], w, h, r, y, f);
      MapRun(dst, w, r.x, y, r.width, f);
    }
  }

  function BlendAt(colour: Pixel, alpha: nat): PixelOp {
    (x: nat, y: nat, under: Pixel) => BlendPixel(colour, alpha, under)
  }

  /** A translucent rectangle over what is there. An opacity of zero leaves the buffer alone. */
  method BlendRect(dst: array<Pixel>, w: nat, h: nat, rect: Rect, colour: Pixel, alpha: nat)
    modifies dst
    ensures alpha == 0 || dst.Length < RowStart(w, h) ==> dst[..] == old(dst[..])
    ensures alpha != 0 && dst.Length >= RowStart(w, h) ==>
              dst[..] == Repaint(old(dst[..]), w, h, rect, BlendAt(colour, alpha))
  {
    if alpha == 0 || dst.Length < RowStart(w, h) {
      return;
    }
    MapRect(dst, w, h, rect, BlendAt(colour, alpha));
  }
}
