/** Window buffers as flat arrays of `0x00RRGGBB` words, and the integer blend shared by the
    dimming, the bar and the cursor. */
module Pixels {
  import opened Rects

  type byte = x: int | 0 <= x < 0x100

  /** A 32-bit pixel word as its four bytes: `0x00RRGGBB` in the window and the framebuffer
      (top byte zero), premultiplied `0xAARRGGBB` in a cursor image. */
  datatype Pixel = Pixel(a: byte, r: byte, g: byte, b: byte)

  const BLACK := Pixel(0, 0, 0, 0)

  type u32 = x: int | 0 <= x <= 0xFFFF_FFFF

  /** The word: `(a << 24) | (r << 16) | (g << 8) | b`. */
  function Word(p: Pixel): u32 { ((p.a * 0x100 + p.r) * 0x100 + p.g) * 0x100 + p.b }

  /** `word >> 24`, `(word >> 16) & 0xff`, `(word >> 8) & 0xff` and `word & 0xff`. */
  function Bytes(word: u32): Pixel {
    Pixel(word / 0x100_0000, word / 0x1_0000 % 0x100, word / 0x100 % 0x100, word % 0x100)
  }

  /** Shifting and masking a word gives its bytes back, and every word is some pixel's. */
  lemma WordsArePixels(p: Pixel, word: u32)
    ensures Bytes(Word(p)) == p
    ensures Word(Bytes(word)) == word
  {
    SplitByte(((p.a * 0x100 + p.r) * 0x100 + p.g), p.b);
    SplitByte(p.a * 0x100 + p.r, p.g);
    SplitByte(p.a, p.r);
    DivideTwice(Word(p));
    DivideTwice(word);
  }

  lemma SplitByte(hi: nat, lo: byte)
    ensures (hi * 0x100 + lo) / 0x100 == hi && (hi * 0x100 + lo) % 0x100 == lo
  {
  }

  lemma DivideTwice(word: nat)
    ensures word / 0x1_0000 == word / 0x100 / 0x100
    ensures word / 0x100_0000 == word / 0x100 / 0x100 / 0x100
  {
  }

  /** Where row `y` of a row-major buffer of width `w` starts; `RowStart(w, h)` is the size of
      the window's `h` rows. Written as a sum so that the proofs below stay linear. */
  function RowStart(w: nat, y: nat): nat {
    if y == 0 then 0 else RowStart(w, y - 1) + w
  }

  lemma {:induction false} RowStartIsProduct(w: nat, y: nat)
    ensures RowStart(w, y) == y * w
  {
    if y > 0 {
      RowStartIsProduct(w, y - 1);
    }
  }

  lemma {:induction false} RowsAscend(w: nat, y: nat, y': nat)
    requires y < y'
    ensures RowStart(w, y) + w <= RowStart(w, y')
    decreases y'
  {
    if y < y' - 1 {
      RowsAscend(w, y, y' - 1);
    }
  }

  /** Where a pixel lives in the buffer. */
  function Index(w: nat, x: nat, y: nat): nat { RowStart(w, y) + x }

  /** A run of one row holds exactly the pixels of that row between its ends. */
  lemma InRun(w: nat, x: nat, y: nat, row: nat, lo: nat, hi: nat)
    requires x < w && lo <= hi <= w
    ensures RowStart(w, row) + lo <= Index(w, x, y) < RowStart(w, row) + hi <==> y == row && lo <= x < hi
  {
    if y < row {
      RowsAscend(w, y, row);
    } else if y > row {
      RowsAscend(w, row, y);
    }
  }

  lemma InBuffer(w: nat, h: nat, x: nat, y: nat)
    requires x < w && y < h
    ensures Index(w, x, y) < RowStart(w, h)
  {
  }

  lemma SameIndex(w: nat, x: nat, y: nat, x': nat, y': nat)
    requires x < w && x' < w && Index(w, x, y) == Index(w, x', y')
    ensures x == x' && y == y'
  {
    InRun(w, x, y, y', x', x' + 1);
  }

  /** The pixel as the buffer holds it. */
  function Px(b: seq<Pixel>, w: nat, x: nat, y: nat): Pixel
    requires Index(w, x, y) < |b|
  {
    b[Index(w, x, y)]
  }

  /** `a * b`, as a sum: blending multiplies two variables per channel, and the proofs about
      where pixels go must not see those products. */
  function Times(a: nat, b: nat): nat {
    if b == 0 then 0 else Times(a, b - 1) + a
  }

  lemma {:induction false} TimesIsProduct(a: nat, b: nat)
    ensures Times(a, b) == a * b
  {
    if b > 0 {
      TimesIsProduct(a, b - 1);
    }
  }

  /** One channel of a straight-alpha blend, rounded to nearest: between the two colours. */
  function Blend(sc: byte, a: byte, dc: byte): (c: byte)
    ensures Min(sc, dc) <= c <= Max(sc, dc)
  {
    BlendBetween(sc, a, dc);
    Min((Times(sc, a) + Times(dc, 255 - a) + 127) / 255, 255)
  }

  lemma BlendBetween(sc: byte, a: byte, dc: byte)
    ensures Min(sc, dc) * 255 <= Times(sc, a) + Times(dc, 255 - a) <= Max(sc, dc) * 255
  {
    var lo, hi := Min(sc, dc), Max(sc, dc);
    TimesMonotone(lo, sc, a);
    TimesMonotone(sc, hi, a);
    TimesMonotone(lo, dc, 255 - a);
    TimesMonotone(dc, hi, 255 - a);
    TimesAdds(lo, a, 255 - a);
    TimesAdds(hi, a, 255 - a);
    TimesIsProduct(lo, 255);
    TimesIsProduct(hi, 255);
  }

  lemma {:induction false} TimesMonotone(a: nat, a': nat, b: nat)
    requires a <= a'
    ensures Times(a, b) <= Times(a', b)
  {
    if b > 0 {
      TimesMonotone(a, a', b - 1);
    }
  }

  lemma {:induction false} TimesAdds(a: nat, b: nat, c: nat)
    ensures Times(a, b + c) == Times(a, b) + Times(a, c)
  {
    if c > 0 {
      TimesAdds(a, b, c - 1);
    }
  }

  /** A byte nearest to `sum / 255`; there is only one. */
  predicate Nearest(c: int, sum: int) { -127 <= 255 * c - sum <= 127 }

  /** The blend is the colour at its opacity and what is under it at the rest, to nearest. */
  lemma BlendIsNearest(sc: byte, a: byte, dc: byte)
    ensures Nearest(Blend(sc, a, dc), sc * a + dc * (255 - a))
  {
    BlendBetween(sc, a, dc);
    TimesIsProduct(sc, a);
    TimesIsProduct(dc, 255 - a);
  }

  /** A colour laid over a pixel at an opacity; the top byte of the result is clear. */
  function BlendPixel(colour: Pixel, alpha: nat, under: Pixel): Pixel {
    var a: byte := Min(alpha, 255);
    Pixel(0, Blend(colour.r, a, under.r), Blend(colour.g, a, under.g), Blend(colour.b, a, under.b))
  }

  /** Channel by channel, at the opacity given or full. */
  lemma BlendPixelIsNearest(colour: Pixel, alpha: nat, under: Pixel)
    ensures var p, a := BlendPixel(colour, alpha, under), if alpha < 255 then alpha else 255;
            && p.a == 0
            && Nearest(p.r, colour.r * a + under.r * (255 - a))
            && Nearest(p.g, colour.g * a + under.g * (255 - a))
            && Nearest(p.b, colour.b * a + under.b * (255 - a))
  {
    var a: byte := Min(alpha, 255);
    BlendIsNearest(colour.r, a, under.r);
    BlendIsNearest(colour.g, a, under.g);
    BlendIsNearest(colour.b, a, under.b);
  }
}
