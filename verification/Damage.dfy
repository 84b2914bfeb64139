/** Which rectangles a frame paints and presents, and which it remembers
    (`damage_regions`, `stale_regions`, `present_plan` in crates/client/src/app.rs). */
module Damage {
  import opened Options
  import opened Rects

  // The log's depth, in frames.
  const PRESENT_LOG_DEPTH: nat := 3

  /** Some rectangle of the list has the pixel. */
  ghost predicate Covers(rs: seq<Rect>, px: int, py: int) {
    exists r :: r in rs && r.Has(px, py)
  }

  /** No rectangle of the list is redundant: none is empty and none holds another. */
  ghost predicate Irredundant(rs: seq<Rect>) {
    && (forall i :: 0 <= i < |rs| ==> !rs[i].IsEmpty())
    && (forall i, j :: 0 <= i < |rs| && 0 <= j < |rs| && i != j ==> !rs[i].Contains(rs[j]))
  }

  /** The clipped list names some pixel at all. */
  ghost predicate TouchesWindow(win: Rect, parts: seq<Rect>) {
    exists px, py :: win.Has(px, py) && Covers(parts, px, py)
  }

  /** `retain`: drop what the new rectangle makes redundant. */
  function Retain(out: seq<Rect>, r: Rect): (kept: seq<Rect>)
    ensures forall o :: o in kept <==> o in out && !r.Contains(o)
    ensures |kept| <= |out|
    ensures Irredundant(out) ==> Irredundant(kept)
  {
    if out == [] then []
    else
      var rest := Retain(out[..|out| - 1], r);
      var last := out[|out| - 1];
      assert out == out[..|out| - 1] + [last];
      if r.Contains(last) then rest else
      assert Irredundant(out) ==> Irredundant(rest + [last]) by { RetainKeepsApart(out, rest); }
      rest + [last]
  }

  lemma RetainKeepsApart(out: seq<Rect>, rest: seq<Rect>)
    requires out != []
    requires forall o :: o in rest ==> o in out[..|out| - 1]
    requires Irredundant(out[..|out| - 1]) ==> Irredundant(rest)
    ensures Irredundant(out) ==> Irredundant(rest + [out[|out| - 1]])
  {
    var last := out[|out| - 1];
    if Irredundant(out) {
      assert Irredundant(out[..|out| - 1]);
      forall i | 0 <= i < |rest| ensures !rest[i].Contains(last) && !last.Contains(rest[i]) {
        assert rest[i] in rest;
        var k :| 0 <= k < |out| - 1 && out[k] == rest[i];
      }
    }
  }

  /** One candidate rectangle taken into the list. */
  function Add(win: Rect, out: seq<Rect>, part: Rect): seq<Rect> {
    var r := part.Intersect(win);
    if r.IsEmpty() || exists o :: o in out && o.Contains(r) then out
    else Retain(out, r) + [r]
  }

  /** The list after the candidates, in order. */
  function Gathered(win: Rect, parts: seq<Rect>): seq<Rect> {
    if parts == [] then []
    else Add(win, Gathered(win, parts[..|parts| - 1]), parts[|parts| - 1])
  }

  function Regions(win: Rect, full: bool, parts: seq<Rect>): seq<Rect> {
    if full || Gathered(win, parts) == [] then [win] else Gathered(win, parts)
  }

  method DamageRegions(win: Rect, full: bool, parts: seq<Rect>) returns (out: seq<Rect>)
    ensures out == Regions(win, full, parts)
  {
    if full {
      return [win];
    }
    out := [];
    for i := 0 to |parts|
      invariant out == Gathered(win, parts[..i])
    {
      assert parts[..i + 1][..i] == parts[..i];
      var r := parts[i].Intersect(win);
      if r.IsEmpty() || exists o :: o in out && o.Contains(r) {
        continue;
      }
      out := Retain(out, r);
      out := out + [r];
    }
    assert parts[..|parts|] == parts;
    if out == [] {
      out := [win];
    }
  }

  /** One candidate adds exactly its window pixels, and keeps the list irredundant. */
  lemma AddUnion(win: Rect, out: seq<Rect>, part: Rect)
    requires Irredundant(out)
    ensures Irredundant(Add(win, out, part))
    ensures forall px, py ::
              Covers(Add(win, out, part), px, py) <==>
              Covers(out, px, py) || (win.Has(px, py) && part.Has(px, py))
  {
    var r := part.Intersect(win);
    var to := Add(win, out, part);
    if r.IsEmpty() {
    } else if o :| o in out && o.Contains(r) {
      ContainsIsInclusion(o, r);
    } else {
      var kept := Retain(out, r);
      assert to == kept + [r];
      forall px, py ensures Covers(to, px, py) <==> Covers(out, px, py) || r.Has(px, py) {
        if Covers(to, px, py) {
          var o :| o in to && o.Has(px, py);
          assert o == r || o in kept;
        }
        if r.Has(px, py) {
          assert r in to;
        } else if Covers(out, px, py) {
          var o :| o in out && o.Has(px, py);
          ContainsIsInclusion(r, o);
          assert o in to;
        }
      }
      forall i | 0 <= i < |kept| ensures !kept[i].Contains(r) && !r.Contains(kept[i]) {
        assert kept[i] in kept;
      }
    }
  }

  /** Dropping and retaining rectangles never changes the union: it stays the candidates'
      own pixels, clipped to the window. */
  lemma {:induction false} GatheredUnion(win: Rect, parts: seq<Rect>)
    ensures Irredundant(Gathered(win, parts))
    ensures forall px, py :: Covers(Gathered(win, parts), px, py) <==> win.Has(px, py) && Covers(parts, px, py)
  {
    if parts != [] {
      var init, last := parts[..|parts| - 1], parts[|parts| - 1];
      GatheredUnion(win, init);
      AddUnion(win, Gathered(win, init), last);
      assert parts == init + [last];
      forall px, py ensures Covers(parts, px, py) <==> Covers(init, px, py) || last.Has(px, py) {
        if last.Has(px, py) { assert last in parts; }
        if Covers(init, px, py) {
          var r :| r in init && r.Has(px, py);
          assert r in parts;
        }
      }
    }
  }

  /** What `damage_regions` returns, as a set of pixels: the clipped union of the candidates
      when there is anything in it, and the whole window otherwise. */
  lemma RegionsUnion(win: Rect, full: bool, parts: seq<Rect>)
    ensures Irredundant(Regions(win, full, parts)) || win.IsEmpty()
    ensures forall px, py :: Covers(Regions(win, full, parts), px, py) <==>
              win.Has(px, py) && (full || !TouchesWindow(win, parts) || Covers(parts, px, py))
    ensures Regions(win, full, parts) != []
  {
    GatheredUnion(win, parts);
    var g := Gathered(win, parts);
    if !full && g != [] {
      assert g[0].Has(g[0].x, g[0].y);
      assert Covers(g, g[0].x, g[0].y);
      assert TouchesWindow(win, parts);
    } else if g == [] {
      assert forall px, py :: !Covers(g, px, py);
      assert !TouchesWindow(win, parts);
    }
    if full || g == [] {
      forall px, py ensures Covers([win], px, py) <==> win.Has(px, py) {
        if win.Has(px, py) { assert win in [win]; }
      }
    }
  }

  /** The rectangles of the newest frames, in one list. */
  function Flatten(log: seq<seq<Rect>>): seq<Rect> {
    if log == [] then [] else log[0] + Flatten(log[1..])
  }

  lemma {:induction false} FlattenCovers(log: seq<seq<Rect>>, px: int, py: int)
    ensures Covers(Flatten(log), px, py) <==> exists i :: 0 <= i < |log| && Covers(log[i], px, py)
  {
    if log != [] {
      FlattenCovers(log[1..], px, py);
      CoversConcat(log[0], Flatten(log[1..]), px, py);
      assert forall i :: 0 < i < |log| ==> log[i] == log[1..][i - 1];
    }
  }

  /** What a buffer of this age has not seen, or nothing known about it. */
  function StaleRegions(age: nat, log: seq<seq<Rect>>): (stale: Option<seq<Rect>>)
    ensures stale.Some? <==> age != 0 && log != [] && age - 1 <= |log|
  {
    if age == 0 || log == [] then None
    else if age - 1 > |log| then None
    else Some(Flatten(log[..age - 1]))
  }

  /** The painted and presented list, and the remembered one. */
  function PresentPlan(win: Rect, full: bool, own: seq<Rect>, stale: seq<Rect>): (seq<Rect>, seq<Rect>) {
    var changed := Regions(win, full, own);
    if full || stale == [] then (changed, changed)
    else (Regions(win, false, own + stale), changed)
  }

  method PlanPresent(win: Rect, full: bool, own: seq<Rect>, stale: seq<Rect>)
    returns (paint: seq<Rect>, changed: seq<Rect>)
    ensures (paint, changed) == PresentPlan(win, full, own, stale)
  {
    changed := DamageRegions(win, full, own);
    if full || stale == [] {
      return changed, changed;
    }
    var all := own;
    all := all + stale;
    paint := DamageRegions(win, false, all);
  }

  lemma CoversConcat(a: seq<Rect>, b: seq<Rect>, px: int, py: int)
    ensures Covers(a + b, px, py) <==> Covers(a, px, py) || Covers(b, px, py)
  {
  }

  /** The painted list covers the frame's own damage and the stale part, inside the window
      only; the remembered list covers the frame's own damage. */
  lemma PlanCovers(win: Rect, full: bool, own: seq<Rect>, stale: seq<Rect>, px: int, py: int)
    ensures var (paint, changed) := PresentPlan(win, full, own, stale);
            && (Covers(paint, px, py) ==> win.Has(px, py))
            && (Covers(changed, px, py) ==> win.Has(px, py))
            && (win.Has(px, py) && (full || Covers(own, px, py)) ==> Covers(changed, px, py))
            && (win.Has(px, py) && Covers(stale, px, py) && !full ==> Covers(paint, px, py))
    ensures !full && TouchesWindow(win, own) ==>
              (Covers(PresentPlan(win, full, own, stale).0, px, py) <==>
               win.Has(px, py) && (Covers(own, px, py) || Covers(stale, px, py)))
  {
    RegionsUnion(win, full, own);
    RegionsUnion(win, false, own + stale);
    CoversConcat(own, stale, px, py);
    if TouchesWindow(win, own) {
      var qx, qy :| win.Has(qx, qy) && Covers(own, qx, qy);
      CoversConcat(own, stale, qx, qy);
    }
  }

  /** What is painted covers the window exactly when the frame is full, or the rectangles it
      has to paint cover it, or they name no pixel of it and the whole window is taken. */
  lemma PlanPaintsWindow(win: Rect, full: bool, own: seq<Rect>, stale: seq<Rect>)
    ensures (forall px, py :: win.Has(px, py) ==> Covers(PresentPlan(win, full, own, stale).0, px, py)) <==>
            || full || !TouchesWindow(win, own + stale)
            || (forall px, py :: win.Has(px, py) ==> Covers(own + stale, px, py))
  {
    if full {
      RegionsUnion(win, full, own);
    } else {
      assert stale == [] ==> own + stale == own;
      assert PresentPlan(win, full, own, stale).0 == Regions(win, false, own + stale);
      RegionsUnion(win, false, own + stale);
    }
  }

  /** Seven rectangles, one by one. */
  lemma SevenCover(a: Rect, b: Rect, c: Rect, d: Rect, e: Rect, f: Rect, g: Rect, px: int, py: int)
    ensures Covers([a, b, c, d, e, f, g], px, py) <==>
            || a.Has(px, py) || b.Has(px, py) || c.Has(px, py) || d.Has(px, py)
            || e.Has(px, py) || f.Has(px, py) || g.Has(px, py)
  {
    var rs := [a, b, c, d, e, f, g];
    assert rs[0] in rs && rs[1] in rs && rs[2] in rs && rs[3] in rs && rs[4] in rs && rs[5] in rs && rs[6] in rs;
    if Covers(rs, px, py) {
      var r :| r in rs && r.Has(px, py);
      assert r == a || r == b || r == c || r == d || r == e || r == f || r == g;
    }
  }

  /** One full redraw never perpetuates itself: when the last `n` frames were not full, each
      with damage of its own in the window, and the buffer is `n` frames old, what is painted
      is exactly the clipped union of what those `n` frames changed. */
  lemma RepaintDecay(win: Rect, owns: seq<seq<Rect>>, log: seq<seq<Rect>>, px: int, py: int)
    requires 0 < |owns| && log != [] && |owns| - 1 <= |log|
    requires forall i :: 0 <= i < |owns| ==> TouchesWindow(win, owns[i])
    requires forall j :: 0 <= j < |owns| - 1 ==> log[j] == Regions(win, false, owns[j + 1])
    ensures var stale := StaleRegions(|owns|, log);
            && stale.Some?
            && (Covers(PresentPlan(win, false, owns[0], stale.value).0, px, py) <==>
                win.Has(px, py) && exists i :: 0 <= i < |owns| && Covers(owns[i], px, py))
  {
    var older := log[..|owns| - 1];
    PlanCovers(win, false, owns[0], Flatten(older), px, py);
    FlattenCovers(older, px, py);
    forall j | 0 <= j < |older|
      ensures Covers(older[j], px, py) <==> win.Has(px, py) && Covers(owns[j + 1], px, py)
    {
      RegionsUnion(win, false, owns[j + 1]);
    }
    OlderCovers(win, owns, older, px, py);
  }

  lemma OlderCovers(win: Rect, owns: seq<seq<Rect>>, older: seq<seq<Rect>>, px: int, py: int)
    requires 0 < |owns| == |older| + 1
    requires forall j :: 0 <= j < |older| ==>
             (Covers(older[j], px, py) <==> win.Has(px, py) && Covers(owns[j + 1], px, py))
    ensures (win.Has(px, py) &&
             (Covers(owns[0], px, py) || exists i :: 0 <= i < |older| && Covers(older[i], px, py))) <==>
            (win.Has(px, py) && exists i :: 0 <= i < |owns| && Covers(owns[i], px, py))
  {
    if i :| 0 <= i < |owns| && Covers(owns[i], px, py) {
      if i > 0 && win.Has(px, py) {
        assert Covers(older[i - 1], px, py);
      }
    }
    if i :| 0 <= i < |older| && Covers(older[i], px, py) {
      assert Covers(owns[i + 1], px, py);
    }
  }
}
