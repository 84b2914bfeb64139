/** The keyboard as this side believes the session holds it (`key_input`, `release_all_keys`,
    `send_secure_attention` in crates/client/src/app.rs), for one connection: `pressed` records
    what was sent, `swallowed` the keys whose release this side keeps. */
module KeyMirror {
  import opened Options

  type Physical = nat
  type Keysym = nat

  const CONTROL_L: Keysym := 0xffe3
  const CONTROL_R: Keysym := 0xffe4
  const ALT_L: Keysym := 0xffe9
  const ALT_R: Keysym := 0xffea
  const DELETE: Keysym := 0xffff

  datatype Press = Press(key: Physical, sym: Keysym)

  /** A key message to the session. */
  datatype Event = Event(sym: Keysym, down: bool)

  /** A key as the window system reports it: `accelerator` when the window keeps the
      combination, `sym` when the spelling is one the session knows. */
  datatype Input = Input(key: Physical, down: bool, again: bool, accelerator: bool, sym: Option<Keysym>)

  datatype Mirror = Mirror(pressed: seq<Press>, swallowed: seq<Physical>, sent: seq<Event>)

  // --- the session's side -----------------------------------------------------------------

  /** What the session believes is held, from the messages it was sent. */
  function Held(sent: seq<Event>): set<Keysym> {
    if sent == [] then {}
    else
      var before, e := Held(sent[..|sent| - 1]), sent[|sent| - 1];
      if e.down then before + {e.sym} else before - {e.sym}
  }

  lemma HeldNext(sent: seq<Event>, e: Event)
    ensures Held(sent + [e]) == if e.down then Held(sent) + {e.sym} else Held(sent) - {e.sym}
  {
  }

  // --- what each operation does -------------------------------------------------------------

  /** Where a key is recorded. */
  function Find(pressed: seq<Press>, key: Physical): (at: Option<nat>)
    ensures at.Some? ==> at.value < |pressed| && pressed[at.value].key == key
    ensures at.None? ==> forall p :: p in pressed ==> p.key != key
  {
    if pressed == [] then None
    else if pressed[0].key == key then Some(0)
    else match Find(pressed[1..], key)
      case None => None
      case Some(i) => Some(i + 1)
  }

  function IndexOf(keys: seq<Physical>, key: Physical): (at: Option<nat>)
    ensures at.Some? ==> at.value < |keys| && keys[at.value] == key
    ensures at.None? <==> key !in keys
  {
    if keys == [] then None
    else if keys[0] == key then Some(0)
    else match IndexOf(keys[1..], key)
      case None => None
      case Some(i) => Some(i + 1)
  }

  /** The last element takes the removed one's place. */
  function SwapRemove<T>(s: seq<T>, i: nat): (left: seq<T>)
    requires i < |s|
    ensures |left| == |s| - 1
  {
    if i == |s| - 1 then s[..i] else s[..|s| - 1][i := s[|s| - 1]]
  }

  function Retain(pressed: seq<Press>, sym: Keysym): (left: seq<Press>)
    ensures forall p :: p in left <==> p in pressed && p.sym != sym
  {
    if pressed == [] then []
    else (if pressed[0].sym != sym then [pressed[0]] else []) + Retain(pressed[1..], sym)
  }

  function Sent(m: Mirror, sym: Keysym, down: bool): Mirror { m.(sent := m.sent + [Event(sym, down)]) }

  function Pressed(m: Mirror, key: Physical, sym: Keysym): Mirror {
    var recorded :=
      match Find(m.pressed, key)
      case Some(i) =>
        var was := m.pressed[i].sym;
        if was != sym then Sent(m, was, false).(pressed := m.pressed[i := Press(key, sym)]) else m
      case None => m.(pressed := m.pressed + [Press(key, sym)]);
    Sent(recorded, sym, true)
  }

  function Released(m: Mirror, key: Physical, sym: Option<Keysym>): Mirror {
    match Find(m.pressed, key)
    case Some(i) => Sent(m.(pressed := SwapRemove(m.pressed, i)), m.pressed[i].sym, false)
    case None =>
      match sym
      case None => m
      case Some(s) => Sent(m.(pressed := Retain(m.pressed, s)), s, false)
  }

  function KeyInput(m: Mirror, up: bool, k: Input): Mirror {
    if k.down && k.accelerator then
      if k.again || k.key in m.swallowed then m else m.(swallowed := m.swallowed + [k.key])
    else if !k.down && k.key in m.swallowed then
      m.(swallowed := SwapRemove(m.swallowed, IndexOf(m.swallowed, k.key).value))
    else if !up then m
    else if k.down then (if k.sym.Some? then Pressed(m, k.key, k.sym.value) else m)
    else Released(m, k.key, k.sym)
  }

  /** A release for each, in order. */
  function Releases(pressed: seq<Press>): seq<Event> {
    if pressed == [] then [] else [Event(pressed[0].sym, false)] + Releases(pressed[1..])
  }

  function AllReleased(m: Mirror, up: bool): Mirror {
    Mirror([], [], if up then m.sent + Releases(m.pressed) else m.sent)
  }

  predicate HoldsEither(pressed: seq<Press>, a: Keysym, b: Keysym) {
    exists p :: p in pressed && (p.sym == a || p.sym == b)
  }

  /** The modifiers that have to be pressed for the user, the held ones not among them. */
  function Synthesised(pressed: seq<Press>, controlLeft: Physical, altLeft: Physical): seq<Press> {
    (if HoldsEither(pressed, CONTROL_L, CONTROL_R) then [] else [Press(controlLeft, CONTROL_L)]) +
    (if HoldsEither(pressed, ALT_L, ALT_R) then [] else [Press(altLeft, ALT_L)])
  }

  function Presses(synth: seq<Press>): seq<Event> {
    if synth == [] then [] else Presses(synth[..|synth| - 1]) + [Event(synth[|synth| - 1].sym, true)]
  }

  /** The releases, last pressed first. */
  function Unwound(synth: seq<Press>): seq<Event> {
    if synth == [] then [] else [Event(synth[|synth| - 1].sym, false)] + Unwound(synth[..|synth| - 1])
  }

  /** Ctrl+Alt+Delete around whatever of it is already held. */
  function Attention(pressed: seq<Press>, controlLeft: Physical, altLeft: Physical): seq<Event> {
    var synth := Synthesised(pressed, controlLeft, altLeft);
    Presses(synth) + [Event(DELETE, true), Event(DELETE, false)] + Unwound(synth)
  }

  // --- the object -----------------------------------------------------------------------------

  class Keyboard {
    var up: bool
    var pressed: seq<Press>
    var swallowed: seq<Physical>
    var sent: seq<Event>

    ghost function State(): Mirror
      reads this
    {
      Mirror(pressed, swallowed, sent)
    }

    constructor ()
      ensures up && State() == Mirror([], [], [])
    {
      up, pressed, swallowed, sent := true, [], [], [];
    }

    /** With the link down the message goes nowhere. */
    method SendKey(sym: Keysym, down: bool)
      modifies this`sent
      ensures sent == if up then old(sent) + [Event(sym, down)] else old(sent)
    {
      if up {
        sent := sent + [Event(sym, down)];
      }
    }

    method OnKey(k: Input) returns (accelerator: bool)
      modifies this`pressed, this`swallowed, this`sent
      ensures State() == KeyInput(old(State()), up, k)
      ensures accelerator <==> k.down && k.accelerator && !k.again
    {
      accelerator := false;
      if k.down {
        if k.accelerator {
          if k.again {
            return;
          }
          if k.key !in swallowed {
            swallowed := swallowed + [k.key];
          }
          return true;
        }
      } else {
        var i := IndexOf(swallowed, k.key);
        if i.Some? {
          swallowed := SwapRemove(swallowed, i.value);
          return;
        }
      }
      if !up {
        return;
      }
      if k.down {
        if k.sym.None? {
          return;
        }
        Down(k.key, k.sym.value);
      } else {
        Up(k.key, k.sym);
      }
    }

    method Down(key: Physical, sym: Keysym)
      requires up
      modifies this`pressed, this`sent
      ensures State() == Pressed(old(State()), key, sym)
    {
      match Find(pressed, key) {
        case Some(i) =>
          var was := pressed[i].sym;
          if was != sym {
            SendKey(was, false);
            pressed := pressed[i := Press(key, sym)];
          }
        case None =>
          pressed := pressed + [Press(key, sym)];
      }
      SendKey(sym, true);
    }

    method Up(key: Physical, sym: Option<Keysym>)
      requires up
      modifies this`pressed, this`sent
      ensures State() == Released(old(State()), key, sym)
    {
      match Find(pressed, key) {
        case Some(i) =>
          var out := pressed[i].sym;
          pressed := SwapRemove(pressed, i);
          SendKey(out, false);
        case None =>
          if sym.None? {
            return;
          }
          pressed := Retain(pressed, sym.value);
          SendKey(sym.value, false);
      }
    }

    method ReleaseAllKeys()
      modifies this`pressed, this`swallowed, this`sent
      ensures State() == AllReleased(old(State()), up)
    {
      var all := pressed;
      pressed := [];
      for i := 0 to |all|
        invariant pressed == [] && swallowed == old(swallowed)
        invariant up ==> sent + Releases(all[i..]) == old(sent) + Releases(all)
        invariant !up ==> sent == old(sent)
      {
        assert all[i..][1..] == all[i + 1..];
        SendKey(all[i].sym, false);
      }
      swallowed := [];
    }

    /** Whatever is pressed for the user is recorded for as long as it is down. */
    method PressAll(synth: seq<Press>)
      requires up
      modifies this`pressed, this`sent
      ensures pressed == old(pressed) + synth && sent == old(sent) + Presses(synth)
    {
      for i := 0 to |synth|
        invariant pressed == old(pressed) + synth[..i]
        invariant sent == old(sent) + Presses(synth[..i])
      {
        assert synth[..i + 1][..i] == synth[..i];
        pressed := pressed + [synth[i]];
        SendKey(synth[i].sym, true);
      }
      assert synth[..|synth|] == synth;
    }

    /** Last pressed, first released, each taken off the record by its keysym. */
    method UnwindAll(synth: seq<Press>, ghost kept: seq<Press>)
      requires up && pressed == kept + synth
      requires forall p, j :: p in kept && 0 <= j < |synth| ==> p.sym != synth[j].sym
      requires forall i, j :: 0 <= i < j < |synth| ==> synth[i].sym != synth[j].sym
      modifies this`pressed, this`sent
      ensures pressed == kept && sent == old(sent) + Unwound(synth)
    {
      var j := |synth|;
      assert synth[..j] == synth;
      while j > 0
        invariant 0 <= j <= |synth|
        invariant pressed == kept + synth[..j]
        invariant sent + Unwound(synth[..j]) == old(sent) + Unwound(synth)
      {
        j := j - 1;
        UnwindsOne(kept, synth, j);
        Regrouped(sent, Event(synth[j].sym, false), Unwound(synth[..j]));
        pressed := Retain(pressed, synth[j].sym);
        SendKey(synth[j].sym, false);
      }
    }

    method SendSecureAttention(controlLeft: Physical, altLeft: Physical)
      modifies this`pressed, this`sent
      ensures pressed == old(pressed)
      ensures sent == if up then old(sent) + Attention(old(pressed), controlLeft, altLeft) else old(sent)
    {
      if !up {
        return;
      }
      var synth := Synthesised(pressed, controlLeft, altLeft);
      SynthesisedApart(pressed, controlLeft, altLeft);
      PressAll(synth);
      SendKey(DELETE, true);
      SendKey(DELETE, false);
      UnwindAll(synth, old(pressed));
      Around(old(sent), Presses(synth), Event(DELETE, true), Event(DELETE, false), Unwound(synth));
    }
  }

  /** What is synthesised is spelled unlike anything recorded, and unlike each other. */
  lemma SynthesisedApart(pressed: seq<Press>, controlLeft: Physical, altLeft: Physical)
    ensures var synth := Synthesised(pressed, controlLeft, altLeft);
            && (forall p, j :: p in pressed && 0 <= j < |synth| ==> p.sym != synth[j].sym)
            && (forall i, j :: 0 <= i < j < |synth| ==> synth[i].sym != synth[j].sym)
  {
  }

  lemma {:induction false} RetainTakesLast(pressed: seq<Press>, last: Press)
    requires forall p :: p in pressed ==> p.sym != last.sym
    ensures Retain(pressed + [last], last.sym) == pressed
  {
    if pressed == [] {
      assert Retain([last], last.sym) == Retain([last][1..], last.sym);
    } else {
      RetainTakesLast(pressed[1..], last);
      assert (pressed + [last])[1..] == pressed[1..] + [last];
    }
  }

  lemma Regrouped(sent: seq<Event>, e: Event, rest: seq<Event>)
    ensures sent + ([e] + rest) == (sent + [e]) + rest
  {
  }

  lemma UnwindsOne(kept: seq<Press>, synth: seq<Press>, j: nat)
    requires j < |synth|
    requires forall p, k :: p in kept && 0 <= k < |synth| ==> p.sym != synth[k].sym
    requires forall i, k :: 0 <= i < k < |synth| ==> synth[i].sym != synth[k].sym
    ensures Retain(kept + synth[..j + 1], synth[j].sym) == kept + synth[..j]
    ensures Unwound(synth[..j + 1]) == [Event(synth[j].sym, false)] + Unwound(synth[..j])
  {
    assert synth[..j + 1][..j] == synth[..j];
    assert kept + synth[..j + 1] == (kept + synth[..j]) + [synth[j]];
    RetainTakesLast(kept + synth[..j], synth[j]);
  }

  // --- what they keep, while the link is up -----------------------------------------------

  function Keysyms(pressed: seq<Press>): set<Keysym> { set p | p in pressed :: p.sym }

  ghost predicate DistinctKeys(pressed: seq<Press>) {
    forall i, j :: 0 <= i < j < |pressed| ==> pressed[i].key != pressed[j].key
  }

  ghost predicate Distinct(keys: seq<Physical>) {
    forall i, j :: 0 <= i < j < |keys| ==> keys[i] != keys[j]
  }

  /** Nothing is held that is not recorded, and nothing is recorded twice. */
  ghost predicate Inv(m: Mirror) {
    Held(m.sent) <= Keysyms(m.pressed) && DistinctKeys(m.pressed) && Distinct(m.swallowed)
  }

  lemma SwapRemoveIs<T>(s: seq<T>, i: nat)
    requires i < |s|
    ensures forall x :: x in SwapRemove(s, i) ==> x in s
    ensures forall x :: x in s && x != s[i] ==> x in SwapRemove(s, i)
    ensures forall k :: 0 <= k < |s| - 1 ==> SwapRemove(s, i)[k] == if k == i then s[|s| - 1] else s[k]
  {
  }

  lemma PressedKeeps(m: Mirror, key: Physical, sym: Keysym)
    requires Inv(m)
    ensures Inv(Pressed(m, key, sym))
  {
    match Find(m.pressed, key)
    case None => NewPressKeeps(m, Press(key, sym));
    case Some(i) =>
      if m.pressed[i].sym != sym {
        RespelledPressKeeps(m, i, sym);
      } else {
        RepeatedPressKeeps(m, i);
      }
  }

  lemma NewPressKeeps(m: Mirror, p: Press)
    requires Inv(m) && forall q :: q in m.pressed ==> q.key != p.key
    ensures Inv(Mirror(m.pressed + [p], m.swallowed, m.sent + [Event(p.sym, true)]))
  {
    HeldNext(m.sent, Event(p.sym, true));
    AddedKeysym(m.pressed, p);
  }

  lemma RepeatedPressKeeps(m: Mirror, i: nat)
    requires Inv(m) && i < |m.pressed|
    ensures Inv(Mirror(m.pressed, m.swallowed, m.sent + [Event(m.pressed[i].sym, true)]))
  {
    HeldNext(m.sent, Event(m.pressed[i].sym, true));
    assert m.pressed[i] in m.pressed;
  }

  lemma RespelledPressKeeps(m: Mirror, i: nat, sym: Keysym)
    requires Inv(m) && i < |m.pressed|
    ensures var p := m.pressed[i];
            var sent := m.sent + [Event(p.sym, false)] + [Event(sym, true)];
            Inv(Mirror(m.pressed[i := Press(p.key, sym)], m.swallowed, sent))
  {
    var p := m.pressed[i];
    HeldNext(m.sent, Event(p.sym, false));
    HeldNext(m.sent + [Event(p.sym, false)], Event(sym, true));
    Respelled(m.pressed, i, Press(p.key, sym));
  }

  lemma AddedKeysym(pressed: seq<Press>, p: Press)
    ensures Keysyms(pressed + [p]) == Keysyms(pressed) + {p.sym}
  {
  }

  lemma Respelled(pressed: seq<Press>, i: nat, p: Press)
    requires i < |pressed|
    ensures Keysyms(pressed) - {pressed[i].sym} + {p.sym} <= Keysyms(pressed[i := p])
  {
    forall s | s in Keysyms(pressed) - {pressed[i].sym} ensures s in Keysyms(pressed[i := p]) {
      var q :| q in pressed && q.sym == s;
      var k :| 0 <= k < |pressed| && pressed[k] == q;
      assert pressed[i := p][k] == q;
    }
    assert pressed[i := p][i] == p;
  }

  lemma ReleasedKeeps(m: Mirror, key: Physical, sym: Option<Keysym>)
    requires Inv(m)
    ensures Inv(Released(m, key, sym))
  {
    match Find(m.pressed, key)
    case Some(i) =>
      HeldNext(m.sent, Event(m.pressed[i].sym, false));
      SwapRemoveIs(m.pressed, i);
      LessOneKeysym(m.pressed, SwapRemove(m.pressed, i), m.pressed[i].sym);
    case None =>
      if sym.Some? {
        HeldNext(m.sent, Event(sym.value, false));
        LessOneKeysym(m.pressed, Retain(m.pressed, sym.value), sym.value);
        RetainKeepsDistinct(m.pressed, sym.value);
      }
  }

  lemma LessOneKeysym(pressed: seq<Press>, left: seq<Press>, sym: Keysym)
    requires forall p :: p in pressed && p.sym != sym ==> p in left
    ensures Keysyms(pressed) - {sym} <= Keysyms(left)
  {
  }

  lemma {:induction false} RetainKeepsDistinct(pressed: seq<Press>, sym: Keysym)
    requires DistinctKeys(pressed)
    ensures DistinctKeys(Retain(pressed, sym))
  {
    if pressed != [] {
      RetainKeepsDistinct(pressed[1..], sym);
      assert forall p :: p in Retain(pressed[1..], sym) ==> p in pressed[1..];
      assert forall p :: p in pressed[1..] ==> p.key != pressed[0].key;
    }
  }

  function Syms(events: seq<Event>): set<Keysym> { set e | e in events :: e.sym }

  lemma SymsNext(events: seq<Event>, e: Event)
    ensures Syms(events + [e]) == Syms(events) + {e.sym}
  {
  }

  /** Releases, whatever they are of, let go of just that. */
  lemma {:induction false} UpsLetGo(sent: seq<Event>, ups: seq<Event>)
    requires forall e :: e in ups ==> !e.down
    ensures Held(sent + ups) == Held(sent) - Syms(ups)
  {
    if ups == [] {
      assert sent + ups == sent;
    } else {
      var most, last := ups[..|ups| - 1], ups[|ups| - 1];
      assert last in ups && ups == most + [last] && sent + ups == (sent + most) + [last];
      UpsLetGo(sent, most);
      HeldNext(sent + most, last);
      SymsNext(most, last);
    }
  }

  lemma {:induction false} ReleasesAreUps(pressed: seq<Press>)
    ensures (forall e :: e in Releases(pressed) ==> !e.down) && Syms(Releases(pressed)) == Keysyms(pressed)
  {
    if pressed != [] {
      ReleasesAreUps(pressed[1..]);
      assert pressed == [pressed[0]] + pressed[1..];
      assert Syms(Releases(pressed)) == {pressed[0].sym} + Syms(Releases(pressed[1..]));
      assert Keysyms(pressed) == {pressed[0].sym} + Keysyms(pressed[1..]);
    }
  }

  /** RELEASING ALL LEAVES NOTHING HELD, on a connection whose mirror is kept. */
  lemma AllReleasedHoldsNothing(m: Mirror)
    requires Inv(m)
    ensures Held(AllReleased(m, true).sent) == {} && Inv(AllReleased(m, true))
  {
    ReleasesAreUps(m.pressed);
    UpsLetGo(m.sent, Releases(m.pressed));
  }

  lemma {:induction false} PressesHold(sent: seq<Event>, synth: seq<Press>)
    ensures Held(sent + Presses(synth)) == Held(sent) + Keysyms(synth)
  {
    if synth == [] {
      assert sent + Presses(synth) == sent;
    } else {
      var n := |synth| - 1;
      PressesHold(sent, synth[..n]);
      HeldNext(sent + Presses(synth[..n]), Event(synth[n].sym, true));
      assert sent + Presses(synth) == sent + Presses(synth[..n]) + [Event(synth[n].sym, true)];
      AddedKeysym(synth[..n], synth[n]);
      assert synth == synth[..n] + [synth[n]];
    }
  }

  lemma {:induction false} UnwoundAreUps(synth: seq<Press>)
    ensures (forall e :: e in Unwound(synth) ==> !e.down) && Syms(Unwound(synth)) == Keysyms(synth)
  {
    if synth != [] {
      var most, last := synth[..|synth| - 1], synth[|synth| - 1];
      UnwoundAreUps(most);
      AddedKeysym(most, last);
      assert synth == most + [last];
      assert Syms(Unwound(synth)) == {last.sym} + Syms(Unwound(most));
    }
  }

  /** SECURE ATTENTION leaves the session holding what it held, Delete let go: the modifiers
      pressed for the user come up again, the ones the user holds stay down. */
  lemma AttentionRestores(m: Mirror, controlLeft: Physical, altLeft: Physical)
    requires Inv(m)
    ensures Held(m.sent + Attention(m.pressed, controlLeft, altLeft)) == Held(m.sent) - {DELETE}
  {
    var synth := Synthesised(m.pressed, controlLeft, altLeft);
    var d, d' := Event(DELETE, true), Event(DELETE, false);
    var s1 := m.sent + Presses(synth);
    PressesHold(m.sent, synth);
    HeldNext(s1, d);
    HeldNext(s1 + [d], d');
    UnwoundAreUps(synth);
    UpsLetGo(s1 + [d] + [d'], Unwound(synth));
    Around(m.sent, Presses(synth), d, d', Unwound(synth));
    SynthesisedApart(m.pressed, controlLeft, altLeft);
    DownAndUp(Held(m.sent), Keysyms(synth));
  }

  lemma Around(sent: seq<Event>, p: seq<Event>, d: Event, d': Event, u: seq<Event>)
    ensures sent + (p + [d, d'] + u) == sent + p + [d] + [d'] + u
  {
  }

  lemma DownAndUp(held: set<Keysym>, synth: set<Keysym>)
    requires held !! synth
    ensures ((held + synth + {DELETE}) - {DELETE}) - synth == held - {DELETE}
  {
  }

  /** A modifier that is not recorded is pressed, one that is recorded is trusted to be held:
      Delete goes down with a Control held exactly when none is recorded or one is held, and
      with an Alt likewise. */
  lemma DeleteUnderBothModifiersExactly(m: Mirror, controlLeft: Physical, altLeft: Physical)
    returns (before: seq<Event>)
    ensures before + [Event(DELETE, true)] <= Attention(m.pressed, controlLeft, altLeft)
    ensures var held := Held(m.sent + before);
            && (CONTROL_L in held || CONTROL_R in held <==>
                !HoldsEither(m.pressed, CONTROL_L, CONTROL_R) || CONTROL_L in Held(m.sent) || CONTROL_R in Held(m.sent))
            && (ALT_L in held || ALT_R in held <==>
                !HoldsEither(m.pressed, ALT_L, ALT_R) || ALT_L in Held(m.sent) || ALT_R in Held(m.sent))
  {
    var synth := Synthesised(m.pressed, controlLeft, altLeft);
    before := Presses(synth);
    PressesHold(m.sent, synth);
    SynthesisedSyms(m.pressed, controlLeft, altLeft);
  }

  lemma SynthesisedSyms(pressed: seq<Press>, controlLeft: Physical, altLeft: Physical)
    ensures var syms := Keysyms(Synthesised(pressed, controlLeft, altLeft));
            && (CONTROL_L in syms <==> !HoldsEither(pressed, CONTROL_L, CONTROL_R)) && CONTROL_R !in syms
            && (ALT_L in syms <==> !HoldsEither(pressed, ALT_L, ALT_R)) && ALT_R !in syms
  {
    var synth := Synthesised(pressed, controlLeft, altLeft);
    assert !HoldsEither(pressed, CONTROL_L, CONTROL_R) ==>
             synth[0] == Press(controlLeft, CONTROL_L) && synth[0] in synth;
    assert !HoldsEither(pressed, ALT_L, ALT_R) ==>
             synth[|synth| - 1] == Press(altLeft, ALT_L) && synth[|synth| - 1] in synth;
  }

  // --- runs -----------------------------------------------------------------------------------

  datatype Step = Key(k: Input) | ReleaseAll | SecureAttention(controlLeft: Physical, altLeft: Physical)

  function After(step: Step, m: Mirror): Mirror {
    match step
    case Key(k) => KeyInput(m, true, k)
    case ReleaseAll => AllReleased(m, true)
    case SecureAttention(c, a) => m.(sent := m.sent + Attention(m.pressed, c, a))
  }

  function AfterAll(steps: seq<Step>): Mirror {
    if steps == [] then Mirror([], [], []) else After(steps[|steps| - 1], AfterAll(steps[..|steps| - 1]))
  }

  lemma KeyKeeps(m: Mirror, k: Input)
    requires Inv(m)
    ensures Inv(KeyInput(m, true, k))
  {
    if k.down && k.accelerator {
    } else if !k.down && k.key in m.swallowed {
      SwapRemoveIs(m.swallowed, IndexOf(m.swallowed, k.key).value);
    } else if k.down && k.sym.Some? {
      PressedKeeps(m, k.key, k.sym.value);
    } else if !k.down {
      ReleasedKeeps(m, k.key, k.sym);
    }
  }

  /** THE MIRROR: over any sequence of events on one connected link, nothing is held that is
      not recorded, no key is recorded twice, and no swallowed key is listed twice. */
  lemma {:induction false} MirrorIsKept(steps: seq<Step>)
    ensures Held(AfterAll(steps).sent) <= Keysyms(AfterAll(steps).pressed)
    ensures DistinctKeys(AfterAll(steps).pressed) && Distinct(AfterAll(steps).swallowed)
  {
    if steps != [] {
      MirrorIsKept(steps[..|steps| - 1]);
      var m := AfterAll(steps[..|steps| - 1]);
      match steps[|steps| - 1]
      case Key(k) => KeyKeeps(m, k);
      case ReleaseAll => AllReleasedHoldsNothing(m);
      case SecureAttention(c, a) => AttentionRestores(m, c, a);
    }
  }

  /** A forwarded press is held and recorded as spelled, and a spelling it replaces is let go. */
  lemma PressGoesThrough(m: Mirror, k: Input)
    requires DistinctKeys(m.pressed) && k.down && !k.accelerator && k.sym.Some?
    ensures var m' := KeyInput(m, true, k);
            && k.sym.value in Held(m'.sent) && Press(k.key, k.sym.value) in m'.pressed
            && (forall p :: p in m.pressed && p.key == k.key && p.sym != k.sym.value ==> p.sym !in Held(m'.sent))
  {
    var m', down := KeyInput(m, true, k), Event(k.sym.value, true);
    match Find(m.pressed, k.key)
    case None =>
      HeldNext(m.sent, down);
      assert m'.pressed[|m.pressed|] == Press(k.key, k.sym.value);
    case Some(i) =>
      var up := Event(m.pressed[i].sym, false);
      if m.pressed[i].sym != k.sym.value {
        HeldNext(m.sent, up);
        HeldNext(m.sent + [up], down);
      } else {
        HeldNext(m.sent, down);
      }
      assert m'.pressed[i] == Press(k.key, k.sym.value);
  }

  /** A recorded key's release goes out as its press did, however the release is spelled. */
  lemma ReleaseAsPressed(m: Mirror, k: Input, i: nat)
    requires DistinctKeys(m.pressed) && !k.down && k.key !in m.swallowed
    requires i < |m.pressed| && m.pressed[i].key == k.key
    ensures KeyInput(m, true, k).sent == m.sent + [Event(m.pressed[i].sym, false)]
    ensures m.pressed[i].sym !in Held(KeyInput(m, true, k).sent)
  {
  }

  /** An unrecorded key's release goes out as it is spelled, takes that spelling off the record
      whichever key it was recorded for, and the session lets go of it. */
  lemma UnrecordedReleaseAsSpelled(m: Mirror, k: Input)
    requires !k.down && k.key !in m.swallowed && k.sym.Some? && forall p :: p in m.pressed ==> p.key != k.key
    ensures var m' := KeyInput(m, true, k);
            && m'.sent == m.sent + [Event(k.sym.value, false)]
            && Held(m'.sent) == Held(m.sent) - {k.sym.value}
            && (forall p :: p in m'.pressed <==> p in m.pressed && p.sym != k.sym.value)
            && m'.swallowed == m.swallowed
  {
    HeldNext(m.sent, Event(k.sym.value, false));
    assert forall i :: 0 <= i < |m.pressed| ==> m.pressed[i] in m.pressed;
  }

  /** A KEY IS FORWARDED exactly when the link is up, the window neither keeps the press nor owes
      it a swallowed release, and it has a spelling the session knows, or is let go of under the
      spelling its press had. */
  lemma ForwardedExactly(m: Mirror, up: bool, k: Input)
    ensures KeyInput(m, up, k).sent != m.sent <==>
            && up
            && !(k.down && k.accelerator)
            && !(!k.down && k.key in m.swallowed)
            && (k.sym.Some? || (!k.down && Find(m.pressed, k.key).Some?))
    ensures KeyInput(m, up, k).sent == m.sent ==> KeyInput(m, up, k).pressed == m.pressed
    ensures k.down && k.accelerator && !k.again ==> k.key in KeyInput(m, up, k).swallowed
  {
  }

  /** However long an accelerator repeats, its key swallows one release, and only one. */
  lemma OneReleaseSwallowed(m: Mirror, up: bool, k: Input)
    requires Distinct(m.swallowed) && k.key in m.swallowed
    ensures k.down && k.accelerator ==> KeyInput(m, up, k) == m
    ensures !k.down ==>
              var m' := KeyInput(m, up, k);
              m'.sent == m.sent && m'.pressed == m.pressed && k.key !in m'.swallowed
  {
  }

  // --- when the record is exact ---------------------------------------------------------------

  predicate DistinctSpellings(pressed: seq<Press>) {
    forall i, j :: 0 <= i < j < |pressed| ==> pressed[i].sym != pressed[j].sym
  }

  /** No two keys are recorded as the same keysym when a key moves, and Delete is not recorded
      at secure attention. */
  predicate Unambiguous(step: Step, m: Mirror) {
    && (step.Key? ==> DistinctSpellings(m.pressed))
    && (step.SecureAttention? ==> DELETE !in Keysyms(m.pressed))
  }

  ghost predicate Exact(m: Mirror) { Held(m.sent) == Keysyms(m.pressed) }

  lemma SpelledOnce(pressed: seq<Press>, i: nat)
    requires DistinctSpellings(pressed) && i < |pressed|
    ensures forall p :: p in SwapRemove(pressed, i) ==> p.sym != pressed[i].sym
    ensures Keysyms(SwapRemove(pressed, i)) == Keysyms(pressed) - {pressed[i].sym}
  {
    var left := SwapRemove(pressed, i);
    SwapRemoveIs(pressed, i);
    forall p | p in left ensures p.sym != pressed[i].sym {
      var k :| 0 <= k < |left| && left[k] == p;
    }
    assert pressed[i] in pressed;
    assert forall p :: p in pressed && p.sym != pressed[i].sym ==> p in left;
  }

  lemma RespelledOnce(pressed: seq<Press>, i: nat, p: Press)
    requires DistinctSpellings(pressed) && i < |pressed|
    ensures Keysyms(pressed[i := p]) == Keysyms(pressed) - {pressed[i].sym} + {p.sym}
  {
    Respelled(pressed, i, p);
    forall s | s in Keysyms(pressed[i := p]) ensures s in Keysyms(pressed) - {pressed[i].sym} + {p.sym} {
      var q :| q in pressed[i := p] && q.sym == s;
      var k :| 0 <= k < |pressed| && pressed[i := p][k] == q;
      assert k != i ==> pressed[k] in pressed;
    }
  }

  lemma PressedStaysExact(m: Mirror, key: Physical, sym: Keysym)
    requires Exact(m) && DistinctSpellings(m.pressed)
    ensures Exact(Pressed(m, key, sym))
  {
    match Find(m.pressed, key)
    case None =>
      HeldNext(m.sent, Event(sym, true));
      AddedKeysym(m.pressed, Press(key, sym));
    case Some(i) =>
      var was := m.pressed[i].sym;
      assert m.pressed[i] in m.pressed;
      if was != sym {
        HeldNext(m.sent, Event(was, false));
        HeldNext(m.sent + [Event(was, false)], Event(sym, true));
        RespelledOnce(m.pressed, i, Press(key, sym));
      } else {
        HeldNext(m.sent, Event(sym, true));
      }
  }

  lemma ReleasedStaysExact(m: Mirror, key: Physical, sym: Option<Keysym>)
    requires Exact(m) && DistinctSpellings(m.pressed)
    ensures Exact(Released(m, key, sym))
  {
    match Find(m.pressed, key)
    case Some(i) =>
      HeldNext(m.sent, Event(m.pressed[i].sym, false));
      SpelledOnce(m.pressed, i);
    case None =>
      if sym.Some? {
        HeldNext(m.sent, Event(sym.value, false));
        assert Keysyms(Retain(m.pressed, sym.value)) == Keysyms(m.pressed) - {sym.value};
      }
  }

  lemma StepStaysExact(step: Step, m: Mirror)
    requires Inv(m) && Exact(m) && Unambiguous(step, m)
    ensures Exact(After(step, m))
  {
    match step
    case Key(k) =>
      if k.down && !k.accelerator && k.sym.Some? {
        PressedStaysExact(m, k.key, k.sym.value);
      } else if !k.down && k.key !in m.swallowed {
        ReleasedStaysExact(m, k.key, k.sym);
      }
    case ReleaseAll => AllReleasedHoldsNothing(m);
    case SecureAttention(c, a) => AttentionRestores(m, c, a);
  }

  ghost predicate AlwaysUnambiguous(steps: seq<Step>) {
    forall n :: 0 <= n < |steps| ==> Unambiguous(steps[n], AfterAll(steps[..n]))
  }

  /** THE RECORD IS EXACT, what is recorded being what is held, over every run on one link in
      which no two keys are recorded alike when one moves and Delete is not recorded at secure
      attention. */
  lemma {:induction false} RecordIsExact(steps: seq<Step>)
    requires AlwaysUnambiguous(steps)
    ensures Exact(AfterAll(steps))
  {
    if steps != [] {
      var n := |steps| - 1;
      assert forall k :: 0 <= k < n ==> steps[..n][..k] == steps[..k];
      RecordIsExact(steps[..n]);
      MirrorIsKept(steps[..n]);
      StepStaysExact(steps[n], AfterAll(steps[..n]));
    }
  }

  /** So over those runs Delete goes down with a Control and an Alt held. */
  lemma DeleteUnderBothModifiers(steps: seq<Step>, controlLeft: Physical, altLeft: Physical)
    returns (before: seq<Event>)
    requires AlwaysUnambiguous(steps)
    ensures AfterAll(steps).sent + before + [Event(DELETE, true)] <=
            AfterAll(steps + [SecureAttention(controlLeft, altLeft)]).sent
    ensures var held := Held(AfterAll(steps).sent + before);
            (CONTROL_L in held || CONTROL_R in held) && (ALT_L in held || ALT_R in held)
  {
    var m := AfterAll(steps);
    RecordIsExact(steps);
    before := DeleteUnderBothModifiersExactly(m, controlLeft, altLeft);
    AfterNext(steps, SecureAttention(controlLeft, altLeft));
    StillAhead(m.sent, before + [Event(DELETE, true)], Attention(m.pressed, controlLeft, altLeft));
    assert m.sent + before + [Event(DELETE, true)] == m.sent + (before + [Event(DELETE, true)]);
  }

  lemma StillAhead(sent: seq<Event>, some: seq<Event>, all: seq<Event>)
    requires some <= all
    ensures sent + some <= sent + all
  {
  }

  // --- a release that does not let go ---------------------------------------------------------

  predicate Recorded(m: Mirror, key: Physical) { exists p :: p in m.pressed && p.key == key }

  lemma TakenOffTheRecord(pressed: seq<Press>, i: nat)
    requires DistinctKeys(pressed) && i < |pressed|
    ensures forall p :: p in SwapRemove(pressed, i) ==> p.key != pressed[i].key
    ensures forall p :: p in pressed && p.key == pressed[i].key ==> p == pressed[i]
  {
    var left := SwapRemove(pressed, i);
    SwapRemoveIs(pressed, i);
    forall p | p in left ensures p.key != pressed[i].key {
      var k :| 0 <= k < |left| && left[k] == p;
    }
  }

  lemma RecordedUpLetsGo(m: Mirror, k: Input, i: nat)
    requires DistinctKeys(m.pressed) && !k.down && k.key !in m.swallowed && Find(m.pressed, k.key) == Some(i)
    ensures var m' := KeyInput(m, true, k);
            && !Recorded(m', k.key)
            && (forall p :: p in m.pressed && p.key == k.key ==> p.sym !in Held(m'.sent))
  {
    HeldNext(m.sent, Event(m.pressed[i].sym, false));
    TakenOffTheRecord(m.pressed, i);
  }

  /** A key coming up is let go of exactly when it is not both recorded and swallowed: on the
      record, and by the session, which goes on holding its keysym only in that case. */
  lemma UpLetsGoExactly(m: Mirror, k: Input)
    requires DistinctKeys(m.pressed) && !k.down
    ensures var m' := KeyInput(m, true, k);
            && (!Recorded(m', k.key) <==> !(Recorded(m, k.key) && k.key in m.swallowed))
            && (forall p :: p in m.pressed && p.key == k.key ==>
                  (p.sym in Held(m'.sent) <==> k.key in m.swallowed && p.sym in Held(m.sent)))
  {
    var m', at := KeyInput(m, true, k), Find(m.pressed, k.key);
    if k.key in m.swallowed {
      assert m'.pressed == m.pressed && m'.sent == m.sent;
    } else if at.Some? {
      RecordedUpLetsGo(m, k, at.value);
    } else {
      assert forall p :: p in m'.pressed ==> p in m.pressed;
    }
  }

  /** It can be both: Ctrl let go of while an accelerator repeats, the repeat is forwarded, and
      its release is then kept. Every key is up and the session still holds one. */
  lemma RepeatOutlivesItsAccelerator(key: Physical, sym: Keysym)
    ensures var m := AfterAll([Key(Input(key, true, false, true, Some(sym))),
                               Key(Input(key, true, true, false, Some(sym))),
                               Key(Input(key, false, false, false, Some(sym)))]);
            Held(m.sent) == {sym} && m.pressed == [Press(key, sym)]
  {
    var a, b, c := Key(Input(key, true, false, true, Some(sym))),
                   Key(Input(key, true, true, false, Some(sym))),
                   Key(Input(key, false, false, false, Some(sym)));
    var m1 := Mirror([], [key], []);
    var m2 := Mirror([Press(key, sym)], [key], [Event(sym, true)]);
    ThreeSteps(a, b, c);
    assert After(a, AfterAll([])) == m1;
    assert After(b, m1) == m2;
    OneReleaseSwallowed(m2, true, c.k);
    HeldNext([], Event(sym, true));
    assert [] + [Event(sym, true)] == [Event(sym, true)];
  }

  /** So can a modifier be recorded and not held: two keys spelled alike, one let go of. Then
      secure attention presses no Control, and Delete goes down without one. */
  lemma DeleteWithoutControl(a: Physical, b: Physical, altLeft: Physical)
    requires a != b
    ensures var m := AfterAll([Key(Input(a, true, false, false, Some(CONTROL_L))),
                               Key(Input(b, true, false, false, Some(CONTROL_L))),
                               Key(Input(a, false, false, false, Some(CONTROL_L)))]);
            && m.pressed == [Press(b, CONTROL_L)] && Held(m.sent) == {}
            && Attention(m.pressed, a, altLeft) ==
               [Event(ALT_L, true), Event(DELETE, true), Event(DELETE, false), Event(ALT_L, false)]
  {
    var s1, s2, s3 := Key(Input(a, true, false, false, Some(CONTROL_L))),
                      Key(Input(b, true, false, false, Some(CONTROL_L))),
                      Key(Input(a, false, false, false, Some(CONTROL_L)));
    var press, release := Event(CONTROL_L, true), Event(CONTROL_L, false);
    ThreeSteps(s1, s2, s3);
    FirstDown(a);
    SecondDown(a, b);
    FirstUp(a, b);
    HeldNext([press, press], release);
    HeldNext([press], press);
    HeldNext([], press);
    assert [press, press] + [release] == [press, press, release];
    assert [press] + [press] == [press, press] && [] + [press] == [press];
    OnlyAltMissing(b, a, altLeft);
  }

  lemma FirstDown(a: Physical)
    ensures KeyInput(Mirror([], [], []), true, Input(a, true, false, false, Some(CONTROL_L))) ==
            Mirror([Press(a, CONTROL_L)], [], [Event(CONTROL_L, true)])
  {
  }

  lemma SecondDown(a: Physical, b: Physical)
    requires a != b
    ensures KeyInput(Mirror([Press(a, CONTROL_L)], [], [Event(CONTROL_L, true)]), true,
                     Input(b, true, false, false, Some(CONTROL_L))) ==
            Mirror([Press(a, CONTROL_L), Press(b, CONTROL_L)], [], [Event(CONTROL_L, true), Event(CONTROL_L, true)])
  {
  }

  lemma FirstUp(a: Physical, b: Physical)
    requires a != b
    ensures KeyInput(Mirror([Press(a, CONTROL_L), Press(b, CONTROL_L)], [],
            [Event(CONTROL_L, true), Event(CONTROL_L, true)]),
                     true, Input(a, false, false, false, Some(CONTROL_L))) ==
            Mirror([Press(b, CONTROL_L)], [], [Event(CONTROL_L, true), Event(CONTROL_L, true), Event(CONTROL_L, false)])
  {
    var both := [Press(a, CONTROL_L), Press(b, CONTROL_L)];
    assert Find(both, a) == Some(0) && SwapRemove(both, 0) == [Press(b, CONTROL_L)];
  }

  lemma OnlyAltMissing(key: Physical, controlLeft: Physical, altLeft: Physical)
    ensures Attention([Press(key, CONTROL_L)], controlLeft, altLeft) ==
            [Event(ALT_L, true), Event(DELETE, true), Event(DELETE, false), Event(ALT_L, false)]
  {
    var pressed := [Press(key, CONTROL_L)];
    assert pressed[0] in pressed && HoldsEither(pressed, CONTROL_L, CONTROL_R) && !HoldsEither(pressed, ALT_L, ALT_R);
    var synth := [Press(altLeft, ALT_L)];
    assert Synthesised(pressed, controlLeft, altLeft) == synth;
    var down, up := Event(ALT_L, true), Event(ALT_L, false);
    assert synth[..|synth| - 1] == [] && synth[|synth| - 1].sym == ALT_L;
    assert Presses(synth) == Presses([]) + [down] == [down];
    assert Unwound(synth) == [up] + Unwound([]) == [up];
  }

  lemma ThreeSteps(a: Step, b: Step, c: Step)
    ensures AfterAll([a, b, c]) == After(c, After(b, After(a, AfterAll([]))))
  {
    AfterNext([], a);
    AfterNext([a], b);
    AfterNext([a, b], c);
    assert [] + [a] == [a] && [a] + [b] == [a, b] && [a, b] + [c] == [a, b, c];
  }

  lemma AfterNext(steps: seq<Step>, step: Step)
    ensures AfterAll(steps + [step]) == After(step, AfterAll(steps))
  {
  }
}
