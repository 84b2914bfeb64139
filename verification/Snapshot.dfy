/** Watching the file clipboard (crates/client/src/fileclip_x11_read.rs): requests tagged by a
    ring of properties, one snapshot with a revision, and a viewer that reads the revision
    first and the value later (`poll_clipboard_files` in crates/client/src/app.rs). */
module Snapshot {
  import opened Options

  type Path = nat

  const PROPERTY_RING: nat := 8

  datatype Outcome = Listed(files: Option<seq<Path>>) | Wrong(error: string)

  const NO_RESPONSE: string := "Clipboard owner did not respond"

  // --- the snapshot -----------------------------------------------------------------------

  datatype Snap = Snap(revision: nat, available: bool, ready: bool, files: Option<seq<Path>>, error: Option<string>)

  const FIRST := Snap(1, true, false, None, None)

  function Asked(s: Snap): Snap { s.(revision := s.revision + 1, ready := false, error := None) }

  function FilesOf(o: Outcome): Option<seq<Path>> { if o.Listed? then o.files else None }

  function ErrorOf(o: Outcome): Option<string> { if o.Wrong? then Some(o.error) else None }

  /** An answer; a second one that says something else moves the revision. */
  function Answered(s: Snap, o: Outcome): Snap {
    var differs := s.files != FilesOf(o) || s.error != ErrorOf(o);
    Snap(s.revision + if s.ready && differs then 1 else 0, s.available, true, FilesOf(o), ErrorOf(o))
  }

  function Failed(s: Snap, error: string): Snap {
    s.(revision := s.revision + 1, available := false, ready := true, error := Some(error))
  }

  /** What the snapshot says once it is ready. */
  function Current(s: Snap): Outcome { if s.error.Some? then Wrong(s.error.value) else Listed(s.files) }

  /** The revision, from a watcher that still works. */
  function Counter(s: Snap): Option<nat> { if s.available then Some(s.revision) else None }

  /** The value, once there is one; until then reading would block. */
  function Read(s: Snap): Option<Outcome> { if s.ready then Some(Current(s)) else None }

  /** An answer can be read back, and a new one is never mistaken for the one before: the revision
      moves exactly when an earlier answer said something else. */
  lemma AnswerIsRead(s: Snap, o: Outcome)
    ensures Read(Answered(s, o)) == Some(o)
    ensures (s.error.Some? ==> s.files.None?) ==>
              Answered(s, o).revision == s.revision + if s.ready && Current(s) != o then 1 else 0
    ensures s.ready && Answered(s, o).revision == s.revision ==>
              s.files == FilesOf(o) && s.error == ErrorOf(o) && Current(s) == o
  {
  }

  // --- the watcher ------------------------------------------------------------------------

  /** What arrives: an answer in the property of request `k`, or a refusal, which names none. */
  datatype Reply = Named(k: nat, outcome: Outcome) | Refusal

  predicate SameProperty(k: nat, latest: nat) { k % PROPERTY_RING == latest % PROPERTY_RING }

  class Watcher {
    var revision: nat
    var available: bool
    var ready: bool
    var files: Option<seq<Path>>
    var error: Option<string>
    var requests: nat
    var armed: bool       // a deadline is set

    ghost function Now(): Snap
      reads this
    {
      Snap(revision, available, ready, files, error)
    }

    ghost function State(): Watch
      reads this
    {
      Watch(Now(), requests, armed)
    }

    /** The first request goes out at once. */
    constructor ()
      ensures State() == Watch(FIRST, 1, true)
    {
      revision, available, ready, files, error := 1, true, false, None, None;
      requests, armed := 1, true;
    }

    method Requested()
      modifies this`revision, this`ready, this`error
      ensures Now() == Asked(old(Now()))
    {
      revision := revision + 1;
      ready := false;
      error := None;
    }

    method Answer(outcome: Outcome)
      modifies this`revision, this`ready, this`files, this`error
      ensures Now() == Answered(old(Now()), outcome)
    {
      var f, e := FilesOf(outcome), ErrorOf(outcome);
      if ready && (files != f || error != e) {
        revision := revision + 1;
      }
      files := f;
      error := e;
      ready := true;
    }

    method FileCounter() returns (r: Option<nat>)
      ensures r == Counter(Now())
    {
      r := if available then Some(revision) else None;
    }

    method ReadFiles() returns (r: Option<Outcome>)
      ensures r == Read(Now())
    {
      if !ready {
        return None;
      }
      if error.Some? {
        return Some(Wrong(error.value));
      }
      r := Some(Listed(files));
    }

    method OnOwnerChange()
      modifies this
      ensures State() == OwnerChanged(old(State()))
    {
      Requested();
      requests := requests + 1;
      armed := true;
    }

    method OnReply(reply: Reply)
      requires requests > 0 && (reply.Named? ==> reply.k < requests)
      modifies this
      ensures State() == Replied(old(State()), reply)
    {
      match reply {
        case Refusal =>
          if !ready {
            Answer(Listed(None));
            armed := false;
          }
        case Named(k, outcome) =>
          if SameProperty(k, requests - 1) {
            Answer(outcome);
            armed := false;
          }
      }
    }

    method OnDeadline()
      modifies this
      ensures State() == DeadlinePassed(old(State()))
    {
      if armed {
        Answer(Wrong(NO_RESPONSE));
        armed := false;
      }
    }
  }

  datatype Watch = Watch(snap: Snap, requests: nat, armed: bool)

  function OwnerChanged(w: Watch): Watch { Watch(Asked(w.snap), w.requests + 1, true) }

  function Replied(w: Watch, reply: Reply): Watch
    requires w.requests > 0
  {
    match reply
    case Refusal => if w.snap.ready then w else Watch(Answered(w.snap, Listed(None)), w.requests, false)
    case Named(k, outcome) =>
      if SameProperty(k, w.requests - 1) then Watch(Answered(w.snap, outcome), w.requests, false) else w
  }

  function DeadlinePassed(w: Watch): Watch {
    if w.armed then Watch(Answered(w.snap, Wrong(NO_RESPONSE)), w.requests, false) else w
  }

  // --- the ring -----------------------------------------------------------------------------

  /** With fewer than a ringful of later requests, only the latest request's answer is taken. */
  lemma TimelyAnswersAreLatest(w: Watch, k: nat)
    requires k < w.requests && w.requests - 1 - k < PROPERTY_RING
    ensures SameProperty(k, w.requests - 1) <==> k == w.requests - 1
  {
  }

  /** A REFUSAL before an answer says there are no files, a deadline that nobody responded; once
      there is an answer neither says anything. */
  lemma SilenceIsRead(w: Watch)
    requires w.requests > 0
    ensures Read(Replied(w, Refusal).snap) == if w.snap.ready then Read(w.snap) else Some(Listed(None))
    ensures Read(DeadlinePassed(w).snap) == if w.armed then Some(Wrong(NO_RESPONSE)) else Read(w.snap)
    ensures !w.snap.ready ==> Replied(w, Refusal).snap.revision == w.snap.revision
    ensures !w.snap.ready ==> DeadlinePassed(w).snap.revision == w.snap.revision
  {
    AnswerIsRead(w.snap, Listed(None));
    AnswerIsRead(w.snap, Wrong(NO_RESPONSE));
  }

  /** A watcher that fails says why, to a viewer already reading, and offers no revision. */
  lemma FailureIsRead(s: Snap, error: string)
    ensures Read(Failed(s, error)) == Some(Wrong(error)) && Counter(Failed(s, error)) == None
    ensures Failed(s, error).revision > s.revision
  {
  }

  // --- the watcher and the viewer together ----------------------------------------------------

  /** A file list from the session on its way to this clipboard: being prepared, with the
      revision seen when it came, or published and not yet marked as seen. */
  datatype Offer = NoOffer | Preparing(since: Option<nat>) | Published

  /** The viewer's stored revision and what it last consumed; between its two reads, the
      revision it has read; and whether a read wrote the stored revision. */
  datatype Viewer = Viewer(stored: Option<nat>, consumed: Option<Outcome>, reading: Option<nat>,
                           byRead: bool, offer: Offer) {
    /** Between two actions of the viewer's thread. */
    predicate Idle() { reading.None? && !offer.Published? }
  }

  /** Where the snapshot's outcome came from. */
  datatype Origin = Nowhere | AnswerTo(k: nat) | ARefusal | TheDeadline | TheFailure

  datatype State = State(watch: Watch, alive: bool, origin: Origin, viewer: Viewer)

  const FRESH := Viewer(None, None, None, false, NoOffer)

  ghost predicate Init(s: State) { s == State(Watch(FIRST, 1, true), true, Nowhere, FRESH) }

  datatype Step =
    // the watcher's
    | ChangeOwner | Arrive(reply: Reply) | Expire | Fail(error: string)
    // the viewer's
    | ReadRevision | ReadValue
    | Forget                  // the link went down
    | Prepare                 // the session offers files
    | Publish(taken: bool)    // they are put on this clipboard, unless it changed meanwhile
    | MarkSeen                // and what is there now is taken for them

  predicate Enabled(step: Step, s: State) {
    match step
    case ChangeOwner => s.alive
    case Arrive(reply) => s.alive && s.watch.requests > 0 && (reply.Named? ==> reply.k < s.watch.requests)
    case Expire => s.alive && s.watch.armed
    case Fail(_) => s.alive
    case ReadRevision => s.viewer.Idle()
    case ReadValue => s.viewer.reading.Some?
    case Forget => s.viewer.Idle()
    case Prepare => s.viewer.Idle()
    case Publish(_) => s.viewer.Idle() && s.viewer.offer.Preparing?
    case MarkSeen => s.viewer.offer.Published?
  }

  function ViewerReads(v: Viewer, s: Snap): Viewer
    requires v.reading.Some?
  {
    match Read(s)
    case None => v.(reading := None)
    case Some(o) => v.(stored := v.reading, consumed := Some(o), reading := None, byRead := true)
  }

  /** Unknown revisions count as unchanged. */
  predicate WasReplaced(start: Option<nat>, current: Option<nat>) {
    start.Some? && current.Some? && start != current
  }

  function Offered(v: Viewer, s: Snap, taken: bool): Viewer
    requires v.offer.Preparing?
  {
    v.(offer := if taken && !WasReplaced(v.offer.since, Counter(s)) then Published else NoOffer)
  }

  /** The revision is stored with nothing read at it. */
  function Marked(v: Viewer, s: Snap): Viewer {
    v.(stored := Counter(s), byRead := v.byRead && Counter(s) == v.stored, offer := NoOffer)
  }

  function After(step: Step, s: State): State
    requires Enabled(step, s)
  {
    match step
    case ChangeOwner => s.(watch := OwnerChanged(s.watch), origin := Nowhere)
    case Arrive(reply) =>
      var w := Replied(s.watch, reply);
      (match reply
       case Named(k, _) =>
         s.(watch := w, origin := if SameProperty(k, s.watch.requests - 1) then AnswerTo(k) else s.origin)
       case Refusal => s.(watch := w, origin := if s.watch.snap.ready then s.origin else ARefusal))
    case Expire => s.(watch := DeadlinePassed(s.watch), origin := TheDeadline)
    case Fail(error) => s.(watch := s.watch.(snap := Failed(s.watch.snap, error)), alive := false, origin := TheFailure)
    case ReadRevision =>
      // Nothing to do for the revision stored, or from a watcher that has failed.
      var c := Counter(s.watch.snap);
      if c.None? || c == s.viewer.stored then s else s.(viewer := s.viewer.(reading := c))
    case ReadValue => s.(viewer := ViewerReads(s.viewer, s.watch.snap))
    case Forget => s.(viewer := FRESH)
    case Prepare => s.(viewer := s.viewer.(offer := Preparing(Counter(s.watch.snap))))
    case Publish(taken) => s.(viewer := Offered(s.viewer, s.watch.snap, taken))
    case MarkSeen => s.(viewer := Marked(s.viewer, s.watch.snap))
  }

  ghost predicate Run(states: seq<State>, steps: seq<Step>) {
    && |states| == |steps| + 1
    && Init(states[0])
    && forall i :: 0 <= i < |steps| ==> Enabled(steps[i], states[i]) && states[i + 1] == After(steps[i], states[i])
  }

  lemma WholeRounds(k: nat, latest: nat)
    requires k <= latest
    ensures SameProperty(k, latest) <==> (latest - k) % PROPERTY_RING == 0
  {
  }

  /** THE RING, on whatever state it meets: an answer to an earlier request is taken for the
      latest one's exactly when the requests after it are a whole number of times round. */
  lemma StaleIsTakenExactly(s: State, k: nat, outcome: Outcome)
    requires Enabled(Arrive(Named(k, outcome)), s)
    ensures var s' := After(Arrive(Named(k, outcome)), s);
            if (s.watch.requests - 1 - k) % PROPERTY_RING == 0
            then s'.origin == AnswerTo(k) && Read(s'.watch.snap) == Some(outcome)
            else s' == s
  {
    WholeRounds(k, s.watch.requests - 1);
    AnswerIsRead(s.watch.snap, outcome);
  }

  /** The viewer has what the snapshot says. */
  predicate CaughtUp(s: State) {
    s.watch.snap.ready && s.viewer.consumed == Some(Current(s.watch.snap))
  }

  /** The viewer takes itself to be up to date. */
  predicate SeesNothingNew(s: State) { s.viewer.stored == Some(s.watch.snap.revision) }

  /** How a viewer can have come by what it has stored and consumed. */
  ghost predicate ViewerShape(s: State) {
    var revision, v := s.watch.snap.revision, s.viewer;
    && 1 <= revision
    && (v.stored.Some? ==> 1 <= v.stored.value)
    && (v.reading.Some? ==> 1 <= v.reading.value)
    && (v.byRead ==> v.stored.Some? && v.consumed.Some?)
    && (v.reading.Some? && v.stored.Some? ==> v.stored.value < v.reading.value)
    && (s.alive ==>
          && (v.stored.None? ==> v.consumed.None?)
          && (v.consumed.Some? && !v.byRead ==> v.stored.Some? && 2 <= v.stored.value)
          && (v.offer.Preparing? ==> v.offer.since.Some? && v.offer.since.value <= revision)
          && (v.offer.Preparing? && !v.byRead && v.stored.Some? ==> v.stored.value <= v.offer.since.value))
    && (!s.alive ==>
          && (v.stored.Some? ==> v.stored.value < revision)
          && (v.reading.Some? ==> v.reading.value < revision))
  }

  ghost predicate Inv(s: State) {
    var snap, v := s.watch.snap, s.viewer;
    && s.watch.requests > 0
    && (s.alive ==> (snap.ready <==> !s.watch.armed) && snap.available)
    && (!s.alive ==> snap.ready && !snap.available)
    && (snap.ready <==> s.origin != Nowhere)
    && (s.alive && snap.ready && snap.error.Some? ==> snap.files.None?)
    && (v.reading.Some? ==> v.reading.value <= snap.revision && !v.offer.Published?)
    && (v.stored.Some? ==> v.stored.value <= snap.revision)
    && (v.byRead && SeesNothingNew(s) ==> CaughtUp(s))
    && ViewerShape(s)
  }

  lemma ShapeKept(step: Step, s: State)
    requires Inv(s) && Enabled(step, s)
    ensures ViewerShape(After(step, s))
  {
  }

  lemma StepKeeps(step: Step, s: State)
    requires Inv(s) && Enabled(step, s)
    ensures Inv(After(step, s))
  {
    ShapeKept(step, s);
  }

  lemma {:induction false} RunKeeps(states: seq<State>, steps: seq<Step>, i: nat)
    requires Run(states, steps) && i < |states|
    ensures Inv(states[i])
  {
    if i > 0 {
      RunKeeps(states, steps, i - 1);
      StepKeeps(steps[i - 1], states[i - 1]);
    }
  }

  /** COHERENCE: in every reachable state, a viewer that sees nothing new by a revision it read
      has consumed the current outcome. Reading the revision first can make it read again,
      never make it miss. */
  lemma StoredMeansConsumed(states: seq<State>, steps: seq<Step>, i: nat)
    requires Run(states, steps) && i < |states| && SeesNothingNew(states[i]) && states[i].viewer.byRead
    ensures CaughtUp(states[i])
  {
    RunKeeps(states, steps, i);
  }

  /** THE REVISION MOVES with an answer to the latest request exactly when another answer was there
      and said something else. */
  lemma RevisionMovesExactly(states: seq<State>, steps: seq<Step>, i: nat, k: nat, outcome: Outcome)
    requires Run(states, steps) && i < |steps|
    requires steps[i] == Arrive(Named(k, outcome)) && k + 1 == states[i].watch.requests
    ensures var s, s' := states[i], states[i + 1];
            && Read(s'.watch.snap) == Some(outcome)
            && (s'.watch.snap.revision != s.watch.snap.revision <==>
                Read(s.watch.snap).Some? && Read(s.watch.snap) != Some(outcome))
  {
    RunKeeps(states, steps, i);
    assert states[i + 1] == After(steps[i], states[i]);
    AnswerIsRead(states[i].watch.snap, outcome);
  }

  // --- what the viewer cannot tell apart ------------------------------------------------------

  lemma RunGrows(states: seq<State>, steps: seq<Step>, step: Step) returns (states': seq<State>, steps': seq<Step>)
    requires Run(states, steps) && Enabled(step, states[|states| - 1])
    ensures Run(states', steps') && |states'| == |states| + 1
    ensures states'[|states|] == After(step, states[|states| - 1])
  {
    states', steps' := states + [After(step, states[|states| - 1])], steps + [step];
  }

  /** Some run from the start ends here. */
  ghost predicate Reachable(s: State) {
    exists states: seq<State>, steps: seq<Step> :: Run(states, steps) && states[|states| - 1] == s
  }

  lemma ReachableKeeps(s: State)
    requires Reachable(s)
    ensures Inv(s)
  {
    var states: seq<State>, steps: seq<Step> :| Run(states, steps) && states[|states| - 1] == s;
    RunKeeps(states, steps, |states| - 1);
  }

  lemma ReachableNext(s: State, step: Step)
    requires Reachable(s) && Enabled(step, s)
    ensures Reachable(After(step, s))
  {
    var states: seq<State>, steps: seq<Step> :| Run(states, steps) && states[|states| - 1] == s;
    var states', steps' := RunGrows(states, steps, step);
    assert states'[|states'| - 1] == After(step, s);
  }

  /** A reachable state the viewer cannot tell from `s`: another clipboard, or another moment
      of it, behind the same revision. */
  ghost predicate LooksLike(s: State, s': State) {
    && Reachable(s')
    && s'.viewer == s.viewer && s'.alive == s.alive
    && Counter(s'.watch.snap) == Counter(s.watch.snap) && s'.watch.snap.revision == s.watch.snap.revision
  }

  /** A live watcher at a revision not answered yet. */
  ghost predicate Unanswered(s: State, revision: nat) {
    Reachable(s) && s.alive && !s.watch.snap.ready && s.watch.snap.revision == revision
  }

  /** The owner changes until the revision is reached. */
  lemma OwnerChangesTo(s: State, revision: nat) returns (s': State)
    requires Reachable(s) && s.alive && s.watch.snap.revision <= revision
    requires s.watch.snap.revision == revision ==> !s.watch.snap.ready
    ensures Unanswered(s', revision) && s'.viewer == s.viewer
    decreases revision - s.watch.snap.revision
  {
    s' := s;
    if s.watch.snap.revision < revision {
      ReachableNext(s, ChangeOwner);
      s' := OwnerChangesTo(After(ChangeOwner, s), revision);
    }
  }

  lemma FreshAt(revision: nat) returns (s: State)
    requires 1 <= revision
    ensures Unanswered(s, revision) && s.viewer == FRESH
  {
    s := State(Watch(FIRST, 1, true), true, Nowhere, FRESH);
    assert Run([s], []) && [s][|[s]| - 1] == s;
    s := OwnerChangesTo(s, revision);
  }

  /** The latest request is answered. */
  lemma AnsweredWith(s: State, revision: nat, outcome: Outcome) returns (s': State)
    requires Unanswered(s, revision)
    ensures Reachable(s') && s'.alive && s'.watch.snap.ready && Current(s'.watch.snap) == outcome
    ensures s'.watch.snap.revision == revision && s'.viewer == s.viewer
  {
    ReachableKeeps(s);
    var step := Arrive(Named(s.watch.requests - 1, outcome));
    ReachableNext(s, step);
    s' := After(step, s);
  }

  /** A viewer that read `outcome` at `revision`. */
  lemma ReadAt(revision: nat, outcome: Outcome) returns (s: State)
    requires 1 <= revision
    ensures Reachable(s) && s.alive && s.watch.snap.revision == revision
    ensures s.viewer == Viewer(Some(revision), Some(outcome), None, true, NoOffer)
  {
    s := FreshAt(revision);
    s := AnsweredWith(s, revision, outcome);
    ReachableKeeps(s);
    ReachableNext(s, ReadRevision);
    s := After(ReadRevision, s);
    ReachableNext(s, ReadValue);
    s := After(ReadValue, s);
  }

  /** The session's files come and are put on this clipboard. */
  lemma FilesPublished(s: State) returns (s': State)
    requires Reachable(s) && s.viewer.Idle()
    ensures Reachable(s') && s' == s.(viewer := s.viewer.(offer := Published))
  {
    ReachableNext(s, Prepare);
    s' := After(Prepare, s);
    ReachableNext(s', Publish(true));
    s' := After(Publish(true), s');
  }

  /** A viewer that marked `revision` as seen, having consumed `consumed` before. */
  lemma MarkedAt(revision: nat, consumed: Option<Outcome>) returns (s: State)
    requires 1 <= revision && (consumed.Some? ==> 2 <= revision)
    ensures Unanswered(s, revision) && s.viewer == Viewer(Some(revision), consumed, None, false, NoOffer)
  {
    if consumed.Some? {
      s := ReadAt(revision - 1, consumed.value);
    } else {
      s := FreshAt(revision);
    }
    s := FilesPublished(s);
    s := OwnerChangesTo(s, revision);
    ReachableKeeps(s);
    ReachableNext(s, MarkSeen);
    s := After(MarkSeen, s);
  }

  /** Whatever the viewer consumed, the clipboard may say something else. */
  function Unlike(consumed: Option<Outcome>): (outcome: Outcome)
    ensures consumed != Some(outcome)
  {
    if consumed == Some(Listed(None)) then Listed(Some([])) else Listed(None)
  }

  /** A viewer with files just published, at a revision no read of its own stored, may be
      looking at an answered clipboard it has not consumed. */
  lemma UnseenWhenPublished(s: State) returns (s': State)
    requires Inv(s) && s.alive && s.viewer.offer.Published? && !(s.viewer.byRead && SeesNothingNew(s))
    ensures LooksLike(s, s') && s'.watch.snap.ready && !CaughtUp(s')
  {
    var v, revision := s.viewer, s.watch.snap.revision;
    if v.byRead {
      s' := ReadAt(v.stored.value, v.consumed.value);
    } else if v.stored.Some? {
      s' := MarkedAt(v.stored.value, v.consumed);
    } else {
      s' := FreshAt(1);
    }
    s' := FilesPublished(s');
    s' := OwnerChangesTo(s', revision);
    s' := AnsweredWith(s', revision, Unlike(v.consumed));
    ReachableKeeps(s');
  }

  /** So may a viewer that sees nothing new by a revision it only marked. */
  lemma UnseenWhenMarked(s: State) returns (s': State)
    requires Inv(s) && SeesNothingNew(s) && !s.viewer.byRead
    ensures LooksLike(s, s') && s'.watch.snap.ready && !CaughtUp(s')
  {
    var v, revision := s.viewer, s.watch.snap.revision;
    s' := MarkedAt(revision, v.consumed);
    if v.offer.Preparing? {
      ReachableKeeps(s');
      ReachableNext(s', Prepare);
      s' := After(Prepare, s');
    } else if v.offer.Published? {
      s' := FilesPublished(s');
    }
    s' := AnsweredWith(s', revision, Unlike(v.consumed));
    ReachableKeeps(s');
  }

  /** EXACTLY: in every reachable state where the viewer sees nothing new, it is sure to have
      consumed the outcome, in every reachable state that looks the same to it, if and only if
      a read stored the revision. */
  lemma ConsumedExactlyIfRead(states: seq<State>, steps: seq<Step>, i: nat)
    requires Run(states, steps) && i < |states| && SeesNothingNew(states[i])
    ensures states[i].viewer.byRead <==> forall s' :: LooksLike(states[i], s') ==> CaughtUp(s')
  {
    RunKeeps(states, steps, i);
    if states[i].viewer.byRead {
      forall s' | LooksLike(states[i], s') ensures CaughtUp(s') {
        ReachableKeeps(s');
      }
    } else {
      var s' := UnseenWhenMarked(states[i]);
    }
  }

  /** The viewer takes itself to be up to date only if it is. */
  predicate Coherent(s: State) { SeesNothingNew(s) ==> CaughtUp(s) }

  /** MARKING IS SAFE EXACTLY when the watcher has failed, or the revision is the one stored
      already, by a read: otherwise a run exists, the same to the viewer, where the clipboard
      has been answered and marking loses it. */
  lemma MarkIsSafeExactly(states: seq<State>, steps: seq<Step>, i: nat)
    requires Run(states, steps) && i < |states| && states[i].viewer.offer.Published?
    ensures var s := states[i]; var c := Counter(s.watch.snap);
            (c.None? || (c == s.viewer.stored && s.viewer.byRead)) <==>
            forall s' :: LooksLike(s, s') ==> Coherent(After(MarkSeen, s'))
  {
    RunKeeps(states, steps, i);
    var s := states[i];
    var c := Counter(s.watch.snap);
    if c.None? || (c == s.viewer.stored && s.viewer.byRead) {
      forall s' | LooksLike(s, s') ensures Coherent(After(MarkSeen, s')) {
        ReachableKeeps(s');
      }
    } else {
      var s' := UnseenWhenPublished(s);
      assert SeesNothingNew(After(MarkSeen, s')) && !CaughtUp(After(MarkSeen, s'));
    }
  }

  /** After a mark with no answer yet, the answer that comes is missed unless it is what the
      viewer consumed last: its next look finds nothing new. */
  lemma UnreadAnswerIsMissed(states: seq<State>, steps: seq<Step>, i: nat, outcome: Outcome)
    requires Run(states, steps) && i < |states|
    requires var s := states[i]; SeesNothingNew(s) && !s.watch.snap.ready && s.viewer.Idle()
    ensures var s := states[i];
            && !s.viewer.byRead && s.watch.requests > 0 && Enabled(Arrive(Named(s.watch.requests - 1, outcome)), s)
            && var s' := After(Arrive(Named(s.watch.requests - 1, outcome)), s);
               After(ReadRevision, s') == s' && (CaughtUp(s') <==> s.viewer.consumed == Some(outcome))
  {
    RunKeeps(states, steps, i);
  }

  /** The viewer's two reads with nothing between them. */
  function AfterReads(s: State): State
    requires s.viewer.Idle()
  {
    var r := After(ReadRevision, s);
    if r.viewer.reading.Some? then After(ReadValue, r) else r
  }

  /** Left to itself, a viewer of a ready snapshot catches up in two reads exactly when the
      revision is not the one stored, or a read stored it, or it holds that outcome anyway. */
  lemma TwoReadsCatchUp(states: seq<State>, steps: seq<Step>, i: nat)
    requires Run(states, steps) && i < |states|
    requires var s := states[i]; s.alive && s.watch.snap.ready && s.viewer.Idle()
    ensures var s := states[i];
            && SeesNothingNew(AfterReads(s))
            && (CaughtUp(AfterReads(s)) <==> !SeesNothingNew(s) || s.viewer.byRead || CaughtUp(s))
  {
    RunKeeps(states, steps, i);
  }

  /** A READ TAKES EFFECT exactly when the snapshot is ready: then the revision read before it is
      stored with what it said; otherwise nothing is, and the next look reads again. */
  lemma ReadTakesExactly(states: seq<State>, steps: seq<Step>, i: nat)
    requires Run(states, steps) && i < |steps| && steps[i].ReadValue?
    ensures var s, v, v' := states[i], states[i].viewer, states[i + 1].viewer;
            && v'.Idle()
            && (s.watch.snap.ready ==>
                  v'.stored == v.reading && v'.consumed == Some(Current(s.watch.snap)) && v'.byRead)
            && (!s.watch.snap.ready ==> v'.stored == v.stored && v'.consumed == v.consumed && v'.byRead == v.byRead)
  {
    RunKeeps(states, steps, i);
    assert states[i + 1] == After(steps[i], states[i]);
  }

  /** With the link gone down and up, a ready snapshot is read again, whatever was stored before. */
  lemma ForgettingReadsAgain(states: seq<State>, steps: seq<Step>, i: nat)
    requires Run(states, steps) && i < |steps| && steps[i].Forget? && states[i].alive && states[i].watch.snap.ready
    ensures states[i + 1].viewer == FRESH && CaughtUp(AfterReads(states[i + 1]))
  {
    assert states[i + 1] == After(steps[i], states[i]);
    TwoReadsCatchUp(states, steps, i + 1);
  }

  /** A viewer up to date with the first answer. */
  lemma FirstAnswerConsumed(was: Outcome) returns (states: seq<State>, steps: seq<Step>)
    ensures Run(states, steps) && |states| == 4
    ensures states[3] == State(Watch(Answered(FIRST, was), 1, false), true, AnswerTo(0),
                               Viewer(Some(1), Some(was), None, true, NoOffer))
  {
    states, steps := [State(Watch(FIRST, 1, true), true, Nowhere, FRESH)], [];
    states, steps := RunGrows(states, steps, Arrive(Named(0, was)));
    states, steps := RunGrows(states, steps, ReadRevision);
    states, steps := RunGrows(states, steps, ReadValue);
  }

  /** It happens: the session's files are published here, another program copies before they
      are marked as seen, and that program's copy is never read. */
  lemma MarkedCopyIsMissed(was: Outcome, copied: Outcome) returns (states: seq<State>, steps: seq<Step>)
    requires was != copied
    ensures Run(states, steps) && |states| == 10
    ensures var s := states[9];
            && s.viewer.Idle() && s.viewer.consumed == Some(was) && Read(s.watch.snap) == Some(copied)
            && s.origin == AnswerTo(2) && s.watch.requests == 3 && After(ReadRevision, s) == s
  {
    states, steps := FirstAnswerConsumed(was);
    states, steps := RunGrows(states, steps, Prepare);
    states, steps := RunGrows(states, steps, Publish(true));
    states, steps := RunGrows(states, steps, ChangeOwner);
    states, steps := RunGrows(states, steps, ChangeOwner);
    states, steps := RunGrows(states, steps, MarkSeen);
    states, steps := RunGrows(states, steps, Arrive(Named(2, copied)));
  }

  // --- files that are put on the clipboard ------------------------------------------------------

  /** The preparation begun at `i` is neither finished nor started over. */
  ghost predicate StillPreparing(steps: seq<Step>, i: nat, j: nat) {
    forall k :: i < k < j && k < |steps| ==> !steps[k].Prepare? && !steps[k].Publish? && !steps[k].Forget?
  }

  lemma {:induction false} PreparingStays(states: seq<State>, steps: seq<Step>, i: nat, j: nat)
    requires Run(states, steps) && i < j < |states| && steps[i].Prepare? && StillPreparing(steps, i, j)
    ensures states[j].viewer.offer == Preparing(Counter(states[i].watch.snap))
  {
    assert states[j] == After(steps[j - 1], states[j - 1]);
    if i < j - 1 {
      PreparingStays(states, steps, i, j - 1);
    }
  }

  lemma {:induction false} RevisionGrows(states: seq<State>, steps: seq<Step>, i: nat, j: nat)
    requires Run(states, steps) && i <= j < |states|
    ensures states[i].watch.snap.revision <= states[j].watch.snap.revision
    ensures (exists k :: i <= k < j && steps[k].ChangeOwner?) ==>
              states[i].watch.snap.revision < states[j].watch.snap.revision
  {
    if i < j {
      RevisionGrows(states, steps, i, j - 1);
      assert states[j] == After(steps[j - 1], states[j - 1]);
    }
  }

  /** PUT ON THE CLIPBOARD EXACTLY when the clipboard takes them and its revision is the one seen
      when they came, or one of the two is not known. */
  lemma PublishedExactly(states: seq<State>, steps: seq<Step>, i: nat, j: nat)
    requires Run(states, steps) && i < j < |steps| && steps[i].Prepare? && steps[j].Publish?
    requires StillPreparing(steps, i, j)
    ensures states[j + 1].viewer.offer.Published? <==>
              steps[j].taken && (!states[i].alive || !states[j].alive ||
                                 states[i].watch.snap.revision == states[j].watch.snap.revision)
  {
    RunKeeps(states, steps, i);
    RunKeeps(states, steps, j);
    PreparingStays(states, steps, i, j);
    assert states[j + 1] == After(steps[j], states[j]);
  }

  /** So another program's copy in between is never overwritten while the watcher works. */
  lemma CopyMeanwhileIsKept(states: seq<State>, steps: seq<Step>, i: nat, j: nat, k: nat)
    requires Run(states, steps) && i < k < j < |steps| && steps[i].Prepare? && steps[j].Publish?
    requires StillPreparing(steps, i, j) && steps[k].ChangeOwner? && states[j].alive
    ensures states[j + 1].viewer.offer.NoOffer?
  {
    AliveBefore(states, steps, i, j);
    RevisionGrows(states, steps, i, j);
    PublishedExactly(states, steps, i, j);
    assert states[j + 1] == After(steps[j], states[j]);
  }

  lemma {:induction false} AliveBefore(states: seq<State>, steps: seq<Step>, i: nat, j: nat)
    requires Run(states, steps) && i <= j < |states| && states[j].alive
    ensures states[i].alive
  {
    if i < j {
      assert states[j] == After(steps[j - 1], states[j - 1]);
      AliveBefore(states, steps, i, j - 1);
    }
  }

  /** A snapshot that is not ready has its deadline set: an outcome always comes. */
  lemma NeverLeftWaiting(states: seq<State>, steps: seq<Step>, i: nat)
    requires Run(states, steps) && i < |states| && !states[i].watch.snap.ready
    ensures Enabled(Expire, states[i]) && After(Expire, states[i]).watch.snap.ready
  {
    RunKeeps(states, steps, i);
  }

  /** Every answer that arrives does so with fewer than a ringful of requests after its own. */
  ghost predicate Timely(states: seq<State>, steps: seq<Step>)
    requires |states| == |steps| + 1
  {
    forall i :: 0 <= i < |steps| && steps[i].Arrive? && steps[i].reply.Named? ==>
                  states[i].watch.requests - 1 - steps[i].reply.k < PROPERTY_RING
  }

  /** While answers are timely, a published answer is the latest request's. */
  lemma {:induction false} PublishedIsLatest(states: seq<State>, steps: seq<Step>, i: nat)
    requires Run(states, steps) && i < |states| && Timely(states, steps)
    ensures states[i].origin.AnswerTo? ==> states[i].origin.k == states[i].watch.requests - 1
  {
    if i > 0 {
      PublishedIsLatest(states, steps, i - 1);
      var step, s := steps[i - 1], states[i - 1];
      assert states[i] == After(step, s);
      if step.Arrive? && step.reply.Named? {
        TimelyAnswersAreLatest(s.watch, step.reply.k);
      }
    }
  }

  /** Once an answer is published no refusal and no deadline takes its place: only another
      answer, a new request, or the watcher's failure does. */
  lemma AnswerStands(states: seq<State>, steps: seq<Step>, i: nat)
    requires Run(states, steps) && i < |steps| && states[i].origin.AnswerTo?
    requires !steps[i].ChangeOwner? && !steps[i].Fail? && !(steps[i].Arrive? && steps[i].reply.Named?)
    ensures states[i + 1].watch == states[i].watch && states[i + 1].origin == states[i].origin
  {
    RunKeeps(states, steps, i);
    assert states[i + 1] == After(steps[i], states[i]);
  }

  /** A ringful later it can go wrong: eight owner changes after the first request went out, its
      answer is taken for the ninth's. */
  lemma RingfulIsTooLate(stale: seq<Path>)
    ensures var w4 := OwnerChanged(OwnerChanged(OwnerChanged(OwnerChanged(Watch(FIRST, 1, true)))));
            var w := OwnerChanged(OwnerChanged(OwnerChanged(OwnerChanged(w4))));
            && w.requests - 1 == 8 && !w.snap.ready
            && Read(Replied(w, Named(0, Listed(Some(stale)))).snap) == Some(Listed(Some(stale)))
  {
  }
}
