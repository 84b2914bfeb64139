/** How many bytes the reader may have waiting for the user interface, and the rule that wakes
    the interface only when the queue is short (crates/client/src/connection.rs,
    crates/client/src/app.rs): the two threads as interleaved steps. */
module Backlog {

  const MAX_BACKLOG_BYTES := 16_777_216 // 16 MiB

  /** A message and the bytes it is charged for. Only the reader's own last message, which
      reports a broken connection, is charged nothing. */
  datatype Message = Message(id: nat, size: nat)

  // --- the budget -------------------------------------------------------------------

  datatype Turn = Admitted | MustWait | Refused

  /** What the condition in `admit` decides with the lock held. The source adds with
      saturation at the word size, far above the limit it compares with. */
  function TurnFor(bytes: nat, closed: bool, size: nat): (t: Turn)
    ensures t == Admitted <==> !closed && (bytes == 0 || bytes + size <= MAX_BACKLOG_BYTES)
  {
    if !closed && bytes > 0 && bytes + size > MAX_BACKLOG_BYTES then MustWait
    else if closed then Refused
    else Admitted
  }

  function SaturatingSub(a: nat, b: nat): nat { if a < b then 0 else a - b }

  /** The monitor. Waiting and notifying are steps of the threads below. */
  class Budget {
    var bytes: nat
    var closed: bool

    constructor ()
      ensures bytes == 0 && !closed
    {
      bytes, closed := 0, false;
    }

    /** One pass of `admit` with the lock held; the caller waits on `MustWait`. */
    method Attempt(size: nat) returns (turn: Turn)
      modifies this`bytes
      ensures turn == TurnFor(old(bytes), closed, size)
      ensures bytes == old(bytes) + if turn == Admitted then size else 0
    {
      if !closed && bytes > 0 && bytes + size > MAX_BACKLOG_BYTES {
        return MustWait;
      }
      if closed {
        return Refused;
      }
      bytes := bytes + size;
      turn := Admitted;
    }

    method Release(size: nat)
      modifies this`bytes
      ensures bytes == SaturatingSub(old(bytes), size)
    {
      bytes := if bytes < size then 0 else bytes - size;
    }

    method Close()
      modifies this`closed
      ensures closed
    {
      closed := true;
    }
  }

  // --- the two threads --------------------------------------------------------------

  datatype Reader =
    | Reading
    | Admitting(m: Message)   // about to take the lock
    | Waiting(m: Message)     // in the condition variable
    | Sending(m: Message)     // admitted, not yet queued
    | Checking                // queued, about to look at the queue's length
    | Waking
    | Failing(m: Message)     // the connection broke; its report not yet queued
    | Final                   // out of the loop, the last wake not yet posted
    | Exited

  datatype Interface =
    | Polling
    | Holding(m: Message)     // taken from the queue, not yet released
    | Notifying               // released, the reader not yet notified
    | Deciding                // out of the drain, about to look for pending events
    | Asleep
    | ClosedNotNotified       // closing: the flag is set
    | ShuttingDown            // closing: the reader has been notified
    | Joining                 // closing: the socket is shut down
    | Gone

  datatype State = State(
    bytes: nat, closed: bool, shutdown: bool,
    queue: seq<Message>, reader: Reader, ui: Interface, wake: bool,
    arrived: seq<Message>,    // everything the reader has had to pass on, in order
    handled: seq<Message>,    // everything the interface has taken
    refused: seq<Message>)    // what closing made the reader drop

  ghost predicate Init(s: State) {
    s == State(0, false, false, [], Reading, Polling, false, [], [], [])
  }

  // --- their steps --------------------------------------------------------------------

  datatype Step =
    // the reader's
    | Read(m: Message) | ReadFail(m: Message)
    | Admit
    | WakeSpuriously          // a condition variable may wake with nobody notifying it
    | Send | Check | PostWake | Report | Exit
    // the interface's
    | Take | Release | Notify
    | StopDraining            // nothing pending, or the drain has had its time
    | Decide
    | WakenByReader
    | WakeWhileAwake          // a posted wake handled between two drains
    | WakenOtherwise          // input, a timer, a repaint
    | SetClosed | NotifyClosed | ShutDown | Join
  {
    predicate ByReader() {
      Read? || ReadFail? || Admit? || WakeSpuriously? || Send? || Check? || PostWake? || Report? || Exit?
    }
  }

  predicate Enabled(step: Step, s: State) {
    match step
    case Read(m) => s.reader.Reading? && m.size > 0
    case ReadFail(m) => s.reader.Reading? && m.size == 0
    case Admit => s.reader.Admitting?
    case WakeSpuriously => s.reader.Waiting?
    case Send => s.reader.Sending?
    case Check => s.reader.Checking?
    case PostWake => s.reader.Waking?
    case Report => s.reader.Failing?
    case Exit => s.reader.Final?
    case Take => s.ui.Polling? && s.queue != []
    case Release => s.ui.Holding?
    case Notify => s.ui.Notifying?
    case StopDraining => s.ui.Polling?
    case Decide => s.ui.Deciding?
    case WakenByReader => s.ui.Asleep? && s.wake
    case WakeWhileAwake => (s.ui.Polling? || s.ui.Deciding?) && s.wake
    case WakenOtherwise => s.ui.Asleep?
    case SetClosed => s.ui.Polling? || s.ui.Deciding?
    case NotifyClosed => s.ui.ClosedNotNotified?
    case ShutDown => s.ui.ShuttingDown?
    case Join => s.ui.Joining? && s.reader.Exited?
  }

  function Notified(r: Reader): Reader { if r.Waiting? then Admitting(r.m) else r }

  function After(step: Step, s: State): State
    requires Enabled(step, s)
  {
    match step
    case Read(m) => s.(reader := Admitting(m), arrived := s.arrived + [m])
    case ReadFail(m) => s.(reader := Failing(m), arrived := s.arrived + [m])
    case Admit =>
      (match TurnFor(s.bytes, s.closed, s.reader.m.size)
       case Admitted => s.(reader := Sending(s.reader.m), bytes := s.bytes + s.reader.m.size)
       case MustWait => s.(reader := Waiting(s.reader.m))
       case Refused => s.(reader := Final, refused := [s.reader.m]))
    case WakeSpuriously => s.(reader := Admitting(s.reader.m))
    case Send => s.(reader := Checking, queue := s.queue + [s.reader.m])
    case Check => s.(reader := if |s.queue| <= 1 then Waking else Reading)
    case PostWake => s.(reader := Reading, wake := true)
    case Report => s.(reader := Final, queue := s.queue + [s.reader.m])
    case Exit => s.(reader := Exited, wake := true)
    case Take => s.(ui := Holding(s.queue[0]), queue := s.queue[1..], handled := s.handled + [s.queue[0]])
    case Release => s.(ui := Notifying, bytes := SaturatingSub(s.bytes, s.ui.m.size))
    case Notify => s.(ui := Polling, reader := Notified(s.reader))
    case StopDraining => s.(ui := Deciding)
    case Decide => s.(ui := if s.queue == [] then Asleep else Polling)
    case WakenByReader => s.(ui := Polling, wake := false)
    case WakeWhileAwake => s.(ui := Polling, wake := false)
    case WakenOtherwise => s.(ui := Polling)
    case SetClosed => s.(ui := ClosedNotNotified, closed := true)
    case NotifyClosed => s.(ui := ShuttingDown, reader := Notified(s.reader))
    case ShutDown => s.(ui := Joining, shutdown := true)
    case Join => s.(ui := Gone)
  }

  /** A run from the start: the steps taken and the states between them. */
  ghost predicate Run(states: seq<State>, steps: seq<Step>) {
    && |states| == |steps| + 1
    && Init(states[0])
    && forall i :: 0 <= i < |steps| ==> Enabled(steps[i], states[i]) && states[i + 1] == After(steps[i], states[i])
  }

  // --- what every step keeps ----------------------------------------------------------

  function Total(q: seq<Message>): nat {
    if q == [] then 0 else q[0].size + Total(q[1..])
  }

  /** How many of them are charged for. */
  function Charged(q: seq<Message>): nat {
    if q == [] then 0 else (if q[0].size > 0 then 1 else 0) + Charged(q[1..])
  }

  lemma {:induction false} Joined(p: seq<Message>, q: seq<Message>)
    ensures Total(p + q) == Total(p) + Total(q)
    ensures Charged(p + q) == Charged(p) + Charged(q)
  {
    if p == [] {
      assert p + q == q;
    } else {
      assert (p + q)[1..] == p[1..] + q;
      Joined(p[1..], q);
    }
  }

  lemma {:induction false} NothingChargedNothingOwed(q: seq<Message>)
    ensures Total(q) == 0 <==> Charged(q) == 0
    ensures Charged(q) > 0 ==> exists i :: 0 <= i < |q| && q[i].size > 0
  {
    if q != [] {
      NothingChargedNothingOwed(q[1..]);
      if q[0].size == 0 && Charged(q) > 0 {
        var i :| 0 <= i < |q[1..]| && q[1..][i].size > 0;
        assert q[i + 1].size > 0;
      }
    }
  }

  /** In the interface's hand, in the queue, in the reader's hand. */
  function InFlight(s: State): seq<Message> {
    (if s.ui.Holding? then [s.ui.m] else []) + s.queue + (if s.reader.Sending? then [s.reader.m] else [])
  }

  /** What the reader has but has not passed on. */
  function InHand(r: Reader): seq<Message> {
    if r.Admitting? || r.Waiting? || r.Sending? || r.Failing? then [r.m] else []
  }

  function Passed(s: State): seq<Message> { s.handled + s.queue }

  ghost predicate Accounted(s: State) {
    && s.bytes == Total(InFlight(s))
    && (s.bytes > MAX_BACKLOG_BYTES ==> Charged(InFlight(s)) == 1)
  }

  ghost predicate InOrder(s: State) {
    && s.arrived == Passed(s) + (InHand(s.reader) + s.refused)
    && (s.refused != [] ==> s.closed && (s.reader.Final? || s.reader.Exited?))
  }

  ghost predicate ClosingInOrder(s: State) {
    && (s.closed <==> s.ui.ClosedNotNotified? || s.ui.ShuttingDown? || s.ui.Joining? || s.ui.Gone?)
    && (s.shutdown <==> s.ui.Joining? || s.ui.Gone?)
    && (s.ui.Gone? ==> s.reader.Exited?)
  }

  /** A reader in the condition variable has reason to be, or a notification is coming. */
  ghost predicate NoLostNotification(s: State) {
    s.reader.Waiting? ==>
      TurnFor(s.bytes, s.closed, s.reader.m.size) == MustWait || s.ui.Notifying? || s.ui.ClosedNotNotified?
  }

  ghost predicate SizesKnown(s: State) {
    && (s.reader.Admitting? || s.reader.Waiting? || s.reader.Sending? ==> s.reader.m.size > 0)
    && (s.reader.Failing? ==> s.reader.m.size == 0)
  }

  /** NO MESSAGE IS STRANDED: asleep with messages queued, a wake is on its way. */
  ghost predicate NotStranded(s: State) {
    s.ui.Asleep? && s.queue != [] ==>
      s.wake || (s.reader.Checking? && |s.queue| <= 1) || s.reader.Waking? || s.reader.Final?
  }

  ghost predicate Inv(s: State) {
    Accounted(s) && InOrder(s) && ClosingInOrder(s) && NoLostNotification(s) && SizesKnown(s) && NotStranded(s)
  }

  lemma StartsWell(s: State)
    requires Init(s)
    ensures Inv(s)
  {
  }

  /** Handing a message on does not take it out of flight. */
  lemma HandedOn(s: State)
    ensures s.ui.Polling? && s.queue != [] ==> InFlight(After(Take, s)) == InFlight(s)
    ensures s.reader.Sending? ==> InFlight(After(Send, s)) == InFlight(s)
  {
    if s.ui.Polling? && s.queue != [] {
      assert s.queue == [s.queue[0]] + s.queue[1..];
    }
  }

  lemma FlightUnchanged(step: Step, s: State)
    requires Enabled(step, s) && SizesKnown(s)
    requires !step.Release? && !step.Report? && (step.Admit? ==> !After(step, s).reader.Sending?)
    ensures InFlight(After(step, s)) == InFlight(s) && After(step, s).bytes == s.bytes
  {
    if step.Take? || step.Send? {
      HandedOn(s);
    } else {
      var s' := After(step, s);
      assert s'.queue == s.queue && (s'.ui.Holding? <==> s.ui.Holding?) && (s'.reader.Sending? <==> s.reader.Sending?);
    }
  }

  lemma AdmittingKeepsAccount(s: State, s': State, m: Message)
    requires Accounted(s) && TurnFor(s.bytes, s.closed, m.size) == Admitted && m.size > 0
    requires InFlight(s') == InFlight(s) + [m] && s'.bytes == s.bytes + m.size
    ensures Accounted(s')
  {
    Joined(InFlight(s), [m]);
    NothingChargedNothingOwed(InFlight(s));
  }

  lemma ReleasingKeepsAccount(s: State, s': State, m: Message)
    requires Accounted(s) && InFlight(s) == [m] + InFlight(s') && s'.bytes == SaturatingSub(s.bytes, m.size)
    ensures Accounted(s')
  {
    Joined([m], InFlight(s'));
    NothingChargedNothingOwed(InFlight(s'));
  }

  lemma AccountKept(step: Step, s: State)
    requires Accounted(s) && SizesKnown(s) && Enabled(step, s)
    ensures Accounted(After(step, s))
  {
    var s' := After(step, s);
    if step.Report? {
      assert InFlight(s') == InFlight(s) + [s.reader.m];
      Joined(InFlight(s), [s.reader.m]);
    } else if step.Release? {
      assert InFlight(s) == [s.ui.m] + InFlight(s');
      ReleasingKeepsAccount(s, s', s.ui.m);
    } else if step.Admit? && s'.reader.Sending? {
      assert InFlight(s') == InFlight(s) + [s.reader.m];
      AdmittingKeepsAccount(s, s', s.reader.m);
    } else {
      FlightUnchanged(step, s);
    }
  }

  lemma Regrouped(a: seq<Message>, b: seq<Message>, c: seq<Message>)
    ensures (a + b) + c == a + (b + c)
  {
  }

  /** What arrives is in hand; what is passed on is queued; what is taken is handled. */
  lemma MovingKeepsOrder(step: Step, s: State)
    requires InOrder(s) && Enabled(step, s)
    requires step.Read? || step.ReadFail? || step.Send? || step.Report? || step.Take?
    ensures InOrder(After(step, s))
  {
    var s', hand := After(step, s), InHand(s.reader);
    if step.Take? {
      assert s.queue == [s.queue[0]] + s.queue[1..];
      Regrouped(s.handled, [s.queue[0]], s.queue[1..]);
    } else if step.Send? || step.Report? {
      Regrouped(s.handled, s.queue, hand);
      assert s'.arrived == Passed(s) + hand && Passed(s') == Passed(s) + hand;
    } else {
      assert s.arrived == Passed(s);
    }
  }

  lemma OrderKept(step: Step, s: State)
    requires InOrder(s) && Enabled(step, s)
    ensures InOrder(After(step, s))
  {
    if step.Read? || step.ReadFail? || step.Send? || step.Report? || step.Take? {
      MovingKeepsOrder(step, s);
    } else {
      var s' := After(step, s);
      assert Passed(s') == Passed(s) && s'.arrived == s.arrived;
      assert InHand(s'.reader) + s'.refused == InHand(s.reader) + s.refused;
    }
  }

  lemma ClosingKept(step: Step, s: State)
    requires ClosingInOrder(s) && SizesKnown(s) && Enabled(step, s)
    ensures ClosingInOrder(After(step, s)) && SizesKnown(After(step, s))
  {
  }

  lemma WakesKept(step: Step, s: State)
    requires ClosingInOrder(s) && NoLostNotification(s) && NotStranded(s) && Enabled(step, s)
    ensures NoLostNotification(After(step, s)) && NotStranded(After(step, s))
  {
  }

  lemma StepKeeps(step: Step, s: State)
    requires Inv(s) && Enabled(step, s)
    ensures Inv(After(step, s))
  {
    AccountKept(step, s);
    OrderKept(step, s);
    ClosingKept(step, s);
    WakesKept(step, s);
  }

  // --- whole runs -----------------------------------------------------------------------

  lemma {:induction false} RunKeeps(states: seq<State>, steps: seq<Step>, i: nat)
    requires Run(states, steps) && i < |states|
    ensures Inv(states[i])
  {
    if i == 0 {
      StartsWell(states[0]);
    } else {
      RunKeeps(states, steps, i - 1);
      StepKeeps(steps[i - 1], states[i - 1]);
    }
  }

  /** In every reachable state the charge is what is in flight, releasing never saturates,
      and the budget is exceeded by one message alone or not at all. */
  lemma BudgetIsExact(states: seq<State>, steps: seq<Step>, i: nat)
    requires Run(states, steps) && i < |states|
    ensures var s := states[i];
            && s.bytes == Total(InFlight(s))
            && (s.ui.Holding? ==> s.ui.m.size <= s.bytes)
            && (s.bytes > MAX_BACKLOG_BYTES ==> Charged(InFlight(s)) == 1)
  {
    RunKeeps(states, steps, i);
    var s := states[i];
    if s.ui.Holding? {
      Joined([s.ui.m], InFlight(s)[1..]);
      assert InFlight(s) == [s.ui.m] + InFlight(s)[1..];
    }
  }

  /** In every reachable state the interface has taken a prefix of what arrived, in order,
      and until closing begins nothing is dropped. */
  lemma MessagesKeepOrder(states: seq<State>, steps: seq<Step>, i: nat)
    requires Run(states, steps) && i < |states|
    ensures var s := states[i];
            && s.handled <= s.arrived
            && (!s.closed ==> s.arrived == Passed(s) + InHand(s.reader))
  {
    RunKeeps(states, steps, i);
    var s := states[i];
    assert s.arrived == s.handled + (s.queue + InHand(s.reader) + s.refused);
  }

  /** A reader held back on an open budget implies a charged message the interface can
      release, or a notification about to be sent. */
  lemma WaitingImpliesWork(states: seq<State>, steps: seq<Step>, i: nat)
    requires Run(states, steps) && i < |states| && states[i].reader.Waiting? && !states[i].closed
    ensures var s := states[i];
            s.ui.Notifying? || s.ui.Holding? || exists k :: 0 <= k < |s.queue| && s.queue[k].size > 0
  {
    RunKeeps(states, steps, i);
    var s := states[i];
    if !s.ui.Notifying? && !s.ui.Holding? {
      NothingChargedNothingOwed(InFlight(s));
      assert InFlight(s) == s.queue;
    }
  }

  /** ADMITTED EXACTLY when it is open and nothing is charged or the message still fits, and charged
      then; dropped exactly when it is closed; held back in the condition variable otherwise. */
  lemma AdmittedExactly(states: seq<State>, steps: seq<Step>, i: nat)
    requires Run(states, steps) && i < |steps| && steps[i].Admit?
    ensures states[i].reader.Admitting?
    ensures var s, s', m := states[i], states[i + 1], states[i].reader.m;
            var room := s.bytes == 0 || s.bytes + m.size <= MAX_BACKLOG_BYTES;
            && (s'.reader == Sending(m) <==> !s.closed && room)
            && (s'.reader == Waiting(m) <==> !s.closed && !room)
            && (s'.reader == Final && s'.refused == [m] <==> s.closed)
            && s'.bytes == s.bytes + if !s.closed && room then m.size else 0
  {
    RunKeeps(states, steps, i);
    assert Enabled(steps[i], states[i]) && states[i + 1] == After(steps[i], states[i]);
  }

  /** The interface left to itself handles the oldest message in three steps, and the reader has
      been notified. */
  lemma OneIsHandled(s: State)
    requires s.ui.Polling? && s.queue != []
    ensures var m := s.queue[0]; var s1 := After(Take, s);
            && Enabled(Release, s1) && var s2 := After(Release, s1);
            && Enabled(Notify, s2)
            && After(Notify, s2) == s.(queue := s.queue[1..], handled := s.handled + [m],
                                       bytes := SaturatingSub(s.bytes, m.size), reader := Notified(s.reader))
  {
  }

  /** Whatever wakes it, a sleeping interface looks at the queue. */
  lemma WokenLooks(s: State)
    requires s.ui.Asleep?
    ensures Enabled(WakenOtherwise, s) && After(WakenOtherwise, s) == s.(ui := Polling)
    ensures s.wake ==> Enabled(WakenByReader, s) && After(WakenByReader, s) == s.(ui := Polling, wake := false)
  {
  }

  /** Closing can begin whenever no message is in hand, closes the budget, notifies the reader and
      shuts the socket down, in that order, and is done once the reader has exited. */
  lemma ClosingTakesFourSteps(s: State)
    requires s.ui.Polling? || s.ui.Deciding?
    ensures Enabled(SetClosed, s)
    ensures var s1 := After(SetClosed, s);
            && Enabled(NotifyClosed, s1) && var s2 := After(NotifyClosed, s1);
            && Enabled(ShutDown, s2) && var s3 := After(ShutDown, s2);
            && s3 == s.(ui := Joining, closed := true, shutdown := true, reader := Notified(s.reader))
            && !s3.reader.Waiting?
            && (Enabled(Join, s3) <==> s3.reader.Exited?)
            && (Enabled(Join, s3) ==> After(Join, s3) == s3.(ui := Gone))
  {
  }

  // --- progress -------------------------------------------------------------------------

  /** The reader has nothing it can do by itself. A read on a shut-down socket returns. */
  ghost predicate ReaderBlocked(s: State) {
    s.reader.Exited? || s.reader.Waiting? || (s.reader.Reading? && !s.shutdown)
  }

  ghost predicate InterfaceBlocked(s: State) {
    (s.ui.Asleep? && !s.wake) || (s.ui.Joining? && !s.reader.Exited?) || s.ui.Gone?
  }

  /** NO DEADLOCK: both threads are blocked only when the reader waits for the peer, or has
      exited, with every message handled and the interface asleep, or when all is closed. */
  lemma BlockedOnlyWhenIdle(states: seq<State>, steps: seq<Step>, i: nat)
    requires Run(states, steps) && i < |states| && ReaderBlocked(states[i]) && InterfaceBlocked(states[i])
    ensures var s := states[i];
            || (s.ui.Asleep? && s.queue == [] && (s.reader.Reading? || s.reader.Exited?) && s.handled == s.arrived)
            || (s.ui.Gone? && s.reader.Exited?)
  {
    RunKeeps(states, steps, i);
    var s := states[i];
    if s.reader.Waiting? && !s.closed {
      WaitingImpliesWork(states, steps, i);
    }
  }

  /** In every reachable state, an interface asleep over queued messages has a wake posted, or
      the reader is about to post one: past its send with at most one message queued, or
      already decided, or on its way out. */
  lemma NothingStranded(states: seq<State>, steps: seq<Step>, i: nat)
    requires Run(states, steps) && i < |states| && states[i].ui.Asleep? && states[i].queue != []
    ensures var s := states[i];
            s.wake || (s.reader.Checking? && |s.queue| <= 1) || s.reader.Waking? || s.reader.Final?
  {
    RunKeeps(states, steps, i);
  }

  /** A WAKE IS SPARED exactly when more than one message is queued, and no sleeper needs it. */
  lemma WokenExactlyIfShort(states: seq<State>, steps: seq<Step>, i: nat)
    requires Run(states, steps) && i < |steps| && steps[i].Check?
    ensures states[i + 1].reader == if |states[i].queue| <= 1 then Waking else Reading
    ensures states[i + 1].reader.Reading? && states[i + 1].ui.Asleep? ==> states[i + 1].wake
  {
    RunKeeps(states, steps, i);
    assert states[i + 1] == After(steps[i], states[i]);
  }

  /** The interface left to itself with nothing queued: a posted wake handled, a drain that finds
      nothing, and to sleep. */
  function Rested(s: State): State
    requires s.ui.Polling? || s.ui.Deciding? || s.ui.Asleep?
  {
    var s1 := if !s.wake then s else if s.ui.Asleep? then After(WakenByReader, s) else After(WakeWhileAwake, s);
    var s2 := if s1.ui.Polling? then After(StopDraining, s1) else s1;
    if s2.ui.Deciding? then After(Decide, s2) else s2
  }

  /** IT GOES TO SLEEP when there is nothing to do, and changes nothing else on the way. */
  lemma QuietInterfaceRests(s: State)
    requires (s.ui.Polling? || s.ui.Deciding? || s.ui.Asleep?) && s.queue == []
    ensures Rested(s) == s.(ui := Asleep, wake := false) && InterfaceBlocked(Rested(s))
  {
  }

  /** Asleep with messages queued and no wake posted, the reader is not blocked, and any step
      it takes posts the wake or leaves only the posting to do. */
  lemma SleeperIsWoken(states: seq<State>, steps: seq<Step>, i: nat, step: Step)
    requires Run(states, steps) && i < |states|
    requires states[i].ui.Asleep? && states[i].queue != [] && !states[i].wake
    requires step.ByReader() && Enabled(step, states[i])
    ensures !ReaderBlocked(states[i])
    ensures var s' := After(step, states[i]); s'.wake || (s'.reader.Waking? && s'.ui.Asleep?)
  {
    RunKeeps(states, steps, i);
  }

  /** How many more steps a reader can take once closing has notified it. */
  function StepsLeft(r: Reader): nat {
    match r
    case Exited => 0
    case Final => 1
    case Failing(_) => 2
    case Admitting(_) => 2
    case Reading => 3
    case Waiting(_) => 3
    case Waking => 4
    case Checking => 5
    case Sending(_) => 6
  }

  /** THE JOIN ENDS: with the budget closed and the socket shut down the reader is never
      blocked before it exits, every step taken is the reader's, and brings its exit nearer. */
  lemma JoinEnds(states: seq<State>, steps: seq<Step>, i: nat, step: Step)
    requires Run(states, steps) && i < |states| && states[i].ui.Joining? && !states[i].reader.Exited?
    requires Enabled(step, states[i])
    ensures !ReaderBlocked(states[i])
    ensures step.ByReader() && StepsLeft(After(step, states[i]).reader) < StepsLeft(states[i].reader)
  {
    RunKeeps(states, steps, i);
  }
}
