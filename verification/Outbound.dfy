/** The outgoing stream (crates/client/src/outbound.rs): one sending thread, one worker that
    writes, a bounded queue between them, and a byte count both of them change. */
module Outbound {
  import opened Options

  const MAX_MESSAGES := 256
  const MAX_BYTES := 8_388_608 // 8 MiB

  type Bytes = seq<nat>

  datatype Error = Stalled | WriteFailed

  /** `get_or_insert`: the first reason stays. */
  function FirstError(e: Option<Error>, reason: Error): Option<Error> { if e.Some? then e else Some(reason) }

  predicate Fits(queued: int, size: nat) { queued + size <= MAX_BYTES }

  // --- the compare-exchange loop ------------------------------------------------------

  /** What happens between reading the count and exchanging it: the worker takes off what it
      has written, and the exchange may fail for no reason. */
  datatype Interference = Interference(written: nat, spurious: bool)

  function Written(between: seq<Interference>): nat {
    if between == [] then 0 else between[0].written + Written(between[1..])
  }

  lemma {:induction false} WrittenSplits(between: seq<Interference>, i: nat)
    requires i < |between|
    ensures Written(between[i..]) == between[i].written + Written(between[i + 1..])
    ensures Written(between[..i + 1]) == Written(between[..i]) + between[i].written
  {
    assert between[i..][1..] == between[i + 1..];
    if i > 0 {
      WrittenSplits(between[1..], i - 1);
      assert between[..i + 1][1..] == between[1..][..i] && between[..i][1..] == between[1..][..i - 1];
    } else {
      assert between[..1][1..] == [];
    }
  }

  class Count {
    var queued: int

    constructor ()
      ensures queued == 0
    {
      queued := 0;
    }

    method CompareExchange(expected: int, total: int, spurious: bool) returns (ok: bool, now: int)
      modifies this
      ensures now == old(queued)
      ensures ok <==> old(queued) == expected && !spurious
      ensures queued == if ok then total else old(queued)
    {
      now := queued;
      ok := queued == expected && !spurious;
      if ok {
        queued := total;
      }
    }

    method FetchSub(size: nat)
      modifies this
      ensures queued == old(queued) - size
    {
      queued := queued - size;
    }

    /** `reserve` against a worker that keeps writing. Whatever the interference, a success
        adds exactly `size` on top of what the worker took off and stays within the limit; a
        refusal adds nothing, and the size did not fit a count the loop had just read. */
    method Reserve(size: nat, between: seq<Interference>) returns (ok: bool, ghost used: nat)
      requires Written(between) <= queued <= MAX_BYTES
      modifies this
      ensures used <= |between|
      ensures queued == old(queued) - Written(between[..used]) + if ok then size else 0
      ensures 0 <= queued <= MAX_BYTES
      ensures !ok ==> exists seen :: queued <= seen <= old(queued) && !Fits(seen, size)
      ensures old(queued) + size <= MAX_BYTES ==> ok
    {
      var seen := queued;
      var i := 0;
      used := 0;
      while true
        invariant used == i <= |between| && queued == old(queued) - Written(between[..i]) == seen
        invariant Written(between[i..]) <= queued <= old(queued)
        decreases |between| - i
      {
        if !Fits(seen, size) {
          return false, i;
        }
        var spurious := false;
        if i < |between| {
          WrittenSplits(between, i);
          FetchSub(between[i].written);
          spurious := between[i].spurious;
          i := i + 1;
        }
        var now;
        ok, now := CompareExchange(seen, seen + size, spurious);
        used := i;
        if ok {
          return;
        }
        seen := now;
      }
    }
  }

  // --- the stream -------------------------------------------------------------------------

  function Flat(ms: seq<Bytes>): Bytes {
    if ms == [] then [] else ms[0] + Flat(ms[1..])
  }

  lemma {:induction false} FlatJoins(p: seq<Bytes>, q: seq<Bytes>)
    ensures Flat(p + q) == Flat(p) + Flat(q)
  {
    if p == [] {
      assert p + q == q;
    } else {
      assert (p + q)[1..] == p[1..] + q;
      FlatJoins(p[1..], q);
    }
  }

  lemma FlatOne(m: Bytes)
    ensures Flat([m]) == m
  {
  }

  /** The worker's side of the stream: the message being written, at most one, how much of it
      is out, the messages wholly out, and the bytes on the wire. */
  datatype Wire = Wire(current: seq<Bytes>, done: nat, sent: seq<Bytes>, written: Bytes) {
    predicate Valid() {
      |current| <= 1 && (current == [] ==> done == 0) && (|current| == 1 ==> done <= |current[0]|)
    }

    function Begun(): Bytes
      requires Valid()
    {
      if current == [] then [] else current[0][..done]
    }

    /** What is on the wire is the messages wholly out and the part begun. */
    predicate Gapless() { Valid() && written == Flat(sent) + Begun() }

    predicate Whole() { |current| == 1 && done == |current[0]| }

    function Start(m: Bytes): Wire { this.(current := [m], done := 0) }

    function Put(n: nat): Wire
      requires |current| == 1 && done + n <= |current[0]|
    {
      this.(written := written + current[0][done..done + n], done := done + n)
    }

    function Finish(): Wire { Wire([], 0, sent + current, written) }

    lemma StartKeeps(m: Bytes)
      requires Gapless() && current == []
      ensures Start(m).Gapless()
    {
    }

    lemma PutKeeps(n: nat)
      requires Gapless() && |current| == 1 && done + n <= |current[0]|
      ensures Put(n).Gapless()
    {
    }

    lemma FinishKeeps()
      requires Gapless() && Whole()
      ensures Finish().Gapless()
    {
      FlatJoins(sent, current);
      FlatOne(current[0]);
      assert current == [current[0]] && current[0][..done] == current[0];
    }
  }

  // --- the two threads ------------------------------------------------------------------

  datatype Sender =
    | Idle
    | Entering(m: Bytes)            // send called, nothing checked
    | Loading(m: Bytes)             // no error, not closed
    | Reserving(m: Bytes, seen: int)
    | Queueing(m: Bytes)            // counted, not queued
    | Unreserving(m: Bytes)         // the queue would not take it
    | Failing                       // about to record the error
    | Stopping                      // about to shut the socket down
    | Closing                       // the sending end dropped
    | Joining                       // and the socket shut down

  datatype Worker =
    | Receiving
    | Writing
    | Subtracting(size: nat)
    | Recording                     // a write failed, the error not yet recorded
    | ShuttingDown
    | Leaving
    | Gone

  datatype State = State(
    queued: int, queue: seq<Bytes>, open: bool, receiver: bool, shutdown: bool, error: Option<Error>,
    sender: Sender, worker: Worker,
    wire: Wire, failed: bool,
    accepted: seq<Bytes>, refused: bool)            // what `send` has returned so far

  ghost predicate Init(s: State) {
    s == State(0, [], true, true, false, None, Idle, Receiving, Wire([], 0, [], []), false, [], false)
  }

  datatype SenderStep =
    | Send(m: Bytes) | Enter | Load | Reserve
    | FailSpuriously                // a weak exchange may fail for no reason
    | Queue | Unreserve | Record | Stop
    | Close | CloseShutdown | Join

  datatype WorkerStep =
    | Receive | ReceiveEnds | Write(n: nat) | WriteEnds | WriteFails | Subtract | RecordFailure | ShutDown | Leave

  datatype Step = BySender(u: SenderStep) | ByWorker(w: WorkerStep)

  predicate SenderCan(step: SenderStep, s: State) {
    match step
    case Send(_) => s.sender.Idle?
    case Enter => s.sender.Entering?
    case Load => s.sender.Loading?
    case Reserve => s.sender.Reserving?
    case FailSpuriously => s.sender.Reserving? && Fits(s.sender.seen, |s.sender.m|)
    case Queue => s.sender.Queueing?
    case Unreserve => s.sender.Unreserving?
    case Record => s.sender.Failing?
    case Stop => s.sender.Stopping?
    case Close => s.sender.Idle?
    case CloseShutdown => s.sender.Closing?
    case Join => s.sender.Joining? && s.worker.Gone?
  }

  function SenderDoes(step: SenderStep, s: State): State
    requires SenderCan(step, s)
  {
    match step
    case Send(m) => s.(sender := Entering(m))
    case Enter =>
      if s.error.Some? || !s.open then s.(sender := Idle, refused := true)
      else s.(sender := Loading(s.sender.m))
    case Load => s.(sender := Reserving(s.sender.m, s.queued))
    case Reserve =>
      if !Fits(s.sender.seen, |s.sender.m|) then s.(sender := Failing)
      else if s.queued == s.sender.seen then s.(sender := Queueing(s.sender.m), queued := s.queued + |s.sender.m|)
      else s.(sender := Reserving(s.sender.m, s.queued))
    case FailSpuriously => s.(sender := Reserving(s.sender.m, s.queued))
    case Queue =>
      if s.receiver && |s.queue| < MAX_MESSAGES then
        s.(sender := Idle, queue := s.queue + [s.sender.m], accepted := s.accepted + [s.sender.m])
      else s.(sender := Unreserving(s.sender.m))
    case Unreserve => s.(sender := Failing, queued := s.queued - |s.sender.m|)
    case Record => s.(sender := Stopping, error := FirstError(s.error, Stalled))
    case Stop => s.(sender := Idle, shutdown := true, refused := true)
    case Close => s.(sender := Closing, open := false)
    case CloseShutdown => s.(sender := Joining, shutdown := true)
    case Join => s.(sender := Idle)
  }

  predicate WorkerCan(step: WorkerStep, s: State) {
    match step
    case Receive => s.worker.Receiving? && s.queue != []
    case ReceiveEnds => s.worker.Receiving? && s.queue == [] && !s.open
    case Write(n) => s.worker.Writing? && !s.shutdown && |s.wire.current| == 1 && 0 < n
        && s.wire.done + n <= |s.wire.current[0]|
    case WriteEnds => s.worker.Writing? && s.wire.Whole()
    case WriteFails => s.worker.Writing? && |s.wire.current| == 1 && s.wire.done < |s.wire.current[0]|
    case Subtract => s.worker.Subtracting?
    case RecordFailure => s.worker.Recording?
    case ShutDown => s.worker.ShuttingDown?
    case Leave => s.worker.Leaving?
  }

  function WorkerDoes(step: WorkerStep, s: State): State
    requires WorkerCan(step, s)
  {
    match step
    case Receive => s.(worker := Writing, wire := s.wire.Start(s.queue[0]), queue := s.queue[1..])
    case ReceiveEnds => s.(worker := Leaving)
    case Write(n) => s.(wire := s.wire.Put(n))
    case WriteEnds => s.(worker := Subtracting(|s.wire.current[0]|), wire := s.wire.Finish())
    case WriteFails => s.(worker := Subtracting(|s.wire.current[0]|), failed := true)
    case Subtract => s.(worker := if s.failed then Recording else Receiving, queued := s.queued - s.worker.size)
    case RecordFailure => s.(worker := ShuttingDown, error := FirstError(s.error, WriteFailed))
    case ShutDown => s.(worker := Leaving, shutdown := true)
    case Leave => s.(worker := Gone, receiver := false)
  }

  predicate Enabled(step: Step, s: State) {
    match step
    case BySender(u) => SenderCan(u, s)
    case ByWorker(w) => WorkerCan(w, s)
  }

  function After(step: Step, s: State): State
    requires Enabled(step, s)
  {
    match step
    case BySender(u) => SenderDoes(u, s)
    case ByWorker(w) => WorkerDoes(w, s)
  }

  ghost predicate Run(states: seq<State>, steps: seq<Step>) {
    && |states| == |steps| + 1
    && Init(states[0])
    && forall i :: 0 <= i < |steps| ==> Enabled(steps[i], states[i]) && states[i + 1] == After(steps[i], states[i])
  }

  // --- what every step keeps --------------------------------------------------------------

  /** What the count still owes: reserved and not queued, queued, taken and not subtracted. */
  function Reserved(r: Sender): nat { if r.Queueing? || r.Unreserving? then |r.m| else 0 }

  function Taken(worker: Worker, wire: Wire): nat {
    if worker.Writing? && |wire.current| == 1 then |wire.current[0]|
    else if worker.Subtracting? then worker.size
    else 0
  }

  ghost predicate Counted(s: State) {
    s.queued == Reserved(s.sender) + |Flat(s.queue)| + Taken(s.worker, s.wire) && s.queued <= MAX_BYTES
  }

  /** Only the sender adds: what it read last is never less than the count now. */
  ghost predicate SeenBounds(s: State) {
    s.sender.Reserving? ==> s.queued <= s.sender.seen <= MAX_BYTES
  }

  ghost predicate OneAtATime(s: State) {
    && s.wire.Valid()
    && (|s.wire.current| == 1 <==> s.worker.Writing? || s.failed)
    && (s.failed ==> s.wire.done < |s.wire.current[0]|)
    && (s.failed ==>
          || s.worker.Subtracting? || s.worker.Recording? || s.worker.ShuttingDown?
          || s.worker.Leaving? || s.worker.Gone?)
    && (s.worker.Recording? || s.worker.ShuttingDown? ==> s.failed)
    && (s.worker.Leaving? || s.worker.Gone? ==> s.failed || (s.queue == [] && !s.open))
    && (!s.receiver <==> s.worker.Gone?)
    && |s.queue| <= MAX_MESSAGES
  }

  /** Accepted messages are out, being written, or queued, in that order. */
  ghost predicate InOrder(s: State) { s.accepted == s.wire.sent + (s.wire.current + s.queue) }

  /** An error is not forgotten, and once recorded the socket is, or is about to be, shut down. */
  ghost predicate FailsClosed(s: State) {
    && (s.failed && (s.worker.ShuttingDown? || s.worker.Leaving? || s.worker.Gone?) ==> s.error.Some?)
    && (s.error.Some? ==> s.shutdown || s.worker.ShuttingDown? || s.sender.Stopping?)
    && (s.sender.Stopping? ==> s.error.Some?)
    && (s.sender.Joining? ==> s.shutdown)
    && (s.sender.Closing? || s.sender.Joining? ==> !s.open)
    && (!s.open ==> s.sender.Idle? || s.sender.Entering? || s.sender.Closing? || s.sender.Joining?)
  }

  ghost predicate RefusedForGood(s: State) {
    s.refused ==>
      && (s.error.Some? || !s.open)
      && (s.sender.Idle? || s.sender.Entering? || s.sender.Closing? || s.sender.Joining?)
  }

  ghost predicate Inv(s: State) {
    Counted(s) && SeenBounds(s) && OneAtATime(s) && InOrder(s) && s.wire.Gapless() && FailsClosed(s)
        && RefusedForGood(s)
  }

  lemma QueuedBytes(queue: seq<Bytes>, m: Bytes)
    ensures |Flat(queue + [m])| == |Flat(queue)| + |m|
  {
    FlatJoins(queue, [m]);
    FlatOne(m);
  }

  lemma ReceivedBytes(queue: seq<Bytes>)
    requires queue != []
    ensures |Flat(queue)| == |queue[0]| + |Flat(queue[1..])|
  {
  }

  lemma QueueingKeepsCount(s: State)
    requires Counted(s) && s.sender.Queueing?
    ensures Counted(SenderDoes(Queue, s))
  {
    var s', m := SenderDoes(Queue, s), s.sender.m;
    assert Taken(s'.worker, s'.wire) == Taken(s.worker, s.wire);
    if s'.sender.Idle? {
      QueuedBytes(s.queue, m);
      var before, after := |Flat(s.queue)|, |Flat(s'.queue)|;
      assert after == before + |m|;
    }
  }

  lemma ReservingKeepsCount(s: State)
    requires Counted(s) && SeenBounds(s) && s.sender.Reserving?
    ensures Counted(SenderDoes(Reserve, s)) && SeenBounds(SenderDoes(Reserve, s))
  {
    var s', m := SenderDoes(Reserve, s), s.sender.m;
    if !Fits(s.sender.seen, |m|) {
      assert s' == s.(sender := Failing);
    } else if s.queued == s.sender.seen {
      assert s' == s.(sender := Queueing(m), queued := s.queued + |m|);
    } else {
      assert s' == s.(sender := Reserving(m, s.queued));
    }
  }

  /** `s` with the sender elsewhere and nothing counted. */
  ghost predicate NothingCounted(s: State, s': State) {
    && s'.queue == s.queue && s'.worker == s.worker && s'.wire == s.wire && s'.queued == s.queued
    && Reserved(s'.sender) == Reserved(s.sender) && SeenBounds(s')
  }

  lemma LookingCountsNothing(step: SenderStep, s: State)
    requires s.queued <= MAX_BYTES && SenderCan(step, s) && (step.Enter? || step.Load? || step.FailSpuriously?)
    ensures NothingCounted(s, SenderDoes(step, s))
  {
    var s' := SenderDoes(step, s);
    if step.Enter? {
      assert s' == s.(sender := Idle, refused := true) || s' == s.(sender := Loading(s.sender.m));
    } else {
      assert s' == s.(sender := Reserving(s.sender.m, s.queued));
    }
  }

  /** The steps that neither reserve, queue nor give back. */
  lemma OtherStepsCountNothing(step: SenderStep, s: State)
    requires s.queued <= MAX_BYTES && SenderCan(step, s)
    requires !step.Queue? && !step.Reserve? && !step.Unreserve?
    ensures NothingCounted(s, SenderDoes(step, s))
  {
    if step.Enter? || step.Load? || step.FailSpuriously? {
      LookingCountsNothing(step, s);
    } else {
      assert !SenderDoes(step, s).sender.Reserving?;
    }
  }

  lemma SenderKeepsCount(step: SenderStep, s: State)
    requires Counted(s) && SeenBounds(s) && SenderCan(step, s)
    ensures Counted(SenderDoes(step, s)) && SeenBounds(SenderDoes(step, s))
  {
    if step.Queue? {
      QueueingKeepsCount(s);
    } else if step.Reserve? {
      ReservingKeepsCount(s);
    } else if step.Unreserve? {
      assert SenderDoes(step, s).queue == s.queue;
    } else {
      OtherStepsCountNothing(step, s);
    }
  }

  lemma WorkerKeepsCount(step: WorkerStep, s: State)
    requires Counted(s) && SeenBounds(s) && OneAtATime(s) && WorkerCan(step, s)
    ensures Counted(WorkerDoes(step, s)) && SeenBounds(WorkerDoes(step, s))
  {
    var s' := WorkerDoes(step, s);
    assert s'.sender == s.sender;
    if step.Receive? {
      ReceivedBytes(s.queue);
    }
  }

  lemma SenderKeepsOneAtATime(step: SenderStep, s: State)
    requires OneAtATime(s) && FailsClosed(s) && SenderCan(step, s)
    ensures OneAtATime(SenderDoes(step, s))
  {
  }

  lemma WorkerKeepsOneAtATime(step: WorkerStep, s: State)
    requires OneAtATime(s) && WorkerCan(step, s)
    ensures OneAtATime(WorkerDoes(step, s))
  {
  }

  lemma WireKept(step: WorkerStep, s: State)
    requires s.wire.Gapless() && OneAtATime(s) && WorkerCan(step, s)
    ensures WorkerDoes(step, s).wire.Gapless()
  {
    match step
    case Receive => s.wire.StartKeeps(s.queue[0]);
    case Write(n) => s.wire.PutKeeps(n);
    case WriteEnds => s.wire.FinishKeeps();
    case _ =>
  }

  lemma Regrouped(a: seq<Bytes>, b: seq<Bytes>, c: seq<Bytes>)
    ensures a + (b + c) == (a + b) + c
  {
  }

  lemma SenderKeepsOrder(step: SenderStep, s: State)
    requires InOrder(s) && SenderCan(step, s)
    ensures InOrder(SenderDoes(step, s))
  {
    if step.Queue? {
      Regrouped(s.wire.current, s.queue, [s.sender.m]);
      Regrouped(s.wire.sent, s.wire.current + s.queue, [s.sender.m]);
    } else {
      assert SenderDoes(step, s).queue == s.queue && SenderDoes(step, s).accepted == s.accepted;
    }
  }

  lemma WorkerKeepsOrder(step: WorkerStep, s: State)
    requires InOrder(s) && OneAtATime(s) && WorkerCan(step, s)
    ensures InOrder(WorkerDoes(step, s))
  {
  }

  lemma SenderFailsClosed(step: SenderStep, s: State)
    requires FailsClosed(s) && RefusedForGood(s) && SenderCan(step, s)
    ensures FailsClosed(SenderDoes(step, s)) && RefusedForGood(SenderDoes(step, s))
  {
  }

  lemma WorkerFailsClosed(step: WorkerStep, s: State)
    requires FailsClosed(s) && OneAtATime(s) && RefusedForGood(s) && WorkerCan(step, s)
    ensures FailsClosed(WorkerDoes(step, s)) && RefusedForGood(WorkerDoes(step, s))
  {
  }

  lemma SenderStepKeeps(u: SenderStep, s: State)
    requires Inv(s) && SenderCan(u, s)
    ensures Inv(SenderDoes(u, s))
  {
    SenderKeepsCount(u, s);
    SenderKeepsOneAtATime(u, s);
    SenderKeepsOrder(u, s);
    SenderFailsClosed(u, s);
    assert SenderDoes(u, s).wire == s.wire;
  }

  lemma WorkerStepKeeps(w: WorkerStep, s: State)
    requires Inv(s) && WorkerCan(w, s)
    ensures Inv(WorkerDoes(w, s))
  {
    WorkerKeepsCount(w, s);
    WorkerKeepsOneAtATime(w, s);
    WireKept(w, s);
    WorkerKeepsOrder(w, s);
    WorkerFailsClosed(w, s);
  }

  lemma StepKeeps(step: Step, s: State)
    requires Inv(s) && Enabled(step, s)
    ensures Inv(After(step, s))
  {
    match step
    case BySender(u) => SenderStepKeeps(u, s);
    case ByWorker(w) => WorkerStepKeeps(w, s);
  }

  lemma {:induction false} RunKeeps(states: seq<State>, steps: seq<Step>, i: nat)
    requires Run(states, steps) && i < |states|
    ensures Inv(states[i])
  {
    if i > 0 {
      RunKeeps(states, steps, i - 1);
      StepKeeps(steps[i - 1], states[i - 1]);
    }
  }

  // --- what that means ----------------------------------------------------------------------

  /** GAPLESS: in every reachable state the bytes written are a prefix of the accepted
      messages one after another. */
  lemma WrittenIsPrefix(states: seq<State>, steps: seq<Step>, i: nat)
    requires Run(states, steps) && i < |states|
    ensures states[i].wire.written <= Flat(states[i].accepted)
  {
    RunKeeps(states, steps, i);
    var wire := states[i].wire;
    FlatJoins(wire.sent, wire.current + states[i].queue);
    FlatJoins(wire.current, states[i].queue);
    if wire.current != [] {
      assert wire.current == [wire.current[0]];
      FlatOne(wire.current[0]);
    }
  }

  /** A worker gone without a failed write has written everything accepted; one gone after a
      failed write has left an error behind and a socket shut down. */
  lemma ExitIsCompleteOrReported(states: seq<State>, steps: seq<Step>, i: nat)
    requires Run(states, steps) && i < |states| && states[i].worker.Gone?
    ensures var s := states[i];
            && (!s.failed ==> s.wire.written == Flat(s.accepted))
            && (s.failed ==> s.error.Some?)
  {
    RunKeeps(states, steps, i);
    var s := states[i];
    if !s.failed {
      assert s.wire.sent + (s.wire.current + s.queue) == s.wire.sent;
    }
  }

  /** FAILING CLOSED: once an error is recorded, the socket is shut down or whoever recorded it
      is about to shut it down. */
  lemma ErrorShutsDown(states: seq<State>, steps: seq<Step>, i: nat)
    requires Run(states, steps) && i < |states| && states[i].error.Some?
    ensures states[i].shutdown || states[i].worker.ShuttingDown? || states[i].sender.Stopping?
  {
    RunKeeps(states, steps, i);
  }

  /** The count covers every pending byte, is never negative and never passes the limit; nor
      does the number of messages. */
  lemma CountIsExact(states: seq<State>, steps: seq<Step>, i: nat)
    requires Run(states, steps) && i < |states|
    ensures var s := states[i];
            && 0 <= s.queued <= MAX_BYTES
            && s.queued == Reserved(s.sender) + |Flat(s.queue)| + Taken(s.worker, s.wire)
            && |s.queue| <= MAX_MESSAGES
  {
    RunKeeps(states, steps, i);
  }

  /** NOTHING AFTER A REFUSAL: once a send has been refused nothing more is accepted. */
  lemma {:induction false} RefusalIsFinal(states: seq<State>, steps: seq<Step>, i: nat, j: nat)
    requires Run(states, steps) && i <= j < |states| && states[i].refused
    ensures states[j].refused && states[j].accepted == states[i].accepted
  {
    if i < j {
      RefusalIsFinal(states, steps, i, j - 1);
      RefusedNext(states, steps, j - 1);
    }
  }

  lemma RefusedNext(states: seq<State>, steps: seq<Step>, i: nat)
    requires Run(states, steps) && i < |steps| && states[i].refused
    ensures states[i + 1].refused && states[i + 1].accepted == states[i].accepted
  {
    RefusedInRun(states, steps, i);
    RefusedStep(steps[i], states[i]);
  }

  lemma RefusedInRun(states: seq<State>, steps: seq<Step>, i: nat)
    requires Run(states, steps) && i < |states|
    ensures RefusedForGood(states[i])
  {
    RunKeeps(states, steps, i);
  }

  lemma RefusedStep(step: Step, s: State)
    requires s.refused && RefusedForGood(s) && Enabled(step, s)
    ensures After(step, s).refused && After(step, s).accepted == s.accepted
  {
    match step
    case BySender(u) => RefusedSender(u, s);
    case ByWorker(_) =>
  }

  lemma RefusedSender(u: SenderStep, s: State)
    requires s.refused && RefusedForGood(s) && SenderCan(u, s)
    ensures SenderDoes(u, s).refused && SenderDoes(u, s).accepted == s.accepted
  {
  }

  // --- why a send is refused, and when it is not ----------------------------------------------

  /** The four reasons `send` has for turning a message away. */
  predicate Refuses(step: Step, s: State) {
    step.BySender? && SenderCan(step.u, s) &&
    match step.u
    case Enter => s.error.Some? || !s.open
    case Reserve => s.sender.seen + |s.sender.m| > MAX_BYTES
    case Queue => !s.receiver || |s.queue| >= MAX_MESSAGES
    case _ => false
  }

  /** One of them, since the message now in hand was handed in. */
  ghost predicate RefusedSince(states: seq<State>, steps: seq<Step>, i: nat)
    requires |states| == |steps| + 1 && i < |states|
  {
    exists j :: 0 <= j < i && Refuses(steps[j], states[j])
                && forall k :: j < k < i && steps[k].BySender? ==> !steps[k].u.Send?
  }

  predicate TurningAway(r: Sender) { r.Unreserving? || r.Failing? || r.Stopping? }

  lemma TurnedAwayBySender(u: SenderStep, s: State)
    requires SenderCan(u, s) && TurningAway(SenderDoes(u, s).sender)
    ensures Refuses(BySender(u), s) || (TurningAway(s.sender) && !u.Send?)
  {
  }

  lemma WorkerLeavesSender(w: WorkerStep, s: State)
    requires WorkerCan(w, s)
    ensures var s' := WorkerDoes(w, s);
            s'.sender == s.sender && s'.accepted == s.accepted && s'.refused == s.refused
  {
  }

  lemma TurnedAwayBy(step: Step, s: State)
    requires Enabled(step, s) && TurningAway(After(step, s).sender)
    ensures Refuses(step, s) || (TurningAway(s.sender) && !(step.BySender? && step.u.Send?))
  {
    match step
    case BySender(u) => TurnedAwayBySender(u, s);
    case ByWorker(w) => WorkerLeavesSender(w, s);
  }

  lemma {:induction false} TurnedAwayForAReason(states: seq<State>, steps: seq<Step>, i: nat)
    requires Run(states, steps) && i < |states| && TurningAway(states[i].sender)
    ensures RefusedSince(states, steps, i)
  {
    assert i > 0;
    TurnedAwayBy(steps[i - 1], states[i - 1]);
    if !Refuses(steps[i - 1], states[i - 1]) {
      TurnedAwayForAReason(states, steps, i - 1);
      var j :| 0 <= j < i - 1 && Refuses(steps[j], states[j])
               && forall k :: j < k < i - 1 && steps[k].BySender? ==> !steps[k].u.Send?;
      assert forall k :: j < k < i && steps[k].BySender? ==> !steps[k].u.Send?;
    }
  }

  /** The step at which a send returns with an error. */
  predicate ReturnsError(step: Step, s: State) {
    Enabled(step, s) && step.BySender? && (step.u.Stop? || (step.u.Enter? && SenderDoes(Enter, s).sender.Idle?))
  }

  /** NO REFUSAL WITHOUT A REASON, and none forgotten: in every run a send fails only if an error was recorded or the
      sending end closed when it began, or its bytes did not fit a count read, or the receiver was
      gone or the queue full when they were counted. */
  lemma RefusedForAReason(states: seq<State>, steps: seq<Step>, i: nat)
    requires Run(states, steps) && i < |steps| && ReturnsError(steps[i], states[i])
    ensures Refuses(steps[i], states[i]) || RefusedSince(states, steps, i)
    ensures states[i + 1].sender.Idle? && states[i + 1].refused
  {
    assert states[i + 1] == After(steps[i], states[i]);
    if steps[i].u.Stop? {
      TurnedAwayForAReason(states, steps, i);
    }
  }

  ghost predicate ErrorExplained(states: seq<State>, steps: seq<Step>, i: nat)
    requires |states| == |steps| + 1 && i < |states|
  {
    && (states[i].error == Some(WriteFailed) ==> states[i].failed)
    && (states[i].error == Some(Stalled) ==> exists j :: 0 <= j < i && Refuses(steps[j], states[j]))
  }

  /** A recorded error stays; a new one is a failed write's or the failing sender's. */
  ghost predicate ErrorNext(s: State, s': State) {
    && (s.failed ==> s'.failed)
    && (s.error.Some? ==> s'.error == s.error)
    && (s.error.None? && s'.error == Some(WriteFailed) ==> s'.failed)
    && (s.error.None? && s'.error == Some(Stalled) ==> s.sender.Failing?)
  }

  lemma ErrorBySender(u: SenderStep, s: State)
    requires SenderCan(u, s)
    ensures ErrorNext(s, SenderDoes(u, s))
  {
  }

  lemma ErrorByWorker(w: WorkerStep, s: State)
    requires OneAtATime(s) && WorkerCan(w, s)
    ensures ErrorNext(s, WorkerDoes(w, s))
  {
  }

  lemma ErrorBy(step: Step, s: State)
    requires OneAtATime(s) && Enabled(step, s)
    ensures ErrorNext(s, After(step, s))
  {
    match step
    case BySender(u) => ErrorBySender(u, s);
    case ByWorker(w) => ErrorByWorker(w, s);
  }

  /** THE FIRST REASON STAYS, and it is the right one: a write failed, or a message did not fit. */
  lemma {:induction false} ErrorIsExplained(states: seq<State>, steps: seq<Step>, i: nat)
    requires Run(states, steps) && i < |states|
    ensures ErrorExplained(states, steps, i)
    ensures i > 0 && states[i - 1].error.Some? ==> states[i].error == states[i - 1].error
  {
    if i > 0 {
      ErrorIsExplained(states, steps, i - 1);
      RunKeeps(states, steps, i - 1);
      ErrorBy(steps[i - 1], states[i - 1]);
      if states[i - 1].sender.Failing? {
        TurnedAwayForAReason(states, steps, i - 1);
        var j :| 0 <= j < i - 1 && Refuses(steps[j], states[j]);
        assert 0 <= j < i;
      } else if states[i].error == Some(Stalled) {
        var j :| 0 <= j < i - 1 && Refuses(steps[j], states[j]);
        assert 0 <= j < i;
      }
    }
  }

  /** A send under way with room for it. */
  ghost predicate OnItsWay(s: State, m: Bytes) {
    && s.open && s.receiver && |s.queue| < MAX_MESSAGES
    && match s.sender
       case Entering(n) => n == m && s.error.None? && Fits(s.queued, |m|)
       case Loading(n) => n == m && Fits(s.queued, |m|)
       case Reserving(n, seen) => n == m && Fits(seen, |m|)
       case Queueing(n) => n == m
       case _ => false
  }

  ghost predicate NoNewCall(step: Step) { step.BySender? ==> !step.u.Send? && !step.u.Close? }

  /** Not yet returned, or returned and accepted. */
  ghost predicate Accepting(s: State, m: Bytes, before: seq<Bytes>, refused: bool) {
    && s.refused == refused
    && if s.sender.Idle? then s.accepted == before + [m] else OnItsWay(s, m) && s.accepted == before
  }

  lemma SenderGoesOn(u: SenderStep, s: State, m: Bytes)
    requires SeenBounds(s) && SenderCan(u, s) && OnItsWay(s, m)
    ensures Accepting(SenderDoes(u, s), m, s.accepted, s.refused)
  {
  }

  lemma WorkerLetsGoOn(w: WorkerStep, s: State, m: Bytes)
    requires OneAtATime(s) && WorkerCan(w, s) && OnItsWay(s, m) && !WorkerDoes(w, s).failed
    ensures OnItsWay(WorkerDoes(w, s), m)
  {
    WorkerLeavesSender(w, s);
  }

  lemma IdleOnlyBegins(u: SenderStep, s: State)
    requires SenderCan(u, s) && s.sender.Idle?
    ensures u.Send? || u.Close?
  {
  }

  lemma AcceptingNext(step: Step, s: State, m: Bytes, before: seq<Bytes>, refused: bool)
    requires SeenBounds(s) && OneAtATime(s) && Enabled(step, s) && NoNewCall(step) && !After(step, s).failed
    requires Accepting(s, m, before, refused)
    ensures Accepting(After(step, s), m, before, refused)
  {
    match step
    case BySender(u) =>
      if s.sender.Idle? {
        IdleOnlyBegins(u, s);
      } else {
        SenderGoesOn(u, s, m);
      }
    case ByWorker(w) =>
      WorkerLeavesSender(w, s);
      if !s.sender.Idle? {
        WorkerLetsGoOn(w, s, m);
      }
  }

  lemma InRun(states: seq<State>, steps: seq<Step>, i: nat)
    requires Run(states, steps) && i < |states|
    ensures SeenBounds(states[i]) && OneAtATime(states[i]) && FailsClosed(states[i])
  {
    RunKeeps(states, steps, i);
  }

  lemma AcceptingInRun(states: seq<State>, steps: seq<Step>, i: nat, m: Bytes, before: seq<Bytes>, refused: bool)
    requires Run(states, steps) && i < |steps| && NoNewCall(steps[i]) && !states[i + 1].failed
    ensures !states[i].failed
    ensures Accepting(states[i], m, before, refused) ==> Accepting(states[i + 1], m, before, refused)
  {
    InRun(states, steps, i);
    ErrorBy(steps[i], states[i]);
    if Accepting(states[i], m, before, refused) {
      AcceptingNext(steps[i], states[i], m, before, refused);
    }
  }

  ghost predicate HasRoom(s: State) {
    s.sender.Entering? && s.error.None? && s.open && s.queued + |s.sender.m| <= MAX_BYTES && |s.queue| < MAX_MESSAGES
  }

  lemma RoomIsOnItsWay(s: State)
    requires OneAtATime(s) && HasRoom(s) && !s.failed
    ensures OnItsWay(s, s.sender.m)
  {
  }

  lemma {:induction false} AcceptingStays(states: seq<State>, steps: seq<Step>, i: nat, j: nat,
                                          m: Bytes, before: seq<Bytes>, refused: bool)
    requires Run(states, steps) && i <= j < |states| && !states[j].failed
    requires forall k :: i <= k < j ==> NoNewCall(steps[k])
    ensures !states[i].failed
    ensures Accepting(states[i], m, before, refused) ==> Accepting(states[j], m, before, refused)
  {
    if i < j {
      AcceptingInRun(states, steps, j - 1, m, before, refused);
      AcceptingStays(states, steps, i, j - 1, m, before, refused);
    }
  }

  /** ROOM MEANS ACCEPTED: a send that begins with no error, open, with room for its bytes and for
      one more message is never turned away while no write fails, whatever the worker does and
      however often the exchange is lost; once it has returned, its message is accepted. */
  lemma RoomMeansAccepted(states: seq<State>, steps: seq<Step>, i: nat, j: nat)
    requires Run(states, steps) && i <= j < |states| && HasRoom(states[i]) && !states[j].failed
    requires forall k :: i <= k < j ==> NoNewCall(steps[k])
    ensures Accepting(states[j], states[i].sender.m, states[i].accepted, states[i].refused)
  {
    AcceptingStays(states, steps, i, j, states[i].sender.m, states[i].accepted, states[i].refused);
    RoomInRun(states, steps, i);
  }

  lemma RoomInRun(states: seq<State>, steps: seq<Step>, i: nat)
    requires Run(states, steps) && i < |states| && HasRoom(states[i]) && !states[i].failed
    ensures Accepting(states[i], states[i].sender.m, states[i].accepted, states[i].refused)
  {
    InRun(states, steps, i);
    RoomIsOnItsWay(states[i]);
  }

  /** Left alone, a call for which there is room takes five steps, and changes nothing else. */
  lemma RoomTakesFiveSteps(states: seq<State>, steps: seq<Step>, i: nat, m: Bytes)
    requires Run(states, steps) && i < |states| && states[i].sender.Idle? && !states[i].failed
    requires HasRoom(states[i].(sender := Entering(m)))
    ensures var s := states[i]; var s1 := SenderDoes(Send(m), s);
            && SenderCan(Enter, s1) && var s2 := SenderDoes(Enter, s1);
            && SenderCan(Load, s2) && var s3 := SenderDoes(Load, s2);
            && SenderCan(Reserve, s3) && var s4 := SenderDoes(Reserve, s3);
            && SenderCan(Queue, s4)
            && SenderDoes(Queue, s4) ==
               s.(queued := s.queued + |m|, queue := s.queue + [m], accepted := s.accepted + [m])
  {
    InRun(states, steps, i);
  }

  /** Closing, in three steps of the sender's own, drops the sending end, then shuts the socket
      down, and once the worker is gone is done. */
  lemma CloseTakesThreeSteps(s: State)
    requires s.sender.Idle?
    ensures var s1 := SenderDoes(Close, s);
            && SenderCan(CloseShutdown, s1) && var s2 := SenderDoes(CloseShutdown, s1);
            && s2 == s.(sender := Joining, open := false, shutdown := true)
            && (SenderCan(Join, s2) <==> s.worker.Gone?)
            && (SenderCan(Join, s2) ==> SenderDoes(Join, s2) == s2.(sender := Idle))
  {
  }

  /** How far a call is from returning; a lost exchange counts down what was seen. */
  function CallLeft(r: Sender): nat {
    match r
    case Idle => 0
    case Entering(_) => 7
    case Loading(_) => 6
    case Reserving(_, _) => 5
    case Queueing(_) => 4
    case Unreserving(_) => 3
    case Failing => 2
    case Stopping => 1
    case Closing => 2
    case Joining => 1
  }

  /** EVERY SEND RETURNS: it always has a step of its own, and each brings the end nearer, but for
      an exchange that fails for no reason. */
  lemma SendReturns(states: seq<State>, steps: seq<Step>, i: nat, u: SenderStep)
    requires Run(states, steps) && i < |states|
    requires var r := states[i].sender; !r.Idle? && !r.Joining?
    ensures exists next: SenderStep :: SenderCan(next, states[i]) && !next.FailSpuriously?
    ensures SenderCan(u, states[i]) && !u.FailSpuriously? ==>
              var r, r' := states[i].sender, SenderDoes(u, states[i]).sender;
              || CallLeft(r') < CallLeft(r)
              || (r.Reserving? && r'.Reserving? && 0 <= r'.seen < r.seen)
  {
    InRun(states, steps, i);
    RunKeeps(states, steps, i);
    SenderHasStep(states[i]);
    if SenderCan(u, states[i]) && !u.FailSpuriously? {
      CallGetsNearer(u, states[i]);
    }
  }

  lemma SenderHasStep(s: State)
    requires !s.sender.Idle? && !s.sender.Joining?
    ensures exists next: SenderStep :: SenderCan(next, s) && !next.FailSpuriously?
  {
    var next := match s.sender
      case Entering(_) => Enter
      case Loading(_) => Load
      case Reserving(_, _) => Reserve
      case Queueing(_) => Queue
      case Unreserving(_) => Unreserve
      case Failing => Record
      case Stopping => Stop
      case Closing => CloseShutdown
      case _ => Join;
    assert SenderCan(next, s) && !next.FailSpuriously?;
  }

  lemma CallGetsNearer(u: SenderStep, s: State)
    requires SeenBounds(s) && 0 <= s.queued && SenderCan(u, s) && !u.FailSpuriously?
    requires !s.sender.Idle? && !s.sender.Joining?
    ensures var r, r' := s.sender, SenderDoes(u, s).sender;
            CallLeft(r') < CallLeft(r) || (r.Reserving? && r'.Reserving? && 0 <= r'.seen < r.seen)
  {
    if s.sender.Reserving? {
      assert u == Reserve;
    } else {
      CallPhaseEnds(u, s);
    }
  }

  lemma CallPhaseEnds(u: SenderStep, s: State)
    requires SenderCan(u, s) && !s.sender.Idle? && !s.sender.Joining? && !s.sender.Reserving?
    ensures CallLeft(SenderDoes(u, s).sender) < CallLeft(s.sender)
  {
    match s.sender
    case Entering(_) => assert u == Enter;
    case Loading(_) => assert u == Load;
    case Queueing(_) => assert u == Queue;
    case Unreserving(_) => assert u == Unreserve;
    case Failing => assert u == Record;
    case Stopping => assert u == Stop;
    case Closing => assert u == CloseShutdown;
    case _ =>
  }

  /** An exchange that fails on the value means the worker has taken bytes off, so what the
      loop has seen goes down: it cannot fail so for ever. */
  lemma LostExchangeIsProgress(states: seq<State>, steps: seq<Step>, i: nat)
    requires Run(states, steps) && i < |states| && states[i].sender.Reserving?
    requires var s := states[i]; Fits(s.sender.seen, |s.sender.m|) && s.queued != s.sender.seen
    ensures var s, s' := states[i], SenderDoes(Reserve, states[i]);
            s'.sender.Reserving? && 0 <= s'.sender.seen < s.sender.seen
  {
    RunKeeps(states, steps, i);
  }

  // --- the worker writes on -------------------------------------------------------------------

  /** Nothing to write and more may come. */
  predicate WaitsForWork(s: State) { s.worker.Receiving? && s.queue == [] && s.open }

  /** Bytes not yet written, and what else stands between the worker and waiting. */
  function WorkLeft(s: State): int {
    |Flat(s.queue)| + (if |s.wire.current| == 1 then |s.wire.current[0]| - s.wire.done else 0) + StepsLeft(s)
  }

  lemma WorkGetsLess(w: WorkerStep, s: State)
    requires OneAtATime(s) && !s.failed && WorkerCan(w, s) && !w.WriteFails?
    ensures 0 <= WorkLeft(WorkerDoes(w, s)) < WorkLeft(s)
  {
    match w
    case Receive => ReceivedBytes(s.queue);
    case _ =>
  }

  lemma WorkerCanGoOn(s: State)
    requires OneAtATime(s) && !s.failed && !s.shutdown && !s.worker.Gone? && !WaitsForWork(s)
    ensures exists w: WorkerStep :: WorkerCan(w, s) && !w.WriteFails?
  {
    match s.worker
    case Receiving => assert WorkerCan(if s.queue != [] then Receive else ReceiveEnds, s);
    case Writing =>
      assert WorkerCan(if s.wire.Whole() then WriteEnds else Write(|s.wire.current[0]| - s.wire.done), s);
    case Subtracting(_) => assert WorkerCan(Subtract, s);
    case Leaving => assert WorkerCan(Leave, s);
    case _ =>
  }

  /** WHAT IS ACCEPTED IS WRITTEN: on a socket still up, with no write failed, the worker waits only
      with every accepted byte written; until then it has a step to take, and each brings that
      nearer. */
  lemma WorkerWritesOn(states: seq<State>, steps: seq<Step>, i: nat, w: WorkerStep)
    requires Run(states, steps) && i < |states|
    requires !states[i].failed && !states[i].shutdown && !states[i].worker.Gone?
    ensures WaitsForWork(states[i]) ==> states[i].wire.written == Flat(states[i].accepted)
    ensures !WaitsForWork(states[i]) ==> exists next: WorkerStep :: WorkerCan(next, states[i]) && !next.WriteFails?
    ensures WorkerCan(w, states[i]) && !w.WriteFails? ==> 0 <= WorkLeft(WorkerDoes(w, states[i])) < WorkLeft(states[i])
  {
    InRun(states, steps, i);
    if WaitsForWork(states[i]) {
      WaitingHasWritten(states, steps, i);
    } else {
      WorkerCanGoOn(states[i]);
    }
    if WorkerCan(w, states[i]) && !w.WriteFails? {
      WorkGetsLess(w, states[i]);
    }
  }

  lemma WaitingHasWritten(states: seq<State>, steps: seq<Step>, i: nat)
    requires Run(states, steps) && i < |states| && !states[i].failed && WaitsForWork(states[i])
    ensures states[i].wire.written == Flat(states[i].accepted)
  {
    RunKeeps(states, steps, i);
    var s := states[i];
    assert s.wire.sent + (s.wire.current + s.queue) == s.wire.sent;
  }

  // --- closing ends ---------------------------------------------------------------------------

  function Rank(w: Worker): nat {
    match w
    case Gone => 0
    case Leaving => 1
    case ShuttingDown => 2
    case Recording => 3
    case Receiving => 4
    case Subtracting(_) => 5
    case Writing => 6
  }

  /** Bounds the steps of a worker that can write no more. */
  function StepsLeft(s: State): nat { 3 * |s.queue| + Rank(s.worker) }

  /** CLOSING ENDS: once closing has shut the socket down, the worker always has a step to
      take until it is gone, only the worker moves, and each of its steps brings that nearer. */
  lemma CloseEnds(states: seq<State>, steps: seq<Step>, i: nat, step: Step)
    requires Run(states, steps) && i < |states| && states[i].sender.Joining? && !states[i].worker.Gone?
    ensures exists w: WorkerStep :: WorkerCan(w, states[i])
    ensures Enabled(step, states[i]) ==> step.ByWorker? && StepsLeft(After(step, states[i])) < StepsLeft(states[i])
  {
    RunKeeps(states, steps, i);
    WorkerHasStep(states[i]);
    if Enabled(step, states[i]) && step.ByWorker? {
      WorkerStepCounts(step.w, states[i]);
    }
  }

  lemma WorkerHasStep(s: State)
    requires OneAtATime(s) && !s.open && !s.worker.Gone?
    ensures exists w: WorkerStep :: WorkerCan(w, s)
  {
    match s.worker
    case Receiving => assert WorkerCan(if s.queue != [] then Receive else ReceiveEnds, s);
    case Writing => assert WorkerCan(if s.wire.Whole() then WriteEnds else WriteFails, s);
    case Subtracting(_) => assert WorkerCan(Subtract, s);
    case Recording => assert WorkerCan(RecordFailure, s);
    case ShuttingDown => assert WorkerCan(ShutDown, s);
    case Leaving => assert WorkerCan(Leave, s);
  }

  lemma WorkerStepCounts(w: WorkerStep, s: State)
    requires s.shutdown && WorkerCan(w, s)
    ensures StepsLeft(WorkerDoes(w, s)) < StepsLeft(s)
  {
  }
}
