/** What happens after the link ends (`Link`, `on_link_lost`, `reconnect_now`, `start_attempt`,
    `poll_reconnect`, `attempt_failed`, `adopt` in crates/client/src/app.rs): who holds the
    endpoint, what is retried, and when it stops. */
module Reconnect {
  import opened Options
  import opened Rejection

  /** Seconds. */
  type Instant = nat

  const RETRY_BACKOFF: seq<nat> := [1, 2, 4, 8, 15, 30]
  const RETRY_BUDGET: nat := 8

  /** The last wait repeats. */
  function RetryDelay(spent: nat): nat {
    RETRY_BACKOFF[if spent < |RETRY_BACKOFF| - 1 then spent else |RETRY_BACKOFF| - 1]
  }

  datatype Link =
    | Up
    | Lost(reason: string, since: Instant)
    | Reconnecting(reason: string, since: Instant, attempt: nat, nextTry: Instant)
    | Gone(reason: string, since: Instant)

  /** A tunnel, by its identity. */
  type Endpoint = nat

  datatype Outcome = Connected | Refused(reason: string)

  /** The worker of an attempt, and its one-place channel back. */
  datatype Worker = Dialling(held: Endpoint) | Answered(held: Endpoint, outcome: Outcome) | Vanished

  /** Whether the worker thread could be started. */
  datatype Spawn = Started | Failed(error: string)

  datatype Session = Session(link: Link, attempts: nat, endpoint: Option<Endpoint>, attempt: Option<Worker>)

  // --- what each operation does -----------------------------------------------------------

  function LinkLost(s: Session, reason: string, now: Instant): Session {
    if !s.link.Up? then s
    else
      s.(attempts := 0,
         link := if Classify(reason) == Fatal then Gone(reason, now)
                 else if s.endpoint.None? then Gone(reason + " (this session has no way to reconnect)", now)
                 else Reconnecting(reason, now, 0, now + RetryDelay(0)))
  }

  function AttemptStarted(s: Session, now: Instant, spawn: Spawn): Session {
    if s.link.Up? then s
    else if s.endpoint.None? then s.(link := Gone(s.link.reason + " (there is no way left to reconnect)", s.link.since))
    else match spawn
      case Started =>
        s.(endpoint := None, attempts := s.attempts + 1, attempt := Some(Dialling(s.endpoint.value)),
           link := Reconnecting(s.link.reason, s.link.since, s.attempts + 1, now))
      case Failed(error) =>
        s.(endpoint := None, attempts := s.attempts + 1,
           link := Gone("could not start a reconnection: " + error, s.link.since))
  }

  function AskedNow(s: Session, now: Instant, spawn: Spawn): Session {
    if s.attempt.Some? || s.link.Up? || s.link.Gone? then s
    else AttemptStarted(s.(attempts := 0), now, spawn)
  }

  function AttemptFailed(s: Session, reason: string, now: Instant): Session {
    if s.link.Up? then s
    else if Classify(reason) == Fatal then s.(link := Gone(reason, s.link.since))
    else if s.attempts >= RETRY_BUDGET || s.endpoint.None? then
      s.(link := Lost(reason + " (gave up after " + Decimal(s.attempts) + " attempts)", s.link.since))
    else s.(link := Reconnecting(reason, s.link.since, s.attempts, now + RetryDelay(s.attempts)))
  }

  function Adopted(s: Session): Session { s.(link := Up, attempts := 0) }

  function Polled(s: Session, now: Instant, spawn: Spawn): Session {
    match s.attempt
    case Some(Answered(e, outcome)) =>
      var back := s.(attempt := None, endpoint := Some(e));
      if outcome.Connected? then Adopted(back) else AttemptFailed(back, outcome.reason, now)
    case Some(Dialling(_)) => s
    case Some(Vanished) => AttemptFailed(s.(attempt := None), "the reconnection stopped unexpectedly", now)
    case None =>
      if s.link.Reconnecting? && now >= s.link.nextTry then AttemptStarted(s, now, spawn) else s
  }

  // --- the object ---------------------------------------------------------------------------

  class Window {
    var link: Link
    var attempts: nat
    var endpoint: Option<Endpoint>
    var attempt: Option<Worker>

    ghost function State(): Session
      reads this
    {
      Session(link, attempts, endpoint, attempt)
    }

    constructor (e: Option<Endpoint>)
      ensures State() == Session(Up, 0, e, None)
    {
      link, attempts, endpoint, attempt := Up, 0, e, None;
    }

    method OnLinkLost(reason: string, now: Instant)
      modifies this
      ensures State() == LinkLost(old(State()), reason, now)
    {
      if !link.Up? {
        return;
      }
      attempts := 0;
      if Classify(reason) == Fatal {
        link := Gone(reason, now);
      } else if endpoint.None? {
        link := Gone(reason + " (this session has no way to reconnect)", now);
      } else {
        link := Reconnecting(reason, now, 0, now + RetryDelay(0));
      }
    }

    method StartAttempt(now: Instant, spawn: Spawn)
      modifies this
      ensures State() == AttemptStarted(old(State()), now, spawn)
    {
      if link.Up? {
        return;
      }
      var reason, since := link.reason, link.since;
      if endpoint.None? {
        link := Gone(reason + " (there is no way left to reconnect)", since);
        return;
      }
      var taken := endpoint.value;
      endpoint := None;
      attempts := attempts + 1;
      link := Reconnecting(reason, since, attempts, now);
      match spawn {
        case Started => attempt := Some(Dialling(taken));
        case Failed(error) => link := Gone("could not start a reconnection: " + error, since);
      }
    }

    method ReconnectNow(now: Instant, spawn: Spawn)
      modifies this
      ensures State() == AskedNow(old(State()), now, spawn)
    {
      if attempt.Some? || link.Up? || link.Gone? {
        return;
      }
      attempts := 0;
      StartAttempt(now, spawn);
    }

    method OnAttemptFailed(reason: string, now: Instant)
      modifies this
      ensures State() == AttemptFailed(old(State()), reason, now)
    {
      if link.Up? {
        return;
      }
      var since := link.since;
      if Classify(reason) == Fatal {
        link := Gone(reason, since);
        return;
      }
      if attempts >= RETRY_BUDGET || endpoint.None? {
        link := Lost(reason + " (gave up after " + Decimal(attempts) + " attempts)", since);
      } else {
        link := Reconnecting(reason, since, attempts, now + RetryDelay(attempts));
      }
    }

    method Adopt()
      modifies this
      ensures State() == Adopted(old(State()))
    {
      link := Up;
      attempts := 0;
    }

    method PollReconnect(now: Instant, spawn: Spawn)
      modifies this
      ensures State() == Polled(old(State()), now, spawn)
    {
      if attempt.Some? {
        match attempt.value {
          case Answered(e, outcome) =>
            attempt := None;
            endpoint := Some(e);
            if outcome.Connected? {
              Adopt();
            } else {
              OnAttemptFailed(outcome.reason, now);
            }
          case Dialling(_) =>
          case Vanished =>
            attempt := None;
            OnAttemptFailed("the reconnection stopped unexpectedly", now);
        }
        return;
      }
      if link.Reconnecting? && now >= link.nextTry {
        StartAttempt(now, spawn);
      }
    }
  }

  // --- runs ---------------------------------------------------------------------------------

  datatype Step =
    | Lose(reason: string, now: Instant)
    | Ask(now: Instant, spawn: Spawn)        // a person asks
    | Poll(now: Instant, spawn: Spawn)
    | Answer(outcome: Outcome)               // the worker reports, the endpoint with it
    | Vanish                                 // the worker goes away, the endpoint with it

  predicate Enabled(step: Step, s: Session) {
    step.Answer? || step.Vanish? ==> s.attempt.Some? && s.attempt.value.Dialling?
  }

  function After(step: Step, s: Session): Session
    requires Enabled(step, s)
  {
    match step
    case Lose(reason, now) => LinkLost(s, reason, now)
    case Ask(now, spawn) => AskedNow(s, now, spawn)
    case Poll(now, spawn) => Polled(s, now, spawn)
    case Answer(outcome) => s.(attempt := Some(Answered(s.attempt.value.held, outcome)))
    case Vanish => s.(attempt := Some(Vanished))
  }

  ghost predicate Init(s: Session) { s.link.Up? && s.attempts == 0 && s.attempt.None? }

  ghost predicate Run(states: seq<Session>, steps: seq<Step>) {
    && |states| == |steps| + 1
    && Init(states[0])
    && forall i :: 0 <= i < |steps| ==> Enabled(steps[i], states[i]) && states[i + 1] == After(steps[i], states[i])
  }

  ghost predicate Inv(s: Session) {
    && (s.attempt.Some? ==> s.link.Reconnecting? && s.endpoint.None?)
    && (s.link.Reconnecting? && s.attempt.None? ==> s.endpoint.Some? && s.attempts < RETRY_BUDGET)
    && (s.link.Reconnecting? ==> s.link.attempt == s.attempts)
    && (s.link.Lost? ==> s.attempts == RETRY_BUDGET || s.endpoint.None?)
    && s.attempts <= RETRY_BUDGET
  }

  lemma StepKeeps(step: Step, s: Session)
    requires Inv(s) && Enabled(step, s)
    ensures Inv(After(step, s))
  {
  }

  lemma {:induction false} RunKeeps(states: seq<Session>, steps: seq<Step>, i: nat)
    requires Run(states, steps) && i < |states|
    ensures Inv(states[i])
  {
    if i > 0 {
      RunKeeps(states, steps, i - 1);
      StepKeeps(steps[i - 1], states[i - 1]);
    }
  }

  /** SAFETY: in every reachable state an attempt in flight means the link is reconnecting and
      the window holds no endpoint; reconnecting with no attempt means it holds one; up, lost
      or gone means no attempt; the number shown is the number made, never over the budget;
      and giving up means the budget is spent or the endpoint is. */
  lemma WhoHoldsWhat(states: seq<Session>, steps: seq<Step>, i: nat)
    requires Run(states, steps) && i < |states|
    ensures var s := states[i];
            && (s.attempt.Some? ==> s.link.Reconnecting? && s.endpoint.None?)
            && (s.link.Reconnecting? && s.attempt.None? ==> s.endpoint.Some?)
            && (s.link.Up? || s.link.Lost? || s.link.Gone? ==> s.attempt.None?)
            && (s.link.Reconnecting? ==> s.link.attempt == s.attempts)
            && s.attempts <= RETRY_BUDGET
            && (s.link.Lost? ==> s.attempts == RETRY_BUDGET || s.endpoint.None?)
  {
    RunKeeps(states, steps, i);
  }

  // --- the endpoint -------------------------------------------------------------------------

  /** In how many places an endpoint is held. */
  function Holders(s: Session, e: Endpoint): nat {
    (if s.endpoint == Some(e) then 1 else 0)
        + (if s.attempt.Some? && !s.attempt.value.Vanished? && s.attempt.value.held == e then 1 else 0)
  }

  lemma StepNeverCopies(step: Step, s: Session, e: Endpoint)
    requires Inv(s) && Enabled(step, s)
    ensures Holders(After(step, s), e) <= Holders(s, e)
  {
  }

  /** NEVER DUPLICATED: whatever happens, an endpoint is held in at most one place, and only
      if it is the one the window started with. */
  lemma {:induction false} EndpointNeverDuplicated(states: seq<Session>, steps: seq<Step>, i: nat, e: Endpoint)
    requires Run(states, steps) && i < |states|
    ensures Holders(states[i], e) <= 1
    ensures Holders(states[i], e) == 1 ==> states[0].endpoint == Some(e)
  {
    if i > 0 {
      EndpointNeverDuplicated(states, steps, i - 1, e);
      RunKeeps(states, steps, i - 1);
      StepNeverCopies(steps[i - 1], states[i - 1], e);
    }
  }

  lemma {:induction false} HoldersNeverGrow(states: seq<Session>, steps: seq<Step>, i: nat, j: nat, e: Endpoint)
    requires Run(states, steps) && i <= j < |states|
    ensures Holders(states[j], e) <= Holders(states[i], e)
  {
    if i < j {
      HoldersNeverGrow(states, steps, i, j - 1, e);
      RunKeeps(states, steps, j - 1);
      StepNeverCopies(steps[j - 1], states[j - 1], e);
    }
  }

  /** NEVER CONJURED: an endpoint that went away with its worker is held nowhere ever after. */
  lemma VanishedForGood(states: seq<Session>, steps: seq<Step>, i: nat, j: nat, e: Endpoint)
    requires Run(states, steps) && i < j < |states| && steps[i].Vanish?
    ensures Holders(states[j], e) == 0
  {
    RunKeeps(states, steps, i);
    assert states[i + 1] == After(steps[i], states[i]);
    HoldersNeverGrow(states, steps, i + 1, j, e);
  }

  // --- reasons --------------------------------------------------------------------------------

  /** When the link went down does not change until a new client is adopted. */
  lemma SinceIsConstant(states: seq<Session>, steps: seq<Step>, i: nat)
    requires Run(states, steps) && i < |steps| && !states[i].link.Up? && !states[i + 1].link.Up?
    ensures states[i + 1].link.since == states[i].link.since
  {
  }

  /** GONE IS FOR GOOD: no step leaves it, and nothing is attempted. */
  lemma {:induction false} GoneIsFinal(states: seq<Session>, steps: seq<Step>, i: nat, j: nat)
    requires Run(states, steps) && i <= j < |states| && states[i].link.Gone?
    ensures states[j].link == states[i].link && states[j].attempt.None?
  {
    RunKeeps(states, steps, j);
    if i < j {
      GoneIsFinal(states, steps, i, j - 1);
      assert states[j] == After(steps[j - 1], states[j - 1]);
    }
  }

  /** A fatal reason, whether it ended the link or an attempt, is never retried. */
  lemma FatalIsNeverRetried(states: seq<Session>, steps: seq<Step>, i: nat, j: nat)
    requires Run(states, steps) && i < |steps| && i < j < |states|
    requires match steps[i]
             case Lose(reason, _) => states[i].link.Up? && Classify(reason) == Fatal
             case Poll(_, _) =>
               states[i].attempt.Some? && states[i].attempt.value.Answered? &&
               states[i].attempt.value.outcome.Refused? && Classify(states[i].attempt.value.outcome.reason) == Fatal
             case _ => false
    ensures states[j].link.Gone? && states[j].attempt.None?
  {
    RunKeeps(states, steps, i);
    assert states[i + 1] == After(steps[i], states[i]);
    assert states[i + 1].link.Gone?;
    GoneIsFinal(states, steps, i + 1, j);
  }

  /** The next attempt is put off. */
  predicate Awaiting(s: Session) { s.link.Reconnecting? && s.attempt.None? }

  // --- what is tried ------------------------------------------------------------------------

  /** A LOSS IS RETRIED exactly when its reason is not fatal and there is an endpoint to dial:
      after the first wait, with the endpoint kept; otherwise it is final, unless the link was
      down already. */
  lemma LossIsRetriedExactly(states: seq<Session>, steps: seq<Step>, i: nat)
    requires Run(states, steps) && i < |steps| && steps[i].Lose?
    ensures var s, s', now := states[i], states[i + 1], steps[i].now;
            if !s.link.Up? then s' == s
            else
              && s'.link.since == now && s'.endpoint == s.endpoint && s'.attempts == 0 && s'.attempt.None?
              && (Awaiting(s') <==> Classify(steps[i].reason) == Retry && s.endpoint.Some?)
              && (Awaiting(s') ==> s'.link.nextTry == now + RetryDelay(0) && s'.link.reason == steps[i].reason)
              && (!Awaiting(s') ==> s'.link.Gone? && steps[i].reason <= s'.link.reason)
  {
    RunKeeps(states, steps, i);
    assert states[i + 1] == After(steps[i], states[i]);
  }

  /** The worker's answer was that it could not connect, or it went away. */
  function FailureOf(a: Option<Worker>): Option<string> {
    if a.Some? && a.value.Vanished? then Some("the reconnection stopped unexpectedly")
    else if a.Some? && a.value.Answered? && a.value.outcome.Refused? then Some(a.value.outcome.reason)
    else None
  }

  /** A FAILED ATTEMPT IS FOLLOWED by another exactly when its reason is not fatal, the budget is
      not spent and the endpoint has come back; a fatal one is final, and otherwise the window
      offers to try again when asked. */
  lemma FailureIsRetriedExactly(states: seq<Session>, steps: seq<Step>, i: nat)
    requires Run(states, steps) && i < |steps| && steps[i].Poll? && FailureOf(states[i].attempt).Some?
    ensures var s, s', now, a := states[i], states[i + 1], steps[i].now, states[i].attempt.value;
            var reason := FailureOf(states[i].attempt).value;
            && s'.attempt.None? && s'.attempts == s.attempts && !s'.link.Up? && reason <= s'.link.reason
            && s'.endpoint == (if a.Answered? then Some(a.held) else None)
            && (s'.link.Gone? <==> Classify(reason) == Fatal)
            && (Awaiting(s') <==> Classify(reason) == Retry && s.attempts < RETRY_BUDGET && a.Answered?)
            && (s'.link.Lost? <==> Classify(reason) == Retry && !(s.attempts < RETRY_BUDGET && a.Answered?))
            && (Awaiting(s') ==> s'.link.nextTry == now + RetryDelay(s.attempts))
  {
    RunKeeps(states, steps, i);
    assert states[i + 1] == After(steps[i], states[i]);
  }

  predicate AnswersConnected(s: Session) {
    s.attempt.Some? && s.attempt.value.Answered? && s.attempt.value.outcome.Connected?
  }

  /** A CONNECTION IS TAKEN: polling an answer that connected leaves the link up, the budget
      whole, the endpoint back with the window and no attempt in flight. */
  lemma ConnectionIsTaken(states: seq<Session>, steps: seq<Step>, i: nat)
    requires Run(states, steps) && i < |steps| && steps[i].Poll? && AnswersConnected(states[i])
    ensures states[i + 1] == Session(Up, 0, Some(states[i].attempt.value.held), None)
  {
    assert states[i + 1] == After(steps[i], states[i]);
  }

  lemma {:induction false} AnswerIsKept(states: seq<Session>, steps: seq<Step>, i: nat, j: nat)
    requires Run(states, steps) && i <= j < |states| && AnswersConnected(states[i])
    requires forall k :: i <= k < j ==> !steps[k].Poll?
    ensures states[j] == states[i]
  {
    if i < j {
      AnswerIsKept(states, steps, i, j - 1);
      RunKeeps(states, steps, j - 1);
      assert states[j] == After(steps[j - 1], states[j - 1]);
    }
  }

  /** So a run whose attempt is answered with a connection is up at its next poll, whatever comes
      between, with the endpoint that attempt was given. */
  lemma ConnectedRunComesUp(states: seq<Session>, steps: seq<Step>, i: nat, j: nat)
    requires Run(states, steps) && i < j < |steps| && steps[i] == Answer(Connected) && steps[j].Poll?
    requires forall k :: i < k < j ==> !steps[k].Poll?
    ensures states[i].attempt.Some? && states[i].attempt.value.Dialling?
    ensures states[j + 1] == Session(Up, 0, Some(states[i].attempt.value.held), None)
  {
    assert Enabled(steps[i], states[i]) && states[i + 1] == After(steps[i], states[i]);
    AnswerIsKept(states, steps, i + 1, j);
    ConnectionIsTaken(states, steps, j);
  }

  /** A PERSON ASKING starts an attempt at once exactly when the window waits or has given up and
      holds an endpoint, and the budget is whole again but for it; without an endpoint it is
      over, and otherwise asking changes nothing. */
  lemma AskStartsExactly(states: seq<Session>, steps: seq<Step>, i: nat)
    requires Run(states, steps) && i < |steps| && steps[i].Ask? && steps[i].spawn.Started?
    ensures var s, s' := states[i], states[i + 1];
            var idle := s.link.Lost? || Awaiting(s);
            && (s'.attempt.Some? && s.attempt.None? <==> idle && s.endpoint.Some?)
            && (idle && s.endpoint.Some? ==>
                  s'.attempt == Some(Dialling(s.endpoint.value)) && s'.attempts == 1 && s'.endpoint.None?)
            && (idle && s.endpoint.None? ==> s'.link.Gone?)
            && (!idle ==> s' == s)
  {
    RunKeeps(states, steps, i);
    assert states[i + 1] == After(steps[i], states[i]);
  }

  /** An attempt whose worker cannot be started takes the endpoint with it and ends it. */
  lemma NoWorkerNoWayBack(s: Session, now: Instant, error: string)
    requires !s.link.Up? && s.endpoint.Some?
    ensures var s' := AttemptStarted(s, now, Failed(error));
            s'.link.Gone? && s'.endpoint.None? && s'.attempt == s.attempt && s'.link.since == s.link.since
  {
  }

  // --- it ends --------------------------------------------------------------------------------

  /** How much is left to go wrong. */
  function Measure(s: Session): nat {
    if !s.link.Reconnecting? || s.attempts > RETRY_BUDGET then 0
    else
      3 * (RETRY_BUDGET - s.attempts) +
      match s.attempt
      case None => 0
      case Some(Dialling(_)) => 2
      case Some(_) => 1
  }

  /** The step is not a person's, and if it is an answer it is no. */
  predicate Unhelped(step: Step) { !step.Ask? && (step.Answer? ==> step.outcome.Refused?) }

  lemma UnhelpedStepCounts(step: Step, s: Session)
    requires Inv(s) && !s.link.Up? && Enabled(step, s) && Unhelped(step)
    requires s.attempt.Some? && s.attempt.value.Answered? ==> s.attempt.value.outcome.Refused?
    ensures After(step, s) == s || Measure(After(step, s)) < Measure(s)
  {
  }

  /** IT ENDS: left alone while every attempt fails, every step that changes anything brings
      the machine nearer a stop, one such step is always there until it stops, and stopped it
      is lost or gone. */
  lemma LeftAloneItEnds(states: seq<Session>, steps: seq<Step>, i: nat, step: Step)
    requires Run(states, steps) && i < |states| && !states[i].link.Up? && Enabled(step, states[i]) && Unhelped(step)
    requires var a := states[i].attempt; a.Some? && a.value.Answered? ==> a.value.outcome.Refused?
    ensures var s := states[i];
            && (After(step, s) == s || Measure(After(step, s)) < Measure(s))
            && (Measure(s) == 0 ==> s.link.Lost? || s.link.Gone?)
            && (Measure(s) > 0 ==> exists next: Step :: Enabled(next, s) && Unhelped(next) && After(next, s) != s)
  {
    RunKeeps(states, steps, i);
    var s := states[i];
    UnhelpedStepCounts(step, s);
    if Measure(s) > 0 {
      SomethingToDo(s);
    }
  }

  lemma SomethingToDo(s: Session)
    requires Inv(s) && s.link.Reconnecting?
    requires s.attempt.Some? && s.attempt.value.Answered? ==> s.attempt.value.outcome.Refused?
    ensures exists next: Step :: Enabled(next, s) && Unhelped(next) && After(next, s) != s
  {
    var next := if s.attempt.None? then Poll(s.link.nextTry, Started)
                else if s.attempt.value.Dialling? then Answer(Refused("refused"))
                else Poll(0, Started);
    assert Enabled(next, s) && Unhelped(next);
    assert After(next, s).attempt != s.attempt;
  }

  // --- how long it waits ----------------------------------------------------------------------

  /** The waits before the first `n` attempts. */
  function Delays(n: nat): nat {
    if n == 0 then 0 else Delays(n - 1) + RetryDelay(n - 1)
  }

  /** How far off the next attempt is when a step has just put it off. */
  function Scheduled(step: Step, s: Session): int
    requires Enabled(step, s)
  {
    var s' := After(step, s);
    if Awaiting(s') && !Awaiting(s) && (step.Lose? || step.Poll?) then s'.link.nextTry - step.now else 0
  }

  /** The waits scheduled since the link was lost, or since a person last asked. */
  function Waited(states: seq<Session>, steps: seq<Step>, i: nat): int
    requires i < |states| && |states| == |steps| + 1
    requires forall k :: 0 <= k < |steps| ==> Enabled(steps[k], states[k])
  {
    if i == 0 || states[i].link.Up? then 0
    else
      var step, s := steps[i - 1], states[i - 1];
      if step.Ask? && After(step, s) != s then 0
      else Waited(states, steps, i - 1) + Scheduled(step, s)
  }

  /** The attempts whose waits have been scheduled. */
  function Due(s: Session): nat { s.attempts + if Awaiting(s) then 1 else 0 }

  /** A step that puts the next attempt off waits what the table says for it; no other waits. */
  lemma ScheduledIsTheNextDelay(step: Step, s: Session)
    requires Inv(s) && Enabled(step, s) && (s.link.Up? ==> s.attempts == 0)
    ensures var s' := After(step, s);
            !step.Ask? && !s'.link.Up? ==>
              || (Scheduled(step, s) == 0 && Due(s') == Due(s))
              || (Scheduled(step, s) == RetryDelay(Due(s)) && Due(s') == Due(s) + 1)
  {
  }

  /** The wait is kept: with an attempt put off, a poll starts it exactly when it is due. */
  lemma StartedExactlyWhenDue(states: seq<Session>, steps: seq<Step>, i: nat, now: Instant, spawn: Spawn)
    requires Run(states, steps) && i < |states| && Awaiting(states[i])
    ensures Polled(states[i], now, spawn) != states[i] <==> now >= states[i].link.nextTry
    ensures now >= states[i].link.nextTry && spawn.Started? ==>
              && states[i].endpoint.Some?
              && Polled(states[i], now, spawn).attempt == Some(Dialling(states[i].endpoint.value))
  {
    RunKeeps(states, steps, i);
  }

  /** The waits start at a second, never shrink, at most double, and stay at thirty. */
  lemma WaitsGrow(n: nat)
    ensures RetryDelay(0) == 1 && RetryDelay(n) <= RetryDelay(n + 1) <= 2 * RetryDelay(n) && RetryDelay(n) <= 30
    ensures n >= 5 ==> RetryDelay(n) == 30
  {
  }

  lemma {:induction false} UpStartsAfresh(states: seq<Session>, steps: seq<Step>, i: nat)
    requires Run(states, steps) && i < |states| && states[i].link.Up?
    ensures states[i].attempts == 0
  {
    if i > 0 {
      assert states[i] == After(steps[i - 1], states[i - 1]);
      if states[i - 1].link.Up? {
        UpStartsAfresh(states, steps, i - 1);
      }
    }
  }

  ghost predicate NobodyAsked(steps: seq<Step>, i: nat) {
    forall k :: 0 <= k < i && k < |steps| ==> !steps[k].Ask?
  }

  /** The waits since the loss are the table's, one for each attempt due; asking only ever
      saves some. */
  lemma {:induction false} WaitsAreTheTable(states: seq<Session>, steps: seq<Step>, i: nat)
    requires Run(states, steps) && i < |states|
    ensures Waited(states, steps, i) <= Delays(Due(states[i]))
    ensures NobodyAsked(steps, i) && !states[i].link.Up? ==> Waited(states, steps, i) == Delays(Due(states[i]))
  {
    if i > 0 && !states[i].link.Up? {
      var step, s := steps[i - 1], states[i - 1];
      WaitsAreTheTable(states, steps, i - 1);
      RunKeeps(states, steps, i - 1);
      if s.link.Up? {
        UpStartsAfresh(states, steps, i - 1);
      }
      ScheduledIsTheNextDelay(step, s);
    }
  }

  lemma {:induction false} DelaysGrow(m: nat, n: nat)
    requires m <= n
    ensures Delays(m) <= Delays(n)
  {
    if m < n {
      DelaysGrow(m, n - 1);
    }
  }

  /** 1 + 2 + 4 + 8 + 15 + 30 + 30 + 30. */
  lemma WholeBudget()
    ensures Delays(RETRY_BUDGET) == 120
  {
  }

  /** TWO MINUTES AT MOST: the waits scheduled since the loss, or since a person last asked,
      never come to more, and come to exactly that when every attempt was waited for. */
  lemma WaitsAreBounded(states: seq<Session>, steps: seq<Step>, i: nat)
    requires Run(states, steps) && i < |states|
    ensures Waited(states, steps, i) <= 120
    ensures NobodyAsked(steps, i) && states[i].attempts == RETRY_BUDGET ==> Waited(states, steps, i) == 120
  {
    RunKeeps(states, steps, i);
    WaitsAreTheTable(states, steps, i);
    DelaysGrow(Due(states[i]), RETRY_BUDGET);
    WholeBudget();
    if states[i].link.Up? {
      UpStartsAfresh(states, steps, i);
    }
  }
}
