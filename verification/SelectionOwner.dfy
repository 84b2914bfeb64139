/** Owning the CLIPBOARD selection (`Owner` in crates/client/src/fileclip.rs): publishing a
    list, another program taking the selection, and SelectionClear arriving late (section
    2.3.2 of the Inter-Client Communication Conventions Manual), interleaved. */
module SelectionOwner {
  import opened Options

  type Path = nat
  type List = seq<Path>

  // --- what each side leaves of the list --------------------------------------------------

  /** What asking the server who owns the selection came to. */
  datatype Answer = Ours | NotOurs | RequestFailed

  /** `publish`: the list stays down when the selection came to us, and when the server could
      not be asked. */
  function Offered(paths: List, answer: Answer): List { if answer == NotOurs then [] else paths }

  /** A SelectionClear, once the server has said whether the selection is ours again. */
  function LeftByClear(files: List, answer: Answer): List { if answer == NotOurs then [] else files }

  /** The list, and what each critical section does to it given the server's answer. */
  class Owner {
    var files: List

    constructor ()
      ensures files == []
    {
      files := [];
    }

    /** An empty list, or one with a path that cannot be made absolute, is refused before the
        clipboard is touched. */
    method WriteFiles(paths: List, absolute: Option<List>, answer: Answer) returns (ok: bool)
      modifies this
      ensures ok <==> paths != [] && absolute.Some? && answer == Ours
      ensures files == if paths == [] || absolute.None? then old(files) else Offered(absolute.value, answer)
    {
      if paths == [] || absolute.None? {
        return false;
      }
      ok := Publish(absolute.value, answer);
    }

    method Publish(paths: List, answer: Answer) returns (ok: bool)
      modifies this
      ensures ok <==> answer == Ours
      ensures files == Offered(paths, answer)
    {
      files := paths;
      match answer {
        case RequestFailed => return false;
        case NotOurs =>
          files := [];
          return false;
        case Ours => return true;
      }
    }

    /** A question that fails ends the serving thread with the list as it was. */
    method OnSelectionClear(answer: Answer) returns (serving: bool)
      modifies this
      ensures serving <==> answer != RequestFailed
      ensures files == LeftByClear(old(files), answer)
    {
      match answer {
        case RequestFailed => return false;
        case Ours =>
        case NotOurs => files := [];
      }
      serving := true;
    }
  }

  // --- the two threads and the server -------------------------------------------------------

  datatype Publisher =
    | Idle
    | Listed              // the lock held, the list put down
    | Taken               // the selection asked for
    | Asked(ours: bool)   // the server's answer in hand

  datatype Server =
    | Waiting
    | Popped              // a SelectionClear taken off the queue, the lock not yet
    | Locked
    | Told(ours: bool)
    | Ended               // the connection would not answer, so nothing is served any more

  datatype State = State(
    own: bool,            // as the X server has it
    clears: nat,          // SelectionClear events not yet taken off the queue
    files: List, published: List,
    publisher: Publisher, server: Server,
    broken: bool)         // some request to the server has failed

  predicate LockFree(s: State) { s.publisher.Idle? && (s.server.Waiting? || s.server.Popped? || s.server.Ended?) }

  ghost predicate Init(s: State) { s == State(false, 0, [], [], Idle, Waiting, false) }

  datatype Step =
    | Publish(paths: List) | TakeSelection | AskOwner | Finish
    | TakeFails | AskFails                  // the request, or the question, of a publish fails
    | Pop | Lock | AskAgain | Settle
    | AskAgainFails | ReadFails             // the question, or reading events, fails
    | OtherTakes

  predicate Enabled(step: Step, s: State) {
    match step
    case Publish(paths) => LockFree(s) && paths != []
    case TakeSelection => s.publisher.Listed?
    case AskOwner => s.publisher.Taken?
    case Finish => s.publisher.Asked?
    case TakeFails => s.publisher.Listed?
    case AskFails => s.publisher.Taken?
    case AskAgainFails => s.server.Locked?
    case ReadFails => s.server.Waiting?
    case Pop => s.server.Waiting? && s.clears > 0
    case Lock => s.server.Popped? && LockFree(s)
    case AskAgain => s.server.Locked?
    case Settle => s.server.Told?
    case OtherTakes => true
  }

  function After(step: Step, s: State): State
    requires Enabled(step, s)
  {
    match step
    case Publish(paths) => s.(publisher := Listed, files := paths, published := paths)
    case TakeSelection => s.(publisher := Taken, own := true)
    case AskOwner => s.(publisher := Asked(s.own))
    case Finish => s.(publisher := Idle, files := Offered(s.files, if s.publisher.ours then Ours else NotOurs))
    case TakeFails => s.(publisher := Idle, files := Offered(s.files, RequestFailed), broken := true)
    case AskFails => s.(publisher := Idle, files := Offered(s.files, RequestFailed), broken := true)
    case AskAgainFails => s.(server := Ended, files := LeftByClear(s.files, RequestFailed), broken := true)
    case ReadFails => s.(server := Ended, broken := true)
    case Pop => s.(server := Popped, clears := s.clears - 1)
    case Lock => s.(server := Locked)
    case AskAgain => s.(server := Told(s.own))
    case Settle => s.(server := Waiting, files := LeftByClear(s.files, if s.server.ours then Ours else NotOurs))
    case OtherTakes => s.(own := false, clears := s.clears + if s.own then 1 else 0)
  }

  ghost predicate Run(states: seq<State>, steps: seq<Step>) {
    && |states| == |steps| + 1
    && Init(states[0])
    && forall i :: 0 <= i < |steps| ==> Enabled(steps[i], states[i]) && states[i + 1] == After(steps[i], states[i])
  }

  // --- what every step keeps ----------------------------------------------------------------

  predicate OffersPublished(s: State) { s.files != [] && s.files == s.published }

  /** A SelectionClear that will be acted on: queued, or taken off and waiting for the lock. */
  predicate ClearPending(s: State) { s.clears > 0 || s.server.Popped? }

  /** A list without the selection is accounted for. */
  predicate Excused(s: State) { ClearPending(s) || s.broken }

  ghost predicate Inv(s: State) {
    && (s.publisher.Idle? || s.server.Waiting? || s.server.Popped? || s.server.Ended?)
    && (s.server.Ended? ==> s.broken)
    && (match s.publisher
        case Idle => true
        case Listed => OffersPublished(s)
        case Taken => OffersPublished(s) && (!s.own ==> Excused(s))
        case Asked(ours) => if ours then OffersPublished(s) && (!s.own ==> Excused(s)) else !s.own)
    && (s.publisher.Idle? ==>
          match s.server
          case Locked => s.own ==> OffersPublished(s)
          case Told(ours) =>
            if ours then (s.own ==> OffersPublished(s)) && (!s.own && s.files != [] ==> s.clears > 0 || s.broken)
            else !s.own
          case _ => (s.own ==> OffersPublished(s)) && (!s.own && s.files != [] ==> Excused(s)))
  }

  lemma StepKeeps(step: Step, s: State)
    requires Inv(s) && Enabled(step, s)
    ensures Inv(After(step, s))
  {
  }

  lemma {:induction false} RunKeeps(states: seq<State>, steps: seq<Step>, i: nat)
    requires Run(states, steps) && i < |states|
    ensures Inv(states[i])
  {
    if i > 0 {
      RunKeeps(states, steps, i - 1);
      StepKeeps(steps[i - 1], states[i - 1]);
    }
  }

  /** Under every interleaving and every failing request, whenever nobody holds the list's lock:
      owning the selection means offering a nonempty list, the last one published; a nonempty
      list without the selection means a SelectionClear is still to come, or a request failed. */
  lemma OwningMeansOffering(states: seq<State>, steps: seq<Step>, i: nat)
    requires Run(states, steps) && i < |states| && LockFree(states[i])
    ensures var s := states[i];
            && (s.own ==> s.files != [] && s.files == s.published)
            && (!s.own && s.files != [] ==> s.clears > 0 || s.server.Popped? || s.broken)
  {
    RunKeeps(states, steps, i);
  }

  /** At rest, with every event handled and no request failed, something is offered exactly when
      the selection is ours; after a failed request, still whenever it is ours. */
  lemma AtRestOfferedIffOwned(states: seq<State>, steps: seq<Step>, i: nat)
    requires Run(states, steps) && i < |states|
    requires states[i].publisher.Idle? && states[i].server.Waiting? && states[i].clears == 0
    ensures states[i].own ==> states[i].files != []
    ensures !states[i].broken ==> (states[i].own <==> states[i].files != [])
  {
    RunKeeps(states, steps, i);
  }

  /** A failed publish leaves nothing offered, and without the selection. */
  lemma FailedPublishOffersNothing(states: seq<State>, steps: seq<Step>, i: nat)
    requires Run(states, steps) && i < |steps| && steps[i].Finish? && states[i].publisher == Asked(false)
    ensures states[i + 1].files == [] && !states[i + 1].own
  {
    RunKeeps(states, steps, i);
    assert states[i + 1] == After(steps[i], states[i]);
  }

  /** A late SelectionClear does no harm: settled while the selection is ours again, the list
      is still the one published. */
  lemma StaleClearIsHarmless(states: seq<State>, steps: seq<Step>, i: nat)
    requires Run(states, steps) && i < |steps| && steps[i].Settle? && states[i].own
    ensures states[i + 1].files == states[i + 1].published && states[i + 1].files != []
  {
    RunKeeps(states, steps, i);
    RunKeeps(states, steps, i + 1);
    assert states[i + 1] == After(steps[i], states[i]);
  }

  // --- left alone -----------------------------------------------------------------------------

  /** A publish nobody interferes with takes the selection and offers the list. */
  lemma PublishLeftAlone(s: State, paths: List)
    requires LockFree(s) && paths != []
    ensures Enabled(Publish(paths), s)
    ensures var s1 := After(Publish(paths), s);
            && Enabled(TakeSelection, s1) && var s2 := After(TakeSelection, s1);
            && Enabled(AskOwner, s2) && var s3 := After(AskOwner, s2);
            && Enabled(Finish, s3) && After(Finish, s3) == s.(own := true, files := paths, published := paths)
  {
  }

  /** A SelectionClear taken off the queue and handled takes the list down exactly when the
      selection is not ours. */
  lemma ClearLeftAlone(s: State)
    requires LockFree(s) && s.server.Waiting? && s.clears > 0
    ensures Enabled(Pop, s)
    ensures var s1 := After(Pop, s);
            && Enabled(Lock, s1) && var s2 := After(Lock, s1);
            && Enabled(AskAgain, s2) && var s3 := After(AskAgain, s2);
            && Enabled(Settle, s3)
            && After(Settle, s3) == s.(clears := s.clears - 1, files := if s.own then s.files else [])
  {
  }

  /** Another program can always take the selection, and we are told exactly when it was ours. */
  lemma TakenFromUs(s: State)
    ensures Enabled(OtherTakes, s) && !After(OtherTakes, s).own
    ensures After(OtherTakes, s).clears > s.clears <==> s.own
    ensures After(OtherTakes, s) == s.(own := false, clears := After(OtherTakes, s).clears)
            && After(OtherTakes, s).clears <= s.clears + 1
  {
  }

  predicate OfHolder(step: Step) {
    || step.TakeSelection? || step.AskOwner? || step.Finish? || step.TakeFails? || step.AskFails?
    || step.AskAgain? || step.Settle? || step.AskAgainFails?
  }

  /** What the holder of the lock has still to do with it. */
  function HeldFor(s: State): nat {
    (match s.publisher
     case Listed => 3
     case Taken => 2
     case Asked(_) => 1
     case Idle => 0)
    + (if s.server.Locked? then 2 else if s.server.Told? then 1 else 0)
  }

  /** THE LOCK IS GIVEN BACK: while it is held its holder has a step to take, and each step brings
      giving it back nearer, failing or not; nobody else's step puts it off. */
  lemma LockIsGivenBack(states: seq<State>, steps: seq<Step>, i: nat, step: Step)
    requires Run(states, steps) && i < |states| && !LockFree(states[i])
    ensures exists next: Step :: Enabled(next, states[i]) && OfHolder(next)
    ensures Enabled(step, states[i]) ==>
              var s, s' := states[i], After(step, states[i]);
              if OfHolder(step) then HeldFor(s') < HeldFor(s) && (HeldFor(s') == 0 <==> LockFree(s'))
              else HeldFor(s') == HeldFor(s)
  {
    RunKeeps(states, steps, i);
    var s := states[i];
    var next := if s.publisher.Listed? then TakeSelection else if s.publisher.Taken? then AskOwner
                else if s.publisher.Asked? then Finish else if s.server.Locked? then AskAgain else Settle;
    assert Enabled(next, s) && OfHolder(next);
  }

  /** A serving thread that got no answer has ended, and never touches the list again. */
  lemma {:induction false} EndedForGood(states: seq<State>, steps: seq<Step>, i: nat, j: nat)
    requires Run(states, steps) && i < j < |states| && (steps[i].AskAgainFails? || steps[i].ReadFails?)
    ensures states[j].server.Ended?
  {
    assert states[j] == After(steps[j - 1], states[j - 1]);
    if i < j - 1 {
      EndedForGood(states, steps, i, j - 1);
    }
  }
}
