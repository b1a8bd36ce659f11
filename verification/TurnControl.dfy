/**
 Steering, parking and cancelling a turn. Steers queue up while the agent works and are
 prompted in one by one when a prompt ends; a run that parks itself on a question stops
 that, and the tool call that parked it cancels the prompt once. Observers, tool calls
 and the conversation run concurrently; each locked section and each read of the store
 is one step.
 */
module TurnControl {
  import opened Options

  type Steer = string

  // ----- the locked sections

  datatype Control = Control(pendingSteers: seq<Steer>, hasParkedTheRun: bool, hasCancelled: bool,
      hasCancelContext: bool)

  function Parked(control: Control): Control {
    control.(hasParkedTheRun := true, hasCancelContext := true)
  }

  predicate ShouldCancel(control: Control, stillParked: bool) {
    control.hasParkedTheRun && stillParked && !control.hasCancelled
  }

  function AfterToolCall(control: Control, stillParked: bool): Control {
    control.(hasCancelled := control.hasCancelled || ShouldCancel(control, stillParked))
  }

  function Queued(control: Control, steer: Steer): Control {
    control.(pendingSteers := control.pendingSteers + [steer])
  }

  function NextSteer(control: Control): Option<Steer> {
    if control.hasParkedTheRun || control.pendingSteers == [] then None else Some(control.pendingSteers[0])
  }

  function AfterNextSteer(control: Control): Control {
    if NextSteer(control).None? then control else control.(pendingSteers := control.pendingSteers[1..])
  }

  class TurnControls {
    var pendingSteers: seq<Steer>
    var hasParkedTheRun: bool
    var hasCancelled: bool
    var hasCancelContext: bool

    constructor ()
      ensures View() == Control([], false, false, false)
    {
      pendingSteers, hasParkedTheRun, hasCancelled, hasCancelContext := [], false, false, false;
    }

    function View(): Control
      reads this
    {
      Control(pendingSteers, hasParkedTheRun, hasCancelled, hasCancelContext)
    }

    method NoteParking()
      modifies this
      ensures View() == Parked(old(View()))
    {
      hasParkedTheRun := true;
      hasCancelContext := true;
    }

    method ToolCallEnded(stillParked: bool) returns (shouldCancel: bool)
      modifies this
      ensures shouldCancel == ShouldCancel(old(View()), stillParked)
      ensures View() == AfterToolCall(old(View()), stillParked)
    {
      shouldCancel := hasParkedTheRun && stillParked && !hasCancelled;
      hasCancelled := hasCancelled || shouldCancel;
    }

    method Queue(steer: Steer)
      modifies this
      ensures View() == Queued(old(View()), steer)
    {
      pendingSteers := pendingSteers + [steer];
    }

    method TakeSteer() returns (steer: Option<Steer>)
      modifies this
      ensures steer == NextSteer(old(View())) && View() == AfterNextSteer(old(View()))
    {
      if hasParkedTheRun || pendingSteers == [] {
        return None;
      }
      steer := Some(pendingSteers[0]);
      pendingSteers := pendingSteers[1..];
    }
  }

  // ----- the turn

  /** Where the conversation is: a prompt is with the agent, it came back, or it is over. */
  datatype Talk = Prompting | CameBack | Failed | Finished(sawParking: bool, arrivedByThen: nat)

  /**
   `mirroring` counts ledger updates being mirrored; `runIsParked` is the status in the store.
   `noticing` and `noting` are observers that saw no mirroring, and then saw the run parked;
   `ending` holds what ended tool calls read of the status, in whatever order they lock next;
   `cancelling` those that are about to cancel. `arrived`, `prompted`, `extended`, `cancels` by
   tool calls and `steerCancels` record what happened so far, and `promptedAtParking` how many
   steers had been prompted when parking was first noted.
   */
  datatype State = State(
    control: Control, hasExtension: bool, mirroring: nat, runIsParked: bool,
    noticing: nat, noting: nat, ending: seq<bool>, cancelling: nat, talk: Talk,
    arrived: seq<Steer>, prompted: seq<Steer>, extended: seq<Steer>, cancels: nat, steerCancels: nat,
    promptedAtParking: Option<nat>)

  datatype Step =
    | SetStatus(parked: bool)
    | EnterMirroring
    | LeaveMirroring
    | SeeParkingEvent
    | SeeParkedRun
    | NoteParking
    | ReadStatusAfterToolCall
    | EndToolCall(n: nat)
    | SendCancel
    | SteerArrives(steer: Steer)
    | PromptReturns(failed: bool)
    | CheckSteers

  predicate Enabled(s: State, step: Step) {
    match step
    case SetStatus(_) => true
    case EnterMirroring => true
    case LeaveMirroring => s.mirroring > 0
    case SeeParkingEvent => true
    case SeeParkedRun => s.noticing > 0
    case NoteParking => s.noting > 0
    case ReadStatusAfterToolCall => true
    case EndToolCall(n) => n < |s.ending|
    case SendCancel => s.cancelling > 0
    case SteerArrives(_) => true
    case PromptReturns(_) => s.talk.Prompting?
    case CheckSteers => s.talk.CameBack?
  }

  function Next(s: State, step: Step): State
    requires Enabled(s, step)
  {
    match step
    case SetStatus(parked) => s.(runIsParked := parked)
    case EnterMirroring => s.(mirroring := s.mirroring + 1)
    case LeaveMirroring => s.(mirroring := s.mirroring - 1)
    case SeeParkingEvent => if s.mirroring > 0 then s else s.(noticing := s.noticing + 1)
    case SeeParkedRun => s.(noticing := s.noticing - 1, noting := if s.runIsParked then s.noting + 1 else s.noting)
    case NoteParking =>
      s.(noting := s.noting - 1, control := Parked(s.control),
         promptedAtParking := if s.control.hasParkedTheRun then s.promptedAtParking else Some(|s.prompted|))
    case ReadStatusAfterToolCall => s.(ending := s.ending + [s.runIsParked])
    case EndToolCall(n) =>
      s.(ending := s.ending[..n] + s.ending[n + 1..], control := AfterToolCall(s.control, s.ending[n]),
         cancelling := if ShouldCancel(s.control, s.ending[n]) then s.cancelling + 1 else s.cancelling)
    case SendCancel => s.(cancelling := s.cancelling - 1, cancels := s.cancels + 1)
    case SteerArrives(steer) =>
      if s.hasExtension then s.(arrived := s.arrived + [steer], extended := s.extended + [steer])
      else s.(arrived := s.arrived + [steer], control := Queued(s.control, steer), steerCancels := s.steerCancels + 1)
    case PromptReturns(failed) => s.(talk := if failed then Failed else CameBack)
    case CheckSteers =>
      match NextSteer(s.control)
      case None => s.(talk := Finished(s.control.hasParkedTheRun, |s.arrived|))
      case Some(steer) => s.(talk := Prompting, control := AfterNextSteer(s.control), prompted := s.prompted + [steer])
  }

  ghost predicate Run(s: State, steps: seq<Step>, t: State)
    decreases |steps|
  {
    if steps == [] then s == t else Enabled(s, steps[0]) && Run(Next(s, steps[0]), steps[1..], t)
  }

  ghost predicate Initial(s: State) {
    && s.control == Control([], false, false, false)
    && s.mirroring == s.noticing == s.noting == s.cancelling == s.cancels == s.steerCancels == 0 && s.ending == []
    && s.talk == Prompting
    && s.arrived == [] && s.prompted == [] && s.extended == [] && s.promptedAtParking == None
  }

  // ----- the invariant

  /** Every steer that arrived was prompted, or is queued behind those that were, in order of arrival. */
  ghost predicate SteersAreConserved(s: State) {
    if s.hasExtension then
      s.extended == s.arrived && s.prompted == [] && s.control.pendingSteers == [] && s.steerCancels == 0
    else s.prompted + s.control.pendingSteers == s.arrived && s.extended == [] && s.steerCancels == |s.arrived|
  }

  /** Nothing was prompted since parking was noted. */
  ghost predicate ParkingEndsSteering(s: State) {
    && (s.control.hasParkedTheRun <==> s.promptedAtParking.Some?)
    && (s.promptedAtParking.Some? ==> s.promptedAtParking.value == |s.prompted|)
  }

  /** At most one tool call cancels, and only with a context to cancel in. */
  ghost predicate OneCancel(s: State) {
    && s.cancels + s.cancelling == (if s.control.hasCancelled then 1 else 0)
    && (s.control.hasCancelled ==> s.control.hasParkedTheRun)
    && (s.control.hasParkedTheRun ==> s.control.hasCancelContext)
  }

  /** The conversation ended because the run had parked, or with every steer prompted that had arrived. */
  ghost predicate EndsForAReason(s: State) {
    s.talk.Finished? ==>
      && s.talk.arrivedByThen <= |s.arrived|
      && (s.talk.sawParking ==> s.control.hasParkedTheRun)
      && (!s.talk.sawParking && !s.hasExtension ==> s.prompted == s.arrived[..s.talk.arrivedByThen])
  }

  ghost predicate Inv(s: State) {
    SteersAreConserved(s) && ParkingEndsSteering(s) && OneCancel(s) && EndsForAReason(s)
  }

  lemma StepKeepsSteers(s: State, step: Step)
    requires Inv(s) && Enabled(s, step)
    ensures SteersAreConserved(Next(s, step)) && EndsForAReason(Next(s, step))
  {
    hide ParkingEndsSteering, OneCancel;
    var queue := s.control.pendingSteers;
    if step.SteerArrives? && !s.hasExtension {
      assert s.prompted + (queue + [step.steer]) == s.arrived + [step.steer];
    } else if step.CheckSteers? {
      if NextSteer(s.control).Some? {
        assert queue == [queue[0]] + queue[1..];
        assert (s.prompted + [queue[0]]) + queue[1..] == s.prompted + queue;
      } else if !s.control.hasParkedTheRun && !s.hasExtension {
        assert s.prompted + [] == s.prompted && s.arrived[..|s.arrived|] == s.arrived;
      }
    }
  }

  lemma StepKeepsParking(s: State, step: Step)
    requires Inv(s) && Enabled(s, step)
    ensures ParkingEndsSteering(Next(s, step)) && OneCancel(Next(s, step))
  {
    hide SteersAreConserved, EndsForAReason;
  }

  lemma StepKeepsInv(s: State, step: Step)
    requires Inv(s) && Enabled(s, step)
    ensures Inv(Next(s, step))
  {
    hide Next;
    StepKeepsSteers(s, step);
    StepKeepsParking(s, step);
  }

  lemma {:induction false} RunKeepsInv(s: State, steps: seq<Step>, t: State)
    requires Inv(s) && Run(s, steps, t)
    ensures Inv(t) && t.hasExtension == s.hasExtension
    decreases |steps|
  {
    hide Inv;
    if steps != [] {
      StepKeepsInv(s, steps[0]);
      RunKeepsInv(Next(s, steps[0]), steps[1..], t);
    }
  }

  lemma InitialInv(s: State)
    requires Initial(s)
    ensures Inv(s)
  {
  }

  /**
   In every interleaving of a turn without a steer extension, the prompts after the first
   are the steers in order of arrival, each at most once; none is prompted once parking is
   noted; the conversation finishes only after parking, or with every steer prompted that
   had arrived by its check; tool calls cancel at most once, only a parked turn; and beside that
   each queued steer cancels the prompt once, to be prompted itself.
   */
  lemma {:induction false} EveryTurnIsControlled(s: State, steps: seq<Step>, t: State)
    requires Initial(s) && Run(s, steps, t)
    ensures !s.hasExtension ==> t.prompted <= t.arrived
    ensures s.hasExtension ==> t.prompted == [] && t.extended == t.arrived
    ensures t.control.hasParkedTheRun ==> t.promptedAtParking == Some(|t.prompted|)
    ensures t.talk.Finished? && !t.talk.sawParking && !s.hasExtension ==>
              t.talk.arrivedByThen <= |t.arrived| && t.prompted == t.arrived[..t.talk.arrivedByThen]
    ensures t.talk.Finished? && t.talk.sawParking ==> t.control.hasParkedTheRun
    ensures t.cancels <= 1 && (t.cancels == 1 ==> t.control.hasParkedTheRun && t.control.hasCancelContext)
    ensures t.steerCancels == if s.hasExtension then 0 else |t.arrived|
  {
    hide Run, Initial, Next;
    InitialInv(s);
    RunKeepsInv(s, steps, t);
  }

  /** Steers that arrive while nothing can be prompted any more stay queued: none is lost or repeated. */
  lemma {:induction false} LeftoverSteers(s: State, steps: seq<Step>, t: State)
    requires Initial(s) && Run(s, steps, t) && !s.hasExtension
    ensures |t.prompted| <= |t.arrived| && t.control.pendingSteers == t.arrived[|t.prompted|..]
    ensures t.talk.Finished? && !t.talk.sawParking ==> t.talk.arrivedByThen == |t.prompted|
  {
    hide Run, Initial, Next;
    InitialInv(s);
    RunKeepsInv(s, steps, t);
  }

  /** The three looks that note parking, in order: no mirroring at the first, the run parked at the second. */
  ghost predicate NotesWhatItSaw(s: State, steps: seq<Step>, i: int, j: int, k: int) {
    && 0 <= i < j < k < |steps| && steps[i] == SeeParkingEvent && steps[j] == SeeParkedRun && steps[k] == NoteParking
    && (exists u :: Run(s, steps[..i], u) && u.mirroring == 0)
    && (exists v :: Run(s, steps[..j], v) && v.runIsParked)
  }

  /**
   Parking is noted only after an event came while nothing was mirrored, and then a look at the store
   showed the run parked.
   */
  lemma {:induction false} ParkingWasSeen(s: State, steps: seq<Step>, t: State)
    requires Run(s, steps, t) && s.noticing == s.noting == 0 && !s.control.hasParkedTheRun && t.control.hasParkedTheRun
    ensures exists i, j, k :: NotesWhatItSaw(s, steps, i, j, k)
  {
    var i, j, k, u, v := FindParking(s, steps, t);
    assert NotesWhatItSaw(s, steps, i, j, k);
  }

  lemma RunFromOneBefore(s: State, steps: seq<Step>, n: nat, u: State)
    requires n < |steps| && Enabled(s, steps[0]) && Run(Next(s, steps[0]), steps[1..][..n], u)
    ensures Run(s, steps[..n + 1], u)
  {
    assert steps[..n + 1][1..] == steps[1..][..n];
  }

  /** Who notes parking, who saw the run parked and who saw the event. */
  lemma ParkingSteps(s: State, step: Step)
    requires Enabled(s, step)
    ensures var t := Next(s, step);
            && (!s.control.hasParkedTheRun && t.control.hasParkedTheRun ==> step == NoteParking && s.noting > 0)
            && (s.noting == 0 && t.noting > 0 ==> step == SeeParkedRun && s.runIsParked && s.noticing > 0)
            && (s.noticing == 0 && t.noticing > 0 ==> step == SeeParkingEvent && s.mirroring == 0)
  {
  }

  /**
   The steps that carried the first note, and the states at the two looks: needed are those the state
   does not already hold.
   */
  lemma {:induction false} FindParking(s: State, steps: seq<Step>, t: State)
    returns (i: int, j: int, k: int, u: State, v: State)
    requires Run(s, steps, t) && !s.control.hasParkedTheRun && t.control.hasParkedTheRun
    ensures 0 <= k < |steps| && steps[k] == NoteParking
    ensures s.noting == 0 ==> 0 <= j < k && steps[j] == SeeParkedRun && Run(s, steps[..j], v) && v.runIsParked
    ensures s.noting == 0 && s.noticing == 0 ==>
              0 <= i < j && steps[i] == SeeParkingEvent && Run(s, steps[..i], u) && u.mirroring == 0
    decreases |steps|
  {
    i, j, k, u, v := 0, 0, 0, s, s;
    assert steps != [] && Run(s, steps[..0], s);
    var next := Next(s, steps[0]);
    ParkingSteps(s, steps[0]);
    assert Run(next, steps[1..], t);
    hide Next, Run, Enabled;
    if !next.control.hasParkedTheRun {
      i, j, k, u, v := FindParking(next, steps[1..], t);
      if s.noting == 0 && next.noting == 0 {
        RunFromOneBefore(s, steps, j, v);
        if s.noticing == 0 && next.noticing == 0 {
          RunFromOneBefore(s, steps, i, u);
        }
      }
      i, j, k := i + 1, j + 1, k + 1;
      if s.noting == 0 && next.noting > 0 {
        j, v := 0, s;
      }
      if s.noting == 0 && s.noticing == 0 && next.noticing > 0 {
        i, u := 0, s;
      }
    }
  }

  // ----- what every step of a run came to

  /** Where a run leads. */
  ghost function After(s: State, steps: seq<Step>): State
    decreases |steps|
  {
    if steps == [] || !Enabled(s, steps[0]) then s else After(Next(s, steps[0]), steps[1..])
  }

  /** How many steps of a run are of a kind, each judged in the state where it is taken. */
  ghost function Times(s: State, steps: seq<Step>, kind: (State, Step) -> bool): nat
    decreases |steps|
  {
    if steps == [] || !Enabled(s, steps[0]) then 0
    else (if kind(s, steps[0]) then 1 else 0) + Times(Next(s, steps[0]), steps[1..], kind)
  }

  lemma {:induction false} SomeTime(s: State, steps: seq<Step>, t: State, kind: (State, Step) -> bool)
    requires Run(s, steps, t)
    ensures t == After(s, steps)
    ensures Times(s, steps, kind) > 0 <==> exists k :: 0 <= k < |steps| && kind(After(s, steps[..k]), steps[k])
    decreases |steps|
  {
    if steps != [] {
      var next, rest := Next(s, steps[0]), steps[1..];
      SomeTime(next, rest, t, kind);
      hide Next, Enabled, Run;
      forall k | 0 <= k < |rest| ensures After(s, steps[..k + 1]) == After(next, rest[..k]) && rest[k] == steps[k + 1] {
        assert steps[..k + 1][1..] == rest[..k];
      }
      assert After(s, steps[..0]) == s;
      if k :| 0 <= k < |rest| && kind(After(next, rest[..k]), rest[k]) {
        assert kind(After(s, steps[..k + 1]), steps[k + 1]);
      }
      if k :| 0 <= k < |steps| && kind(After(s, steps[..k]), steps[k]) {
        assert k > 0 ==> kind(After(next, rest[..k - 1]), rest[k - 1]);
      }
    }
  }

  /** A tool call that ended reads whether the run is parked. */
  function Reads(parked: bool): (State, Step) -> bool {
    (s: State, step: Step) => step.ReadStatusAfterToolCall? && s.runIsParked == parked
  }

  /** A tool call that read so locks the control. */
  function EndsHavingRead(parked: bool): (State, Step) -> bool {
    (s: State, step: Step) => step.EndToolCall? && step.n < |s.ending| && s.ending[step.n] == parked
  }

  predicate CancelIsDue(s: State, step: Step) {
    s.control.hasParkedTheRun && EndsHavingRead(true)(s, step)
  }

  lemma StepOfToolCalls(s: State, step: Step, parked: bool)
    requires Enabled(s, step)
    ensures var t := Next(s, step);
            multiset(t.ending)[parked] + (if EndsHavingRead(parked)(s, step) then 1 else 0) ==
            multiset(s.ending)[parked] + (if Reads(parked)(s, step) then 1 else 0)
  {
    EndingAfter(s, step);
    hide Next;
    if step.EndToolCall? {
      TakenOut(s.ending, step.n);
    } else if step.ReadStatusAfterToolCall? {
      assert multiset(s.ending + [s.runIsParked]) == multiset(s.ending) + multiset{s.runIsParked};
    }
  }

  lemma EndingAfter(s: State, step: Step)
    requires Enabled(s, step)
    ensures Next(s, step).ending ==
            if step.ReadStatusAfterToolCall? then s.ending + [s.runIsParked]
            else if step.EndToolCall? then s.ending[..step.n] + s.ending[step.n + 1..]
            else s.ending
  {
  }

  lemma StepOfCancels(s: State, step: Step)
    requires Enabled(s, step)
    ensures var t := Next(s, step);
            && (t.control.hasCancelled <==> s.control.hasCancelled || CancelIsDue(s, step))
            && t.cancels == s.cancels + if step == SendCancel then 1 else 0
  {
  }

  lemma TakenOut(ending: seq<bool>, n: nat)
    requires n < |ending|
    ensures multiset(ending) == multiset(ending[..n] + ending[n + 1..]) + multiset{ending[n]}
  {
    assert ending == ending[..n] + [ending[n]] + ending[n + 1..];
  }

  lemma CancelsAreOne(s: State, steps: seq<Step>, t: State)
    requires Initial(s) && Run(s, steps, t)
    ensures t.cancels + t.cancelling == (if t.control.hasCancelled then 1 else 0)
  {
    hide Run, Initial, Next;
    InitialInv(s);
    RunKeepsInv(s, steps, t);
  }

  lemma {:induction false} ToolCallsOfARun(s: State, steps: seq<Step>, t: State, parked: bool)
    requires Run(s, steps, t)
    ensures multiset(t.ending)[parked] + Times(s, steps, EndsHavingRead(parked)) ==
            multiset(s.ending)[parked] + Times(s, steps, Reads(parked))
    ensures t.control.hasCancelled <==> s.control.hasCancelled || Times(s, steps, CancelIsDue) > 0
    ensures t.cancels == s.cancels + Times(s, steps, (_, step) => step == SendCancel)
    decreases |steps|
  {
    hide Next, Enabled, CancelIsDue, EndsHavingRead, Reads;
    if steps != [] {
      StepOfToolCalls(s, steps[0], parked);
      StepOfCancels(s, steps[0]);
      ToolCallsOfARun(Next(s, steps[0]), steps[1..], t, parked);
    }
  }

  /**
   In every interleaving, one tool call cancels if and only if some tool call that read the run parked
   locked the control after parking was noted; and of those that read the run parked, or not parked, each
   has locked the control once or has yet to.
   */
  lemma OneCancelIff(s: State, steps: seq<Step>, t: State)
    requires Initial(s) && Run(s, steps, t)
    ensures t.cancels + t.cancelling <= 1
    ensures t.cancels + t.cancelling == 1 <==>
            exists k :: 0 <= k < |steps| && CancelIsDue(After(s, steps[..k]), steps[k])
    ensures t.cancels == Times(s, steps, (_, step) => step == SendCancel)
    ensures forall parked ::
              multiset(t.ending)[parked] + Times(s, steps, EndsHavingRead(parked)) == Times(s, steps, Reads(parked))
  {
    assert !s.control.hasCancelled && s.ending == [] && s.cancels == 0;
    hide Run, Next, Initial, After, CancelIsDue, EndsHavingRead, Reads;
    CancelsAreOne(s, steps, t);
    SomeTime(s, steps, t, CancelIsDue);
    forall parked
      ensures multiset(t.ending)[parked] + Times(s, steps, EndsHavingRead(parked)) == Times(s, steps, Reads(parked))
    {
      ToolCallsOfARun(s, steps, t, parked);
    }
    ToolCallsOfARun(s, steps, t, true);
  }

  predicate SeesEvent(s: State, step: Step) {
    step == SeeParkingEvent && s.mirroring == 0
  }

  predicate SeesParkedRun(s: State, step: Step) {
    step == SeeParkedRun && s.runIsParked
  }

  lemma StepOfParking(s: State, step: Step)
    requires Enabled(s, step)
    ensures var t := Next(s, step);
            && t.noticing + (if step == SeeParkedRun then 1 else 0) ==
               s.noticing + (if SeesEvent(s, step) then 1 else 0)
            && t.noting + (if step == NoteParking then 1 else 0) ==
               s.noting + (if SeesParkedRun(s, step) then 1 else 0)
            && t.mirroring + (if step == LeaveMirroring then 1 else 0) ==
               s.mirroring + (if step == EnterMirroring then 1 else 0)
            && (t.control.hasParkedTheRun <==> s.control.hasParkedTheRun || step == NoteParking)
            && (step.SetStatus? ==> t.runIsParked == step.parked)
            && (!step.SetStatus? ==> t.runIsParked == s.runIsParked)
  {
  }

  /** The status that was set last. */
  function StatusAfter(parked: bool, steps: seq<Step>): bool
    decreases |steps|
  {
    if steps == [] then parked
    else StatusAfter(if steps[0].SetStatus? then steps[0].parked else parked, steps[1..])
  }

  /**
   In every run: each event outside mirroring is noticed, each look at the parked run is noted or about to
   be, parking is noted exactly when one of these notes, and what the looks see is the status set last.
   */
  lemma {:induction false} EveryParkingIsNoted(s: State, steps: seq<Step>, t: State)
    requires Run(s, steps, t)
    ensures t.noticing + Times(s, steps, (_, step) => step == SeeParkedRun) ==
            s.noticing + Times(s, steps, SeesEvent)
    ensures t.noting + Times(s, steps, (_, step) => step == NoteParking) ==
            s.noting + Times(s, steps, SeesParkedRun)
    ensures t.mirroring + Times(s, steps, (_, step) => step == LeaveMirroring) ==
            s.mirroring + Times(s, steps, (_, step) => step == EnterMirroring)
    ensures t.control.hasParkedTheRun <==> s.control.hasParkedTheRun || NoteParking in steps
    ensures t.runIsParked == StatusAfter(s.runIsParked, steps)
    decreases |steps|
  {
    hide Next, Enabled, SeesEvent, SeesParkedRun;
    if steps != [] {
      StepOfParking(s, steps[0]);
      EveryParkingIsNoted(Next(s, steps[0]), steps[1..], t);
      assert steps == [steps[0]] + steps[1..];
    }
  }

  /** The prompts that came back, and the checks for a steer, tell how far the conversation is. */
  ghost predicate TalkIsAsTold(s: State, returns': nat, failures: nat, checks: nat) {
    && returns' + failures + (if s.talk.Prompting? then 1 else 0) == |s.prompted| + 1
    && checks + (if s.talk.CameBack? then 1 else 0) == returns'
    && checks == |s.prompted| + (if s.talk.Finished? then 1 else 0)
    && failures == if s.talk.Failed? then 1 else 0
  }

  lemma StepOfTalk(s: State, step: Step, returns': nat, failures: nat, checks: nat)
    requires Enabled(s, step) && TalkIsAsTold(s, returns', failures, checks)
    ensures TalkIsAsTold(Next(s, step), if step == PromptReturns(false) then returns' + 1 else returns',
                         if step == PromptReturns(true) then failures + 1 else failures,
                         if step == CheckSteers then checks + 1 else checks)
  {
  }

  lemma FirstIsCounted(steps: seq<Step>)
    requires steps != []
    ensures forall step :: multiset(steps)[step] == multiset(steps[1..])[step] + if step == steps[0] then 1 else 0
  {
    assert steps == [steps[0]] + steps[1..];
    assert multiset(steps) == multiset{steps[0]} + multiset(steps[1..]);
  }

  lemma {:induction false} TalkOfARun(s: State, steps: seq<Step>, t: State, returns': nat, failures: nat, checks: nat)
    requires Run(s, steps, t) && TalkIsAsTold(s, returns', failures, checks)
    ensures TalkIsAsTold(t, returns' + multiset(steps)[PromptReturns(false)],
                         failures + multiset(steps)[PromptReturns(true)], checks + multiset(steps)[CheckSteers])
    decreases |steps|
  {
    hide Next, Enabled, TalkIsAsTold;
    if steps != [] {
      var step := steps[0];
      StepOfTalk(s, step, returns', failures, checks);
      FirstIsCounted(steps);
      TalkOfARun(Next(s, step), steps[1..], t, if step == PromptReturns(false) then returns' + 1 else returns',
                 if step == PromptReturns(true) then failures + 1 else failures,
                 if step == CheckSteers then checks + 1 else checks);
    }
  }

  /**
   In every interleaving: each prompt that comes back is followed by one check, which prompts one steer or
   finishes; and the conversation fails exactly when a prompt does.
   */
  lemma EveryReturnIsChecked(s: State, steps: seq<Step>, t: State)
    requires Initial(s) && Run(s, steps, t)
    ensures TalkIsAsTold(t, multiset(steps)[PromptReturns(false)], multiset(steps)[PromptReturns(true)],
                         multiset(steps)[CheckSteers])
    ensures t.talk.Failed? <==> PromptReturns(true) in steps
  {
    TalkOfARun(s, steps, t, 0, 0, 0);
  }

  // ----- the steps, performed

  /** A turn whose locked sections are those of its control; `around` is the state beside that. */
  class Turn {
    const controls: TurnControls
    var around: State

    ghost function View(): State
      reads this, controls
    {
      around.(control := controls.View())
    }

    constructor (s: State)
      requires Initial(s)
      ensures View() == s && fresh(controls)
    {
      controls := new TurnControls();
      around := s;
    }

    /** What a parking event sets off, and the store and the mirroring around it. */
    method Observe(step: Step)
      requires Enabled(View(), step)
      requires step.SetStatus? || step.EnterMirroring? || step.LeaveMirroring? || step.SeeParkingEvent? ||
               step.SeeParkedRun? || step.NoteParking?
      modifies this, controls
      ensures View() == Next(old(View()), step)
    {
      if step.SetStatus? {
        around := around.(runIsParked := step.parked);
      } else if step.EnterMirroring? {
        around := around.(mirroring := around.mirroring + 1);
      } else if step.LeaveMirroring? {
        around := around.(mirroring := around.mirroring - 1);
      } else if step.SeeParkingEvent? {
        around := around.(noticing := if around.mirroring > 0 then around.noticing else around.noticing + 1);
      } else if step.SeeParkedRun? {
        around := around.(noticing := around.noticing - 1,
                          noting := if around.runIsParked then around.noting + 1 else around.noting);
      } else {
        around := around.(noting := around.noting - 1,
                          promptedAtParking := if controls.hasParkedTheRun then around.promptedAtParking
                                               else Some(|around.prompted|));
        controls.NoteParking();
      }
    }

    /** A tool call ends: its look at the status, its locked section, and the cancel it may send. */
    method EndToolCall(step: Step)
      requires Enabled(View(), step) && (step.ReadStatusAfterToolCall? || step.EndToolCall? || step.SendCancel?)
      modifies this, controls
      ensures View() == Next(old(View()), step)
    {
      if step.ReadStatusAfterToolCall? {
        around := around.(ending := around.ending + [around.runIsParked]);
      } else if step.EndToolCall? {
        var shouldCancel := controls.ToolCallEnded(around.ending[step.n]);
        around := around.(ending := around.ending[..step.n] + around.ending[step.n + 1..],
                          cancelling := if shouldCancel then around.cancelling + 1 else around.cancelling);
      } else {
        around := around.(cancelling := around.cancelling - 1, cancels := around.cancels + 1);
      }
    }

    /** A steer arrives, or the conversation moves on. */
    method Converse(step: Step)
      requires Enabled(View(), step) && (step.SteerArrives? || step.PromptReturns? || step.CheckSteers?)
      modifies this, controls
      ensures View() == Next(old(View()), step)
    {
      if step.SteerArrives? {
        if around.hasExtension {
          around := around.(arrived := around.arrived + [step.steer], extended := around.extended + [step.steer]);
        } else {
          controls.Queue(step.steer);
          around := around.(arrived := around.arrived + [step.steer], steerCancels := around.steerCancels + 1);
        }
      } else if step.PromptReturns? {
        around := around.(talk := if step.failed then Failed else CameBack);
      } else {
        var sawParking := controls.hasParkedTheRun;
        var steer := controls.TakeSteer();
        around := if steer.Some? then around.(talk := Prompting, prompted := around.prompted + [steer.value])
                  else around.(talk := Finished(sawParking, |around.arrived|));
      }
    }

    /** Whatever thread moves next, the turn goes where the theorems follow it. */
    method Perform(step: Step)
      requires Enabled(View(), step)
      modifies this, controls
      ensures View() == Next(old(View()), step)
    {
      hide Next;
      if step.SteerArrives? || step.PromptReturns? || step.CheckSteers? {
        Converse(step);
      } else if step.ReadStatusAfterToolCall? || step.EndToolCall? || step.SendCancel? {
        EndToolCall(step);
      } else {
        Observe(step);
      }
    }
  }
}
