/**
 One run per message: prompts on one agent claim the message they carry, look for a run
 that was already launched for it, launch one if there is none, and release the claim.
 Each critical section is one step, and steps of different prompts interleave freely.
 */
module MessageFlights {
  import opened Options

  type Chan = nat

  /** What a run is recorded under: a platform message, or the session when the prompt carries no message. */
  datatype Source = ForMessage(message: string) | ForSession(session: string)

  datatype Key = Key(person: string, source: Source)

  // ----- the shared map of flights

  datatype Flights = Flights(inFlight: map<Key, Chan>, made: nat, closed: set<Chan>)

  /** The locked part of `claim`: take the key with a new channel, or learn the channel to wait for. */
  function ClaimSection(flights: Flights, key: Key): (Flights, bool, Chan) {
    if key in flights.inFlight then (flights, false, flights.inFlight[key])
    else (flights.(inFlight := flights.inFlight[key := flights.made], made := flights.made + 1), true, flights.made)
  }

  function DeleteSection(flights: Flights, key: Key): Flights {
    flights.(inFlight := flights.inFlight - {key})
  }

  function CloseChannel(flights: Flights, finished: Chan): Flights {
    flights.(closed := flights.closed + {finished})
  }

  class FlightTable {
    var inFlight: map<Key, Chan>
    var made: nat
    var closed: set<Chan>

    constructor ()
      ensures View() == Flights(map[], 0, {})
    {
      inFlight, made, closed := map[], 0, {};
    }

    function View(): Flights
      reads this
    {
      Flights(inFlight, made, closed)
    }

    method Claim(key: Key) returns (claimed: bool, finished: Chan)
      modifies this
      ensures (View(), claimed, finished) == ClaimSection(old(View()), key)
    {
      if key in inFlight {
        return false, inFlight[key];
      }
      finished := made;
      made := made + 1;
      inFlight := inFlight[key := finished];
      claimed := true;
    }

    method Delete(key: Key)
      modifies this
      ensures View() == DeleteSection(old(View()), key)
    {
      inFlight := inFlight - {key};
    }

    /** Closing a closed channel panics. */
    method Close(finished: Chan)
      requires finished !in closed
      modifies this
      ensures View() == CloseChannel(old(View()), finished)
    {
      closed := closed + {finished};
    }
  }

  // ----- prompts

  /** Where a prompt stands; `claim` is the channel of the claim it holds, if it made one. */
  datatype Stage =
    | Start
    | Waiting(finished: Chan)
    | Looking(finished: Chan)
    | Launching(claim: Option<Chan>)
    | Answering(finished: Chan)
    | Leaving(claim: Option<Chan>)
    | Closing(finished: Chan)
    | Returned
    | GaveUp

  datatype Prompt = Prompt(key: Key, stage: Stage)

  datatype State = State(flights: Flights, prompts: seq<Prompt>, runs: multiset<Key>)

  datatype Step =
    | Claim(p: nat)
    | Wake(p: nat)
    | Cancel(p: nat)
    | Look(p: nat)
    | Launch(p: nat, recordsRun: bool)
    | Settle(p: nat)
    | Delete(p: nat)
    | Close(p: nat)

  predicate Enabled(s: State, step: Step) {
    && step.p < |s.prompts|
    && var stage := s.prompts[step.p].stage;
       match step
       case Claim(_) => stage.Start?
       case Wake(_) => stage.Waiting? && stage.finished in s.flights.closed
       case Cancel(_) => stage.Waiting?
       case Look(_) => stage.Looking?
       case Launch(_, _) => stage.Launching?
       case Settle(_) => stage.Answering?
       case Delete(_) => stage.Leaving?
       case Close(_) => stage.Closing?
  }

  function Move(s: State, p: nat, stage: Stage): State
    requires p < |s.prompts|
  {
    s.(prompts := s.prompts[p := s.prompts[p].(stage := stage)])
  }

  function Next(s: State, step: Step): State
    requires Enabled(s, step)
  {
    var p := step.p;
    var key, stage := s.prompts[p].key, s.prompts[p].stage;
    match step
    case Claim(_) =>
      if key.source.ForSession? then Move(s, p, Launching(None))
      else
        var (flights, claimed, finished) := ClaimSection(s.flights, key);
        Move(s.(flights := flights), p, if claimed then Looking(finished) else Waiting(finished))
    case Wake(_) => Move(s, p, Start)
    case Cancel(_) => Move(s, p, GaveUp)
    case Look(_) => Move(s, p, if key in s.runs then Answering(stage.finished) else Launching(Some(stage.finished)))
    case Launch(_, recordsRun) =>
      Move(if recordsRun then s.(runs := s.runs + multiset{key}) else s, p, Leaving(stage.claim))
    case Settle(_) => Move(s, p, Leaving(Some(stage.finished)))
    case Delete(_) =>
      if stage.claim.None? then Move(s, p, Returned)
      else Move(s.(flights := DeleteSection(s.flights, key)), p, Closing(stage.claim.value))
    case Close(_) => Move(s.(flights := CloseChannel(s.flights, stage.finished)), p, Returned)
  }

  ghost predicate Run(s: State, steps: seq<Step>, t: State)
    decreases |steps|
  {
    if steps == [] then s == t else Enabled(s, steps[0]) && Run(Next(s, steps[0]), steps[1..], t)
  }

  /** A connection opens with nothing in flight; the store may hold runs of earlier ones, one to a message. */
  ghost predicate Initial(s: State) {
    && s.flights == Flights(map[], 0, {})
    && RunsOnce(s)
    && forall i :: 0 <= i < |s.prompts| ==> s.prompts[i].stage == Start
  }

  // ----- the invariant

  /** The channel of a claim that is still in the map. */
  function Held(stage: Stage): Option<Chan> {
    match stage
    case Looking(finished) => Some(finished)
    case Launching(claim) => claim
    case Answering(finished) => Some(finished)
    case Leaving(claim) => claim
    case _ => None
  }

  /** The channel a prompt has yet to close. */
  function Owed(stage: Stage): Option<Chan> {
    if stage.Closing? then Some(stage.finished) else Held(stage)
  }

  predicate HasChannelIffMessage(prompt: Prompt) {
    match prompt.stage
    case Waiting(_) => prompt.key.source.ForMessage?
    case Looking(_) => prompt.key.source.ForMessage?
    case Launching(claim) => claim.Some? <==> prompt.key.source.ForMessage?
    case Answering(_) => prompt.key.source.ForMessage?
    case Leaving(claim) => claim.Some? <==> prompt.key.source.ForMessage?
    case Closing(_) => prompt.key.source.ForMessage?
    case _ => true
  }

  ghost predicate HeldIsRegistered(s: State, i: nat)
    requires i < |s.prompts|
  {
    var key, held := s.prompts[i].key, Held(s.prompts[i].stage);
    held.Some? ==> key in s.flights.inFlight && s.flights.inFlight[key] == held.value
  }

  ghost predicate OwedIsOpen(s: State, i: nat)
    requires i < |s.prompts|
  {
    var owed := Owed(s.prompts[i].stage);
    owed.Some? ==> owed.value < s.flights.made && owed.value !in s.flights.closed
  }

  ghost predicate OwedOnce(s: State) {
    forall i, j :: 0 <= i < j < |s.prompts| && Owed(s.prompts[i].stage).Some? ==>
      Owed(s.prompts[i].stage) != Owed(s.prompts[j].stage)
  }

  ghost predicate IsOwed(s: State, finished: Chan) {
    exists i :: 0 <= i < |s.prompts| && Owed(s.prompts[i].stage) == Some(finished)
  }

  ghost predicate IsHeld(s: State, key: Key) {
    exists i :: 0 <= i < |s.prompts| && s.prompts[i].key == key && Held(s.prompts[i].stage).Some?
  }

  ghost predicate RunsOnce(s: State) {
    forall key: Key :: key.source.ForMessage? ==> s.runs[key] <= 1
  }

  ghost predicate WaitIsAnswered(s: State, i: nat)
    requires i < |s.prompts|
  {
    s.prompts[i].stage.Waiting? ==>
      s.prompts[i].stage.finished in s.flights.closed || IsOwed(s, s.prompts[i].stage.finished)
  }

  ghost predicate LaunchIsFirst(s: State, i: nat)
    requires i < |s.prompts|
  {
    s.prompts[i].stage.Launching? && s.prompts[i].key.source.ForMessage? ==> s.prompts[i].key !in s.runs
  }

  ghost predicate PromptOk(s: State, i: nat)
    requires i < |s.prompts|
  {
    && HasChannelIffMessage(s.prompts[i])
    && HeldIsRegistered(s, i)
    && OwedIsOpen(s, i)
    && WaitIsAnswered(s, i)
    && LaunchIsFirst(s, i)
  }

  ghost predicate KeysAreHeld(s: State) {
    forall key :: key in s.flights.inFlight ==> IsHeld(s, key)
  }

  ghost predicate ClosedWereMade(s: State) {
    forall c <- s.flights.closed :: c < s.flights.made
  }

  ghost predicate Inv(s: State) {
    && KeysAreHeld(s)
    && (forall i :: 0 <= i < |s.prompts| ==> PromptOk(s, i))
    && OwedOnce(s)
    && RunsOnce(s)
    && ClosedWereMade(s)
  }

  /** A flying key is held by one prompt only. */
  lemma OneHolder(s: State, i: nat, j: nat)
    requires Inv(s) && i < |s.prompts| && j < |s.prompts| && s.prompts[i].key == s.prompts[j].key
    requires Held(s.prompts[i].stage).Some? && Held(s.prompts[j].stage).Some?
    ensures i == j
  {
    assert PromptOk(s, i) && PromptOk(s, j);
  }

  // ----- every step keeps the invariant

  /** Only prompt `p` moved. */
  ghost predicate OnlyMoved(s: State, t: State, p: nat) {
    && p < |s.prompts| == |t.prompts| && t.prompts[p].key == s.prompts[p].key
    && forall j :: 0 <= j < |s.prompts| && j != p ==> t.prompts[j] == s.prompts[j]
  }

  lemma StillOwed(s: State, t: State, p: nat, finished: Chan)
    requires OnlyMoved(s, t, p) && IsOwed(s, finished)
    requires Owed(s.prompts[p].stage) == Some(finished) ==> Owed(t.prompts[p].stage) == Some(finished)
    ensures IsOwed(t, finished)
  {
    var i :| 0 <= i < |s.prompts| && Owed(s.prompts[i].stage) == Some(finished);
    assert Owed(t.prompts[i].stage) == Some(finished);
  }

  lemma StillHeld(s: State, t: State, p: nat)
    requires OnlyMoved(s, t, p) && KeysAreHeld(s)
    requires forall key :: key in t.flights.inFlight ==>
               key in s.flights.inFlight &&
               (s.prompts[p].key == key && Held(s.prompts[p].stage).Some? ==> Held(t.prompts[p].stage).Some?)
    ensures KeysAreHeld(t)
  {
    forall key | key in t.flights.inFlight ensures IsHeld(t, key) {
      var i :| 0 <= i < |s.prompts| && s.prompts[i].key == key && Held(s.prompts[i].stage).Some?;
      assert t.prompts[i].key == key && Held(t.prompts[i].stage).Some?;
    }
  }

  lemma StillOwedOnce(s: State, t: State, p: nat)
    requires OnlyMoved(s, t, p) && OwedOnce(s)
    requires Owed(t.prompts[p].stage) in {None, Owed(s.prompts[p].stage)}
    ensures OwedOnce(t)
  {
    forall i, j | 0 <= i < j < |t.prompts| && Owed(t.prompts[i].stage).Some?
      ensures Owed(t.prompts[i].stage) != Owed(t.prompts[j].stage)
    {
      assert Owed(s.prompts[i].stage).Some? ==> Owed(s.prompts[i].stage) != Owed(s.prompts[j].stage);
    }
  }

  /** A prompt that did not move is fine while its key, its channel and the runs are left alone. */
  lemma OtherStaysOk(s: State, t: State, p: nat, j: nat)
    requires OnlyMoved(s, t, p) && j < |s.prompts| && j != p && PromptOk(s, j)
    requires s.flights.made <= t.flights.made && s.flights.closed <= t.flights.closed
    requires Owed(s.prompts[j].stage).Some? ==> Owed(s.prompts[j].stage).value !in t.flights.closed
    requires Held(s.prompts[j].stage).Some? && s.prompts[j].key in s.flights.inFlight ==>
               s.prompts[j].key in t.flights.inFlight &&
               t.flights.inFlight[s.prompts[j].key] == s.flights.inFlight[s.prompts[j].key]
    requires forall c ::
               Owed(s.prompts[p].stage) == Some(c) ==> Owed(t.prompts[p].stage) == Some(c) || c in t.flights.closed
    requires LaunchIsFirst(t, j)
    ensures PromptOk(t, j)
  {
    var stage := s.prompts[j].stage;
    if stage.Waiting? && stage.finished !in t.flights.closed {
      StillOwed(s, t, p, stage.finished);
    }
  }

  /** Steps that change no channel: the prompt keeps what it owes and holds. */
  lemma QuietStepKeepsInv(s: State, step: Step)
    requires Inv(s) && Enabled(s, step) && (step.Wake? || step.Cancel? || step.Look? || step.Settle?)
    ensures Inv(Next(s, step))
  {
    hide KeysAreHeld, OwedOnce, IsOwed;
    var t, p := Next(s, step), step.p;
    assert PromptOk(s, p);
    StillHeld(s, t, p);
    StillOwedOnce(s, t, p);
    forall j | 0 <= j < |t.prompts| ensures PromptOk(t, j) {
      assert PromptOk(s, j);
      if j != p {
        OtherStaysOk(s, t, p, j);
      }
    }
  }

  lemma LaunchKeepsInv(s: State, step: Step)
    requires Inv(s) && Enabled(s, step) && step.Launch?
    ensures Inv(Next(s, step))
  {
    hide KeysAreHeld, OwedOnce, IsOwed;
    var t, p := Next(s, step), step.p;
    assert PromptOk(s, p);
    StillHeld(s, t, p);
    StillOwedOnce(s, t, p);
    forall j | 0 <= j < |t.prompts| ensures PromptOk(t, j) {
      assert PromptOk(s, j);
      if j != p {
        assert LaunchIsFirst(t, j) by {
          if s.prompts[j].stage.Launching? && s.prompts[j].key == s.prompts[p].key &&
             s.prompts[j].key.source.ForMessage? {
            OneHolder(s, j, p);
          }
        }
        OtherStaysOk(s, t, p, j);
      }
    }
  }

  lemma ClaimKeepsInv(s: State, step: Step)
    requires Inv(s) && Enabled(s, step) && step.Claim?
    ensures Inv(Next(s, step))
  {
    hide KeysAreHeld, OwedOnce, IsOwed;
    var t, p := Next(s, step), step.p;
    var key := s.prompts[p].key;
    if key.source.ForSession? {
      StillHeld(s, t, p);
      StillOwedOnce(s, t, p);
    } else if key in s.flights.inFlight {
      StillHeld(s, t, p);
      StillOwedOnce(s, t, p);
      FlyingIsOwed(s, key);
      StillOwed(s, t, p, s.flights.inFlight[key]);
    } else {
      NewClaim(s, t, p);
    }
    forall j | 0 <= j < |t.prompts| ensures PromptOk(t, j) {
      assert PromptOk(s, j);
      if j != p {
        OtherStaysOk(s, t, p, j);
      }
    }
  }

  lemma FlyingIsOwed(s: State, key: Key)
    requires Inv(s) && key in s.flights.inFlight
    ensures IsOwed(s, s.flights.inFlight[key])
    ensures s.flights.inFlight[key] !in s.flights.closed
  {
    var i :| 0 <= i < |s.prompts| && s.prompts[i].key == key && Held(s.prompts[i].stage).Some?;
    assert PromptOk(s, i);
    assert Owed(s.prompts[i].stage) == Some(s.flights.inFlight[key]);
  }

  lemma NewClaim(s: State, t: State, p: nat)
    requires Inv(s) && OnlyMoved(s, t, p) && s.prompts[p].stage.Start? && t.prompts[p].stage == Looking(s.flights.made)
    requires t.flights.inFlight == s.flights.inFlight[s.prompts[p].key := s.flights.made]
    ensures KeysAreHeld(t) && OwedOnce(t)
  {
    forall key | key in t.flights.inFlight ensures IsHeld(t, key) {
      if key == s.prompts[p].key {
        assert Held(t.prompts[p].stage).Some?;
      } else {
        var i :| 0 <= i < |s.prompts| && s.prompts[i].key == key && Held(s.prompts[i].stage).Some?;
        assert t.prompts[i].key == key && Held(t.prompts[i].stage).Some?;
      }
    }
    forall i, j | 0 <= i < j < |t.prompts| && Owed(t.prompts[i].stage).Some?
      ensures Owed(t.prompts[i].stage) != Owed(t.prompts[j].stage)
    {
      assert PromptOk(s, i) && PromptOk(s, j);
    }
  }

  lemma DeleteKeepsInv(s: State, step: Step)
    requires Inv(s) && Enabled(s, step) && step.Delete?
    ensures Inv(Next(s, step))
  {
    hide KeysAreHeld, OwedOnce, IsOwed;
    var t, p := Next(s, step), step.p;
    assert PromptOk(s, p);
    StillHeld(s, t, p);
    StillOwedOnce(s, t, p);
    forall j | 0 <= j < |t.prompts| ensures PromptOk(t, j) {
      assert PromptOk(s, j);
      if j != p {
        if Held(s.prompts[j].stage).Some? && Held(s.prompts[p].stage).Some? && s.prompts[j].key == s.prompts[p].key {
          OneHolder(s, j, p);
        }
        OtherStaysOk(s, t, p, j);
      }
    }
  }

  lemma CloseKeepsInv(s: State, step: Step)
    requires Inv(s) && Enabled(s, step) && step.Close?
    ensures Inv(Next(s, step))
  {
    hide KeysAreHeld, IsOwed;
    var t, p := Next(s, step), step.p;
    assert PromptOk(s, p);
    StillHeld(s, t, p);
    StillOwedOnce(s, t, p);
    forall j | 0 <= j < |t.prompts| ensures PromptOk(t, j) {
      assert PromptOk(s, j);
      if j != p {
        var low, high := if j < p then j else p, if j < p then p else j;
        assert Owed(s.prompts[low].stage).Some? ==> Owed(s.prompts[low].stage) != Owed(s.prompts[high].stage);
        OtherStaysOk(s, t, p, j);
      }
    }
  }

  lemma StepKeepsInv(s: State, step: Step)
    requires Inv(s) && Enabled(s, step)
    ensures Inv(Next(s, step))
  {
    hide Inv, Next;
    match step
    case Claim(_) => ClaimKeepsInv(s, step);
    case Launch(_, _) => LaunchKeepsInv(s, step);
    case Delete(_) => DeleteKeepsInv(s, step);
    case Close(_) => CloseKeepsInv(s, step);
    case _ => QuietStepKeepsInv(s, step);
  }

  lemma {:induction false} RunKeepsInv(s: State, steps: seq<Step>, t: State)
    requires Inv(s) && Run(s, steps, t)
    ensures Inv(t)
    decreases |steps|
  {
    hide Inv, Next;
    if steps != [] {
      StepKeepsInv(s, steps[0]);
      RunKeepsInv(Next(s, steps[0]), steps[1..], t);
    }
  }

  lemma InitialInv(s: State)
    requires Initial(s)
    ensures Inv(s)
  {
  }

  // ----- what every interleaving guarantees

  /**
   In every interleaving: at most one prompt holds a key; what a holder is going to
   delete is its own entry; the channel it is going to close is still open; every
   waiter's channel is closed or owed by a prompt that has yet to close it; and no
   message is given a second run.
   */
  lemma {:induction false} EveryInterleavingIsSafe(s: State, steps: seq<Step>, t: State)
    requires Initial(s) && Run(s, steps, t)
    ensures forall i, j :: (&& 0 <= i < |t.prompts| && 0 <= j < |t.prompts| && t.prompts[i].key == t.prompts[j].key
                            && Held(t.prompts[i].stage).Some? && Held(t.prompts[j].stage).Some?) ==> i == j
    ensures forall i :: 0 <= i < |t.prompts| && t.prompts[i].stage.Leaving? && t.prompts[i].stage.claim.Some? ==>
              t.prompts[i].key in t.flights.inFlight &&
              t.flights.inFlight[t.prompts[i].key] == t.prompts[i].stage.claim.value
    ensures forall i ::
              0 <= i < |t.prompts| && t.prompts[i].stage.Closing? ==> t.prompts[i].stage.finished !in t.flights.closed
    ensures forall i :: 0 <= i < |t.prompts| && t.prompts[i].stage.Waiting? ==>
              t.prompts[i].stage.finished in t.flights.closed || IsOwed(t, t.prompts[i].stage.finished)
    ensures forall key: Key :: key.source.ForMessage? ==> t.runs[key] <= 1
  {
    hide KeysAreHeld, OwedOnce, IsOwed, Run, Initial;
    InitialInv(s);
    RunKeepsInv(s, steps, t);
    forall i, j | 0 <= i < |t.prompts| && 0 <= j < |t.prompts| && t.prompts[i].key == t.prompts[j].key &&
                  Held(t.prompts[i].stage).Some? && Held(t.prompts[j].stage).Some?
      ensures i == j
    {
      OneHolder(t, i, j);
    }
    forall i | 0 <= i < |t.prompts| ensures HeldIsRegistered(t, i) && OwedIsOpen(t, i) && WaitIsAnswered(t, i) {
      assert PromptOk(t, i);
    }
    forall i | 0 <= i < |t.prompts| && t.prompts[i].stage.Leaving? && t.prompts[i].stage.claim.Some?
      ensures t.prompts[i].key in t.flights.inFlight
      ensures t.flights.inFlight[t.prompts[i].key] == t.prompts[i].stage.claim.value
    {
      assert HeldIsRegistered(t, i);
    }
    forall i | 0 <= i < |t.prompts| && t.prompts[i].stage.Closing?
      ensures t.prompts[i].stage.finished !in t.flights.closed
    {
      assert OwedIsOpen(t, i);
    }
    forall i | 0 <= i < |t.prompts| && t.prompts[i].stage.Waiting?
      ensures t.prompts[i].stage.finished in t.flights.closed || IsOwed(t, t.prompts[i].stage.finished)
    {
      assert WaitIsAnswered(t, i);
    }
  }

  // ----- what becomes of a prompt

  /** The runs that launches record, each under the key of the prompt that launched it. */
  function Recorded(prompts: seq<Prompt>, steps: seq<Step>): multiset<Key>
    decreases |steps|
  {
    if steps == [] then multiset{}
    else RecordedBy(prompts, steps[0]) + Recorded(prompts, steps[1..])
  }

  function RecordedBy(prompts: seq<Prompt>, step: Step): multiset<Key> {
    if step.Launch? && step.recordsRun && step.p < |prompts| then multiset{prompts[step.p].key} else multiset{}
  }

  /** How often a prompt launched a run, or answered from one that was there. */
  function Answers(steps: seq<Step>, p: nat): nat {
    multiset(steps)[Launch(p, true)] + multiset(steps)[Launch(p, false)] + multiset(steps)[Settle(p)]
  }

  predicate HasAnswered(stage: Stage) {
    stage.Leaving? || stage.Closing? || stage.Returned?
  }

  /** Where prompt `p` stands after `steps` is told by what it did. */
  ghost predicate IsAsTold(steps: seq<Step>, t: State, p: nat)
    requires p < |t.prompts|
  {
    var key, stage := t.prompts[p].key, t.prompts[p].stage;
    && Answers(steps, p) == (if HasAnswered(stage) then 1 else 0)
    && multiset(steps)[Cancel(p)] == (if stage.GaveUp? then 1 else 0)
    && (stage.Answering? || Settle(p) in steps || Launch(p, true) in steps ==> key in t.runs)
    && (Settle(p) in steps ==> key.source.ForMessage?)
  }

  lemma StepIsTold(before: seq<Step>, s: State, step: Step, p: nat)
    requires Inv(s) && Enabled(s, step) && p < |s.prompts| && IsAsTold(before, s, p)
    ensures IsAsTold(before + [step], Next(s, step), p)
  {
    assert HasChannelIffMessage(s.prompts[p]) by { assert PromptOk(s, p); }
    StepMovesOne(s, step);
    OneStepMore(before, step, p);
    if step.p == p {
      WhereAStepLeads(s, step);
    }
    hide Inv, Next, Answers;
  }

  lemma OneStepMore(before: seq<Step>, step: Step, p: nat)
    ensures forall x :: x in before + [step] <==> x in before || x == step
    ensures Answers(before + [step], p) ==
            Answers(before, p) + if step.p == p && (step.Launch? || step.Settle?) then 1 else 0
    ensures multiset(before + [step])[Cancel(p)] == multiset(before)[Cancel(p)] + if step == Cancel(p) then 1 else 0
  {
    assert multiset(before + [step]) == multiset(before) + multiset{step};
  }

  lemma StepMovesOne(s: State, step: Step)
    requires Enabled(s, step)
    ensures OnlyMoved(s, Next(s, step), step.p)
    ensures var key := s.prompts[step.p].key;
            Next(s, step).runs == s.runs + if step.Launch? && step.recordsRun then multiset{key} else multiset{}
  {
  }

  lemma WhereAStepLeads(s: State, step: Step)
    requires Enabled(s, step)
    ensures var from, to := s.prompts[step.p].stage, Next(s, step).prompts[step.p].stage;
            && (HasAnswered(to) <==> HasAnswered(from) || step.Launch? || step.Settle?)
            && (HasAnswered(from) ==> step.Delete? || step.Close?)
            && (to.GaveUp? <==> step.Cancel?) && !from.GaveUp?
            && (to.Answering? ==> s.prompts[step.p].key in s.runs)
            && (step.Settle? ==> from.Answering?)
  {
  }

  lemma {:induction false} RunIsTold(before: seq<Step>, s: State, steps: seq<Step>, t: State, p: nat)
    requires Inv(s) && Run(s, steps, t) && p < |s.prompts| && IsAsTold(before, s, p)
    ensures |t.prompts| == |s.prompts| && t.prompts[p].key == s.prompts[p].key && IsAsTold(before + steps, t, p)
    decreases |steps|
  {
    hide Inv, IsAsTold;
    if steps == [] {
      assert before + steps == before;
    } else {
      StepKeepsInv(s, steps[0]);
      StepIsTold(before, s, steps[0], p);
      StepMovesOne(s, steps[0]);
      assert before + [steps[0]] + steps[1..] == before + steps;
      hide Next;
      RunIsTold(before + [steps[0]], Next(s, steps[0]), steps[1..], t, p);
    }
  }

  /**
   In every interleaving: a prompt launches once or answers once from a run that is there, and nothing
   else lets it return; one that carries no message launches; only a cancel lets one give up. A message
   whose prompt has returned has its run, unless that prompt's own launch recorded none.
   */
  lemma EveryPromptIsAnswered(s: State, steps: seq<Step>, t: State, p: nat)
    requires Initial(s) && Run(s, steps, t) && p < |s.prompts|
    ensures |t.prompts| == |s.prompts| && t.prompts[p].key == s.prompts[p].key && IsAsTold(steps, t, p)
    ensures t.prompts[p].stage.Answering? ==> t.prompts[p].key in t.runs
    ensures t.prompts[p].stage.Returned? && t.prompts[p].key.source.ForMessage? ==>
              t.prompts[p].key in t.runs || Launch(p, false) in steps
    ensures t.prompts[p].stage.Returned? && t.prompts[p].key.source.ForSession? ==>
              Launch(p, true) in steps || Launch(p, false) in steps
  {
    InitialInv(s);
    assert s.prompts[p].stage == Start;
    assert [] + steps == steps;
    hide Inv, Initial;
    RunIsTold([], s, steps, t, p);
  }

  lemma {:induction false} RunRecords(s: State, steps: seq<Step>, t: State, prompts: seq<Prompt>)
    requires Run(s, steps, t) && |prompts| == |s.prompts|
    requires forall i :: 0 <= i < |prompts| ==> prompts[i].key == s.prompts[i].key
    ensures t.runs == s.runs + Recorded(prompts, steps)
    decreases |steps|
  {
    hide Next;
    if steps != [] {
      StepMovesOne(s, steps[0]);
      assert steps[0].p < |prompts|;
      RunRecords(Next(s, steps[0]), steps[1..], t, prompts);
    }
  }

  /** The store holds the runs it held and those the launches recorded, and no others. */
  lemma RunsAreTheLaunches(s: State, steps: seq<Step>, t: State)
    requires Run(s, steps, t)
    ensures t.runs == s.runs + Recorded(s.prompts, steps)
  {
    RunRecords(s, steps, t, s.prompts);
  }

  // ----- no prompt is left behind

  predicate IsOver(stage: Stage) {
    stage.Returned? || stage.GaveUp?
  }

  /** While a prompt is not over, some step other than giving up can be taken. */
  lemma NoDeadlock(s: State, p: nat) returns (step: Step)
    requires Inv(s) && p < |s.prompts| && !IsOver(s.prompts[p].stage)
    ensures Enabled(s, step) && !step.Cancel?
  {
    var i := p;
    var stage := s.prompts[p].stage;
    if stage.Waiting? && stage.finished !in s.flights.closed {
      assert PromptOk(s, p);
      i :| 0 <= i < |s.prompts| && Owed(s.prompts[i].stage) == Some(stage.finished);
    }
    var next := s.prompts[i].stage;
    step := if next.Start? then Claim(i)
            else if next.Waiting? then Wake(i)
            else if next.Looking? then Look(i)
            else if next.Launching? then Launch(i, false)
            else if next.Answering? then Settle(i)
            else if next.Leaving? then Delete(i)
            else Close(i);
  }

  const TOP_RANK := 8

  /** How far a prompt is from its next closed channel, give or take the wait for it. */
  function Rank(stage: Stage, closed: set<Chan>): (r: nat)
    ensures r < TOP_RANK
  {
    match stage
    case Waiting(finished) => if finished in closed then 7 else 0
    case Start => 6
    case Looking(_) => 5
    case Launching(_) => 4
    case Answering(_) => 4
    case Leaving(_) => 3
    case Closing(_) => 2
    case _ => 0
  }

  /** A prompt weighs more than all ranks together until it is over. */
  function Weight(prompts: seq<Prompt>, closed: set<Chan>, unit: nat): nat {
    if prompts == [] then 0
    else
      var n := |prompts| - 1;
      Weight(prompts[..n], closed, unit) + Rank(prompts[n].stage, closed) + if IsOver(prompts[n].stage) then 0 else unit
  }

  function Measure(s: State): nat {
    Weight(s.prompts, s.flights.closed, TOP_RANK * |s.prompts|)
  }

  function Share(prompt: Prompt, closed: set<Chan>, unit: nat): nat {
    Rank(prompt.stage, closed) + if IsOver(prompt.stage) then 0 else unit
  }

  lemma {:induction false} WeightOfChange(prompts: seq<Prompt>, p: nat, prompt: Prompt, closed: set<Chan>, unit: nat)
    requires p < |prompts|
    ensures Weight(prompts[p := prompt], closed, unit) + Share(prompts[p], closed, unit) ==
            Weight(prompts, closed, unit) + Share(prompt, closed, unit)
  {
    var n := |prompts| - 1;
    if p == n {
      assert prompts[p := prompt][..n] == prompts[..n];
    } else {
      assert prompts[p := prompt][..n] == prompts[..n][p := prompt];
      WeightOfChange(prompts[..n], p, prompt, closed, unit);
    }
  }

  /** Closing a channel lifts every rank by less than the top. */
  lemma {:induction false} WeightOfClosing(prompts: seq<Prompt>, closed: set<Chan>, finished: Chan, unit: nat)
    ensures Weight(prompts, closed + {finished}, unit) <= Weight(prompts, closed, unit) + (TOP_RANK - 1) * |prompts|
  {
    if prompts != [] {
      WeightOfClosing(prompts[..|prompts| - 1], closed, finished, unit);
    }
  }

  /** The prompt that moves gets nearer to its end: by all that closing may cost the others, if it closes. */
  lemma StepShrinksShare(s: State, step: Step, unit: nat)
    requires Inv(s) && Enabled(s, step) && unit >= 1
    ensures var p, closed := step.p, s.flights.closed;
            Share(Next(s, step).prompts[p], closed, unit) + (if step.Close? then unit else 0) <
            Share(s.prompts[p], closed, unit)
    ensures Next(s, step).flights.closed ==
            if step.Close? then s.flights.closed + {s.prompts[step.p].stage.finished} else s.flights.closed
  {
    hide PromptOk, OwedOnce, KeysAreHeld;
    if step.Claim? && s.prompts[step.p].key in s.flights.inFlight {
      FlyingIsOwed(s, s.prompts[step.p].key);
    }
  }

  /** Every step makes the measure smaller, so no schedule runs for ever. */
  lemma StepShrinksMeasure(s: State, step: Step)
    requires Inv(s) && Enabled(s, step)
    ensures Measure(Next(s, step)) < Measure(s)
  {
    var t, p, unit := Next(s, step), step.p, TOP_RANK * |s.prompts|;
    var closed := s.flights.closed;
    StepShrinksShare(s, step, unit);
    assert t.prompts == s.prompts[p := t.prompts[p]];
    hide Weight, Inv, Next, Share;
    WeightOfChange(s.prompts, p, t.prompts[p], closed, unit);
    if step.Close? {
      WeightOfClosing(t.prompts, closed, s.prompts[p].stage.finished, unit);
    }
  }

  lemma {:induction false} RunIsBounded(s: State, steps: seq<Step>, t: State)
    requires Inv(s) && Run(s, steps, t)
    ensures |steps| + Measure(t) <= Measure(s)
    decreases |steps|
  {
    hide Inv, Next, Measure;
    if steps != [] {
      StepKeepsInv(s, steps[0]);
      StepShrinksMeasure(s, steps[0]);
      RunIsBounded(Next(s, steps[0]), steps[1..], t);
    }
  }

  lemma {:induction false} InitialWeight(prompts: seq<Prompt>, unit: nat)
    ensures Weight(prompts, {}, unit) <= |prompts| * (unit + TOP_RANK)
  {
    if prompts != [] {
      var n, most := |prompts| - 1, unit + TOP_RANK;
      InitialWeight(prompts[..n], unit);
      assert (n + 1) * most == n * most + most;
    }
  }

  /**
   However `n` prompts are scheduled, they take at most 8n² + 8n steps, and a schedule
   that cannot go on has let every prompt return or give up: no wake-up is lost.
   */
  lemma {:induction false} EveryScheduleFinishes(s: State, steps: seq<Step>, t: State)
    requires Initial(s) && Run(s, steps, t)
    ensures |steps| <= |s.prompts| * (TOP_RANK * |s.prompts| + TOP_RANK)
    ensures (forall step :: Enabled(t, step) ==> step.Cancel?) ==>
              forall i :: 0 <= i < |t.prompts| ==> IsOver(t.prompts[i].stage)
  {
    hide Inv, Run, Enabled, Measure;
    InitialInv(s);
    RunIsBounded(s, steps, t);
    InitialMeasure(s);
    RunKeepsInv(s, steps, t);
    forall i | 0 <= i < |t.prompts| && !IsOver(t.prompts[i].stage)
      ensures exists step :: Enabled(t, step) && !step.Cancel?
    {
      var step := NoDeadlock(t, i);
    }
  }

  lemma InitialMeasure(s: State)
    requires Initial(s)
    ensures Measure(s) <= |s.prompts| * (TOP_RANK * |s.prompts| + TOP_RANK)
  {
    hide Weight;
    InitialWeight(s.prompts, TOP_RANK * |s.prompts|);
  }

  // ----- the steps, performed

  /** The prompts of a connection, whose locked sections are those of its table of flights. */
  class Connection {
    const table: FlightTable
    var prompts: seq<Prompt>
    var runs: multiset<Key>

    ghost function View(): State
      reads this, table
    {
      State(table.View(), prompts, runs)
    }

    constructor (s: State)
      requires Initial(s)
      ensures View() == s && fresh(table)
    {
      table := new FlightTable();
      prompts, runs := s.prompts, s.runs;
    }

    method Move(p: nat, stage: Stage)
      requires p < |prompts|
      modifies this`prompts
      ensures prompts == old(prompts)[p := old(prompts)[p].(stage := stage)]
    {
      prompts := prompts[p := prompts[p].(stage := stage)];
    }

    /** The prompt claims its message, wakes or gives up waiting for the claim to end. */
    method Wait(step: Step)
      requires Enabled(View(), step) && (step.Claim? || step.Wake? || step.Cancel?)
      modifies this, table
      ensures View() == Next(old(View()), step)
    {
      var p := step.p;
      if step.Claim? {
        if prompts[p].key.source.ForSession? {
          Move(p, Launching(None));
        } else {
          var claimed, finished := table.Claim(prompts[p].key);
          Move(p, if claimed then Looking(finished) else Waiting(finished));
        }
      } else {
        Move(p, if step.Wake? then Start else GaveUp);
      }
    }

    /** The holder of a claim looks for a run, launches one or answers from it, and releases the claim. */
    method Hold(step: Step)
      requires Inv(View()) && Enabled(View(), step) && !(step.Claim? || step.Wake? || step.Cancel?)
      modifies this, table
      ensures View() == Next(old(View()), step)
    {
      hide Inv, KeysAreHeld, OwedOnce;
      var p := step.p;
      var key, stage := prompts[p].key, prompts[p].stage;
      if step.Look? {
        Move(p, if key in runs then Answering(stage.finished) else Launching(Some(stage.finished)));
      } else if step.Launch? {
        runs := if step.recordsRun then runs + multiset{key} else runs;
        Move(p, Leaving(stage.claim));
      } else if step.Settle? {
        Move(p, Leaving(Some(stage.finished)));
      } else if step.Delete? {
        if stage.claim.None? {
          Move(p, Returned);
        } else {
          table.Delete(key);
          Move(p, Closing(stage.claim.value));
        }
      } else {
        ClosingIsOpen(View(), p);
        table.Close(stage.finished);
        Move(p, Returned);
      }
    }

    /**
     Whichever prompt moves next, the connection goes where the theorems follow it, and no channel is
     closed twice.
     */
    method Perform(step: Step)
      requires Inv(View()) && Enabled(View(), step)
      modifies this, table
      ensures View() == Next(old(View()), step) && Inv(View())
    {
      hide Next, Inv;
      StepKeepsInv(View(), step);
      if step.Claim? || step.Wake? || step.Cancel? {
        Wait(step);
      } else {
        Hold(step);
      }
    }
  }

  lemma ClosingIsOpen(s: State, p: nat)
    requires Inv(s) && p < |s.prompts| && s.prompts[p].stage.Closing?
    ensures s.prompts[p].stage.finished !in s.flights.closed
  {
    assert PromptOk(s, p);
  }
}
