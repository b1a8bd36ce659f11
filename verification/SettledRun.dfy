/**
 Waiting for the run of a message to settle. The waiter registers an observer, then
 reads the store, and blocks on a channel that holds one token; the observer puts the
 token there for transitions of its own run. The store changes first and notifies later.
 */
module SettledRun {
  type RunId = string

  datatype Status = Planned | Running | WaitingApproval | WaitingUserInput | Ended

  datatype TaskRun = TaskRun(status: Status, interruptedByRestart: bool)

  predicate IsStillWorking(run: TaskRun) {
    run.status.Planned? || run.status.Running? || run.interruptedByRestart
  }

  datatype Stage =
    | Unregistered
    | Reading
    | Blocked
    | Answered(run: TaskRun)
    | Cancelled

  /**
   `store` is what the store of task runs holds; `pending` the transitions it has yet to tell its
   observers; `token` whether the waiter's channel holds its one token. `given` is the run
   the waiter was asked to wait for, `id` its ID.
   */
  datatype State = State(
    store: map<RunId, TaskRun>, pending: seq<RunId>, token: bool, stage: Stage, id: RunId, given: TaskRun)

  datatype Step =
    | Transition(run: RunId, to: TaskRun)
    | Remove(run: RunId)
    | Notify
    | Register
    | Read
    | Wake
    | Cancel

  predicate IsObserving(s: State) {
    s.stage.Reading? || s.stage.Blocked?
  }

  predicate Enabled(s: State, step: Step) {
    match step
    case Transition(_, _) => true
    case Remove(_) => true
    case Notify => s.pending != []
    case Register => s.stage.Unregistered?
    case Read => s.stage.Reading?
    case Wake => s.stage.Blocked? && s.token
    case Cancel => s.stage.Blocked?
  }

  function Next(s: State, step: Step): State
    requires Enabled(s, step)
  {
    match step
    case Transition(run, to) => s.(store := s.store[run := to], pending := s.pending + [run])
    case Remove(run) => s.(store := s.store - {run})
    case Notify =>
      s.(pending := s.pending[1..], token := s.token || (IsObserving(s) && s.pending[0] == s.id))
    case Register => s.(stage := Reading)
    case Read =>
      if s.id !in s.store then s.(stage := Answered(s.given))
      else if !IsStillWorking(s.store[s.id]) then s.(stage := Answered(s.store[s.id]))
      else s.(stage := Blocked)
    case Wake => s.(token := false, stage := Reading)
    case Cancel => s.(stage := Cancelled)
  }

  ghost predicate Run(s: State, steps: seq<Step>, t: State)
    decreases |steps|
  {
    if steps == [] then s == t else Enabled(s, steps[0]) && Run(Next(s, steps[0]), steps[1..], t)
  }

  /** A run that waits for a person or has ended, and was not cut short by a restart. */
  predicate HasSettled(run: TaskRun) {
    run.status in {WaitingApproval, WaitingUserInput, Ended} && !run.interruptedByRestart
  }

  predicate IsSettled(s: State) {
    s.id in s.store && HasSettled(s.store[s.id])
  }

  /** A blocked waiter whose run has settled has a token, or a notification of its run to come. */
  predicate WillHear(s: State) {
    s.stage.Blocked? && IsSettled(s) ==> s.token || s.id in s.pending
  }

  lemma StepKeepsHearing(s: State, step: Step)
    requires WillHear(s) && Enabled(s, step)
    ensures WillHear(Next(s, step))
  {
    var t := Next(s, step);
    if step.Notify? {
      assert s.pending == [s.pending[0]] + s.pending[1..];
    }
  }

  /** The wait never sleeps through the settlement, whatever the store and the notifications do. */
  lemma {:induction false} NeverSleepsThroughSettlement(s: State, steps: seq<Step>, t: State)
    requires !s.stage.Blocked? && Run(s, steps, t)
    ensures t.stage.Blocked? && IsSettled(t) ==> t.token || t.id in t.pending
  {
    RunKeepsHearing(s, steps, t);
  }

  lemma {:induction false} RunKeepsHearing(s: State, steps: seq<Step>, t: State)
    requires WillHear(s) && Run(s, steps, t)
    ensures WillHear(t)
    decreases |steps|
  {
    if steps != [] {
      StepKeepsHearing(s, steps[0]);
      RunKeepsHearing(Next(s, steps[0]), steps[1..], t);
    }
  }

  /** A look at the store that finds the run settled, or finds none and goes by the run that was given. */
  predicate Finds(s: State, step: Step, run: TaskRun) {
    step == Read && (if s.id in s.store then run == s.store[s.id] && HasSettled(run) else run == s.given)
  }

  /** Where a run leads. */
  ghost function After(s: State, steps: seq<Step>): State
    decreases |steps|
  {
    if steps == [] || !Enabled(s, steps[0]) then s else After(Next(s, steps[0]), steps[1..])
  }

  lemma StepAnswers(s: State, step: Step, run: TaskRun)
    requires Enabled(s, step)
    ensures Next(s, step).stage == Answered(run) <==> s.stage == Answered(run) || Finds(s, step, run)
    ensures Next(s, step).stage == Cancelled <==> s.stage == Cancelled || step == Cancel
    ensures Next(s, step).id == s.id && Next(s, step).given == s.given
  {
  }

  lemma {:induction false} RunAnswers(s: State, steps: seq<Step>, t: State, run: TaskRun)
    requires Run(s, steps, t)
    ensures t.stage == Answered(run) <==>
            s.stage == Answered(run) || exists k :: 0 <= k < |steps| && Finds(After(s, steps[..k]), steps[k], run)
    ensures t.stage == Cancelled <==> s.stage == Cancelled || Cancel in steps
    decreases |steps|
  {
    if steps != [] {
      var next, rest := Next(s, steps[0]), steps[1..];
      StepAnswers(s, steps[0], run);
      RunAnswers(next, rest, t, run);
      hide Next, Finds;
      assert steps == [steps[0]] + rest && After(s, steps[..0]) == s;
      forall k | 0 <= k < |rest| ensures After(s, steps[..k + 1]) == After(next, rest[..k]) && rest[k] == steps[k + 1] {
        assert steps[..k + 1][1..] == rest[..k];
      }
      if k :| 0 <= k < |rest| && Finds(After(next, rest[..k]), rest[k], run) {
        assert Finds(After(s, steps[..k + 1]), steps[k + 1], run);
      }
      if k :| 0 <= k < |steps| && Finds(After(s, steps[..k]), steps[k], run) {
        assert k > 0 ==> Finds(After(next, rest[..k - 1]), rest[k - 1], run);
      }
    }
  }

  /** The observer hears of a transition of its own run. */
  predicate Signals(s: State, step: Step) {
    step == Notify && s.pending != [] && s.pending[0] == s.id && IsObserving(s)
  }

  ghost predicate IsSignalledAt(s: State, steps: seq<Step>, k: nat) {
    k < |steps| && Signals(After(s, steps[..k]), steps[k]) && Wake !in steps[k + 1..]
  }

  lemma SignalledLater(s: State, steps: seq<Step>, k: nat)
    requires steps != [] && Enabled(s, steps[0])
    ensures IsSignalledAt(s, steps, k + 1) <==> IsSignalledAt(Next(s, steps[0]), steps[1..], k)
  {
    if k + 1 < |steps| {
      assert steps[..k + 1][1..] == steps[1..][..k] && steps[k + 2..] == steps[1..][k + 1..];
    }
  }

  /** The channel holds a token exactly when its own run was heard of since the last time it was taken. */
  lemma {:induction false} TokenIff(s: State, steps: seq<Step>, t: State)
    requires Run(s, steps, t)
    ensures t.token <==> (s.token && Wake !in steps) || exists k: nat :: IsSignalledAt(s, steps, k)
    decreases |steps|
  {
    if steps != [] {
      var next, rest := Next(s, steps[0]), steps[1..];
      TokenIff(next, rest, t);
      assert steps == [steps[0]] + rest && steps[..0] == [] && After(s, steps[..0]) == s;
      assert IsSignalledAt(s, steps, 0) <==> Signals(s, steps[0]) && Wake !in rest;
      forall k: nat ensures IsSignalledAt(s, steps, k + 1) <==> IsSignalledAt(next, rest, k) {
        SignalledLater(s, steps, k);
      }
      hide IsSignalledAt;
      if k: nat :| IsSignalledAt(next, rest, k) {
        assert IsSignalledAt(s, steps, k + 1);
      }
      if k: nat :| IsSignalledAt(s, steps, k) {
        assert k > 0 ==> IsSignalledAt(next, rest, k - 1);
      }
    }
  }

  /**
   The wait ends with a run exactly when a look at the store found that run settled, or found none and it
   is the run that was given; and it is cancelled exactly when its context is.
   */
  lemma EveryAnswerWasFound(s: State, steps: seq<Step>, t: State, run: TaskRun)
    requires s.stage.Unregistered? && Run(s, steps, t)
    ensures t.stage == Answered(run) <==>
            exists k :: 0 <= k < |steps| && Finds(After(s, steps[..k]), steps[k], run)
    ensures t.stage == Cancelled <==> Cancel in steps
  {
    RunAnswers(s, steps, t, run);
  }

  /**
   Once the run has settled, delivering what is pending and letting the waiter go on is
   enough: it answers with the run as the store holds it, after at most that many steps.
   */
  lemma {:induction false} SettledWaiterIsReleased(s: State) returns (steps: seq<Step>, t: State)
    requires WillHear(s) && s.stage.Blocked? && IsSettled(s)
    ensures Run(s, steps, t) && t.stage == Answered(s.store[s.id])
    ensures |steps| <= |s.pending| + 2 && forall step <- steps :: step in {Notify, Wake, Read}
    decreases |s.pending|
  {
    if s.token {
      var woken := Next(s, Wake);
      t := Next(woken, Read);
      steps := [Wake, Read];
      assert steps[1..] == [Read] && [Read][1..] == [];
      assert Run(woken, [Read], t);
    } else {
      StepKeepsHearing(s, Notify);
      var rest;
      rest, t := SettledWaiterIsReleased(Next(s, Notify));
      steps := [Notify] + rest;
      assert steps[1..] == rest;
    }
  }
}
