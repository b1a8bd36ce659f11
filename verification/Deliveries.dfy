/**
 Delivery reports: whoever sends something registers a channel under a delivery ID and
 waits; a report by that ID takes the registration away and sends its outcome on the
 channel, which holds one. Each locked section is one step.
 */
module Deliveries {
  import opened Options
  import Utf8

  type Chan = nat
  type Id = string

  datatype Outcome = Delivered(messageID: string) | Failed(reason: string)

  predicate NamesNoDelivery(id: Id) {
    Utf8.TrimSpace(id) == ""
  }

  lemma NamesNoDeliveryIff(id: Id)
    ensures NamesNoDelivery(id) <==> forall c <- id :: Utf8.IsSpaceCharacter(c)
  {
  }

  // ----- the table of awaited deliveries

  datatype Table = Table(waiting: map<Id, Chan>, made: nat, buffered: map<Chan, Outcome>)

  datatype SettleResult = Settled | NobodyAwaits | NamesNone

  function Expected(table: Table, id: Id): Table {
    table.(waiting := table.waiting[id := table.made], made := table.made + 1)
  }

  function Forgotten(table: Table, id: Id): Table {
    table.(waiting := table.waiting - {id})
  }

  function SettleAnswer(table: Table, id: Id): SettleResult {
    if NamesNoDelivery(id) then NamesNone else if id in table.waiting then Settled else NobodyAwaits
  }

  function AfterSettle(table: Table, id: Id, outcome: Outcome): Table {
    if SettleAnswer(table, id) != Settled then table
    else table.(waiting := table.waiting - {id}, buffered := table.buffered[table.waiting[id] := outcome])
  }

  /** Sending on a channel that already holds its one outcome would block with the lock held. */
  predicate WouldBlock(table: Table, id: Id) {
    SettleAnswer(table, id) == Settled && table.waiting[id] in table.buffered
  }

  class AwaitedDeliveries {
    var waiting: map<Id, Chan>
    var made: nat
    var buffered: map<Chan, Outcome>

    constructor ()
      ensures View() == Table(map[], 0, map[])
    {
      waiting, made, buffered := map[], 0, map[];
    }

    function View(): Table
      reads this
    {
      Table(waiting, made, buffered)
    }

    method ExpectDelivery(id: Id) returns (outcome: Chan)
      modifies this
      ensures View() == Expected(old(View()), id) && outcome == old(made)
    {
      outcome := made;
      made := made + 1;
      waiting := waiting[id := outcome];
    }

    method Forget(id: Id)
      modifies this
      ensures View() == Forgotten(old(View()), id)
    {
      waiting := waiting - {id};
    }

    method Settle(id: Id, outcome: Outcome) returns (r: SettleResult)
      requires !WouldBlock(View(), id)
      modifies this
      ensures r == SettleAnswer(old(View()), id) && View() == AfterSettle(old(View()), id, outcome)
    {
      if NamesNoDelivery(id) {
        return NamesNone;
      }
      if id !in waiting {
        return NobodyAwaits;
      }
      var channel := waiting[id];
      waiting := waiting - {id};
      buffered := buffered[channel := outcome];
      return Settled;
    }
  }

  // ----- waiters

  /** How a wait ended: with a settled outcome, with none when asking ended, or given up. */
  datatype Answer = Heard(outcome: Outcome) | Unreported | Abandoned

  datatype Stage = Idle | Awaiting(channel: Chan) | Answered(channel: Chan, answer: Answer) | Gone

  datatype Waiter = Waiter(id: Id, stage: Stage)

  /**
   `sent` lists every outcome ever put on a channel. `disturbed` are the waiters during
   whose wait another waiter with the same ID registered or forgot it.
   */
  datatype State = State(table: Table, waiters: seq<Waiter>, sent: seq<(Chan, Outcome)>, disturbed: set<nat>)

  datatype Step =
    | Expect(w: nat)
    | Report(id: Id, outcome: Outcome)
    | Receive(w: nat)
    | AskingEnded(w: nat)
    | Abandon(w: nat)
    | Forget(w: nat)

  predicate Enabled(s: State, step: Step) {
    match step
    case Expect(w) => w < |s.waiters| && s.waiters[w].stage.Idle?
    case Report(_, _) => true
    case Receive(w) => w < |s.waiters| && s.waiters[w].stage.Awaiting? && s.waiters[w].stage.channel in s.table.buffered
    case AskingEnded(w) => w < |s.waiters| && s.waiters[w].stage.Awaiting?
    case Abandon(w) => w < |s.waiters| && s.waiters[w].stage.Awaiting?
    case Forget(w) => w < |s.waiters| && s.waiters[w].stage.Answered?
  }

  function Move(s: State, w: nat, stage: Stage): State
    requires w < |s.waiters|
  {
    s.(waiters := s.waiters[w := s.waiters[w].(stage := stage)])
  }

  /** The other waiters that are waiting under the same ID. */
  function Rivals(s: State, w: nat): set<nat>
    requires w < |s.waiters|
  {
    set v: nat | v < |s.waiters| && v != w && s.waiters[v].id == s.waiters[w].id && s.waiters[v].stage.Awaiting?
  }

  /** `settledOrUnreported`: an outcome that is there is taken, whichever way the wait ended. */
  function TakeOrUnreported(s: State, w: nat): State
    requires w < |s.waiters| && s.waiters[w].stage.Awaiting?
  {
    var channel := s.waiters[w].stage.channel;
    if channel in s.table.buffered then
      Move(s.(table := s.table.(buffered := s.table.buffered - {channel})), w,
          Answered(channel, Heard(s.table.buffered[channel])))
    else Move(s, w, Answered(channel, Unreported))
  }

  function Next(s: State, step: Step): State
    requires Enabled(s, step)
  {
    match step
    case Expect(w) =>
      Move(s.(table := Expected(s.table, s.waiters[w].id), disturbed := s.disturbed + Rivals(s, w)), w,
          Awaiting(s.table.made))
    case Report(id, outcome) =>
      if SettleAnswer(s.table, id) != Settled then s
      else s.(table := AfterSettle(s.table, id, outcome), sent := s.sent + [(s.table.waiting[id], outcome)])
    case Receive(w) => TakeOrUnreported(s, w)
    case AskingEnded(w) => TakeOrUnreported(s, w)
    case Abandon(w) => Move(s, w, Answered(s.waiters[w].stage.channel, Abandoned))
    case Forget(w) =>
      Move(s.(table := Forgotten(s.table, s.waiters[w].id), disturbed := s.disturbed + Rivals(s, w)), w, Gone)
  }

  ghost predicate Run(s: State, steps: seq<Step>, t: State)
    decreases |steps|
  {
    if steps == [] then s == t else Enabled(s, steps[0]) && Run(Next(s, steps[0]), steps[1..], t)
  }

  ghost predicate Initial(s: State) {
    && s.table == Table(map[], 0, map[]) && s.sent == [] && s.disturbed == {}
    && forall w :: 0 <= w < |s.waiters| ==> s.waiters[w].stage == Idle
  }

  // ----- the invariant

  predicate WasSent(s: State, channel: Chan) {
    exists k :: 0 <= k < |s.sent| && s.sent[k].0 == channel
  }

  ghost predicate SentOnce(s: State) {
    forall j, k :: 0 <= j < k < |s.sent| ==> s.sent[j].0 != s.sent[k].0
  }

  /** A registered channel was made, belongs to one ID and never carried anything. */
  ghost predicate RegisteredIsFresh(s: State) {
    && (forall id <- s.table.waiting :: s.table.waiting[id] < s.table.made && !WasSent(s, s.table.waiting[id]))
    && (forall a, b ::
          a in s.table.waiting && b in s.table.waiting && s.table.waiting[a] == s.table.waiting[b] ==> a == b)
  }

  ghost predicate SentWasMade(s: State) {
    forall k :: 0 <= k < |s.sent| ==> s.sent[k].0 < s.table.made
  }

  /** What a channel holds was sent on it. */
  ghost predicate BufferedWasSent(s: State) {
    forall c <- s.table.buffered :: (c, s.table.buffered[c]) in s.sent
  }

  function ChannelOf(stage: Stage): Option<Chan> {
    match stage
    case Awaiting(channel) => Some(channel)
    case Answered(channel, _) => Some(channel)
    case _ => None
  }

  ghost predicate ChannelsDiffer(s: State) {
    forall v, w :: 0 <= v < w < |s.waiters| && ChannelOf(s.waiters[v].stage).Some? ==>
      ChannelOf(s.waiters[v].stage) != ChannelOf(s.waiters[w].stage)
  }

  /**
   A waiter: its channel was made; what was sent and not yet taken is there; a report can still reach
   it unless a rival interfered.
   */
  ghost predicate WaiterOk(s: State, w: nat)
    requires w < |s.waiters|
  {
    match s.waiters[w].stage
    case Idle => w !in s.disturbed
    case Awaiting(channel) =>
      && channel < s.table.made
      && (WasSent(s, channel) <==> channel in s.table.buffered)
      && (!WasSent(s, channel) ==> (IsRegistered(s, w) <==> w !in s.disturbed))
    case Answered(channel, answer) =>
      && channel < s.table.made
      && (answer.Heard? ==> (channel, answer.outcome) in s.sent && channel !in s.table.buffered)
    case Gone => true
  }

  /**
   The ID is registered for the waiter's channel, so that a report by it reaches that channel, if the
   ID names a delivery.
   */
  predicate IsRegistered(s: State, w: nat)
    requires w < |s.waiters| && s.waiters[w].stage.Awaiting?
  {
    s.waiters[w].id in s.table.waiting && s.table.waiting[s.waiters[w].id] == s.waiters[w].stage.channel
  }

  ghost predicate Inv(s: State) {
    && SentOnce(s)
    && SentWasMade(s)
    && RegisteredIsFresh(s)
    && BufferedWasSent(s)
    && ChannelsDiffer(s)
    && (forall w :: 0 <= w < |s.waiters| ==> WaiterOk(s, w))
  }

  // ----- every step keeps the invariant

  lemma StillDiffer(s: State, t: State, w: nat)
    requires ChannelsDiffer(s) && w < |s.waiters| == |t.waiters|
    requires forall v :: 0 <= v < |s.waiters| && v != w ==> t.waiters[v] == s.waiters[v]
    requires ChannelOf(t.waiters[w].stage) in {None, ChannelOf(s.waiters[w].stage)}
    ensures ChannelsDiffer(t)
  {
    forall u, v | 0 <= u < v < |t.waiters| && ChannelOf(t.waiters[u].stage).Some?
      ensures ChannelOf(t.waiters[u].stage) != ChannelOf(t.waiters[v].stage)
    {
      assert ChannelOf(s.waiters[u].stage).Some? ==> ChannelOf(s.waiters[u].stage) != ChannelOf(s.waiters[v].stage);
    }
  }

  lemma ExpectedIsFresh(s: State, w: nat)
    requires Inv(s) && Enabled(s, Expect(w))
    ensures var t := Next(s, Expect(w));
            && SentOnce(t) && SentWasMade(t) && RegisteredIsFresh(t) && BufferedWasSent(t)
            && forall c :: WasSent(t, c) <==> WasSent(s, c)
  {
    hide WaiterOk, ChannelsDiffer;
    SameSent(s, Next(s, Expect(w)));
  }

  lemma ExpectedChannelsDiffer(s: State, w: nat)
    requires Inv(s) && Enabled(s, Expect(w))
    ensures ChannelsDiffer(Next(s, Expect(w)))
  {
    hide SentOnce, SentWasMade, RegisteredIsFresh, BufferedWasSent;
    var t := Next(s, Expect(w));
    forall u, v | 0 <= u < v < |t.waiters| && ChannelOf(t.waiters[u].stage).Some?
      ensures ChannelOf(t.waiters[u].stage) != ChannelOf(t.waiters[v].stage)
    {
      assert WaiterOk(s, u) && WaiterOk(s, v);
    }
  }

  lemma ExpectKeepsInv(s: State, w: nat)
    requires Inv(s) && Enabled(s, Expect(w))
    ensures Inv(Next(s, Expect(w)))
  {
    hide SentOnce, ChannelsDiffer;
    var t := Next(s, Expect(w));
    ExpectedIsFresh(s, w);
    ExpectedChannelsDiffer(s, w);
    assert WaiterOk(s, w);
    forall v | 0 <= v < |t.waiters| ensures WaiterOk(t, v) {
      assert WaiterOk(s, v);
    }
  }

  lemma SameSent(s: State, t: State)
    requires s.sent == t.sent && SentOnce(s)
    ensures SentOnce(t)
  {
  }

  lemma ReportKeepsInv(s: State, id: Id, outcome: Outcome)
    requires Inv(s)
    ensures Inv(Next(s, Report(id, outcome)))
  {
    var t := Next(s, Report(id, outcome));
    if SettleAnswer(s.table, id) == Settled {
      var channel := s.table.waiting[id];
      ReportIsSentOnce(s, t, channel, outcome);
      forall c | c in t.table.buffered ensures (c, t.table.buffered[c]) in t.sent {
        assert c != channel ==> (c, s.table.buffered[c]) in s.sent;
      }
      forall v | 0 <= v < |t.waiters| ensures WaiterOk(t, v) {
        assert WaiterOk(s, v);
      }
    }
  }

  lemma ReportIsSentOnce(s: State, t: State, channel: Chan, outcome: Outcome)
    requires t.sent == s.sent + [(channel, outcome)] && SentOnce(s) && !WasSent(s, channel)
    ensures SentOnce(t) && (channel, outcome) in t.sent && forall x <- s.sent :: x in t.sent
    ensures forall c :: WasSent(t, c) <==> c == channel || WasSent(s, c)
  {
    forall c ensures WasSent(t, c) <==> c == channel || WasSent(s, c) {
      if WasSent(s, c) {
        var k :| 0 <= k < |s.sent| && s.sent[k].0 == c;
        assert t.sent[k].0 == c;
      }
      assert t.sent[|s.sent|].0 == channel;
    }
    forall j, k | 0 <= j < k < |t.sent| ensures t.sent[j].0 != t.sent[k].0 {
      assert WasSent(s, s.sent[j].0);
    }
  }

  lemma TakeKeepsInv(s: State, w: nat)
    requires Inv(s) && Enabled(s, AskingEnded(w))
    ensures Inv(TakeOrUnreported(s, w))
  {
    hide SentOnce;
    var t := TakeOrUnreported(s, w);
    assert WaiterOk(s, w);
    StillDiffer(s, t, w);
    SameSent(s, t);
    forall v | 0 <= v < |t.waiters| ensures WaiterOk(t, v) {
      assert WaiterOk(s, v);
      var low, high := if v < w then v else w, if v < w then w else v;
      assert low < high && ChannelOf(s.waiters[low].stage).Some? ==>
               ChannelOf(s.waiters[low].stage) != ChannelOf(s.waiters[high].stage);
    }
  }

  lemma AbandonKeepsInv(s: State, w: nat)
    requires Inv(s) && Enabled(s, Abandon(w))
    ensures Inv(Next(s, Abandon(w)))
  {
    hide SentOnce;
    var t := Next(s, Abandon(w));
    StillDiffer(s, t, w);
    SameSent(s, t);
    forall v | 0 <= v < |t.waiters| ensures WaiterOk(t, v) {
      assert WaiterOk(s, v);
    }
  }

  lemma ForgetKeepsInv(s: State, w: nat)
    requires Inv(s) && Enabled(s, Forget(w))
    ensures Inv(Next(s, Forget(w)))
  {
    hide SentOnce;
    var t := Next(s, Forget(w));
    StillDiffer(s, t, w);
    SameSent(s, t);
    forall v | 0 <= v < |t.waiters| ensures WaiterOk(t, v) {
      assert WaiterOk(s, v);
    }
  }

  lemma StepKeepsInv(s: State, step: Step)
    requires Inv(s) && Enabled(s, step)
    ensures Inv(Next(s, step))
  {
    hide Inv;
    match step
    case Expect(w) => ExpectKeepsInv(s, w);
    case Report(id, outcome) => ReportKeepsInv(s, id, outcome);
    case Receive(w) => TakeKeepsInv(s, w);
    case AskingEnded(w) => TakeKeepsInv(s, w);
    case Abandon(w) => AbandonKeepsInv(s, w);
    case Forget(w) => ForgetKeepsInv(s, w);
  }

  lemma InitialInv(s: State)
    requires Initial(s)
    ensures Inv(s)
  {
  }

  lemma {:induction false} RunKeepsInv(s: State, steps: seq<Step>, t: State)
    requires Inv(s) && Run(s, steps, t)
    ensures Inv(t)
    decreases |steps|
  {
    hide Inv, Next;
    if steps != [] {
      StepKeepsInv(s, steps[0]);
      RunKeepsInv(Next(s, steps[0]), steps[1..], t);
    }
  }

  // ----- what every interleaving guarantees

  /** Any report by the waiter's ID puts its outcome on the waiter's channel. */
  ghost predicate IsReachable(s: State, w: nat)
    requires w < |s.waiters| && s.waiters[w].stage.Awaiting?
  {
    forall outcome :: var after := Next(s, Report(s.waiters[w].id, outcome)).table.buffered;
      s.waiters[w].stage.channel in after && after[s.waiters[w].stage.channel] == outcome
  }

  lemma ReachableIff(s: State, w: nat)
    requires Inv(s) && w < |s.waiters| && s.waiters[w].stage.Awaiting? && !WasSent(s, s.waiters[w].stage.channel)
    ensures IsReachable(s, w) <==> IsRegistered(s, w) && !NamesNoDelivery(s.waiters[w].id)
  {
    assert WaiterOk(s, w);
    var outcome := Delivered("");
    var after := Next(s, Report(s.waiters[w].id, outcome));
    assert s.waiters[w].stage.channel in after.table.buffered <==>
           IsRegistered(s, w) && !NamesNoDelivery(s.waiters[w].id);
  }

  /**
   In every interleaving no channel is ever sent a second outcome, no report blocks with
   the lock held, what a waiter heard was sent on its own channel, and a waiter nothing
   was sent to yet can be reached by a report exactly when its ID is not blank and no waiter
   with the same ID registered or forgot that ID during its wait.
   */
  lemma {:induction false} EveryInterleavingIsSafe(s: State, steps: seq<Step>, t: State)
    requires Initial(s) && Run(s, steps, t)
    ensures forall j, k :: 0 <= j < k < |t.sent| ==> t.sent[j].0 != t.sent[k].0
    ensures forall id :: !WouldBlock(t.table, id)
    ensures forall w :: 0 <= w < |t.waiters| && t.waiters[w].stage.Answered? && t.waiters[w].stage.answer.Heard? ==>
              (t.waiters[w].stage.channel, t.waiters[w].stage.answer.outcome) in t.sent
    ensures forall w ::
              0 <= w < |t.waiters| && t.waiters[w].stage.Awaiting? && !WasSent(t, t.waiters[w].stage.channel) ==>
              (IsReachable(t, w) <==> w !in t.disturbed && !NamesNoDelivery(t.waiters[w].id))
  {
    InitialInv(s);
    RunKeepsInv(s, steps, t);
    forall c | c in t.table.buffered ensures WasSent(t, c) {
      var k :| 0 <= k < |t.sent| && t.sent[k] == (c, t.table.buffered[c]);
    }
    forall w | 0 <= w < |t.waiters| && t.waiters[w].stage.Answered? && t.waiters[w].stage.answer.Heard?
      ensures (t.waiters[w].stage.channel, t.waiters[w].stage.answer.outcome) in t.sent
    {
      assert WaiterOk(t, w);
    }
    forall w | 0 <= w < |t.waiters| && t.waiters[w].stage.Awaiting? && !WasSent(t, t.waiters[w].stage.channel)
      ensures IsReachable(t, w) <==> w !in t.disturbed && !NamesNoDelivery(t.waiters[w].id)
    {
      assert WaiterOk(t, w);
      ReachableIff(t, w);
    }
  }

  /** The registration is of a wait that has not been forgotten, under that wait's own ID. */
  ghost predicate IsOwned(s: State, id: Id)
    requires id in s.table.waiting
  {
    exists w :: 0 <= w < |s.waiters| && s.waiters[w].id == id &&
                ChannelOf(s.waiters[w].stage) == Some(s.table.waiting[id])
  }

  lemma StepKeepsOwned(s: State, step: Step)
    requires Enabled(s, step) && forall id <- s.table.waiting :: IsOwned(s, id)
    ensures forall id <- Next(s, step).table.waiting :: IsOwned(Next(s, step), id)
  {
    var t := Next(s, step);
    forall id | id in t.table.waiting ensures IsOwned(t, id) {
      if step.Expect? && s.waiters[step.w].id == id {
        assert t.waiters[step.w].id == id && ChannelOf(t.waiters[step.w].stage) == Some(t.table.waiting[id]);
      } else {
        assert IsOwned(s, id);
        var w :| 0 <= w < |s.waiters| && s.waiters[w].id == id &&
                 ChannelOf(s.waiters[w].stage) == Some(s.table.waiting[id]);
        assert t.waiters[w].id == id && ChannelOf(t.waiters[w].stage) == Some(t.table.waiting[id]);
      }
    }
  }

  /** No registration outlives its wait: once all waits are forgotten, the table is empty. */
  lemma {:induction false} RegistrationsAreOwned(s: State, steps: seq<Step>, t: State)
    requires Run(s, steps, t) && forall id <- s.table.waiting :: IsOwned(s, id)
    ensures forall id <- t.table.waiting :: IsOwned(t, id)
    ensures (forall w :: 0 <= w < |t.waiters| ==> t.waiters[w].stage.Gone?) ==> t.table.waiting == map[]
    decreases |steps|
  {
    hide IsOwned, Next;
    if steps != [] {
      StepKeepsOwned(s, steps[0]);
      RegistrationsAreOwned(Next(s, steps[0]), steps[1..], t);
    } else if t.table.waiting != map[] {
      var w := OwnerIsNotGone(t);
    }
  }

  lemma OwnerIsNotGone(t: State) returns (w: nat)
    requires t.table.waiting != map[] && forall id <- t.table.waiting :: IsOwned(t, id)
    ensures w < |t.waiters| && !t.waiters[w].stage.Gone?
  {
    var id :| id in t.table.waiting;
    assert IsOwned(t, id);
    w :| 0 <= w < |t.waiters| && t.waiters[w].id == id && ChannelOf(t.waiters[w].stage) == Some(t.table.waiting[id]);
  }

  /** An outcome settled before asking ended is the one returned on that branch. */
  lemma {:induction false} SettledBeforeAskingEndedIsReturned(s: State, steps: seq<Step>, t: State, w: nat,
      outcome: Outcome)
    requires Initial(s) && Run(s, steps, t) && Enabled(t, AskingEnded(w))
    ensures (t.waiters[w].stage.channel, outcome) in t.sent <==>
            Next(t, AskingEnded(w)).waiters[w].stage == Answered(t.waiters[w].stage.channel, Heard(outcome))
  {
    InitialInv(s);
    RunKeepsInv(s, steps, t);
    assert WaiterOk(t, w);
    var channel := t.waiters[w].stage.channel;
    if (channel, outcome) in t.sent {
      var k :| 0 <= k < |t.sent| && t.sent[k] == (channel, outcome);
      assert WasSent(t, channel);
      assert (channel, t.table.buffered[channel]) in t.sent;
      var j :| 0 <= j < |t.sent| && t.sent[j] == (channel, t.table.buffered[channel]);
      assert j == k;
    }
  }

  // ----- what each wait ends with

  /** Where a run leads. */
  ghost function After(s: State, steps: seq<Step>): State
    decreases |steps|
  {
    if steps == [] || !Enabled(s, steps[0]) then s else After(Next(s, steps[0]), steps[1..])
  }

  /** The step ends the wait with that answer: the outcome that was sent, none if none was, or giving up. */
  predicate Ends(s: State, step: Step, w: nat, channel: Chan, answer: Answer) {
    && w < |s.waiters| && s.waiters[w].stage == Awaiting(channel)
    && match answer
       case Heard(outcome) => (step == Receive(w) || step == AskingEnded(w)) && (channel, outcome) in s.sent
       case Unreported => step == AskingEnded(w) && !WasSent(s, channel)
       case Abandoned => step == Abandon(w)
  }

  lemma OneOutcome(s: State, channel: Chan, outcome: Outcome)
    requires Inv(s) && channel in s.table.buffered
    ensures (channel, outcome) in s.sent <==> outcome == s.table.buffered[channel]
  {
    assert (channel, s.table.buffered[channel]) in s.sent;
    if (channel, outcome) in s.sent {
      var j :| 0 <= j < |s.sent| && s.sent[j] == (channel, s.table.buffered[channel]);
      var k :| 0 <= k < |s.sent| && s.sent[k] == (channel, outcome);
      assert j == k;
    }
  }

  lemma StepEnds(s: State, step: Step, w: nat, channel: Chan, answer: Answer)
    requires Inv(s) && Enabled(s, step) && w < |s.waiters|
    ensures |Next(s, step).waiters| == |s.waiters|
    ensures Next(s, step).waiters[w].stage == Answered(channel, answer) <==>
            (s.waiters[w].stage == Answered(channel, answer) && step != Forget(w)) || Ends(s, step, w, channel, answer)
    ensures step == Forget(w) ==> s.waiters[w].stage.Answered?
    ensures Next(s, step).waiters[w].stage.Gone? <==> s.waiters[w].stage.Gone? || step == Forget(w)
  {
    assert WaiterOk(s, w);
    if s.waiters[w].stage == Awaiting(channel) {
      assert WasSent(s, channel) <==> channel in s.table.buffered;
      if channel in s.table.buffered && answer.Heard? {
        OneOutcome(s, channel, answer.outcome);
      }
      assert answer.Heard? && (channel, answer.outcome) in s.sent ==> WasSent(s, channel);
    }
    hide Inv, WaiterOk, WasSent;
  }

  lemma {:induction false} RunEnds(s: State, steps: seq<Step>, t: State, w: nat, channel: Chan, answer: Answer)
    requires Inv(s) && Run(s, steps, t) && w < |s.waiters|
    ensures |t.waiters| == |s.waiters|
    ensures t.waiters[w].stage == Answered(channel, answer) <==>
            && !s.waiters[w].stage.Gone? && Forget(w) !in steps
            && (|| s.waiters[w].stage == Answered(channel, answer)
                || exists k :: 0 <= k < |steps| && Ends(After(s, steps[..k]), steps[k], w, channel, answer))
    decreases |steps|
  {
    if steps != [] {
      var next, rest := Next(s, steps[0]), steps[1..];
      StepKeepsInv(s, steps[0]);
      StepEnds(s, steps[0], w, channel, answer);
      RunEnds(next, rest, t, w, channel, answer);
      assert steps == [steps[0]] + rest && steps[..0] == [] && After(s, steps[..0]) == s;
      hide Inv, Next, Enabled;
      forall k | 0 <= k < |rest| ensures After(s, steps[..k + 1]) == After(next, rest[..k]) && rest[k] == steps[k + 1] {
        assert steps[..k + 1][1..] == rest[..k];
      }
      hide Ends, After;
      if k :| 0 <= k < |rest| && Ends(After(next, rest[..k]), rest[k], w, channel, answer) {
        assert Ends(After(s, steps[..k + 1]), steps[k + 1], w, channel, answer);
      }
      if k :| 0 <= k < |steps| && Ends(After(s, steps[..k]), steps[k], w, channel, answer) {
        assert k > 0 ==> Ends(After(next, rest[..k - 1]), rest[k - 1], w, channel, answer);
      }
    }
  }

  /**
   In every interleaving a wait that was not forgotten has an answer exactly when a step of its own ended
   it with that answer: receiving or the end of asking with the outcome that had been sent on its channel,
   the end of asking with none if none had, or giving up. An outcome that was heard is off its channel.
   */
  lemma EveryAnswerIsAccountedFor(s: State, steps: seq<Step>, t: State, w: nat, channel: Chan, answer: Answer)
    requires Initial(s) && Run(s, steps, t) && w < |s.waiters|
    ensures |t.waiters| == |s.waiters|
    ensures t.waiters[w].stage == Answered(channel, answer) <==>
            && Forget(w) !in steps
            && exists k :: 0 <= k < |steps| && Ends(After(s, steps[..k]), steps[k], w, channel, answer)
    ensures t.waiters[w].stage == Answered(channel, answer) && answer.Heard? ==> channel !in t.table.buffered
  {
    InitialInv(s);
    assert s.waiters[w].stage == Idle;
    RunKeepsInv(s, steps, t);
    RunEnds(s, steps, t, w, channel, answer);
    assert WaiterOk(t, w);
  }

  /** With IDs that no two waiters share, every report by the ID of an unanswered wait reaches it. */
  lemma {:induction false} UniqueIdsLoseNoReport(s: State, steps: seq<Step>, t: State, w: nat, outcome: Outcome)
    requires Initial(s) && Run(s, steps, t)
    requires forall u, v :: 0 <= u < v < |s.waiters| ==> s.waiters[u].id != s.waiters[v].id
    requires w < |t.waiters| && t.waiters[w].stage.Awaiting? && !WasSent(t, t.waiters[w].stage.channel)
    requires !NamesNoDelivery(t.waiters[w].id)
    ensures var after := Next(t, Report(t.waiters[w].id, outcome));
            t.waiters[w].stage.channel in after.table.buffered &&
            after.table.buffered[t.waiters[w].stage.channel] == outcome
  {
    InitialInv(s);
    RunKeepsInv(s, steps, t);
    NobodyIsDisturbed(s, steps, t);
    assert WaiterOk(t, w);
  }

  lemma {:induction false} NobodyIsDisturbed(s: State, steps: seq<Step>, t: State)
    requires Run(s, steps, t) && s.disturbed == {}
    requires forall u, v :: 0 <= u < v < |s.waiters| ==> s.waiters[u].id != s.waiters[v].id
    ensures t.disturbed == {}
    decreases |steps|
  {
    if steps != [] {
      var u := Next(s, steps[0]);
      assert |u.waiters| == |s.waiters| && forall v :: 0 <= v < |s.waiters| ==> u.waiters[v].id == s.waiters[v].id;
      if steps[0].Expect? || steps[0].Forget? {
        assert Rivals(s, steps[0].w) == {};
      }
      NobodyIsDisturbed(u, steps[1..], t);
    }
  }

  /**
   With a shared ID a report can be lost: a second wait under the ID begins, the first is
   abandoned and forgets the ID, and the second can no longer be reached.
   */
  lemma SharedIdCanLoseAReport(outcome: Outcome)
    ensures var waiter := Waiter("d", Idle);
            var s := State(Table(map[], 0, map[]), [waiter, waiter], [], {});
            var a := Next(s, Expect(0));
            var b := Next(a, Expect(1));
            var c := Next(b, Abandon(0));
            var d := Next(c, Forget(0));
            d.waiters[1].stage.Awaiting? && Next(d, Report("d", outcome)) == d
  {
    var waiter := Waiter("d", Idle);
    var s := State(Table(map[], 0, map[]), [waiter, waiter], [], {});
    var d := Next(Next(Next(Next(s, Expect(0)), Expect(1)), Abandon(0)), Forget(0));
    assert "d" !in d.table.waiting;
  }

  // ----- the steps, performed

  /** The waits of an agent, whose locked sections are those of its table of awaited deliveries. */
  class Waits {
    const deliveries: AwaitedDeliveries
    var waiters: seq<Waiter>
    ghost var sent: seq<(Chan, Outcome)>
    ghost var disturbed: set<nat>

    ghost function View(): State
      reads this, deliveries
    {
      State(deliveries.View(), waiters, sent, disturbed)
    }

    constructor (s: State)
      requires Initial(s)
      ensures View() == s && fresh(deliveries)
    {
      deliveries := new AwaitedDeliveries();
      waiters, sent, disturbed := s.waiters, s.sent, s.disturbed;
    }

    method Move(w: nat, stage: Stage)
      requires w < |waiters|
      modifies this`waiters
      ensures waiters == old(waiters)[w := old(waiters)[w].(stage := stage)]
    {
      waiters := waiters[w := waiters[w].(stage := stage)];
    }

    /** `settledOrUnreported`, and the receive that finds an outcome. */
    method Take(w: nat)
      requires w < |waiters| && waiters[w].stage.Awaiting?
      modifies this`waiters, deliveries
      ensures View() == TakeOrUnreported(old(View()), w)
    {
      var channel := waiters[w].stage.channel;
      if channel in deliveries.buffered {
        var outcome := deliveries.buffered[channel];
        deliveries.buffered := deliveries.buffered - {channel};
        Move(w, Answered(channel, Heard(outcome)));
      } else {
        Move(w, Answered(channel, Unreported));
      }
    }

    /** Whoever moves next, the waits go where the theorems follow them, and no report blocks. */
    method Perform(step: Step)
      requires Inv(View()) && Enabled(View(), step)
      modifies this, deliveries
      ensures View() == Next(old(View()), step) && Inv(View())
    {
      StepKeepsInv(View(), step);
      hide Inv;
      match step
      case Expect(w) =>
        disturbed := disturbed + Rivals(View(), w);
        var channel := deliveries.ExpectDelivery(waiters[w].id);
        Move(w, Awaiting(channel));
      case Report(id, outcome) =>
        NoReportBlocks(View(), id);
        sent := if SettleAnswer(deliveries.View(), id) == Settled then sent + [(deliveries.waiting[id], outcome)]
                else sent;
        var result := deliveries.Settle(id, outcome);
      case Receive(w) => Take(w);
      case AskingEnded(w) => Take(w);
      case Abandon(w) => Move(w, Answered(waiters[w].stage.channel, Abandoned));
      case Forget(w) =>
        disturbed := disturbed + Rivals(View(), w);
        deliveries.Forget(waiters[w].id);
        Move(w, Gone);
    }
  }

  lemma NoReportBlocks(s: State, id: Id)
    requires Inv(s)
    ensures !WouldBlock(s.table, id)
  {
    forall c | c in s.table.buffered ensures WasSent(s, c) {
      var k :| 0 <= k < |s.sent| && s.sent[k] == (c, s.table.buffered[c]);
    }
  }
}
