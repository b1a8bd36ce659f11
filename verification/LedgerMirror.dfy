/**
 Mirroring the agent's ledger into the host's. The agent sends each record more than once
 (in session updates and again with tool calls); the mirror takes each position once,
 leaves out the names the host writes itself and cancellations that are already there.
 The host appends to the same ledger without holding the mirror's lock.
 */
module LedgerMirror {
  import opened Options

  /** An event body, as far as the mirror looks into it. */
  datatype Body = Body(text: string, observationID: string)

  datatype Event = Event(name: string, body: Body)

  datatype Record = Record(event: Event, position: int)

  const TOOL_EVENT_PREFIX := "tool."
  const CANCELLED_SUFFIX := ".cancelled"

  predicate IsCancellation(name: string) {
    && TOOL_EVENT_PREFIX <= name
    && |name| >= |CANCELLED_SUFFIX| && name[|name| - |CANCELLED_SUFFIX|..] == CANCELLED_SUFFIX
  }

  predicate SameFact(a: Event, b: Event) {
    a.name == b.name && a.body.observationID == b.body.observationID
  }

  predicate Recorded(ledger: seq<Event>, event: Event) {
    exists k :: 0 <= k < |ledger| && SameFact(ledger[k], event)
  }

  /** A cancellation is named from "tool." on and to ".cancelled". */
  lemma IsCancellationIff(name: string)
    ensures IsCancellation(name) <==>
            (exists rest :: name == "tool." + rest) && (exists front :: name == front + ".cancelled")
  {
    if IsCancellation(name) {
      assert name == "tool." + name[5..] && name == name[..|name| - 10] + ".cancelled";
    }
  }

  // ----- the mirror

  /** What `take` decides, and what it remembers, with the lock held. */
  predicate TakesIt(skipped: set<string>, taken: set<int>, ledger: seq<Event>, record: Record) {
    && record.event.name !in skipped
    && (record.position == 0 || record.position !in taken)
    && !(IsCancellation(record.event.name) && Recorded(ledger, record.event))
  }

  function TakenAfter(skipped: set<string>, taken: set<int>, record: Record): set<int> {
    if record.event.name in skipped || record.position == 0 then taken else taken + {record.position}
  }

  class Mirror {
    const skippedEventNames: set<string>
    var takenPositions: set<int>
    var ledger: seq<Event>

    constructor (skippedEventNames: set<string>, ledger: seq<Event>)
      ensures this.skippedEventNames == skippedEventNames && takenPositions == {} && this.ledger == ledger
    {
      this.skippedEventNames, takenPositions, this.ledger := skippedEventNames, {}, ledger;
    }

    method HostRecordedTheCancellation(record: Record) returns (found: bool)
      ensures found <==> IsCancellation(record.event.name) && Recorded(ledger, record.event)
    {
      if !IsCancellation(record.event.name) {
        return false;
      }
      for k := 0 to |ledger|
        invariant forall j :: 0 <= j < k ==> !SameFact(ledger[j], record.event)
      {
        if SameFact(ledger[k], record.event) {
          return true;
        }
      }
      return false;
    }

    method TookThePositionAlready(record: Record) returns (took: bool)
      modifies this`takenPositions
      ensures took <==> record.position != 0 && record.position in old(takenPositions)
      ensures takenPositions == if record.position == 0 then old(takenPositions)
                                else old(takenPositions) + {record.position}
    {
      if record.position == 0 {
        return false;
      }
      if record.position in takenPositions {
        return true;
      }
      takenPositions := takenPositions + {record.position};
      return false;
    }

    /** All of `take` but its append. */
    method Decide(record: Record) returns (takes: bool)
      modifies this`takenPositions
      ensures takes == TakesIt(skippedEventNames, old(takenPositions), ledger, record)
      ensures takenPositions == TakenAfter(skippedEventNames, old(takenPositions), record)
    {
      if record.event.name in skippedEventNames {
        return false;
      }
      var took := TookThePositionAlready(record);
      if took {
        return false;
      }
      var recorded := HostRecordedTheCancellation(record);
      return !recorded;
    }

    method AppendTaskEvent(event: Event)
      modifies this`ledger
      ensures ledger == old(ledger) + [event]
    {
      ledger := ledger + [event];
    }

    method Take(record: Record)
      modifies this
      ensures takenPositions == TakenAfter(skippedEventNames, old(takenPositions), record)
      ensures ledger == old(ledger) +
                if TakesIt(skippedEventNames, old(takenPositions), old(ledger), record) then [record.event] else []
    {
      var takes := Decide(record);
      if takes {
        AppendTaskEvent(record.event);
      }
    }
  }

  // ----- the mirror and the host, interleaved

  /** A ledger entry with where it came from; the ledger itself holds the events. */
  datatype Entry = FromHost(event: Event) | FromAgent(record: Record)

  function EventOf(entry: Entry): Event {
    match entry
    case FromHost(event) => event
    case FromAgent(record) => record.event
  }

  function Events(entries: seq<Entry>): (events: seq<Event>)
    ensures |events| == |entries| && forall k :: 0 <= k < |entries| ==> events[k] == EventOf(entries[k])
  {
    seq(|entries|, k requires 0 <= k < |entries| => EventOf(entries[k]))
  }

  /** `appending` is the record the lock holder has decided to append; `since` what the host appended meanwhile. */
  datatype State = State(taken: set<int>, entries: seq<Entry>, appending: Option<Record>, since: seq<Event>)

  datatype Step = HostAppends(event: Event) | Take(record: Record) | Append

  predicate Enabled(s: State, step: Step) {
    match step
    case HostAppends(_) => true
    case Take(_) => s.appending.None?
    case Append => s.appending.Some?
  }

  function Next(skipped: set<string>, s: State, step: Step): State
    requires Enabled(s, step)
  {
    match step
    case HostAppends(event) =>
      s.(entries := s.entries + [FromHost(event)], since := if s.appending.Some? then s.since + [event] else [])
    case Take(record) =>
      s.(taken := TakenAfter(skipped, s.taken, record),
         appending := if TakesIt(skipped, s.taken, Events(s.entries), record) then Some(record) else None,
         since := [])
    case Append => s.(entries := s.entries + [FromAgent(s.appending.value)], appending := None, since := [])
  }

  const NOTHING_YET := State({}, [], None, [])

  /** The state after the first `n` steps, if each of them was enabled. */
  function After(skipped: set<string>, steps: seq<Step>, n: nat): Option<State>
    requires n <= |steps|
  {
    if n == 0 then Some(NOTHING_YET)
    else
      match After(skipped, steps, n - 1)
      case None => None
      case Some(s) => if Enabled(s, steps[n - 1]) then Some(Next(skipped, s, steps[n - 1])) else None
  }

  // ----- what the ledger should be, read off the history alone

  predicate TakesPosition(skipped: set<string>, step: Step, position: int) {
    step.Take? && step.record.event.name !in skipped && step.record.position == position
  }

  /** The record is the first of its position among those not left out by name. */
  predicate IsFirst(skipped: set<string>, steps: seq<Step>, i: nat)
    requires i < |steps| && steps[i].Take?
  {
    steps[i].record.position == 0 ||
    forall j :: 0 <= j < i ==> !TakesPosition(skipped, steps[j], steps[i].record.position)
  }

  /**
   The event at `j` is on the ledger, told by its name and the observation it is about: the host wrote it,
   or the mirror kept it.
   */
  predicate Tells(skipped: set<string>, steps: seq<Step>, j: nat, event: Event)
    requires j < |steps|
    decreases j, 2
  {
    match steps[j]
    case HostAppends(told) => told.name == event.name && told.body.observationID == event.body.observationID
    case Take(record) =>
      && record.event.name == event.name && record.event.body.observationID == event.body.observationID
      && Keeps(skipped, steps, j)
    case Append => false
  }

  /** Step `i` hands the mirror a record that belongs on the ledger. */
  predicate Keeps(skipped: set<string>, steps: seq<Step>, i: nat)
    requires i < |steps|
    decreases i, 1
  {
    && steps[i].Take?
    && steps[i].record.event.name !in skipped
    && IsFirst(skipped, steps, i)
    && !(IsCancellation(steps[i].record.event.name) &&
         exists j :: 0 <= j < i && Tells(skipped, steps, j, steps[i].record.event))
  }

  function KeptRecords(skipped: set<string>, steps: seq<Step>, n: nat): seq<Record>
    requires n <= |steps|
  {
    if n == 0 then []
    else KeptRecords(skipped, steps, n - 1) + if Keeps(skipped, steps, n - 1) then [steps[n - 1].record] else []
  }

  function HostEvents(steps: seq<Step>, n: nat): seq<Event>
    requires n <= |steps|
  {
    if n == 0 then []
    else HostEvents(steps, n - 1) + if steps[n - 1].HostAppends? then [steps[n - 1].event] else []
  }

  function HostPart(entries: seq<Entry>): seq<Event> {
    if entries == [] then []
    else
      var last := entries[|entries| - 1];
      HostPart(entries[..|entries| - 1]) + if last.FromHost? then [last.event] else []
  }

  function AgentPart(entries: seq<Entry>): seq<Record> {
    if entries == [] then []
    else
      var last := entries[|entries| - 1];
      AgentPart(entries[..|entries| - 1]) + if last.FromAgent? then [last.record] else []
  }

  function Pending(s: State): seq<Record> {
    if s.appending.Some? then [s.appending.value] else []
  }

  // ----- the ledger is what it should be

  /** Told, up to step `n`: by the host, or by a record the mirror kept. */
  predicate Told(skipped: set<string>, steps: seq<Step>, n: nat, event: Event)
    requires n <= |steps|
  {
    exists j :: 0 <= j < n && Tells(skipped, steps, j, event)
  }

  predicate IsKnown(s: State, event: Event) {
    Recorded(Events(s.entries), event) || (s.appending.Some? && SameFact(s.appending.value.event, event))
  }

  ghost predicate RemembersPositions(skipped: set<string>, steps: seq<Step>, n: nat, taken: set<int>)
    requires n <= |steps|
  {
    forall q :: q in taken <==> q != 0 && exists j :: 0 <= j < n && TakesPosition(skipped, steps[j], q)
  }

  ghost predicate Agrees(skipped: set<string>, steps: seq<Step>, n: nat, s: State)
    requires n <= |steps|
  {
    && HostPart(s.entries) == HostEvents(steps, n)
    && AgentPart(s.entries) + Pending(s) == KeptRecords(skipped, steps, n)
    && RemembersPositions(skipped, steps, n, s.taken)
    && (forall event :: IsKnown(s, event) <==> Told(skipped, steps, n, event))
  }

  lemma RecordedWithOneMore(entries: seq<Entry>, entry: Entry, event: Event)
    ensures Recorded(Events(entries + [entry]), event) <==>
            Recorded(Events(entries), event) || SameFact(EventOf(entry), event)
  {
    var before, after := Events(entries), Events(entries + [entry]);
    if Recorded(before, event) {
      var k :| 0 <= k < |before| && SameFact(before[k], event);
      assert SameFact(after[k], event);
    }
    assert after[|entries|] == EventOf(entry);
  }

  lemma ToldWithOneMore(skipped: set<string>, steps: seq<Step>, n: nat, event: Event)
    requires n < |steps|
    ensures Told(skipped, steps, n + 1, event) <==> Told(skipped, steps, n, event) || Tells(skipped, steps, n, event)
  {
    hide Tells;
  }

  /** The mirror's own test is the reference's. */
  lemma TakesItIffKeeps(skipped: set<string>, steps: seq<Step>, n: nat, s: State)
    requires n < |steps| && Agrees(skipped, steps, n, s) && steps[n].Take? && s.appending.None?
    ensures TakesIt(skipped, s.taken, Events(s.entries), steps[n].record) <==> Keeps(skipped, steps, n)
  {
    var record := steps[n].record;
    assert IsKnown(s, record.event) <==> Told(skipped, steps, n, record.event);
    assert record.position in s.taken <==>
           record.position != 0 && exists j :: 0 <= j < n && TakesPosition(skipped, steps[j], record.position);
  }

  lemma TakeKeepsMemory(skipped: set<string>, steps: seq<Step>, n: nat, s: State)
    requires n < |steps| && Enabled(s, steps[n]) && RemembersPositions(skipped, steps, n, s.taken)
    ensures RemembersPositions(skipped, steps, n + 1, Next(skipped, s, steps[n]).taken)
  {
    var taken := Next(skipped, s, steps[n]).taken;
    forall q ensures q in taken <==> q != 0 && exists j :: 0 <= j < n + 1 && TakesPosition(skipped, steps[j], q) {
      assert q in s.taken <==> q != 0 && exists j :: 0 <= j < n && TakesPosition(skipped, steps[j], q);
      if q != 0 && TakesPosition(skipped, steps[n], q) {
        assert q in taken;
      }
    }
  }

  lemma PartsWithOneMore(entries: seq<Entry>, entry: Entry)
    ensures HostPart(entries + [entry]) == HostPart(entries) + if entry.FromHost? then [entry.event] else []
    ensures AgentPart(entries + [entry]) == AgentPart(entries) + if entry.FromAgent? then [entry.record] else []
  {
    assert (entries + [entry])[..|entries|] == entries;
  }

  lemma StepKeepsAgreement(skipped: set<string>, steps: seq<Step>, n: nat, s: State)
    requires n < |steps| && Agrees(skipped, steps, n, s) && Enabled(s, steps[n])
    ensures Agrees(skipped, steps, n + 1, Next(skipped, s, steps[n]))
  {
    hide Keeps, Told, RemembersPositions, Recorded, HostPart, AgentPart;
    var t := Next(skipped, s, steps[n]);
    TakeKeepsMemory(skipped, steps, n, s);
    if steps[n].Take? {
      TakesItIffKeeps(skipped, steps, n, s);
      assert AgentPart(s.entries) + [] == AgentPart(s.entries);
    } else {
      var entry := if steps[n].Append? then FromAgent(s.appending.value) else FromHost(steps[n].event);
      PartsWithOneMore(s.entries, entry);
      NotATakeKeepsNothing(skipped, steps, n);
      assert Pending(s) == [] || steps[n].HostAppends? ==> Pending(t) == Pending(s);
      assert AgentPart(t.entries) + Pending(t) == AgentPart(s.entries) + Pending(s);
    }
    forall event ensures IsKnown(t, event) <==> Told(skipped, steps, n + 1, event) {
      ToldWithOneMore(skipped, steps, n, event);
      if !steps[n].Take? {
        var entry := if steps[n].Append? then FromAgent(s.appending.value) else FromHost(steps[n].event);
        RecordedWithOneMore(s.entries, entry, event);
      }
    }
  }

  lemma NotATakeKeepsNothing(skipped: set<string>, steps: seq<Step>, n: nat)
    requires n < |steps| && !steps[n].Take?
    ensures !Keeps(skipped, steps, n)
  {
  }

  lemma {:induction false} LedgerAgrees(skipped: set<string>, steps: seq<Step>, n: nat)
    requires n <= |steps| && After(skipped, steps, n).Some?
    ensures Agrees(skipped, steps, n, After(skipped, steps, n).value)
  {
    hide Next;
    if n > 0 {
      LedgerAgrees(skipped, steps, n - 1);
      StepKeepsAgreement(skipped, steps, n - 1, After(skipped, steps, n - 1).value);
    }
  }

  /**
   For every interleaving of host events and records handed over, duplicates included, the
   ledger is the host's events, in order, shuffled with exactly the records that the
   history says belong there, in order.
   */
  lemma LedgerIsTheFilteredHistory(skipped: set<string>, steps: seq<Step>)
    requires After(skipped, steps, |steps|).Some?
    ensures var s := After(skipped, steps, |steps|).value;
            && HostPart(s.entries) == HostEvents(steps, |steps|)
            && AgentPart(s.entries) + Pending(s) == KeptRecords(skipped, steps, |steps|)
  {
    hide After;
    LedgerAgrees(skipped, steps, |steps|);
  }

  /** No two records of one position are kept, however often and in whatever order they are handed over. */
  lemma PositionIsKeptOnce(skipped: set<string>, steps: seq<Step>, i: nat, j: nat)
    requires i < |steps| && j < |steps| && Keeps(skipped, steps, i) && Keeps(skipped, steps, j)
    requires steps[i].record.position == steps[j].record.position != 0
    ensures i == j
  {
    assert TakesPosition(skipped, steps[i], steps[i].record.position);
    assert TakesPosition(skipped, steps[j], steps[j].record.position);
  }

  /** A position that is handed over at all is kept, unless its first record is a cancellation already told. */
  lemma {:induction false} PositionIsKept(skipped: set<string>, steps: seq<Step>, i: nat) returns (first: nat)
    requires i < |steps| && steps[i].Take? && steps[i].record.event.name !in skipped && steps[i].record.position != 0
    ensures first <= i && TakesPosition(skipped, steps[first], steps[i].record.position)
    ensures Keeps(skipped, steps, first) <==>
            !(IsCancellation(steps[first].record.event.name) && Told(skipped, steps, first, steps[first].record.event))
    decreases i
  {
    if j :| 0 <= j < i && TakesPosition(skipped, steps[j], steps[i].record.position) {
      first := PositionIsKept(skipped, steps, j);
    } else {
      first := i;
    }
  }

  // ----- cancellations and the host

  /**
   When the mirror appends a cancellation, the ledger already holds it exactly if the host
   appended it after the mirror had looked.
   */
  lemma {:induction false} CancellationIsDoubledIff(skipped: set<string>, steps: seq<Step>, n: nat)
    requires n <= |steps| && After(skipped, steps, n).Some? && After(skipped, steps, n).value.appending.Some?
    requires IsCancellation(After(skipped, steps, n).value.appending.value.event.name)
    ensures var s := After(skipped, steps, n).value;
            Recorded(Events(s.entries), s.appending.value.event) <==> Recorded(s.since, s.appending.value.event)
  {
    hide Recorded;
    var s, step := After(skipped, steps, n - 1).value, steps[n - 1];
    var t := After(skipped, steps, n).value;
    var event := t.appending.value.event;
    if step.Take? {
      NothingRecorded(event);
    } else {
      CancellationIsDoubledIff(skipped, steps, n - 1);
      RecordedWithOneMore(s.entries, FromHost(step.event), event);
      RecordedAppend(s.since, step.event, event);
    }
  }

  lemma NothingRecorded(event: Event)
    ensures !Recorded([], event)
  {
  }

  lemma RecordedAppend(events: seq<Event>, event: Event, other: Event)
    ensures Recorded(events + [event], other) <==> Recorded(events, other) || SameFact(event, other)
  {
    if Recorded(events, other) {
      var k :| 0 <= k < |events| && SameFact(events[k], other);
      assert SameFact((events + [event])[k], other);
    }
    assert (events + [event])[|events|] == event;
  }

  /** That can happen: the host appends the same cancellation between the look and the append. */
  lemma HostCanRaceACancellation(body: Body)
    ensures var event := Event("tool.note_write.cancelled", body);
            var steps := [Take(Record(event, 1)), HostAppends(event), Append];
            && After({}, steps, 3).Some?
            && Events(After({}, steps, 3).value.entries) == [event, event]
  {
    var event := Event("tool.note_write.cancelled", body);
    var steps := [Take(Record(event, 1)), HostAppends(event), Append];
    var looked := Next({}, NOTHING_YET, steps[0]);
    assert Events([]) == [] && !Recorded([], event);
    assert looked.appending == Some(Record(event, 1)) && looked.entries == [];
    assert After({}, steps, 1) == Some(looked);
    var raced := Next({}, looked, steps[1]);
    assert After({}, steps, 2) == Some(raced);
    assert raced.entries == [FromHost(event)] && raced.appending == Some(Record(event, 1));
    assert Next({}, raced, Append).entries == [FromHost(event), FromAgent(Record(event, 1))];
  }

  // ----- the steps, performed

  /** A ledger that the mirror and the host both append to. */
  class SharedLedger {
    const mirror: Mirror
    var appending: Option<Record>
    ghost var entries: seq<Entry>
    ghost var since: seq<Event>

    ghost function View(): State
      reads this, mirror
    {
      State(mirror.takenPositions, entries, appending, since)
    }

    ghost predicate Valid()
      reads this, mirror
    {
      mirror.ledger == Events(entries)
    }

    constructor (skipped: set<string>)
      ensures Valid() && View() == NOTHING_YET && mirror.skippedEventNames == skipped && fresh(mirror)
    {
      mirror := new Mirror(skipped, []);
      appending, entries, since := None, [], [];
    }

    /** Whoever moves next, the ledger goes where the theorems follow it. */
    method Perform(step: Step)
      requires Valid() && Enabled(View(), step)
      modifies this, mirror
      ensures Valid() && View() == Next(mirror.skippedEventNames, old(View()), step)
    {
      match step
      case HostAppends(event) =>
        mirror.AppendTaskEvent(event);
        entries, since := entries + [FromHost(event)], if appending.Some? then since + [event] else [];
      case Take(record) =>
        var takes := mirror.Decide(record);
        appending := if takes then Some(record) else None;
        since := [];
      case Append =>
        mirror.AppendTaskEvent(appending.value.event);
        entries, since := entries + [FromAgent(appending.value)], [];
        appending := None;
    }
  }
}
