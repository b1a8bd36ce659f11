/**
 The memory of delivered messages: a map of message ID to time sent, backed by a file of one
 line per entry that is appended to, and read back and rewritten when the process restarts.
 */
module DeliveredMessages {
  import opened Options

  const MEMORY_SECONDS := 3 * 24 * 60 * 60

  datatype Entry = Entry(id: string, at: int)

  // ----- the map, in the order its keys were first set

  function Put(remembered: seq<Entry>, entry: Entry): seq<Entry> {
    if remembered == [] then [entry]
    else if remembered[0].id == entry.id then [entry] + remembered[1..]
    else [remembered[0]] + Put(remembered[1..], entry)
  }

  predicate Has(remembered: seq<Entry>, id: string) {
    exists entry <- remembered :: entry.id == id
  }

  ghost predicate Unique(entries: seq<Entry>) {
    forall i, j :: 0 <= i < j < |entries| ==> entries[i].id != entries[j].id
  }

  // ----- the file

  /** The encoding of one entry is a `Body`; what an append cut short leaves of it, a `Fragment`. */
  datatype Cell = Body(entry: Entry) | Fragment | Newline

  type File = seq<Cell>

  /** The file split at its newlines. */
  function LinesOf(file: File): (lines: seq<seq<Cell>>)
    ensures |lines| > 0
  {
    if file == [] then [[]]
    else
      var before := LinesOf(file[..|file| - 1]);
      var last := file[|file| - 1];
      if last == Newline then before + [[]] else before[..|before| - 1] + [before[|before| - 1] + [last]]
  }

  /** A line is an entry when it is one body and nothing else. */
  function EntryOf(line: seq<Cell>): Option<Entry> {
    if |line| == 1 && line[0].Body? then Some(line[0].entry) else None
  }

  function EntriesOf(lines: seq<seq<Cell>>): seq<Entry> {
    if lines == [] then []
    else
      var before := EntriesOf(lines[..|lines| - 1]);
      match EntryOf(lines[|lines| - 1])
      case Some(entry) => before + [entry]
      case None => before
  }

  /** What a restart reads. */
  function Decoded(file: File): seq<Entry> {
    EntriesOf(LinesOf(file))
  }

  function Written(entries: seq<Entry>): File {
    if entries == [] then [] else Written(entries[..|entries| - 1]) + [Body(entries[|entries| - 1]), Newline]
  }

  function StillRemembered(entries: seq<Entry>, horizon: int): seq<Entry> {
    if entries == [] then []
    else
      var before := StillRemembered(entries[..|entries| - 1], horizon);
      var last := entries[|entries| - 1];
      if last.at >= horizon then Put(before, last) else before
  }

  // ----- the ledger

  /** An append succeeds, or fails having written nothing, a part, or all but the newline. */
  datatype Append = Done | Nothing | Part | Whole

  function Appended(file: File, entry: Entry, append: Append): File {
    match append
    case Done => file + [Body(entry), Newline]
    case Nothing => file
    case Part => file + [Fragment]
    case Whole => file + [Body(entry)]
  }

  datatype Ledger = Ledger(remembered: seq<Entry>, file: File)

  function Restarted(file: File, now: int): Ledger {
    var remembered := StillRemembered(Decoded(file), now - MEMORY_SECONDS);
    Ledger(remembered, Written(remembered))
  }

  function Recorded(ledger: Ledger, entry: Entry, append: Append): Ledger {
    if Has(ledger.remembered, entry.id) then ledger
    else Ledger(Put(ledger.remembered, entry), Appended(ledger.file, entry, append))
  }

  method EntriesStillRemembered(file: File, now: int) returns (remembered: seq<Entry>)
    ensures remembered == StillRemembered(Decoded(file), now - MEMORY_SECONDS)
  {
    var horizon := now - MEMORY_SECONDS;
    var lines := LinesOf(file);
    remembered := [];
    for i := 0 to |lines|
      invariant remembered == StillRemembered(EntriesOf(lines[..i]), horizon)
    {
      assert lines[..i + 1][..i] == lines[..i];
      ghost var before := EntriesOf(lines[..i]);
      var entry := EntryOf(lines[i]);
      if entry.Some? {
        assert (before + [entry.value])[..|before|] == before;
        if entry.value.at >= horizon {
          remembered := Put(remembered, entry.value);
        }
      }
    }
    assert lines[..|lines|] == lines;
  }

  method Rewrite(remembered: seq<Entry>) returns (lines: File)
    ensures lines == Written(remembered)
  {
    lines := [];
    for i := 0 to |remembered|
      invariant lines == Written(remembered[..i])
    {
      assert remembered[..i + 1][..i] == remembered[..i];
      lines := lines + [Body(remembered[i]), Newline];
    }
    assert remembered[..|remembered|] == remembered;
  }

  class DeliveredLedger {
    const startedEmpty: bool
    var remembered: seq<Entry>
    var file: File

    ghost function Value(): Ledger
      reads this
    {
      Ledger(remembered, file)
    }

    /** `deliveredMessagesAt`: read back what is still remembered and rewrite the file in one step. */
    constructor (found: Option<File>, now: int)
      ensures startedEmpty <==> found.None?
      ensures Value() == Restarted(if found.Some? then found.value else [], now)
    {
      startedEmpty := found.None?;
      var entries: seq<Entry> := [];
      if found.Some? {
        entries := EntriesStillRemembered(found.value, now);
      } else {
        NothingIsDecoded();
      }
      var lines := Rewrite(entries);
      remembered, file := entries, lines;
    }

    method HasMessage(id: string) returns (has: bool)
      ensures has <==> exists entry <- remembered :: entry.id == id
    {
      has := Has(remembered, id);
    }

    /** Whether an append failed shows in the answer; the map has the entry either way. */
    method Record(id: string, at: int, append: Append) returns (ok: bool)
      modifies this`remembered, this`file
      ensures Value() == Recorded(old(Value()), Entry(id, at), append)
      ensures ok <==> Has(old(remembered), id) || append == Done
    {
      if Has(remembered, id) {
        return true;
      }
      remembered := Put(remembered, Entry(id, at));
      file := Appended(file, Entry(id, at), append);
      return append == Done;
    }
  }

  lemma NothingIsDecoded()
    ensures Decoded([]) == [] && Pending([]) == [] && Complete([]) == []
  {
    var lines := LinesOf([]);
    assert lines[..0] == [];
  }

  // ----- the file as complete lines and what follows the last newline

  function Pending(file: File): seq<Cell> {
    var lines := LinesOf(file);
    lines[|lines| - 1]
  }

  function Complete(file: File): seq<Entry> {
    var lines := LinesOf(file);
    EntriesOf(lines[..|lines| - 1])
  }

  lemma AfterACell(file: File, cell: Cell)
    requires cell != Newline
    ensures Complete(file + [cell]) == Complete(file) && Pending(file + [cell]) == Pending(file) + [cell]
  {
    assert (file + [cell])[..|file|] == file;
    var lines, lines' := LinesOf(file), LinesOf(file + [cell]);
    assert lines'[..|lines'| - 1] == lines[..|lines| - 1];
  }

  lemma AfterANewline(file: File)
    ensures Pending(file + [Newline]) == [] && Complete(file + [Newline]) == Decoded(file)
  {
    assert (file + [Newline])[..|file|] == file;
    var lines, lines' := LinesOf(file), LinesOf(file + [Newline]);
    assert lines'[..|lines'| - 1] == lines;
  }

  lemma DecodedIsCompleteAndPending(file: File)
    ensures Decoded(file) ==
            Complete(file) + match EntryOf(Pending(file)) { case Some(entry) => [entry] case None => [] }
  {
  }

  /** An append adds its entry only to a file that ends in a newline; otherwise the two make one unreadable line. */
  lemma AfterAnAppend(file: File, entry: Entry, append: Append)
    ensures append == Done ==> Pending(Appended(file, entry, append)) == []
    ensures append == Done ==>
              Complete(Appended(file, entry, append)) ==
              if Pending(file) == [] then Complete(file) + [entry] else Complete(file)
    ensures append != Done ==> Complete(Appended(file, entry, append)) == Complete(file)
    ensures append == Part ==> Pending(Appended(file, entry, append)) == Pending(file) + [Fragment]
    ensures append == Whole ==> Pending(Appended(file, entry, append)) == Pending(file) + [Body(entry)]
    ensures append == Nothing ==> Appended(file, entry, append) == file
  {
    hide Pending, Complete, Decoded;
    match append
    case Done =>
      AfterACell(file, Body(entry));
      AfterANewline(file + [Body(entry)]);
      assert file + [Body(entry)] + [Newline] == file + [Body(entry), Newline];
      DecodedIsCompleteAndPending(file + [Body(entry)]);
    case Nothing =>
    case Part => AfterACell(file, Fragment);
    case Whole => AfterACell(file, Body(entry));
  }

  /** What is written reads back, entry for entry. */
  lemma {:induction false} WrittenReadsBack(entries: seq<Entry>)
    ensures Pending(Written(entries)) == [] && Complete(Written(entries)) == entries
    ensures Decoded(Written(entries)) == entries
  {
    hide Pending, Complete, Decoded;
    if entries == [] {
      NothingIsDecoded();
    } else {
      var rest, last := entries[..|entries| - 1], entries[|entries| - 1];
      WrittenReadsBack(rest);
      AfterAnAppend(Written(rest), last, Done);
    }
    DecodedIsCompleteAndPending(Written(entries));
  }

  // ----- a restart

  lemma {:induction false} PutNew(remembered: seq<Entry>, entry: Entry)
    requires !Has(remembered, entry.id)
    ensures Put(remembered, entry) == remembered + [entry]
  {
    if remembered != [] {
      assert remembered[0] in remembered;
      forall other | other in remembered[1..] ensures other.id != entry.id {
        assert other in remembered;
      }
      PutNew(remembered[1..], entry);
    }
  }

  lemma {:induction false} StillRememberedHolds(entries: seq<Entry>, horizon: int)
    requires Unique(entries)
    ensures Unique(StillRemembered(entries, horizon))
    ensures forall entry :: entry in StillRemembered(entries, horizon) <==> entry in entries && entry.at >= horizon
  {
    if entries != [] {
      var rest, last := entries[..|entries| - 1], entries[|entries| - 1];
      StillRememberedHolds(rest, horizon);
      assert entries == rest + [last];
      var before := StillRemembered(rest, horizon);
      forall entry | entry in before ensures entry.id != last.id {
        assert entry in rest;
      }
      PutNew(before, last);
    }
  }

  /** The map holds each ID once, and so does the file, nothing else being readable in it. */
  ghost predicate Sound(ledger: Ledger) {
    && Unique(ledger.remembered) && Unique(Decoded(ledger.file))
    && forall entry <- Decoded(ledger.file) :: entry in ledger.remembered
  }

  /** A restart keeps exactly the readable entries inside the horizon, and the file says the same. */
  lemma RestartKeepsExactly(file: File, now: int)
    requires Unique(Decoded(file))
    ensures var ledger := Restarted(file, now);
      && Sound(ledger) && Decoded(ledger.file) == ledger.remembered == Complete(ledger.file)
      && Pending(ledger.file) == []
      && forall entry :: entry in ledger.remembered <==> entry in Decoded(file) && entry.at >= now - MEMORY_SECONDS
  {
    hide Decoded, Pending, Complete, StillRemembered, Written;
    StillRememberedHolds(Decoded(file), now - MEMORY_SECONDS);
    WrittenReadsBack(StillRemembered(Decoded(file), now - MEMORY_SECONDS));
  }

  lemma {:induction false} PutHolds(remembered: seq<Entry>, entry: Entry)
    requires Unique(remembered)
    ensures Unique(Put(remembered, entry))
    ensures forall other ::
              other in Put(remembered, entry) <==> other == entry || (other in remembered && other.id != entry.id)
  {
    if remembered != [] {
      var first, rest := remembered[0], remembered[1..];
      assert remembered == [first] + rest;
      FirstIsUnique(first, rest);
      FirstIsUnique(entry, rest);
      hide Unique;
      if first.id != entry.id {
        PutHolds(rest, entry);
        FirstIsUnique(first, Put(rest, entry));
      }
    }
  }

  lemma FirstIsUnique(first: Entry, rest: seq<Entry>)
    ensures Unique([first] + rest) <==> Unique(rest) && forall other <- rest :: other.id != first.id
  {
    var all := [first] + rest;
    if Unique(all) {
      UniqueRest(all);
      assert all[1..] == rest;
    } else {
      var i, j :| 0 <= i < j < |all| && all[i].id == all[j].id;
      assert all[j] == rest[j - 1] && (i > 0 ==> all[i] == rest[i - 1]);
    }
  }

  lemma UniqueRest(all: seq<Entry>)
    requires all != [] && Unique(all)
    ensures Unique(all[1..]) && forall other <- all[1..] :: other.id != all[0].id
  {
  }

  /** The last entry of its ID that is inside the horizon. */
  ghost predicate IsLastWithin(entries: seq<Entry>, horizon: int, entry: Entry) {
    exists i :: 0 <= i < |entries| && entries[i] == entry && IsLastOf(entries, horizon, i)
  }

  ghost predicate IsLastOf(entries: seq<Entry>, horizon: int, i: nat)
    requires i < |entries|
  {
    && entries[i].at >= horizon
    && forall j :: i < j < |entries| && entries[j].id == entries[i].id ==> entries[j].at < horizon
  }

  lemma LastWithinOneMore(entries: seq<Entry>, last: Entry, horizon: int, entry: Entry)
    ensures IsLastWithin(entries + [last], horizon, entry) <==>
            if last.at < horizon then IsLastWithin(entries, horizon, entry)
            else entry == last || (IsLastWithin(entries, horizon, entry) && entry.id != last.id)
  {
    var all := entries + [last];
    assert all[|entries|] == last && forall j :: 0 <= j < |entries| ==> all[j] == entries[j];
    if i :| 0 <= i < |all| && all[i] == entry && IsLastOf(all, horizon, i) {
      if i < |entries| {
        assert entries[i] == entry && IsLastOf(entries, horizon, i);
      }
    }
    if i :| 0 <= i < |entries| && entries[i] == entry && IsLastOf(entries, horizon, i) {
      if last.at < horizon || entry.id != last.id {
        assert all[i] == entry && IsLastOf(all, horizon, i);
      }
    }
    if last.at >= horizon && entry == last {
      assert all[|entries|] == entry && IsLastOf(all, horizon, |entries|);
    }
  }

  lemma {:induction false} StillRememberedIs(entries: seq<Entry>, horizon: int)
    ensures Unique(StillRemembered(entries, horizon))
    ensures forall entry :: entry in StillRemembered(entries, horizon) <==> IsLastWithin(entries, horizon, entry)
  {
    hide IsLastWithin, Put;
    if entries == [] {
      forall entry ensures !IsLastWithin(entries, horizon, entry) {
        NothingIsLast(horizon, entry);
      }
    } else {
      var rest, last := entries[..|entries| - 1], entries[|entries| - 1];
      assert entries == rest + [last];
      StillRememberedIs(rest, horizon);
      PutHolds(StillRemembered(rest, horizon), last);
      forall entry ensures entry in StillRemembered(entries, horizon) <==> IsLastWithin(entries, horizon, entry) {
        LastWithinOneMore(rest, last, horizon, entry);
      }
    }
  }

  lemma NothingIsLast(horizon: int, entry: Entry)
    ensures !IsLastWithin([], horizon, entry)
  {
  }

  /**
   Whatever file it finds, a restart keeps each ID once, with the last of its readable entries from the
   three days before, and the rewritten file says the same.
   */
  lemma RestartOfAnyFile(file: File, now: int)
    ensures var ledger := Restarted(file, now);
      && Sound(ledger) && Decoded(ledger.file) == ledger.remembered
      && forall entry :: entry in ledger.remembered <==> IsLastWithin(Decoded(file), now - 259200, entry)
  {
    hide Decoded, StillRemembered, Written, IsLastWithin;
    StillRememberedIs(Decoded(file), now - MEMORY_SECONDS);
    WrittenReadsBack(StillRemembered(Decoded(file), now - MEMORY_SECONDS));
  }

  lemma UniqueAppended(entries: seq<Entry>, entry: Entry)
    requires Unique(entries) && !Has(entries, entry.id)
    ensures Unique(entries + [entry])
  {
    assert forall other <- entries :: other.id != entry.id;
  }

  /**
   After an append the readable entries are the complete ones and at most the appended one or the one
   pending before.
   */
  lemma DecodedAfterAnAppend(file: File, entry: Entry, append: Append)
    ensures var after := Decoded(Appended(file, entry, append));
      after == Complete(file) || after == Complete(file) + [entry] || after == Decoded(file)
  {
    hide Pending, Complete, Decoded;
    AfterAnAppend(file, entry, append);
    DecodedIsCompleteAndPending(file);
    DecodedIsCompleteAndPending(Appended(file, entry, append));
  }

  lemma RecordKeepsSound(ledger: Ledger, entry: Entry, append: Append)
    requires Sound(ledger)
    ensures Sound(Recorded(ledger, entry, append))
    ensures !Has(ledger.remembered, entry.id) ==>
              Recorded(ledger, entry, append).remembered == ledger.remembered + [entry]
  {
    hide Pending, Complete, Decoded, Appended, Put;
    if !Has(ledger.remembered, entry.id) {
      PutNew(ledger.remembered, entry);
      UniqueAppended(ledger.remembered, entry);
      DecodedIsCompleteAndPending(ledger.file);
      DecodedAfterAnAppend(ledger.file, entry, append);
      var complete := Complete(ledger.file);
      assert complete <= Decoded(ledger.file);
      assert Unique(complete) && forall other <- complete :: other in ledger.remembered;
      UniqueAppended(complete, entry);
    }
  }

  // ----- every run of records, crashes and restarts

  datatype Event = Record(entry: Entry, append: Append) | Restart(now: int)

  function Next(ledger: Ledger, event: Event): Ledger {
    match event
    case Record(entry, append) => Recorded(ledger, entry, append)
    case Restart(now) => Restarted(ledger.file, now)
  }

  function After(ledger: Ledger, events: seq<Event>): Ledger {
    if events == [] then ledger else Next(After(ledger, events[..|events| - 1]), events[|events| - 1])
  }

  lemma {:induction false} EveryRunIsSound(ledger: Ledger, events: seq<Event>)
    requires Sound(ledger)
    ensures Sound(After(ledger, events))
  {
    hide Sound, Recorded, Restarted;
    if events != [] {
      var before := After(ledger, events[..|events| - 1]);
      EveryRunIsSound(ledger, events[..|events| - 1]);
      match events[|events| - 1]
      case Record(entry, append) => RecordKeepsSound(before, entry, append);
      case Restart(now) =>
        SoundFileIsUnique(before);
        RestartKeepsExactly(before.file, now);
    }
  }

  lemma SoundFileIsUnique(ledger: Ledger)
    requires Sound(ledger)
    ensures Unique(Decoded(ledger.file))
  {
  }

  function LatestRestart(events: seq<Event>): Option<int> {
    if events == [] then None
    else if events[|events| - 1].Restart? then Some(events[|events| - 1].now)
    else LatestRestart(events[..|events| - 1])
  }

  ghost predicate ClocksDoNotGoBack(events: seq<Event>) {
    forall i, j :: 0 <= i < j < |events| && events[i].Restart? && events[j].Restart? ==> events[i].now <= events[j].now
  }

  ghost predicate IsRecent(entry: Entry, events: seq<Event>) {
    LatestRestart(events).None? || entry.at >= LatestRestart(events).value - MEMORY_SECONDS
  }

  lemma {:induction false} LatestRestartIsOne(events: seq<Event>)
    requires LatestRestart(events).Some?
    ensures exists i :: 0 <= i < |events| && events[i] == Restart(LatestRestart(events).value)
  {
    var rest := events[..|events| - 1];
    if !events[|events| - 1].Restart? {
      LatestRestartIsOne(rest);
      var i :| 0 <= i < |rest| && rest[i] == Restart(LatestRestart(rest).value);
      assert events[i] == rest[i];
    }
  }

  lemma SameIdSameEntry(entries: seq<Entry>, entry: Entry, other: Entry)
    requires Unique(entries) && entry in entries && other in entries && entry.id == other.id
    ensures entry == other
  {
  }

  lemma CompleteIsRemembered(ledger: Ledger, entry: Entry)
    requires Sound(ledger) && entry in Complete(ledger.file)
    ensures entry in ledger.remembered && entry in Decoded(ledger.file)
  {
    hide Complete, Decoded, Pending;
    DecodedIsCompleteAndPending(ledger.file);
  }

  lemma RecordKeepsComplete(ledger: Ledger, entry: Entry, other: Entry, append: Append)
    requires entry in Complete(ledger.file)
    ensures entry in Complete(Recorded(ledger, other, append).file)
  {
    hide Complete, Pending, Appended;
    AfterAnAppend(ledger.file, other, append);
  }

  lemma RestartKeepsRecent(ledger: Ledger, entry: Entry, now: int)
    requires Sound(ledger) && entry in Complete(ledger.file)
    ensures entry.at >= now - MEMORY_SECONDS ==> entry in Complete(Restarted(ledger.file, now).file)
    ensures entry.at < now - MEMORY_SECONDS ==> !Has(Restarted(ledger.file, now).remembered, entry.id)
  {
    hide Complete, Decoded, Pending, Restarted;
    CompleteIsRemembered(ledger, entry);
    RestartKeepsExactly(ledger.file, now);
    forall other | other in Restarted(ledger.file, now).remembered && other.id == entry.id ensures other == entry {
      SameIdSameEntry(Decoded(ledger.file), entry, other);
    }
  }

  /**
   Once an entry has a complete line, no failing append, no crash and no other record takes it
   away: it is remembered, with its time, while it is inside the horizon of the latest restart.
   */
  lemma {:induction false} CompleteEntryStays(ledger: Ledger, entry: Entry, events: seq<Event>)
    requires Sound(ledger) && entry in Complete(ledger.file) && ClocksDoNotGoBack(events) && IsRecent(entry, events)
    ensures entry in Complete(After(ledger, events).file) && entry in After(ledger, events).remembered
  {
    hide Sound, Complete, Recorded, Restarted;
    EveryRunIsSound(ledger, events);
    if events != [] {
      var rest, last := events[..|events| - 1], events[|events| - 1];
      EveryRunIsSound(ledger, rest);
      RecentBefore(entry, events);
      CompleteEntryStays(ledger, entry, rest);
      if last.Record? {
        RecordKeepsComplete(After(ledger, rest), entry, last.entry, last.append);
      } else {
        RestartKeepsRecent(After(ledger, rest), entry, last.now);
      }
    }
    CompleteIsRemembered(After(ledger, events), entry);
  }

  lemma RecentBefore(entry: Entry, events: seq<Event>)
    requires events != [] && ClocksDoNotGoBack(events) && IsRecent(entry, events)
    ensures IsRecent(entry, events[..|events| - 1])
  {
    var rest := events[..|events| - 1];
    if LatestRestart(rest).Some? {
      LatestRestartIsOne(rest);
    }
  }

  // ----- recorded again

  /** The file the first of the restarts reads. */
  function FirstRead(ledger: Ledger, events: seq<Event>): Option<File> {
    if events == [] then None
    else
      var rest := events[..|events| - 1];
      var first := FirstRead(ledger, rest);
      if first.None? && events[|events| - 1].Restart? then Some(After(ledger, rest).file) else first
  }

  /** No restart came since, or the first found the entry's line and the latest found it recent. */
  ghost predicate IsKept(ledger: Ledger, entry: Entry, events: seq<Event>) {
    FirstRead(ledger, events).None? || (entry in Decoded(FirstRead(ledger, events).value) && IsRecent(entry, events))
  }

  /** The event at `i` records an ID that is not remembered then. */
  ghost predicate IsRecordedAnew(ledger: Ledger, id: string, events: seq<Event>, i: nat) {
    i < |events| && events[i].Record? && events[i].entry.id == id && !Has(After(ledger, events[..i]).remembered, id)
  }

  ghost predicate IsRecordedAnewAndKept(ledger: Ledger, id: string, events: seq<Event>, i: nat) {
    IsRecordedAnew(ledger, id, events, i) && IsKept(After(ledger, events[..i + 1]), events[i].entry, events[i + 1..])
  }

  lemma {:induction false} AfterConcat(ledger: Ledger, a: seq<Event>, b: seq<Event>)
    ensures After(ledger, a + b) == After(After(ledger, a), b)
    decreases |b|
  {
    if b == [] {
      assert a + b == a;
    } else {
      assert (a + b)[..|a + b| - 1] == a + b[..|b| - 1];
      AfterConcat(ledger, a, b[..|b| - 1]);
    }
  }

  lemma NoReadNoRestart(ledger: Ledger, events: seq<Event>)
    ensures FirstRead(ledger, events).None? <==> LatestRestart(events).None?
  {
  }

  lemma RecordKeepsRemembered(ledger: Ledger, entry: Entry, other: Entry, append: Append)
    requires Sound(ledger) && entry in ledger.remembered
    ensures entry in Recorded(ledger, other, append).remembered
  {
    hide Sound, Appended, Put;
    if !Has(ledger.remembered, other.id) {
      RecordKeepsSound(ledger, other, append);
    }
  }

  /** A restart remembers a remembered entry, with its line complete, exactly when its line is found and recent. */
  lemma RestartOfRemembered(ledger: Ledger, entry: Entry, now: int)
    requires Sound(ledger) && entry in ledger.remembered
    ensures Has(Restarted(ledger.file, now).remembered, entry.id) <==>
            entry in Decoded(ledger.file) && entry.at >= now - MEMORY_SECONDS
    ensures Has(Restarted(ledger.file, now).remembered, entry.id) ==>
              entry in Complete(Restarted(ledger.file, now).file)
  {
    hide Complete, Decoded, Pending, Restarted;
    RestartKeepsExactly(ledger.file, now);
    forall other | other in Restarted(ledger.file, now).remembered && other.id == entry.id ensures other == entry {
      SameIdSameEntry(ledger.remembered, entry, other);
    }
  }

  /** An entry that is kept is remembered, and has a complete line once there was a restart. */
  lemma {:induction false} KeptIsRemembered(ledger: Ledger, entry: Entry, events: seq<Event>)
    requires Sound(ledger) && entry in ledger.remembered && ClocksDoNotGoBack(events) && IsKept(ledger, entry, events)
    ensures entry in After(ledger, events).remembered
    ensures FirstRead(ledger, events).Some? ==> entry in Complete(After(ledger, events).file)
  {
    hide Sound, Complete, Decoded, Recorded, Restarted;
    if events != [] {
      var rest, last := events[..|events| - 1], events[|events| - 1];
      var before := After(ledger, rest);
      EveryRunIsSound(ledger, rest);
      EveryRunIsSound(ledger, events);
      NoReadNoRestart(ledger, rest);
      if FirstRead(ledger, events).Some? {
        RecentBefore(entry, events);
      }
      KeptIsRemembered(ledger, entry, rest);
      if last.Record? {
        RecordKeepsRemembered(before, entry, last.entry, last.append);
        if FirstRead(ledger, rest).Some? {
          RecordKeepsComplete(before, entry, last.entry, last.append);
        }
      } else {
        if FirstRead(ledger, rest).Some? {
          CompleteIsRemembered(before, entry);
        }
        RestartOfRemembered(before, entry, last.now);
        CompleteIsRemembered(After(ledger, events), entry);
      }
    }
  }

  lemma KeptThroughOneMore(ledger: Ledger, entry: Entry, events: seq<Event>, last: Event)
    requires Sound(ledger) && entry in ledger.remembered && ClocksDoNotGoBack(events) && IsKept(ledger, entry, events)
    requires Has(Next(After(ledger, events), last).remembered, entry.id)
    ensures IsKept(ledger, entry, events + [last])
  {
    hide Sound, Complete, Decoded, Recorded, Restarted;
    var all := events + [last];
    assert all[..|events|] == events;
    if last.Restart? {
      EveryRunIsSound(ledger, events);
      KeptIsRemembered(ledger, entry, events);
      RestartOfRemembered(After(ledger, events), entry, last.now);
    }
  }

  lemma RecordedIsRemembered(ledger: Ledger, events: seq<Event>, i: nat)
    requires Sound(ledger) && i < |events| && events[i].Record?
    requires !Has(After(ledger, events[..i]).remembered, events[i].entry.id)
    ensures Sound(After(ledger, events[..i + 1])) && events[i].entry in After(ledger, events[..i + 1]).remembered
  {
    hide Sound, Recorded;
    EveryRunIsSound(ledger, events[..i]);
    EveryRunIsSound(ledger, events[..i + 1]);
    assert events[..i + 1][..i] == events[..i];
    RecordKeepsSound(After(ledger, events[..i]), events[i].entry, events[i].append);
  }

  lemma ClocksOfSlice(events: seq<Event>, i: nat, j: nat)
    requires ClocksDoNotGoBack(events) && i <= j <= |events|
    ensures ClocksDoNotGoBack(events[i..j])
  {
  }

  lemma SlicesOfOneMore(events: seq<Event>, i: nat)
    requires i < |events| - 1
    ensures var rest, last := events[..|events| - 1], events[|events| - 1];
            && rest[..i] == events[..i] && rest[..i + 1] == events[..i + 1] && rest[i] == events[i]
            && rest[i + 1..] + [last] == events[i + 1..] && rest == rest[..i + 1] + rest[i + 1..]
            && rest[i + 1..] == events[i + 1..|events| - 1]
  {
  }

  lemma AnewThroughOneMore(ledger: Ledger, id: string, events: seq<Event>, i: nat)
    requires Sound(ledger) && ClocksDoNotGoBack(events) && events != []
    requires IsRecordedAnewAndKept(ledger, id, events[..|events| - 1], i)
    requires Has(After(ledger, events).remembered, id)
    ensures IsRecordedAnewAndKept(ledger, id, events, i)
  {
    var rest, last := events[..|events| - 1], events[|events| - 1];
    assert After(ledger, events) == Next(After(ledger, rest), last);
    hide Sound, IsKept, After, Next, Has, ClocksDoNotGoBack;
    SlicesOfOneMore(events, i);
    RecordedIsRemembered(ledger, rest, i);
    AfterConcat(ledger, rest[..i + 1], rest[i + 1..]);
    ClocksOfSlice(events, i + 1, |rest|);
    KeptThroughOneMore(After(ledger, rest[..i + 1]), rest[i].entry, rest[i + 1..], last);
  }

  lemma {:induction false} RememberedForAReason(ledger: Ledger, entry: Entry, events: seq<Event>)
    requires Sound(ledger) && entry in Complete(ledger.file) && ClocksDoNotGoBack(events)
    requires Has(After(ledger, events).remembered, entry.id) && !IsRecent(entry, events)
    ensures exists i: nat :: IsRecordedAnewAndKept(ledger, entry.id, events, i)
  {
    hide Sound, Complete, IsKept, Recorded, Restarted;
    var rest, last := events[..|events| - 1], events[|events| - 1];
    var before := After(ledger, rest);
    EveryRunIsSound(ledger, rest);
    if last.Restart? {
      RestartAddsNone(before, entry.id, last.now);
    }
    if !Has(before.remembered, entry.id) {
      RecordAddsItsOwn(before, entry.id, last.entry, last.append);
      assert events[|rest| + 1..] == [];
      assert IsKept(After(ledger, events[..|rest| + 1]), last.entry, []) by {
        NothingSince(After(ledger, events[..|rest| + 1]), last.entry);
      }
      assert IsRecordedAnewAndKept(ledger, entry.id, events, |rest|);
    } else {
      if IsRecent(entry, rest) {
        CompleteEntryStays(ledger, entry, rest);
        RestartKeepsRecent(before, entry, last.now);
      }
      RememberedForAReason(ledger, entry, rest);
      var i: nat :| IsRecordedAnewAndKept(ledger, entry.id, rest, i);
      AnewThroughOneMore(ledger, entry.id, events, i);
    }
  }

  lemma NothingSince(ledger: Ledger, entry: Entry)
    ensures IsKept(ledger, entry, [])
  {
  }

  lemma RestartAddsNone(ledger: Ledger, id: string, now: int)
    requires Sound(ledger)
    ensures Has(Restarted(ledger.file, now).remembered, id) ==> Has(ledger.remembered, id)
  {
    hide Complete, Decoded, Pending, Restarted;
    RestartKeepsExactly(ledger.file, now);
  }

  lemma RecordAddsItsOwn(ledger: Ledger, id: string, entry: Entry, append: Append)
    requires Sound(ledger) && !Has(ledger.remembered, id) && Has(Recorded(ledger, entry, append).remembered, id)
    ensures entry.id == id
  {
    hide Sound, Appended, Put;
    RecordKeepsSound(ledger, entry, append);
  }

  // ----- when the line of a record is found

  /** Whether anything is appended before the first of the restarts. */
  predicate AppendsBeforeRestart(ledger: Ledger, events: seq<Event>) {
    if events == [] then false
    else
      var rest, last := events[..|events| - 1], events[|events| - 1];
      AppendsBeforeRestart(ledger, rest) ||
      (&& FirstRead(ledger, rest).None? && last.Record? && last.append != Nothing
       && !Has(After(ledger, rest).remembered, last.entry.id))
  }

  /** The file the first restart reads, or without one the file at the end. */
  function FileThen(ledger: Ledger, events: seq<Event>): File {
    if FirstRead(ledger, events).Some? then FirstRead(ledger, events).value else After(ledger, events).file
  }

  /** The entry has no line of its own in the file, and never gets one while it is remembered. */
  ghost predicate IsLost(file: File, entry: Entry) {
    entry !in Complete(file) && Pending(file) != [Body(entry)]
  }

  lemma LastCell(cells: seq<Cell>, cell: Cell, entry: Entry)
    ensures cells + [cell] == [Body(entry)] <==> cells == [] && cell == Body(entry)
  {
    assert (cells + [cell])[|cells|] == cell;
  }

  lemma LostStaysLost(ledger: Ledger, entry: Entry, other: Entry, append: Append)
    requires entry in ledger.remembered && IsLost(ledger.file, entry)
    ensures IsLost(Recorded(ledger, other, append).file, entry)
  {
    hide Complete, Pending, Appended;
    if !Has(ledger.remembered, other.id) {
      assert other != entry;
      AfterAnAppend(ledger.file, other, append);
      LastCell(Pending(ledger.file), Fragment, entry);
      LastCell(Pending(ledger.file), Body(other), entry);
    }
  }

  lemma LostIsNotDecoded(file: File, entry: Entry)
    ensures entry in Decoded(file) <==> !IsLost(file, entry)
  {
    hide Complete, Pending, Decoded;
    DecodedIsCompleteAndPending(file);
  }

  lemma {:induction false} LostUntilRestart(ledger: Ledger, entry: Entry, events: seq<Event>)
    requires Sound(ledger) && entry in ledger.remembered && IsLost(ledger.file, entry)
    ensures IsLost(FileThen(ledger, events), entry)
    ensures FirstRead(ledger, events).None? ==> entry in After(ledger, events).remembered
  {
    hide Sound, IsLost, Recorded, Restarted;
    if events != [] {
      var rest, last := events[..|events| - 1], events[|events| - 1];
      LostUntilRestart(ledger, entry, rest);
      EveryRunIsSound(ledger, rest);
      if FirstRead(ledger, rest).None? && last.Record? {
        LostStaysLost(After(ledger, rest), entry, last.entry, last.append);
        RecordKeepsRemembered(After(ledger, rest), entry, last.entry, last.append);
      }
    }
  }

  lemma {:induction false} CompleteUntilRestart(ledger: Ledger, entry: Entry, events: seq<Event>)
    requires entry in Complete(ledger.file)
    ensures entry in Complete(FileThen(ledger, events))
  {
    hide Complete, Recorded, Restarted;
    if events != [] {
      var rest, last := events[..|events| - 1], events[|events| - 1];
      CompleteUntilRestart(ledger, entry, rest);
      if FirstRead(ledger, rest).None? && last.Record? {
        RecordKeepsComplete(After(ledger, rest), entry, last.entry, last.append);
      }
    }
  }

  /** A line without its newline is found while nothing is appended behind it. */
  lemma {:induction false} PendingUntilRestart(ledger: Ledger, entry: Entry, events: seq<Event>)
    requires Sound(ledger) && entry in ledger.remembered && Pending(ledger.file) == [Body(entry)]
    requires entry !in Complete(ledger.file)
    ensures var file := FileThen(ledger, events);
            && entry !in Complete(file)
            && (Pending(file) == [Body(entry)] <==> !AppendsBeforeRestart(ledger, events))
    ensures FirstRead(ledger, events).None? ==> entry in After(ledger, events).remembered
  {
    hide Sound, Complete, Pending, Restarted, Decoded, Appended;
    if events != [] {
      var rest, last := events[..|events| - 1], events[|events| - 1];
      PendingUntilRestart(ledger, entry, rest);
      EveryRunIsSound(ledger, rest);
      var before := After(ledger, rest);
      if FirstRead(ledger, rest).None? && last.Record? {
        RecordKeepsRemembered(before, entry, last.entry, last.append);
        if !Has(before.remembered, last.entry.id) {
          AfterAnAppend(before.file, last.entry, last.append);
          LastCell(Pending(before.file), Fragment, entry);
          LastCell(Pending(before.file), Body(last.entry), entry);
        }
      }
    }
  }

  /**
   The append of the record, and those after it until a restart reads the file, leave the record a line
   of its own.
   */
  ghost predicate HasALine(ledger: Ledger, entry: Entry, append: Append, since: seq<Event>) {
    && Pending(ledger.file) == []
    && (append == Done || (append == Whole && !AppendsBeforeRestart(Recorded(ledger, entry, append), since)))
  }

  lemma LineIsFoundIff(ledger: Ledger, entry: Entry, append: Append, since: seq<Event>)
    requires Sound(ledger) && !Has(ledger.remembered, entry.id)
    ensures var after := Recorded(ledger, entry, append);
            entry in Decoded(FileThen(after, since)) <==> HasALine(ledger, entry, append, since)
  {
    hide Sound, Complete, Pending, Decoded, Appended;
    var after := Recorded(ledger, entry, append);
    RecordKeepsSound(ledger, entry, append);
    AfterAnAppend(ledger.file, entry, append);
    NewIsLost(ledger, entry);
    LastCell(Pending(ledger.file), Fragment, entry);
    LastCell(Pending(ledger.file), Body(entry), entry);
    LostIsNotDecoded(FileThen(after, since), entry);
    if Pending(ledger.file) == [] && append == Done {
      CompleteUntilRestart(after, entry, since);
    } else if Pending(ledger.file) == [] && append == Whole {
      PendingUntilRestart(after, entry, since);
    } else {
      LostUntilRestart(after, entry, since);
    }
  }

  lemma NewIsLost(ledger: Ledger, entry: Entry)
    requires Sound(ledger) && !Has(ledger.remembered, entry.id)
    ensures IsLost(ledger.file, entry)
  {
    hide Complete, Pending, Decoded;
    LostIsNotDecoded(ledger.file, entry);
  }

  /** No restart came since the record, or its appends left it a line and the latest restart found it recent. */
  ghost predicate IsKeptByItsAppends(ledger: Ledger, record: Event, since: seq<Event>)
    requires record.Record?
  {
    || LatestRestart(since).None?
    || (HasALine(ledger, record.entry, record.append, since) && IsRecent(record.entry, since))
  }

  lemma KeptIffByItsAppends(ledger: Ledger, record: Event, since: seq<Event>)
    requires Sound(ledger) && record.Record? && !Has(ledger.remembered, record.entry.id)
    ensures IsKept(Recorded(ledger, record.entry, record.append), record.entry, since) <==>
            IsKeptByItsAppends(ledger, record, since)
  {
    hide Sound, Decoded, HasALine, Recorded, IsRecent;
    NoReadNoRestart(Recorded(ledger, record.entry, record.append), since);
    LineIsFoundIff(ledger, record.entry, record.append, since);
  }

  ghost predicate RecordsARemembered(ledger: Ledger, events: seq<Event>, i: nat) {
    i < |events| && events[i].Record? && events[i].entry in After(ledger, events).remembered
  }

  lemma AnewIsRemembered(ledger: Ledger, id: string, events: seq<Event>, i: nat)
    requires Sound(ledger) && ClocksDoNotGoBack(events) && IsRecordedAnewAndKept(ledger, id, events, i)
    ensures RecordsARemembered(ledger, events, i) && Has(After(ledger, events).remembered, id)
  {
    hide Sound, IsKept, After, ClocksDoNotGoBack;
    var since := events[i + 1..];
    RecordedIsRemembered(ledger, events, i);
    assert events == events[..i + 1] + since && events[i + 1..|events|] == since;
    AfterConcat(ledger, events[..i + 1], since);
    ClocksOfSlice(events, i + 1, |events|);
    KeptIsRemembered(After(ledger, events[..i + 1]), events[i].entry, since);
  }

  /** The ID is recorded anew at `i`, and its appends keep that record. */
  ghost predicate IsRecordedForGood(ledger: Ledger, id: string, events: seq<Event>, i: nat) {
    IsRecordedAnew(ledger, id, events, i) && IsKeptByItsAppends(After(ledger, events[..i]), events[i], events[i + 1..])
  }

  lemma ForGoodIffKept(ledger: Ledger, id: string, events: seq<Event>, i: nat)
    requires Sound(ledger)
    ensures IsRecordedForGood(ledger, id, events, i) <==> IsRecordedAnewAndKept(ledger, id, events, i)
  {
    if IsRecordedAnew(ledger, id, events, i) {
      var before := After(ledger, events[..i]);
      assert events[..i + 1][..i] == events[..i];
      assert After(ledger, events[..i + 1]) == Recorded(before, events[i].entry, events[i].append);
      hide Sound, After, Recorded, IsKept, IsKeptByItsAppends;
      EveryRunIsSound(ledger, events[..i]);
      KeptIffByItsAppends(before, events[i], events[i + 1..]);
    }
  }

  /**
   Over any run, the same ID recorded again included: an ID whose entry had a complete line is
   remembered exactly when that entry is inside the horizon of the latest restart, or the ID was
   recorded anew after being forgotten and that record is kept. It is kept while no restart
   comes; and after one if the file ended in a newline before it, its append was done, or lacked
   only its newline and nothing was appended before the restart, and the latest restart found it
   recent.
   */
  lemma CompleteEntryIsRememberedIff(ledger: Ledger, entry: Entry, events: seq<Event>)
    requires Sound(ledger) && entry in Complete(ledger.file) && ClocksDoNotGoBack(events)
    ensures Has(After(ledger, events).remembered, entry.id) <==>
            IsRecent(entry, events) || exists i: nat :: IsRecordedForGood(ledger, entry.id, events, i)
    ensures IsRecent(entry, events) ==> entry in After(ledger, events).remembered
    ensures forall i: nat :: IsRecordedForGood(ledger, entry.id, events, i) ==> RecordsARemembered(ledger, events, i)
  {
    hide Sound, Complete, IsKept, IsRecent, After, IsRecordedAnewAndKept, IsRecordedForGood;
    if IsRecent(entry, events) {
      CompleteEntryStays(ledger, entry, events);
    } else if Has(After(ledger, events).remembered, entry.id) {
      RememberedForAReason(ledger, entry, events);
      var i: nat :| IsRecordedAnewAndKept(ledger, entry.id, events, i);
      ForGoodIffKept(ledger, entry.id, events, i);
    }
    forall i: nat | IsRecordedForGood(ledger, entry.id, events, i)
      ensures RecordsARemembered(ledger, events, i) && Has(After(ledger, events).remembered, entry.id)
    {
      ForGoodIffKept(ledger, entry.id, events, i);
      AnewIsRemembered(ledger, entry.id, events, i);
    }
  }

  // ----- what failing appends cost

  /** The appends that a sequence of records makes: none for an ID already remembered. */
  function Made(ledger: Ledger, records: seq<(Entry, Append)>): seq<Append> {
    if records == [] then []
    else
      var rest, last := records[..|records| - 1], records[|records| - 1];
      Made(ledger, rest) + if Has(AfterRecords(ledger, rest).remembered, last.0.id) then [] else [last.1]
  }

  function AfterRecords(ledger: Ledger, records: seq<(Entry, Append)>): Ledger {
    if records == [] then ledger
    else
      var last := records[|records| - 1];
      Recorded(AfterRecords(ledger, records[..|records| - 1]), last.0, last.1)
  }

  function Failures(made: seq<Append>): nat {
    if made == [] then 0 else Failures(made[..|made| - 1]) + if made[|made| - 1] == Done then 0 else 1
  }

  /** How many remembered entries a restart would not find, and how many more the next append could cost. */
  function Lost(ledger: Ledger): int {
    |ledger.remembered| - |Decoded(ledger.file)|
  }

  function AtRisk(file: File): nat {
    if Pending(file) == [] then 0 else if EntryOf(Pending(file)).Some? then 2 else 1
  }

  lemma CostOfAnAppend(ledger: Ledger, entry: Entry, append: Append)
    requires Sound(ledger) && !Has(ledger.remembered, entry.id)
    ensures var after := Recorded(ledger, entry, append);
      && Lost(after) + AtRisk(after.file) <= Lost(ledger) + AtRisk(ledger.file) + (if append == Done then 0 else 2)
      && Lost(after) >= Lost(ledger)
      && (Lost(after) == Lost(ledger) <==> Pending(ledger.file) == [] && (append == Done || append == Whole))
      && (Pending(after.file) == [] <==> append == Done || (append == Nothing && Pending(ledger.file) == []))
  {
    hide Complete, Decoded, Pending, Appended, Put;
    RecordKeepsSound(ledger, entry, append);
    AfterAnAppend(ledger.file, entry, append);
    DecodedIsCompleteAndPending(ledger.file);
    DecodedIsCompleteAndPending(Appended(ledger.file, entry, append));
  }

  lemma {:induction false} RecordsKeepSound(ledger: Ledger, records: seq<(Entry, Append)>)
    requires Sound(ledger)
    ensures Sound(AfterRecords(ledger, records))
  {
    hide Sound, Recorded;
    if records != [] {
      var rest, last := records[..|records| - 1], records[|records| - 1];
      RecordsKeepSound(ledger, rest);
      RecordKeepsSound(AfterRecords(ledger, rest), last.0, last.1);
    }
  }

  /** A process that goes on after failing appends loses at most two entries for each. */
  lemma {:induction false} FailureCostsAtMostTwo(ledger: Ledger, records: seq<(Entry, Append)>)
    requires Sound(ledger)
    ensures var after := AfterRecords(ledger, records);
      Lost(after) + AtRisk(after.file) <= Lost(ledger) + AtRisk(ledger.file) + 2 * Failures(Made(ledger, records))
  {
    hide Sound, Lost, AtRisk;
    if records != [] {
      var rest, last := records[..|records| - 1], records[|records| - 1];
      FailureCostsAtMostTwo(ledger, rest);
      RecordsKeepSound(ledger, rest);
      var before := AfterRecords(ledger, rest);
      if !Has(before.remembered, last.0.id) {
        CostOfAnAppend(before, last.0, last.1);
        assert Made(ledger, records)[..|Made(ledger, rest)|] == Made(ledger, rest);
      } else {
        assert Made(ledger, records) == Made(ledger, rest);
      }
    }
  }

  predicate AllDone(made: seq<Append>) {
    forall i :: 0 <= i < |made| ==> made[i] == Done
  }

  /** All appends were done, but for the last, which may lack its newline. */
  predicate AllReadable(made: seq<Append>) {
    AllDone(made) || (made[|made| - 1] == Whole && AllDone(made[..|made| - 1]))
  }

  lemma AppendToAgreeing(ledger: Ledger, entry: Entry, append: Append)
    requires Sound(ledger) && !Has(ledger.remembered, entry.id)
    ensures Pending(ledger.file) == [] && Decoded(ledger.file) == ledger.remembered &&
            (append == Done || append == Whole) ==>
              Decoded(Recorded(ledger, entry, append).file) == Recorded(ledger, entry, append).remembered
  {
    hide Complete, Decoded, Pending, Appended, Put;
    RecordKeepsSound(ledger, entry, append);
    AfterAnAppend(ledger.file, entry, append);
    DecodedIsCompleteAndPending(ledger.file);
    DecodedIsCompleteAndPending(Appended(ledger.file, entry, append));
  }

  lemma OneMoreMade(made: seq<Append>, append: Append)
    ensures AllDone(made + [append]) <==> AllDone(made) && append == Done
    ensures AllReadable(made + [append]) <==> AllDone(made) && (append == Done || append == Whole)
  {
    var all := made + [append];
    assert all[..|made|] == made && all[|made|] == append;
    assert forall i :: 0 <= i < |made| ==> all[i] == made[i];
  }

  /**
   From a restart on, the file says what the map says if and only if no append failed but a last one
   lacking only its newline.
   */
  lemma {:induction false} FileAgreesIff(ledger: Ledger, records: seq<(Entry, Append)>)
    requires Sound(ledger) && Decoded(ledger.file) == ledger.remembered && Pending(ledger.file) == []
    ensures var after, made := AfterRecords(ledger, records), Made(ledger, records);
      && (Decoded(after.file) == after.remembered <==> AllReadable(made))
      && (Decoded(after.file) == after.remembered && Pending(after.file) == [] <==> AllDone(made))
      && Lost(after) >= 0 && (Lost(after) == 0 ==> Decoded(after.file) == after.remembered)
  {
    hide Sound, Decoded, Pending, AllDone, AllReadable, Recorded;
    if records == [] {
      NothingMade();
    } else {
      var rest, last := records[..|records| - 1], records[|records| - 1];
      FileAgreesIff(ledger, rest);
      RecordsKeepSound(ledger, rest);
      var before := AfterRecords(ledger, rest);
      if Has(before.remembered, last.0.id) {
        assert Made(ledger, records) == Made(ledger, rest);
        assert Recorded(before, last.0, last.1) == before by { KnownIsNotRecorded(before, last.0, last.1); }
      } else {
        CostOfAnAppend(before, last.0, last.1);
        AppendToAgreeing(before, last.0, last.1);
        OneMoreMade(Made(ledger, rest), last.1);
      }
    }
  }

  lemma NothingMade()
    ensures AllDone([]) && AllReadable([])
  {
  }

  lemma KnownIsNotRecorded(ledger: Ledger, entry: Entry, append: Append)
    requires Has(ledger.remembered, entry.id)
    ensures Recorded(ledger, entry, append) == ledger
  {
  }

  /** A crash in an append loses at most that entry: a restart finds every other that is inside the horizon. */
  lemma CrashLosesAtMostTheLastLine(ledger: Ledger, entry: Entry, append: Append, now: int)
    requires Sound(ledger) && Decoded(ledger.file) == ledger.remembered && Pending(ledger.file) == []
    requires !Has(ledger.remembered, entry.id)
    ensures var after := Restarted(Recorded(ledger, entry, append).file, now);
      forall other :: other in after.remembered <==>
        && other.at >= now - MEMORY_SECONDS
        && (other in ledger.remembered || (other == entry && (append == Done || append == Whole)))
  {
    hide Sound, Complete, Decoded, Pending, Put, Restarted;
    RecordKeepsSound(ledger, entry, append);
    SoundFileIsUnique(Recorded(ledger, entry, append));
    RestartKeepsExactly(Recorded(ledger, entry, append).file, now);
    AfterAnAppend(ledger.file, entry, append);
    DecodedIsCompleteAndPending(ledger.file);
    DecodedIsCompleteAndPending(Appended(ledger.file, entry, append));
    assert Recorded(ledger, entry, append).file == Appended(ledger.file, entry, append);
    var extra := if append == Done || append == Whole then [entry] else [];
    assert Decoded(Appended(ledger.file, entry, append)) == ledger.remembered + extra;
  }

  /** Without a restart in between, an append cut short costs the next entry too. */
  lemma FailedAppendCanCostTheNext()
    ensures var after := AfterRecords(Ledger([], []), [(Entry("a", 0), Part), (Entry("b", 0), Done)]);
      after.remembered == [Entry("a", 0), Entry("b", 0)] && Decoded(after.file) == []
  {
    var a, b := Entry("a", 0), Entry("b", 0);
    var start := Ledger([], []);
    NothingIsDecoded();
    hide Decoded, Complete, Pending, Put;
    assert [(a, Part), (b, Done)][..1] == [(a, Part)] && [(a, Part)][..0] == [];
    var first := Recorded(start, a, Part);
    assert AfterRecords(start, [(a, Part)]) == first;
    AfterAnAppend([], a, Part);
    AfterAnAppend(first.file, b, Done);
    PutNew([], a);
    assert first.remembered == [] + [a] == [a];
    PutNew([a], b);
    assert [a] + [b] == [a, b];
    DecodedIsCompleteAndPending(Appended(first.file, b, Done));
  }
}
