/**
 The record index: a listing asks a source page by page for what changed after a cursor,
 holds each answered record, and moves the cursor to it. A refresh per requester remembers
 the cursor between listings, runs one listing at a time and not too often.
 */
module RecordIndex {
  import opened Options

  // ----- the source

  /** Records are ordered by when they changed, then by ID. IDs start at 1; below them lies the empty ID. */
  datatype Stamp = Stamp(at: nat, id: nat)

  type Cursor = Option<Stamp>

  const EARLIEST_CHANGE := Stamp(0, 0)
  const LISTING_PAGE := 100

  predicate Less(a: Stamp, b: Stamp) {
    a.at < b.at || (a.at == b.at && a.id < b.id)
  }

  predicate AtMost(a: Stamp, b: Stamp) {
    a == b || Less(a, b)
  }

  /** What a listing asks to be answered after. */
  function Asked(cursor: Cursor): Stamp {
    if cursor.None? then EARLIEST_CHANGE else cursor.value
  }

  datatype Record = Record(stamp: Stamp, content: string)

  /** `latest` is the latest stamp the source ever gave. */
  datatype Source = Source(records: seq<Record>, latest: Stamp)

  ghost predicate Sorted(records: seq<Record>) {
    forall i, j :: 0 <= i < j < |records| ==> Less(records[i].stamp, records[j].stamp)
  }

  ghost predicate GoodSource(source: Source) {
    && Sorted(source.records)
    && (forall r <- source.records, s <- source.records :: r.stamp.id == s.stamp.id ==> r == s)
    && (forall r <- source.records :: Less(EARLIEST_CHANGE, r.stamp) && AtMost(r.stamp, source.latest))
    && AtMost(EARLIEST_CHANGE, source.latest)
  }

  /** The records that changed after `stamp`, in order. */
  function ChangedAfter(records: seq<Record>, stamp: Stamp): seq<Record> {
    if records == [] then []
    else if Less(stamp, records[0].stamp) then records
    else ChangedAfter(records[1..], stamp)
  }

  function Without(records: seq<Record>, id: nat): seq<Record> {
    if records == [] then []
    else if records[0].stamp.id == id then Without(records[1..], id)
    else [records[0]] + Without(records[1..], id)
  }

  /** The record put where its stamp belongs. */
  function Insert(records: seq<Record>, record: Record): seq<Record> {
    if records == [] then [record]
    else if Less(record.stamp, records[0].stamp) then [record] + records
    else [records[0]] + Insert(records[1..], record)
  }

  /** A record is written, or written anew, with whatever stamp; a record has an ID. */
  function Changed(source: Source, change: Record): Source {
    if change.stamp.id == 0 then source
    else
      Source(Insert(Without(source.records, change.stamp.id), change),
             if Less(source.latest, change.stamp) then change.stamp else source.latest)
  }

  function ChangedAll(source: Source, changes: seq<Record>): Source
    decreases |changes|
  {
    if changes == [] then source else ChangedAll(Changed(source, changes[0]), changes[1..])
  }

  /**
   What happens at one question: changes to the source since the last answer; whether it
   refuses; whether it repeats the record at the cursor instead of going on; how many
   records it answers; the one it answers without saying when it changed; and which of
   the index's own writes fails.
   */
  datatype Turn = Turn(
    changes: seq<Record>, refuses: bool, repeats: bool, count: nat, undated: Option<nat>,
    frameFails: bool, holdFailsAt: Option<nat>)

  const QUIET := Turn([], false, false, LISTING_PAGE, None, false, None)

  function PageSize(available: nat, count: nat): nat {
    var wanted := if count == 0 then 1 else if count > LISTING_PAGE then LISTING_PAGE else count;
    if wanted > available then available else wanted
  }

  /** The records a turn answers: those strictly after the cursor, in order, or the one at it again. */
  function Answered(records: seq<Record>, asked: Stamp, turn: Turn): seq<Record> {
    if turn.repeats && exists r <- records :: r.stamp == asked then RecordAt(records, asked)
    else ChangedAfter(records, asked)[..PageSize(|ChangedAfter(records, asked)|, turn.count)]
  }

  function RecordAt(records: seq<Record>, stamp: Stamp): seq<Record> {
    if records == [] then []
    else if records[0].stamp == stamp then [records[0]]
    else RecordAt(records[1..], stamp)
  }

  // ----- what the index owes the source

  type Held = map<nat, Record>

  predicate IsHeld(held: Held, r: Record) {
    r.stamp.id in held && held[r.stamp.id] == r
  }

  /** `Hold`: a version that is held is not stored again, any other takes its place. */
  function Stored(held: Held, record: Record): Held {
    if record.stamp.id in held && held[record.stamp.id].stamp == record.stamp then held
    else held[record.stamp.id := record]
  }

  /**
   A change that the next question finds stamped no later than its cursor is missed, unless it is what
   is held already.
   */
  function MissedBy(held: Held, reached: Stamp, change: Record): set<Record> {
    if change.stamp.id != 0 && AtMost(change.stamp, reached) && !IsHeld(held, change) then {change} else {}
  }

  function MissedAll(held: Held, reached: Stamp, changes: seq<Record>): set<Record> {
    if changes == [] then {} else MissedBy(held, reached, changes[0]) + MissedAll(held, reached, changes[1..])
  }

  /** Of the source's records up to the cursor, those are held as they are that were not missed. */
  ghost predicate Agrees(records: seq<Record>, held: Held, reached: Stamp, missed: set<Record>) {
    forall r <- records :: AtMost(r.stamp, reached) ==> (IsHeld(held, r) <==> r !in missed)
  }

  /** What is held was listed up to the cursor, the record at the cursor too. */
  ghost predicate HeldIsListed(held: Held, reached: Stamp) {
    && (forall id <- held :: held[id].stamp.id == id && AtMost(held[id].stamp, reached))
    && (reached != EARLIEST_CHANGE ==> reached.id in held && held[reached.id].stamp == reached)
  }

  ghost predicate MissedIsPast(held: Held, reached: Stamp, missed: set<Record>) {
    forall r <- missed :: AtMost(r.stamp, reached) && !IsHeld(held, r)
  }

  ghost predicate Sound(source: Source, held: Held, reached: Stamp, missed: set<Record>) {
    && GoodSource(source) && AtMost(EARLIEST_CHANGE, reached) && AtMost(reached, source.latest)
    && HeldIsListed(held, reached) && MissedIsPast(held, reached, missed)
    && Agrees(source.records, held, reached, missed)
  }

  /** The changes are stamped one later than the other, all later than `latest`. */
  predicate AreIncreasing(latest: Stamp, changes: seq<Record>)
    decreases |changes|
  {
    changes == [] ||
    (changes[0].stamp.id != 0 && Less(latest, changes[0].stamp) && AreIncreasing(changes[0].stamp, changes[1..]))
  }

  predicate IsIncreasing(latest: Stamp, script: seq<Turn>)
    decreases |script|
  {
    script == [] ||
    (AreIncreasing(latest, script[0].changes) && IsIncreasing(LatestOf(latest, script[0].changes), script[1..]))
  }

  function LatestOf(latest: Stamp, changes: seq<Record>): Stamp
    decreases |changes|
  {
    if changes == [] then latest else LatestOf(changes[0].stamp, changes[1..])
  }

  /** Nothing in the source lies between `from` and the record, except the record. */
  ghost predicate ComesNext(records: seq<Record>, from: Stamp, record: Record) {
    && record in records && AtMost(from, record.stamp)
    && (forall r <- records :: AtMost(r.stamp, record.stamp) ==> AtMost(r.stamp, from) || r == record)
  }

  ghost predicate GoodPage(records: seq<Record>, from: Stamp, page: seq<Record>)
    decreases |page|
  {
    page == [] || (ComesNext(records, from, page[0]) && GoodPage(records, page[0].stamp, page[1..]))
  }

  // ----- the listing

  class Catalog {
    var source: Source
    var script: seq<Turn>
    var held: Held
    ghost var missed: set<Record>

    constructor (source: Source, script: seq<Turn>)
      ensures this.source == source && this.script == script && held == map[] && missed == {}
    {
      this.source, this.script, held, missed := source, script, map[], {};
    }

    /** The source answers, after whatever changed in it; beyond the script it is quiet. */
    method AskRecallSource(asked: Stamp) returns (turn: Turn, answer: seq<Record>)
      modifies this`source, this`script, this`missed
      ensures turn == if old(script) == [] then QUIET else old(script)[0]
      ensures script == if old(script) == [] then [] else old(script)[1..]
      ensures source == ChangedAll(old(source), turn.changes)
      ensures answer == Answered(source.records, asked, turn)
      ensures missed == old(missed) + MissedAll(held, asked, turn.changes)
    {
      turn := if script == [] then QUIET else script[0];
      script := if script == [] then [] else script[1..];
      source := ChangedAll(source, turn.changes);
      missed := missed + MissedAll(held, asked, turn.changes);
      answer := Answered(source.records, asked, turn);
    }

    method HoldRecord(record: Record, fails: bool) returns (ok: bool)
      modifies this`held
      ensures ok ==> held == Stored(old(held), record)
      ensures !ok ==> fails && held == old(held)
    {
      if record.stamp.id in held && held[record.stamp.id].stamp == record.stamp {
        return true;
      }
      if fails {
        return false;
      }
      held := held[record.stamp.id := record];
      return true;
    }

    /** The inner loop: hold the answered records one by one, the cursor following. */
    method HoldPage(cursor: Cursor, page: seq<Record>, turn: Turn) returns (reached: Cursor, ok: bool)
      requires Sound(source, held, Asked(cursor), missed) && GoodPage(source.records, Asked(cursor), page)
      modifies this`held
      ensures Sound(source, held, Asked(reached), missed) && AtMost(Asked(cursor), Asked(reached))
      ensures ok ==> reached == if page == [] then cursor else Some(page[|page| - 1].stamp)
      ensures turn.undated.None? && turn.holdFailsAt.None? ==> ok
    {
      hide Sound;
      reached := cursor;
      AtMostIsReflexive(Asked(cursor));
      for k := 0 to |page|
        invariant Sound(source, held, Asked(reached), missed) && AtMost(Asked(cursor), Asked(reached))
        invariant GoodPage(source.records, Asked(reached), page[k..])
        invariant reached == if k == 0 then cursor else Some(page[k - 1].stamp)
      {
        if turn.undated == Some(k) {
          return reached, false;
        }
        ghost var before := held;
        var held' := HoldRecord(page[k], turn.holdFailsAt == Some(k));
        if !held' {
          return reached, false;
        }
        assert page[k..][0] == page[k] && page[k..][1..] == page[k + 1..];
        OneRecordMore(source, before, held, Asked(reached), page[k], missed);
        AtMostIsTransitive(Asked(cursor), Asked(reached), page[k].stamp);
        reached := Some(page[k].stamp);
      }
      ok := true;
    }

    /**
     `listIntoRecordIndex`. Whatever fails, of the records up to the returned cursor exactly those
     are not held as they are that were missed: stamped no later than the cursor is at the first
     question after they changed, be it that they changed between two listings, between two
     questions or while a page was being held. A listing that reports no failure leaves out no
     others, and an undisturbed
     one reports none. A source that stamps its changes in increasing order has none missed.
     */
    method ListIntoRecordIndex(cursor: Cursor) returns (reached: Cursor, ok: bool)
      requires Sound(source, held, Asked(cursor), missed)
      modifies this
      ensures Sound(source, held, Asked(reached), missed) && AtMost(Asked(cursor), Asked(reached))
      ensures old(missed) <= missed
      ensures ok ==> forall r <- source.records :: IsHeld(held, r) <==> r !in missed
      ensures old(script) == [] ==> ok && source == old(source)
      ensures IsIncreasing(old(source).latest, old(script)) ==> missed == old(missed)
    {
      hide Sound, GoodPage, ChangedAfter, Answered, AtMost, Less, Sorted, GoodSource, PageSize, IsHeld, AreIncreasing,
          MissedAll, ChangedAll, LatestOf;
      reached := cursor;
      AtMostIsReflexive(Asked(cursor));
      while true
        invariant Sound(source, held, Asked(reached), missed) && AtMost(Asked(cursor), Asked(reached))
        invariant old(missed) <= missed
        invariant old(script) == [] ==> script == [] && source == old(source)
        invariant IsIncreasing(old(source).latest, old(script)) ==>
                    IsIncreasing(source.latest, script) && missed == old(missed)
        decreases |script|, |ChangedAfter(source.records, Asked(reached))|
      {
        var listedFrom := reached;
        ok := false;
        ghost var before, missedBefore, scriptBefore := source, missed, script;
        var turn, page := AskRecallSource(Asked(listedFrom));
        QuietChangesNothing(before, held, Asked(listedFrom));
        ChangesKeepSound(before, turn.changes, held, Asked(listedFrom), missedBefore);
        if IsIncreasing(before.latest, scriptBefore) && scriptBefore != [] {
          IncreasingIsNotMissed(before, turn.changes, held, Asked(listedFrom), missedBefore);
        }
        AnswerIsAGoodPage(source.records, Asked(listedFrom), turn) by {
          SoundIsSorted(source, held, Asked(listedFrom), missed);
        }
        if turn.refuses || turn.frameFails {
          return;
        }
        reached, ok := HoldPage(listedFrom, page, turn);
        AtMostIsTransitive(Asked(cursor), Asked(listedFrom), Asked(reached));
        if !ok {
          return;
        }
        if page == [] {
          NothingLeft(source, held, Asked(reached), turn, missed);
          return;
        }
        if scriptBefore == [] {
          QuietAnswerGoesOn(source.records, listedFrom, reached) by {
            SoundIsSorted(source, held, Asked(reached), missed);
          }
        }
        if reached == listedFrom {
          ok := false;
          return;
        }
        if scriptBefore == [] {
          FewerLeft(source.records, Asked(listedFrom), page) by { SoundIsSorted(source, held, Asked(reached), missed); }
        }
      }
    }
  }

  // ----- why it works

  lemma AtMostIsReflexive(a: Stamp)
    ensures AtMost(a, a)
  {
  }

  lemma AtMostIsTransitive(a: Stamp, b: Stamp, c: Stamp)
    requires AtMost(a, b) && AtMost(b, c)
    ensures AtMost(a, c)
  {
  }

  lemma SoundIsSorted(source: Source, held: Held, reached: Stamp, missed: set<Record>)
    requires Sound(source, held, reached, missed)
    ensures Sorted(source.records)
  {
  }

  /**
   The record at the cursor is held under its stamp; one after it under none as late: storing or
   skipping it keeps the agreement.
   */
  lemma OneRecordMore(source: Source, held: Held, held': Held, reached: Stamp, record: Record, missed: set<Record>)
    requires Sound(source, held, reached, missed) && ComesNext(source.records, reached, record)
    requires held' == Stored(held, record)
    ensures Sound(source, held', record.stamp, missed)
  {
    if record.stamp != reached {
      assert held' == held[record.stamp.id := record];
      assert record !in missed;
    }
  }

  lemma {:induction false} WithoutKeeps(records: seq<Record>, id: nat)
    ensures forall r :: r in Without(records, id) <==> r in records && r.stamp.id != id
  {
    if records != [] {
      WithoutKeeps(records[1..], id);
      assert records == [records[0]] + records[1..];
    }
  }

  lemma {:induction false} WithoutIsSorted(records: seq<Record>, id: nat)
    requires Sorted(records)
    ensures Sorted(Without(records, id))
  {
    if records != [] {
      var rest := records[1..];
      assert Sorted(rest);
      WithoutIsSorted(rest, id);
      WithoutKeeps(rest, id);
      forall r | r in Without(rest, id) ensures Less(records[0].stamp, r.stamp) {
        assert r in rest;
      }
    }
  }

  lemma {:induction false} InsertHolds(records: seq<Record>, record: Record)
    ensures forall r :: r in Insert(records, record) <==> r == record || r in records
  {
    if records != [] && !Less(record.stamp, records[0].stamp) {
      InsertHolds(records[1..], record);
      assert records == [records[0]] + records[1..];
    }
  }

  lemma {:induction false} InsertIsSorted(records: seq<Record>, record: Record)
    requires Sorted(records) && forall r <- records :: r.stamp.id != record.stamp.id
    ensures Sorted(Insert(records, record))
  {
    if records != [] {
      var rest := records[1..];
      assert Sorted(rest);
      if Less(record.stamp, records[0].stamp) {
        assert forall r <- records :: Less(record.stamp, r.stamp);
      } else {
        assert records[0] in records;
        InsertIsSorted(rest, record);
        InsertHolds(rest, record);
        assert forall r <- Insert(rest, record) :: Less(records[0].stamp, r.stamp);
      }
    }
  }

  lemma ChangeKeepsGoodSource(source: Source, change: Record)
    requires GoodSource(source) && change.stamp.id != 0
    ensures GoodSource(Changed(source, change))
    ensures forall r ::
              r in Changed(source, change).records <==>
              r == change || (r in source.records && r.stamp.id != change.stamp.id)
  {
    var kept := Without(source.records, change.stamp.id);
    WithoutKeeps(source.records, change.stamp.id);
    WithoutIsSorted(source.records, change.stamp.id);
    InsertHolds(kept, change);
    InsertIsSorted(kept, change);
  }

  /** One change: what it replaces no longer counts, and it is held, still to be listed, or missed. */
  lemma ChangeKeepsSound(source: Source, change: Record, held: Held, reached: Stamp, missed: set<Record>)
    requires Sound(source, held, reached, missed)
    ensures Sound(Changed(source, change), held, reached, missed + MissedBy(held, reached, change))
  {
    if change.stamp.id != 0 {
      hide Without, Sorted, Insert;
      ChangeKeepsGoodSource(source, change);
      ChangedLatest(source, change);
      ChangeKeepsAgreement(source.records, Changed(source, change).records, change, held, reached, missed);
    }
  }

  lemma ChangedLatest(source: Source, change: Record)
    ensures AtMost(source.latest, Changed(source, change).latest)
  {
  }

  lemma ChangeKeepsAgreement(records: seq<Record>, records': seq<Record>, change: Record, held: Held, reached: Stamp,
      missed: set<Record>)
    requires Agrees(records, held, reached, missed) && MissedIsPast(held, reached, missed) && change.stamp.id != 0
    requires forall r :: r in records' <==> r == change || (r in records && r.stamp.id != change.stamp.id)
    ensures Agrees(records', held, reached, missed + MissedBy(held, reached, change))
    ensures MissedIsPast(held, reached, missed + MissedBy(held, reached, change))
  {
  }

  /** Changes while a listing runs, or between two. */
  lemma {:induction false} ChangesKeepSound(source: Source, changes: seq<Record>, held: Held, reached: Stamp,
      missed: set<Record>)
    requires Sound(source, held, reached, missed)
    ensures Sound(ChangedAll(source, changes), held, reached, missed + MissedAll(held, reached, changes))
    decreases |changes|
  {
    hide Sound, Changed, MissedBy;
    if changes == [] {
      assert missed + {} == missed;
    } else {
      ChangeKeepsSound(source, changes[0], held, reached, missed);
      var missed' := missed + MissedBy(held, reached, changes[0]);
      ChangesKeepSound(Changed(source, changes[0]), changes[1..], held, reached, missed');
      assert missed' + MissedAll(held, reached, changes[1..]) == missed + MissedAll(held, reached, changes);
    }
  }

  lemma QuietChangesNothing(source: Source, held: Held, reached: Stamp)
    ensures ChangedAll(source, QUIET.changes) == source && MissedAll(held, reached, QUIET.changes) == {}
  {
  }

  /** Changes stamped later than all before are later than the cursor. */
  lemma {:induction false} IncreasingIsNotMissed(source: Source, changes: seq<Record>, held: Held, reached: Stamp,
      missed: set<Record>)
    requires Sound(source, held, reached, missed) && AreIncreasing(source.latest, changes)
    ensures MissedAll(held, reached, changes) == {}
    ensures ChangedAll(source, changes).latest == LatestOf(source.latest, changes)
    decreases |changes|
  {
    if changes != [] {
      hide Without, Insert;
      ChangeKeepsSound(source, changes[0], held, reached, missed);
      assert MissedBy(held, reached, changes[0]) == {} && missed + {} == missed;
      IncreasingIsNotMissed(Changed(source, changes[0]), changes[1..], held, reached, missed);
    }
  }

  /** The records after a stamp are a tail of the sorted records, and the ones before it the rest. */
  lemma {:induction false} ChangedAfterIsATail(records: seq<Record>, stamp: Stamp) returns (k: nat)
    requires Sorted(records)
    ensures k <= |records| && ChangedAfter(records, stamp) == records[k..]
    ensures forall i :: 0 <= i < |records| ==> (i < k <==> AtMost(records[i].stamp, stamp))
  {
    if records == [] || Less(stamp, records[0].stamp) {
      k := 0;
    } else {
      var rest := records[1..];
      assert Sorted(rest);
      var j := ChangedAfterIsATail(rest, stamp);
      k := j + 1;
      forall i | 0 <= i < |records| ensures i < k <==> AtMost(records[i].stamp, stamp) {
        if i > 0 {
          assert records[i] == rest[i - 1];
        }
      }
    }
  }

  lemma {:induction false} TailIsAGoodPage(records: seq<Record>, from: Stamp, k: nat, n: nat)
    requires Sorted(records) && k + n <= |records|
    requires forall i :: 0 <= i < |records| ==> (i < k <==> AtMost(records[i].stamp, from))
    ensures GoodPage(records, from, records[k..k + n])
    decreases n
  {
    if n > 0 {
      var page := records[k..k + n];
      forall r | r in records && AtMost(r.stamp, page[0].stamp) ensures AtMost(r.stamp, from) || r == page[0] {
        var i :| 0 <= i < |records| && records[i] == r;
        assert !(i > k);
      }
      assert page[1..] == records[k + 1..k + 1 + (n - 1)];
      TailIsAGoodPage(records, records[k].stamp, k + 1, n - 1);
    }
  }

  lemma {:induction false} RecordAtIsTheRecord(records: seq<Record>, stamp: Stamp)
    requires exists r <- records :: r.stamp == stamp
    ensures |RecordAt(records, stamp)| == 1
    ensures RecordAt(records, stamp)[0] in records && RecordAt(records, stamp)[0].stamp == stamp
  {
    if records[0].stamp != stamp {
      assert forall r <- records :: r == records[0] || r in records[1..];
      RecordAtIsTheRecord(records[1..], stamp);
    }
  }

  lemma AnswerIsAGoodPage(records: seq<Record>, from: Stamp, turn: Turn)
    requires Sorted(records)
    ensures GoodPage(records, from, Answered(records, from, turn))
  {
    if turn.repeats && exists r <- records :: r.stamp == from {
      RecordAtIsTheRecord(records, from);
      var page := RecordAt(records, from);
      assert page[1..] == [];
    } else {
      var k := ChangedAfterIsATail(records, from);
      var n := PageSize(|records| - k, turn.count);
      assert records[k..][..n] == records[k..k + n];
      TailIsAGoodPage(records, from, k, n);
    }
  }

  lemma NothingLeft(source: Source, held: Held, reached: Stamp, turn: Turn, missed: set<Record>)
    requires Sound(source, held, reached, missed) && Answered(source.records, reached, turn) == []
    ensures forall r <- source.records :: IsHeld(held, r) <==> r !in missed
  {
    if turn.repeats && exists r <- source.records :: r.stamp == reached {
      RecordAtIsTheRecord(source.records, reached);
    } else {
      var k := ChangedAfterIsATail(source.records, reached);
      assert k == |source.records|;
    }
  }

  /** A record that changes with a stamp no later than the cursor is not listed, by this listing or any later one. */
  lemma LateChangeIsMissed()
    ensures var first, late := Record(Stamp(5, 1), "a"), Record(Stamp(3, 2), "b");
            var source, held := Source([first], first.stamp), map[1 := first];
            var after := Changed(source, late);
            && Sound(source, held, first.stamp, {}) && Sound(after, held, first.stamp, {late})
            && late in after.records && !IsHeld(held, late) && Answered(after.records, first.stamp, QUIET) == []
  {
    var first, late := Record(Stamp(5, 1), "a"), Record(Stamp(3, 2), "b");
    var source, held := Source([first], first.stamp), map[1 := first];
    var after := Changed(source, late);
    assert [first][1..] == [] && Without([first], 2) == [first];
    assert after.records == [late, first] && [late, first][1..] == [first];
    assert after.records[1..] == [first] && ChangedAfter([first], first.stamp) == [];
    assert ChangedAfter(after.records, first.stamp) == ChangedAfter(after.records[1..], first.stamp);
    assert Sound(source, held, first.stamp, {});
    ChangeKeepsSound(source, late, held, first.stamp, {});
    assert {} + MissedBy(held, first.stamp, late) == {late};
  }

  lemma QuietAnswerGoesOn(records: seq<Record>, from: Cursor, reached: Cursor)
    requires Sorted(records)
    requires var page := Answered(records, Asked(from), QUIET); page != [] && reached == Some(page[|page| - 1].stamp)
    ensures Asked(reached) != Asked(from)
  {
    var k := ChangedAfterIsATail(records, Asked(from));
  }

  lemma {:induction false} LastOfAGoodPage(records: seq<Record>, from: Stamp, page: seq<Record>)
    requires GoodPage(records, from, page) && page != []
    ensures page[|page| - 1] in records && AtMost(from, page[|page| - 1].stamp)
    decreases |page|
  {
    if |page| > 1 {
      LastOfAGoodPage(records, page[0].stamp, page[1..]);
      assert page[1..][|page| - 2] == page[|page| - 1];
    }
  }

  /** A page that moves the cursor leaves fewer records after it. */
  lemma FewerLeft(records: seq<Record>, from: Stamp, page: seq<Record>)
    requires Sorted(records) && GoodPage(records, from, page) && page != []
    requires page[|page| - 1].stamp != from
    ensures |ChangedAfter(records, page[|page| - 1].stamp)| < |ChangedAfter(records, from)|
  {
    var to := page[|page| - 1];
    LastOfAGoodPage(records, from, page);
    var i :| 0 <= i < |records| && records[i] == to;
    var k := ChangedAfterIsATail(records, from);
    var l := ChangedAfterIsATail(records, to.stamp);
    assert i < l && !(i < k);
  }

  // ----- the refreshes

  const REFRESH_INTERVAL := 5 * 60

  /** A started time of zero means never. */
  datatype Refresh = Refresh(cursor: Cursor, startedAt: int, isRunning: bool, failure: string)

  const NEVER := Refresh(None, 0, false, "")

  type Table = map<string, Refresh>

  function At(table: Table, key: string): Refresh {
    if key in table then table[key] else NEVER
  }

  predicate IsDue(refresh: Refresh, now: int) {
    !refresh.isRunning && (refresh.startedAt == 0 || now - refresh.startedAt >= REFRESH_INTERVAL)
  }

  class RecordIndexRefreshes {
    var byRequester: Table

    constructor ()
      ensures byRequester == map[]
    {
      byRequester := map[];
    }

    method Begin(key: string, now: int) returns (cursor: Cursor, isDue: bool, failure: string)
      modifies this
      ensures isDue == IsDue(old(At(byRequester, key)), now)
      ensures failure == old(At(byRequester, key)).failure
      ensures isDue ==> cursor == old(At(byRequester, key)).cursor
      ensures byRequester == Begun(old(byRequester), key, now)
    {
      if key !in byRequester {
        byRequester := byRequester[key := NEVER];
      }
      var refresh := byRequester[key];
      failure := refresh.failure;
      refresh := refresh.(failure := "");
      byRequester := byRequester[key := refresh];
      if refresh.isRunning || (refresh.startedAt != 0 && now - refresh.startedAt < REFRESH_INTERVAL) {
        return None, false, failure;
      }
      refresh := refresh.(isRunning := true, startedAt := now);
      byRequester := byRequester[key := refresh];
      return refresh.cursor, true, failure;
    }

    method Finish(key: string, reached: Cursor, failure: string)
      requires key in byRequester
      modifies this
      ensures byRequester == Finished(old(byRequester), key, reached, failure)
    {
      var refresh := byRequester[key].(isRunning := false, cursor := reached);
      if failure != "" {
        refresh := refresh.(failure := failure);
      }
      byRequester := byRequester[key := refresh];
    }
  }

  function Begun(table: Table, key: string, now: int): Table {
    var asked := At(table, key).(failure := "");
    table[key := if IsDue(asked, now) then asked.(isRunning := true, startedAt := now) else asked]
  }

  function Finished(table: Table, key: string, reached: Cursor, failure: string): Table {
    var refresh := At(table, key);
    var told := if failure == "" then refresh.failure else failure;
    table[key := refresh.(isRunning := false, cursor := reached, failure := told)]
  }

  /** A refresh as the tool catalog runs it, the listing in full before anything else. */
  class RefreshedIndex {
    var refreshes: RecordIndexRefreshes
    var catalog: Catalog
    const key: string

    ghost predicate Valid()
      reads this, refreshes, catalog
    {
      && !At(refreshes.byRequester, key).isRunning
      && Sound(catalog.source, catalog.held, Asked(At(refreshes.byRequester, key).cursor), catalog.missed)
    }

    constructor (key: string, source: Source, script: seq<Turn>)
      requires GoodSource(source)
      ensures Valid() && fresh(refreshes) && fresh(catalog)
    {
      this.key := key;
      refreshes := new RecordIndexRefreshes();
      catalog := new Catalog(source, script);
    }

    method SourceChanges(change: Record)
      requires Valid()
      modifies catalog
      ensures Valid() && catalog.source == Changed(old(catalog.source), change)
      ensures catalog.held == old(catalog.held) && catalog.script == old(catalog.script)
      ensures catalog.missed ==
              old(catalog.missed) + MissedBy(catalog.held, Asked(At(refreshes.byRequester, key).cursor), change)
    {
      ghost var reached := Asked(At(refreshes.byRequester, key).cursor);
      ChangeKeepsSound(catalog.source, change, catalog.held, reached, catalog.missed);
      catalog.source := Changed(catalog.source, change);
      catalog.missed := catalog.missed + MissedBy(catalog.held, reached, change);
    }

    /** Refresh after refresh, failing ones too, the next goes on where nothing is missing but what was missed. */
    method RefreshRecordIndex(now: int, failureText: string) returns (failure: string)
      requires Valid() && failureText != ""
      modifies refreshes, catalog
      ensures Valid() && failure == old(At(refreshes.byRequester, key)).failure
      ensures AtMost(Asked(old(At(refreshes.byRequester, key)).cursor), Asked(At(refreshes.byRequester, key).cursor))
      ensures IsDue(old(At(refreshes.byRequester, key)), now) && At(refreshes.byRequester, key).failure == "" ==>
                forall r <- catalog.source.records :: IsHeld(catalog.held, r) <==> r !in catalog.missed
      ensures !IsDue(old(At(refreshes.byRequester, key)), now) ==>
                catalog.source == old(catalog.source) && catalog.held == old(catalog.held) &&
                catalog.missed == old(catalog.missed)
      ensures IsIncreasing(old(catalog.source).latest, old(catalog.script)) ==> catalog.missed == old(catalog.missed)
    {
      hide Sound, AtMost;
      AtMostIsReflexive(Asked(At(refreshes.byRequester, key).cursor));
      var cursor, isDue, reported := refreshes.Begin(key, now);
      if !isDue {
        return reported;
      }
      var reached, ok := catalog.ListIntoRecordIndex(cursor);
      refreshes.Finish(key, reached, if ok then "" else failureText);
      return reported;
    }
  }

  // ----- every interleaving of begins and finishes

  datatype Call = Begin(key: string, now: int) | Finish(key: string, reached: Cursor, failure: string)

  /** `listings` are the listings that were begun and have not finished. */
  datatype State = State(table: Table, listings: multiset<string>)

  predicate Starts(s: State, call: Call) {
    call.Begin? && IsDue(At(s.table, call.key), call.now)
  }

  predicate Enabled(s: State, call: Call) {
    call.Finish? ==> call.key in s.listings
  }

  function Next(s: State, call: Call): State {
    match call
    case Begin(key, now) =>
      State(Begun(s.table, key, now), if Starts(s, call) then s.listings + multiset{key} else s.listings)
    case Finish(key, reached, failure) =>
      State(Finished(s.table, key, reached, failure), s.listings - multiset{key})
  }

  /** `states[i]` is where `calls[i]` happens. */
  ghost predicate Run(states: seq<State>, calls: seq<Call>) {
    && |states| == |calls| + 1 && states[0] == State(map[], multiset{})
    && forall i :: 0 <= i < |calls| ==> Enabled(states[i], calls[i]) && states[i + 1] == Next(states[i], calls[i])
  }

  /** At most one listing per key runs at a time, and the table knows which. */
  lemma {:induction false} OneListingPerKey(states: seq<State>, calls: seq<Call>, k: nat, key: string)
    requires Run(states, calls) && k < |states|
    ensures states[k].listings[key] == if At(states[k].table, key).isRunning then 1 else 0
  {
    if k > 0 {
      OneListingPerKey(states, calls, k - 1, key);
    }
  }

  /** The call at `i` begins a listing of the key. */
  ghost predicate BeginsAListing(states: seq<State>, calls: seq<Call>, i: nat, key: string) {
    && i < |calls| && i + 1 < |states| && calls[i].Begin? && calls[i].key == key
    && states[i + 1].listings[key] == states[i].listings[key] + 1
  }

  ghost predicate ClocksAreNotZero(calls: seq<Call>) {
    forall i :: 0 <= i < |calls| && calls[i].Begin? ==> calls[i].now != 0
  }

  /** The started time is that of the last listing begun, and the times before it are smaller. */
  ghost predicate StartIsTold(states: seq<State>, calls: seq<Call>, k: nat, key: string)
    requires k < |states|
  {
    var startedAt := At(states[k].table, key).startedAt;
    && (startedAt != 0 ==> exists j: nat :: j < k && BeginsAListing(states, calls, j, key) && calls[j].now == startedAt)
    && forall j: nat :: j < k && BeginsAListing(states, calls, j, key) ==> startedAt != 0 && calls[j].now <= startedAt
  }

  lemma StepOfOneKey(s: State, call: Call, key: string)
    requires s.listings[key] == if At(s.table, key).isRunning then 1 else 0
    ensures var t, startedAt := Next(s, call), At(s.table, key).startedAt;
            if call.Begin? && call.key == key && s.listings[key] == 0 && (startedAt == 0 || call.now - startedAt >= 300)
            then t.listings[key] == s.listings[key] + 1 && At(t.table, key).startedAt == call.now
            else t.listings[key] <= s.listings[key] && At(t.table, key).startedAt == startedAt
  {
  }

  lemma {:induction false} StartOfARun(states: seq<State>, calls: seq<Call>, k: nat, key: string)
    requires Run(states, calls) && k < |states| && ClocksAreNotZero(calls)
    ensures StartIsTold(states, calls, k, key)
  {
    if k > 0 {
      var i := k - 1;
      StartOfARun(states, calls, i, key);
      OneListingPerKey(states, calls, i, key);
      StepOfOneKey(states[i], calls[i], key);
      assert states[k] == Next(states[i], calls[i]);
      hide Next, Run;
      OneStartMore(states, calls, i, key);
    }
  }

  lemma OneStartMore(states: seq<State>, calls: seq<Call>, i: nat, key: string)
    requires i < |calls| && i + 1 < |states| && StartIsTold(states, calls, i, key) && ClocksAreNotZero(calls)
    requires var before, after := At(states[i].table, key).startedAt, At(states[i + 1].table, key).startedAt;
             if BeginsAListing(states, calls, i, key) then
               after == calls[i].now && (before == 0 || calls[i].now - before >= 300)
             else after == before
    ensures StartIsTold(states, calls, i + 1, key)
  {
    hide At;
    var startedAt := At(states[i + 1].table, key).startedAt;
    if BeginsAListing(states, calls, i, key) {
      assert calls[i].now == startedAt != 0;
    } else if startedAt != 0 {
      var j: nat :| j < i && BeginsAListing(states, calls, j, key) && calls[j].now == startedAt;
    }
  }

  /**
   In every run, a call begins a listing if and only if no listing of its key runs and every listing of
   the key that was begun before was begun five minutes before, or earlier.
   */
  lemma BeginsAListingIff(states: seq<State>, calls: seq<Call>, i: nat)
    requires Run(states, calls) && i < |calls| && calls[i].Begin? && ClocksAreNotZero(calls)
    ensures BeginsAListing(states, calls, i, calls[i].key) <==>
            && states[i].listings[calls[i].key] == 0
            && forall j: nat ::
                 j < i && BeginsAListing(states, calls, j, calls[i].key) ==> calls[i].now - calls[j].now >= 300
  {
    var key := calls[i].key;
    StartOfARun(states, calls, i, key);
    OneListingPerKey(states, calls, i, key);
    StepOfOneKey(states[i], calls[i], key);
    assert states[i + 1] == Next(states[i], calls[i]);
    hide Next;
  }

  /** Two listings of one key start at least five minutes apart. */
  lemma StartsAreApart(states: seq<State>, calls: seq<Call>, i: nat, j: nat, key: string)
    requires Run(states, calls) && i < j < |calls| && ClocksAreNotZero(calls)
    requires BeginsAListing(states, calls, i, key) && BeginsAListing(states, calls, j, key)
    ensures calls[j].now - calls[i].now >= 300
  {
    hide Run;
    BeginsAListingIff(states, calls, j);
  }

  ghost predicate NoBeginBetween(calls: seq<Call>, i: nat, j: nat, key: string) {
    forall n :: i < n < j && n < |calls| && calls[n].key == key ==> calls[n].Finish?
  }

  /** A failure is reported by the next begin of its key: none is lost or overwritten. */
  lemma {:induction false} FailureIsReportedNext(states: seq<State>, calls: seq<Call>, i: nat, j: nat)
    requires Run(states, calls) && i < j < |states| && calls[i].Finish? && calls[i].failure != ""
    requires NoBeginBetween(calls, i, j, calls[i].key)
    ensures At(states[j].table, calls[i].key).failure == calls[i].failure
    ensures states[j].listings[calls[i].key] == 0
  {
    if j == i + 1 {
      OneListingPerKey(states, calls, i, calls[i].key);
    } else {
      FailureIsReportedNext(states, calls, i, j - 1);
    }
  }

  lemma FailureOfAStep(s: State, call: Call, key: string)
    ensures var failure := At(Next(s, call).table, key).failure;
      || failure == ""
      || (call.Finish? && call.key == key && call.failure == failure)
      || (failure == At(s.table, key).failure && (call.key == key ==> call.Finish?))
  {
  }

  /** What a begin reports is the failure of a listing that finished since the begin before: none is reported twice. */
  lemma {:induction false} ReportCameFromAFinish(states: seq<State>, calls: seq<Call>, j: nat, key: string)
    returns (i: nat)
    requires Run(states, calls) && j < |states| && At(states[j].table, key).failure != ""
    ensures i < j && calls[i].Finish? && calls[i].key == key && calls[i].failure == At(states[j].table, key).failure
    ensures NoBeginBetween(calls, i, j, key)
  {
    hide Next;
    assert j > 0 && states[j] == Next(states[j - 1], calls[j - 1]);
    FailureOfAStep(states[j - 1], calls[j - 1], key);
    if calls[j - 1].Finish? && calls[j - 1].key == key && calls[j - 1].failure == At(states[j].table, key).failure {
      i := j - 1;
    } else {
      i := ReportCameFromAFinish(states, calls, j - 1, key);
    }
  }

  /** A listing starts from where the last one of its key got to. */
  lemma {:induction false} CursorIsCarriedOver(states: seq<State>, calls: seq<Call>, i: nat, j: nat)
    requires Run(states, calls) && i < j < |states| && calls[i].Finish?
    requires forall n :: i < n < j && calls[n].key == calls[i].key ==> calls[n].Begin?
    ensures At(states[j].table, calls[i].key).cursor == calls[i].reached
  {
    if j > i + 1 {
      CursorIsCarriedOver(states, calls, i, j - 1);
    }
  }
}
