/**
 Listings of one source for several requesters, all held in one index. Each has its cursor and
 may be slow with the page it was answered, while others go on and the source changes. Holding a
 record is three steps, as the index locks only each look at its marks: seeing whether this version
 is marked, storing it, and marking it.
 */
module SharedIndex {
  import opened RecordIndex

  /** How far a listing is with the first record of its page. */
  datatype Phase = Next | Checked | Placed

  /** `page` is what was answered and is not held yet. */
  datatype Listing = Listing(cursor: Stamp, page: seq<Record>, phase: Phase)

  /** `given` are all versions of records that the source ever had. */
  datatype Index = Index(
    source: Source, stored: Held, marks: map<nat, Stamp>, listings: seq<Listing>, given: set<Record>)

  /** What a requester sees of a source is settled record by record. */
  type Sight = (nat, nat) -> bool

  function SeenAfter(records: seq<Record>, cursor: Stamp, l: nat, sees: Sight): seq<Record> {
    if records == [] then []
    else
      var rest := SeenAfter(records[1..], cursor, l, sees);
      if Less(cursor, records[0].stamp) && sees(l, records[0].stamp.id) then [records[0]] + rest else rest
  }

  predicate IsMarked(marks: map<nat, Stamp>, r: Record) {
    r.stamp.id in marks && marks[r.stamp.id] == r.stamp
  }

  function With(s: Index, l: nat, listing: Listing): Index
    requires l < |s.listings|
  {
    s.(listings := s.listings[l := listing])
  }

  /** The listing is done with the first record of its page. */
  function Passing(s: Index, l: nat): Index
    requires l < |s.listings| && s.listings[l].page != []
  {
    With(s, l, Listing(s.listings[l].page[0].stamp, s.listings[l].page[1..], Next))
  }

  /** A listing that gives up may do so after a store that was done and still reported a failure. */
  datatype Move = Change(record: Record) | Ask(l: nat, count: nat) | Check(l: nat) | Store(l: nat) | Mark(l: nat)
                | GiveUp(l: nat)

  predicate IsAt(s: Index, l: nat, phase: Phase) {
    l < |s.listings| && s.listings[l].page != [] && s.listings[l].phase == phase
  }

  predicate CanMove(s: Index, move: Move) {
    match move
    case Change(record) => record.stamp.id != 0 && Less(s.source.latest, record.stamp)
    case Ask(l, _) => l < |s.listings| && s.listings[l].page == []
    case Check(l) => IsAt(s, l, Next)
    case Store(l) => IsAt(s, l, Checked)
    case Mark(l) => IsAt(s, l, Placed)
    case GiveUp(l) => l < |s.listings|
  }

  function Moved(s: Index, move: Move, sees: Sight): Index
    requires CanMove(s, move)
  {
    match move
    case Change(record) => s.(source := Changed(s.source, record), given := s.given + {record})
    case Ask(l, count) =>
      var seen := SeenAfter(s.source.records, s.listings[l].cursor, l, sees);
      With(s, l, Listing(s.listings[l].cursor, seen[..PageSize(|seen|, count)], Next))
    case Check(l) =>
      if IsMarked(s.marks, s.listings[l].page[0]) then Passing(s, l)
      else With(s, l, s.listings[l].(phase := Checked))
    case Store(l) =>
      var next := s.listings[l].page[0];
      With(s.(stored := s.stored[next.stamp.id := next]), l, s.listings[l].(phase := Placed))
    case Mark(l) =>
      var next := s.listings[l].page[0];
      Passing(s.(marks := s.marks[next.stamp.id := next.stamp]), l)
    case GiveUp(l) => With(s, l, Listing(s.listings[l].cursor, [], Next))
  }

  ghost predicate Moves(s: Index, moves: seq<Move>, t: Index, sees: Sight)
    decreases |moves|
  {
    if moves == [] then s == t else CanMove(s, moves[0]) && Moves(Moved(s, moves[0], sees), moves[1..], t, sees)
  }

  /**
   A good source, nothing marked, and listings that have yet to begin; an earlier process may have
   stored anything.
   */
  ghost predicate Begins(s: Index) {
    && GoodSource(s.source) && s.marks == map[] && s.given == (set r <- s.source.records)
    && (forall r <- s.source.records :: r.stamp.id != 0)
    && forall l :: 0 <= l < |s.listings| ==> s.listings[l] == Listing(EARLIEST_CHANGE, [], Next)
  }

  // ----- what every run keeps

  /** Stamps are given once, and the source has the last version of each record. */
  ghost predicate VersionsAreTold(s: Index) {
    && (forall v <- s.given :: v.stamp.id != 0 && AtMost(v.stamp, s.source.latest))
    && (forall v <- s.given, w <- s.given :: v.stamp == w.stamp ==> v == w)
    && (forall r <- s.source.records :: r in s.given)
    && (forall r <- s.source.records, v <- s.given :: v.stamp.id == r.stamp.id ==> AtMost(v.stamp, r.stamp))
  }

  /** The page goes on from the cursor in order, and leaves out nothing the listing sees on the way. */
  ghost predicate PageIsOn(s: Index, l: nat, sees: Sight)
    requires l < |s.listings|
  {
    var cursor, page := s.listings[l].cursor, s.listings[l].page;
    && AtMost(cursor, s.source.latest) && Sorted(page)
    && (forall r <- page :: Less(cursor, r.stamp) && r in s.given && sees(l, r.stamp.id))
    && (page != [] ==> HoldsAllUpToItsLast(s.source.records, cursor, l, page, sees))
  }

  ghost predicate HoldsAllUpToItsLast(records: seq<Record>, cursor: Stamp, l: nat, page: seq<Record>, sees: Sight)
    requires page != []
  {
    forall r <- records ::
      sees(l, r.stamp.id) && Less(cursor, r.stamp) && AtMost(r.stamp, page[|page| - 1].stamp) ==> r in page
  }

  /** Some listing sees the record, and all that do have come past it. */
  ghost predicate AllArePast(s: Index, r: Record, sees: Sight) {
    && (exists l :: 0 <= l < |s.listings| && sees(l, r.stamp.id))
    && (forall l :: 0 <= l < |s.listings| && sees(l, r.stamp.id) ==> AtMost(r.stamp, s.listings[l].cursor))
  }

  ghost predicate Inv(s: Index, sees: Sight) {
    && GoodSource(s.source) && VersionsAreTold(s)
    && (forall l :: 0 <= l < |s.listings| ==> PageIsOn(s, l, sees))
    && (forall r <- s.source.records :: AllArePast(s, r, sees) ==> IsMarked(s.marks, r))
  }

  lemma BeginsInv(s: Index, sees: Sight)
    requires Begins(s)
    ensures Inv(s, sees)
  {
    forall r | r in s.source.records ensures !AllArePast(s, r, sees) {
      assert forall l :: 0 <= l < |s.listings| ==> Less(s.listings[l].cursor, r.stamp);
    }
  }

  lemma ChangeKeepsVersions(s: Index, record: Record, sees: Sight)
    requires Inv(s, sees) && CanMove(s, Change(record))
    ensures var t := Moved(s, Change(record), sees);
            GoodSource(t.source) && VersionsAreTold(t) && t.source.latest == record.stamp
    ensures forall r <- Moved(s, Change(record), sees).source.records :: r == record || r in s.source.records
  {
    hide Sorted, Without, Insert, PageIsOn, AllArePast;
    ChangeKeepsGoodSource(s.source, record);
  }

  lemma ChangeKeepsPage(s: Index, record: Record, sees: Sight, l: nat)
    requires Inv(s, sees) && CanMove(s, Change(record)) && l < |s.listings|
    ensures PageIsOn(Moved(s, Change(record), sees), l, sees) && Less(s.listings[l].cursor, record.stamp)
  {
    ChangeKeepsVersions(s, record, sees);
    assert PageIsOn(s, l, sees) && VersionsAreTold(s);
    hide Sorted, Changed, AllArePast, VersionsAreTold, GoodSource, HoldsAllUpToItsLast;
    var t, cursor, page := Moved(s, Change(record), sees), s.listings[l].cursor, s.listings[l].page;
    LaterThanTheLatest(cursor, s.source.latest, record.stamp);
    if page != [] {
      var last := page[|page| - 1];
      assert last in page;
      GivenIsAtMostLatest(s, last);
      LaterThanTheLatest(last.stamp, s.source.latest, record.stamp);
      AddedIsBeyond(s.source.records, t.source.records, record, cursor, l, page, sees);
    }
  }

  lemma LaterThanTheLatest(a: Stamp, latest: Stamp, b: Stamp)
    requires AtMost(a, latest) && Less(latest, b)
    ensures Less(a, b) && AtMost(a, b)
  {
  }

  lemma AddedIsBeyond(records: seq<Record>, records': seq<Record>, record: Record, cursor: Stamp, l: nat,
      page: seq<Record>, sees: Sight)
    requires page != [] && HoldsAllUpToItsLast(records, cursor, l, page, sees)
    requires Less(page[|page| - 1].stamp, record.stamp)
    requires forall r <- records' :: r == record || r in records
    ensures HoldsAllUpToItsLast(records', cursor, l, page, sees)
  {
  }

  lemma GivenIsAtMostLatest(s: Index, v: Record)
    requires VersionsAreTold(s) && v in s.given
    ensures AtMost(v.stamp, s.source.latest)
  {
  }

  lemma ChangeKeepsInv(s: Index, record: Record, sees: Sight)
    requires Inv(s, sees) && CanMove(s, Change(record))
    ensures Inv(Moved(s, Change(record), sees), sees)
  {
    hide Changed, VersionsAreTold, GoodSource, PageIsOn;
    var t := Moved(s, Change(record), sees);
    ChangeKeepsVersions(s, record, sees);
    forall l | 0 <= l < |t.listings| ensures PageIsOn(t, l, sees) && Less(s.listings[l].cursor, record.stamp) {
      ChangeKeepsPage(s, record, sees, l);
    }
    forall r | r in t.source.records && AllArePast(t, r, sees) ensures IsMarked(t.marks, r) {
      var l :| 0 <= l < |t.listings| && sees(l, r.stamp.id);
      assert r != record;
      assert AllArePast(s, r, sees);
    }
  }

  lemma {:induction false} SeenAfterHolds(records: seq<Record>, cursor: Stamp, l: nat, sees: Sight)
    requires Sorted(records)
    ensures var seen := SeenAfter(records, cursor, l, sees);
            && (forall r :: r in seen <==> r in records && Less(cursor, r.stamp) && sees(l, r.stamp.id))
            && Sorted(seen)
  {
    if records != [] {
      var first, rest := records[0], records[1..];
      var seen := SeenAfter(rest, cursor, l, sees);
      FirstIsLeast(records);
      SeenAfterHolds(rest, cursor, l, sees);
      assert records == [first] + rest;
      hide Sorted, Less;
      FirstBeforeSorted(first, seen);
    }
  }

  lemma FirstIsLeast(records: seq<Record>)
    requires Sorted(records) && records != []
    ensures Sorted(records[1..]) && forall r <- records[1..] :: Less(records[0].stamp, r.stamp)
  {
  }

  lemma FirstBeforeSorted(first: Record, records: seq<Record>)
    requires Sorted(records) && forall r <- records :: Less(first.stamp, r.stamp)
    ensures Sorted([first] + records)
  {
  }

  lemma PrefixHoldsUpToItsLast(seen: seq<Record>, n: nat, r: Record)
    requires Sorted(seen) && 0 < n <= |seen| && r in seen && AtMost(r.stamp, seen[n - 1].stamp)
    ensures r in seen[..n]
  {
    var i :| 0 <= i < |seen| && seen[i] == r;
    assert i < n;
    assert seen[..n][i] == r;
  }

  /** An answer is in order, holds only what is seen after the cursor, and all of it up to its last. */
  lemma AnswerGoesOn(records: seq<Record>, cursor: Stamp, l: nat, count: nat, sees: Sight, page: seq<Record>)
    requires Sorted(records)
    requires var seen := SeenAfter(records, cursor, l, sees); page == seen[..PageSize(|seen|, count)]
    ensures Sorted(page) && forall r <- page :: r in records && Less(cursor, r.stamp) && sees(l, r.stamp.id)
    ensures page != [] ==> HoldsAllUpToItsLast(records, cursor, l, page, sees)
  {
    hide SeenAfter, Less;
    var seen := SeenAfter(records, cursor, l, sees);
    SeenAfterHolds(records, cursor, l, sees);
    assert forall r <- page :: r in seen;
    if page != [] {
      forall r | r in records && sees(l, r.stamp.id) && Less(cursor, r.stamp) && AtMost(r.stamp, page[|page| - 1].stamp)
        ensures r in page
      {
        PrefixHoldsUpToItsLast(seen, |page|, r);
      }
    }
  }

  lemma AskedPageIsOn(s: Index, l: nat, count: nat, sees: Sight)
    requires Inv(s, sees) && CanMove(s, Ask(l, count))
    ensures PageIsOn(Moved(s, Ask(l, count), sees), l, sees)
  {
    assert PageIsOn(s, l, sees) && Sorted(s.source.records) && VersionsAreTold(s);
    hide SeenAfter, AllArePast, GoodSource, Sorted, HoldsAllUpToItsLast, Less, PageSize;
    var t := Moved(s, Ask(l, count), sees);
    AnswerGoesOn(s.source.records, s.listings[l].cursor, l, count, sees, t.listings[l].page);
  }

  lemma OthersAreAsBefore(s: Index, t: Index, l: nat, sees: Sight)
    requires Inv(s, sees) && t.source == s.source && t.given == s.given && |t.listings| == |s.listings|
    requires l < |t.listings| && PageIsOn(t, l, sees)
    requires forall k :: 0 <= k < |s.listings| && k != l ==> t.listings[k] == s.listings[k]
    ensures forall k :: 0 <= k < |t.listings| ==> PageIsOn(t, k, sees)
  {
    forall k | 0 <= k < |t.listings| ensures PageIsOn(t, k, sees) {
      if k != l {
        assert PageIsOn(s, k, sees);
      }
    }
  }

  /** A move of one listing that leaves its cursor where it is. */
  lemma StayingKeepsInv(s: Index, t: Index, l: nat, sees: Sight)
    requires Inv(s, sees) && t.source == s.source && t.given == s.given && t.marks == s.marks
    requires l < |s.listings| == |t.listings| && t.listings == s.listings[l := t.listings[l]] && PageIsOn(t, l, sees)
    requires t.listings[l].cursor == s.listings[l].cursor
    ensures Inv(t, sees)
  {
    OthersAreAsBefore(s, t, l, sees);
    hide PageIsOn, GoodSource;
    forall r | r in t.source.records && AllArePast(t, r, sees) ensures IsMarked(t.marks, r) {
      assert AllArePast(s, r, sees);
    }
  }

  lemma NextIsTheLeast(page: seq<Record>, r: Record)
    requires Sorted(page) && r in page
    ensures AtMost(page[0].stamp, r.stamp) && AtMost(r.stamp, page[|page| - 1].stamp)
  {
  }

  lemma RestIsLater(page: seq<Record>)
    requires Sorted(page) && page != []
    ensures Sorted(page[1..]) && forall r :: r in page[1..] <==> r in page && Less(page[0].stamp, r.stamp)
  {
    var rest := page[1..];
    assert page == [page[0]] + rest;
    forall i, j | 0 <= i < j < |rest| ensures Less(rest[i].stamp, rest[j].stamp) {
      assert rest[i] == page[i + 1] && rest[j] == page[j + 1];
    }
    forall r | r in rest ensures Less(page[0].stamp, r.stamp) {
      var i :| 0 <= i < |rest| && rest[i] == r;
      assert page[i + 1] == r;
    }
  }

  lemma RestOfPage(s: Index, t: Index, l: nat, sees: Sight)
    requires Inv(s, sees) && l < |s.listings| && s.listings[l].page != [] && t == Passing(s, l)
    ensures PageIsOn(t, l, sees)
  {
    assert PageIsOn(s, l, sees) && VersionsAreTold(s);
    hide Sorted, AllArePast, GoodSource, VersionsAreTold;
    var page := s.listings[l].page;
    RestIsLater(page);
    assert page[0] in page;
    GivenIsAtMostLatest(s, page[0]);
    if |page| > 1 {
      assert page[1..][|page| - 2] == page[|page| - 1];
    }
  }

  /** A record that all have come past once this listing has passed its next one was passed already, or is that one. */
  lemma PastAfterPassing(s: Index, l: nat, r: Record, sees: Sight)
    requires Inv(s, sees) && l < |s.listings| && s.listings[l].page != [] && r in s.source.records
    requires AllArePast(Passing(s, l), r, sees)
    ensures r == s.listings[l].page[0] || (AllArePast(s, r, sees) && r.stamp.id != s.listings[l].page[0].stamp.id)
  {
    var t, next := Passing(s, l), s.listings[l].page[0];
    assert PageIsOn(s, l, sees);
    assert next in s.listings[l].page;
    if r.stamp.id == next.stamp.id {
      assert AtMost(r.stamp, t.listings[l].cursor);
    } else if sees(l, r.stamp.id) && Less(s.listings[l].cursor, r.stamp) {
      assert AtMost(r.stamp, t.listings[l].cursor);
      NextIsTheLeast(s.listings[l].page, r);
    } else {
      forall k | 0 <= k < |s.listings| && sees(k, r.stamp.id) ensures AtMost(r.stamp, s.listings[k].cursor) {
        assert k != l ==> t.listings[k] == s.listings[k];
      }
    }
  }

  /** A listing passes a record that is marked, before it or by it. */
  lemma PassingKeepsInv(s: Index, marks: map<nat, Stamp>, l: nat, sees: Sight)
    requires Inv(s, sees) && l < |s.listings| && s.listings[l].page != [] && IsMarked(marks, s.listings[l].page[0])
    requires forall id <- s.marks :: id in marks && (id == s.listings[l].page[0].stamp.id || marks[id] == s.marks[id])
    ensures Inv(Passing(s.(marks := marks), l), sees)
  {
    var u, t := Passing(s, l), Passing(s.(marks := marks), l);
    assert t == u.(marks := marks);
    RestOfPage(s, u, l, sees);
    assert PageIsOn(t, l, sees) && VersionsAreTold(t);
    OthersAreAsBefore(s, t, l, sees);
    hide PageIsOn, VersionsAreTold, GoodSource;
    forall r | r in t.source.records && AllArePast(t, r, sees) ensures IsMarked(marks, r) {
      assert AllArePast(u, r, sees);
      PastAfterPassing(s, l, r, sees);
    }
  }

  lemma MoveKeepsInv(s: Index, move: Move, sees: Sight)
    requires Inv(s, sees) && CanMove(s, move)
    ensures Inv(Moved(s, move, sees), sees)
  {
    var t := Moved(s, move, sees);
    assert move.Change? || PageIsOn(s, move.l, sees);
    hide Inv;
    match move
    case Change(record) => ChangeKeepsInv(s, record, sees);
    case Ask(l, count) => AskedPageIsOn(s, l, count, sees); StayingKeepsInv(s, t, l, sees);
    case Check(l) =>
      if IsMarked(s.marks, s.listings[l].page[0]) {
        PassingKeepsInv(s, s.marks, l, sees);
      } else {
        StayingKeepsInv(s, t, l, sees);
      }
    case Store(l) => StayingKeepsInv(s, t, l, sees);
    case Mark(l) => PassingKeepsInv(s, t.marks, l, sees);
    case GiveUp(l) => StayingKeepsInv(s, t, l, sees);
  }

  lemma {:induction false} MovesKeepInv(s: Index, moves: seq<Move>, t: Index, sees: Sight)
    requires Inv(s, sees) && Moves(s, moves, t, sees)
    ensures Inv(t, sees)
    decreases |moves|
  {
    hide Inv, Moved;
    if moves != [] {
      MoveKeepsInv(s, moves[0], sees);
      MovesKeepInv(Moved(s, moves[0], sees), moves[1..], t, sees);
    }
  }

  /**
   However listings, failures and changes interleave, a record that some requester sees is marked as it
   is once every listing that sees it has come past it.
   */
  lemma PassedByAllIsMarked(s: Index, moves: seq<Move>, t: Index, sees: Sight, r: Record)
    requires Begins(s) && Moves(s, moves, t, sees) && r in t.source.records && AllArePast(t, r, sees)
    ensures IsMarked(t.marks, r)
  {
    BeginsInv(s, sees);
    MovesKeepInv(s, moves, t, sees);
  }

  /** Everything that all who see it have come past is stored as it is. */
  ghost predicate HoldsWhatAllPassed(s: Index, sees: Sight) {
    forall r <- s.source.records :: AllArePast(s, r, sees) ==> IsHeld(s.stored, r)
  }

  // ----- stores of one record that are kept apart

  ghost predicate IsPlaced(s: Index, l: nat, id: nat) {
    IsAt(s, l, Placed) && s.listings[l].page[0].stamp.id == id
  }

  /**
   A listing does not store a record while another is between storing and marking it, and does not give
   up between the two.
   */
  ghost predicate IsApart(s: Index, move: Move)
    requires CanMove(s, move)
  {
    match move
    case Store(l) => forall k: nat :: k != l ==> !IsPlaced(s, k, s.listings[l].page[0].stamp.id)
    case GiveUp(l) => !IsAt(s, l, Placed)
    case _ => true
  }

  ghost predicate AreApart(s: Index, moves: seq<Move>, sees: Sight)
    decreases |moves|
  {
    moves != [] && CanMove(s, moves[0]) ==> IsApart(s, moves[0]) && AreApart(Moved(s, moves[0], sees), moves[1..], sees)
  }

  ghost predicate PlacedIsStored(s: Index, l: nat) {
    IsAt(s, l, Placed) ==> IsHeld(s.stored, s.listings[l].page[0])
  }

  /** What is marked is stored, unless a version is placed that is not marked yet. */
  ghost predicate MarkAgrees(s: Index, id: nat)
    requires id in s.marks
  {
    && id in s.stored && s.stored[id] in s.given
    && (s.stored[id].stamp == s.marks[id] || exists l: nat :: IsPlaced(s, l, id))
  }

  ghost predicate MarksAgree(s: Index) {
    (forall l: nat :: PlacedIsStored(s, l)) && (forall id <- s.marks :: MarkAgrees(s, id))
  }

  /** A move of a listing that has nothing placed before or after. */
  lemma QuietKeepsMarks(s: Index, t: Index, l: nat)
    requires MarksAgree(s) && l < |s.listings| && !IsAt(s, l, Placed) && !IsAt(t, l, Placed)
    requires t == s.(listings := t.listings) && |t.listings| == |s.listings|
    requires forall k :: 0 <= k < |s.listings| && k != l ==> t.listings[k] == s.listings[k]
    ensures MarksAgree(t)
  {
    forall k: nat ensures PlacedIsStored(t, k) {
      assert PlacedIsStored(s, k);
    }
    forall id | id in t.marks ensures MarkAgrees(t, id) {
      assert MarkAgrees(s, id);
      if s.stored[id].stamp != s.marks[id] {
        var k: nat :| IsPlaced(s, k, id);
        assert IsPlaced(t, k, id);
      }
    }
  }

  lemma StoreKeepsMarks(s: Index, l: nat, sees: Sight)
    requires Inv(s, sees) && MarksAgree(s) && CanMove(s, Store(l)) && IsApart(s, Store(l))
    ensures MarksAgree(Moved(s, Store(l), sees))
  {
    var t, next := Moved(s, Store(l), sees), s.listings[l].page[0];
    PlacedIsAhead(s, l, sees);
    hide Inv;
    forall k: nat ensures PlacedIsStored(t, k) {
      if k != l && IsAt(t, k, Placed) {
        assert PlacedIsStored(s, k) && !IsPlaced(s, k, next.stamp.id);
      }
    }
    forall id | id in t.marks ensures MarkAgrees(t, id) {
      assert MarkAgrees(s, id);
      if id == next.stamp.id {
        assert IsPlaced(t, l, id);
      } else if s.stored[id].stamp != s.marks[id] {
        var k: nat :| IsPlaced(s, k, id);
        assert IsPlaced(t, k, id);
      }
    }
  }

  lemma MarkKeepsMarks(s: Index, l: nat, sees: Sight)
    requires Inv(s, sees) && MarksAgree(s) && CanMove(s, Mark(l))
    ensures MarksAgree(Moved(s, Mark(l), sees))
  {
    var t, next := Moved(s, Mark(l), sees), s.listings[l].page[0];
    PlacedIsAhead(s, l, sees);
    hide Inv;
    assert PlacedIsStored(s, l);
    forall k: nat ensures PlacedIsStored(t, k) {
      assert PlacedIsStored(s, k);
    }
    forall id | id in t.marks ensures MarkAgrees(t, id) {
      if id != next.stamp.id {
        assert MarkAgrees(s, id);
        if s.stored[id].stamp != s.marks[id] {
          var k: nat :| IsPlaced(s, k, id);
          assert IsPlaced(t, k, id);
        }
      }
    }
  }

  lemma ApartKeepsMarks(s: Index, move: Move, sees: Sight)
    requires Inv(s, sees) && MarksAgree(s) && CanMove(s, move) && IsApart(s, move)
    ensures MarksAgree(Moved(s, move, sees))
  {
    hide Inv;
    if move.Store? {
      StoreKeepsMarks(s, move.l, sees);
    } else if move.Mark? {
      MarkKeepsMarks(s, move.l, sees);
    } else if move.Change? {
      hide Changed;
      var t := Moved(s, move, sees);
      forall l: nat ensures PlacedIsStored(t, l) {
        assert PlacedIsStored(s, l);
      }
      forall id | id in t.marks ensures MarkAgrees(t, id) {
        assert MarkAgrees(s, id);
        if s.stored[id].stamp != s.marks[id] {
          var k: nat :| IsPlaced(s, k, id);
          assert IsPlaced(t, k, id);
        }
      }
    } else {
      hide SeenAfter, PageSize, MarksAgree;
      QuietKeepsMarks(s, Moved(s, move, sees), move.l);
    }
  }

  lemma {:induction false} ApartMovesKeepMarks(s: Index, moves: seq<Move>, t: Index, sees: Sight)
    requires Inv(s, sees) && MarksAgree(s) && Moves(s, moves, t, sees) && AreApart(s, moves, sees)
    ensures MarksAgree(t)
    decreases |moves|
  {
    hide Inv, Moved, MarksAgree, IsApart;
    if moves != [] {
      MoveKeepsInv(s, moves[0], sees);
      ApartKeepsMarks(s, moves[0], sees);
      ApartMovesKeepMarks(Moved(s, moves[0], sees), moves[1..], t, sees);
    }
  }

  lemma PlacedIsAhead(s: Index, l: nat, sees: Sight)
    requires Inv(s, sees) && l < |s.listings| && s.listings[l].page != []
    ensures var next := s.listings[l].page[0];
            next in s.given && sees(l, next.stamp.id) && Less(s.listings[l].cursor, next.stamp)
  {
    assert PageIsOn(s, l, sees) && s.listings[l].page[0] in s.listings[l].page;
  }

  lemma AgreeingMarksHold(s: Index, sees: Sight, r: Record)
    requires Inv(s, sees) && MarksAgree(s) && r in s.source.records && AllArePast(s, r, sees)
    ensures IsHeld(s.stored, r)
  {
    var id := r.stamp.id;
    assert IsMarked(s.marks, r);
    assert MarkAgrees(s, id) && r in s.given;
    if s.stored[id].stamp != r.stamp {
      var l: nat :| IsPlaced(s, l, id);
      PlacedIsAhead(s, l, sees);
      assert false;
    }
  }

  /**
   When stores of one record are kept apart from one another, a record that some requester sees is
   stored as it is once every listing that sees it has come past it.
   */
  lemma PassedByAllIsHeld(s: Index, moves: seq<Move>, t: Index, sees: Sight)
    requires Begins(s) && Moves(s, moves, t, sees) && AreApart(s, moves, sees)
    ensures HoldsWhatAllPassed(t, sees)
  {
    hide Inv, MarksAgree, AllArePast;
    BeginsInv(s, sees);
    assert MarksAgree(s) by { NothingIsMarked(s); }
    MovesKeepInv(s, moves, t, sees);
    ApartMovesKeepMarks(s, moves, t, sees);
    forall r | r in t.source.records && AllArePast(t, r, sees) ensures IsHeld(t.stored, r) {
      AgreeingMarksHold(t, sees, r);
    }
  }

  lemma NothingIsMarked(s: Index)
    requires Begins(s)
    ensures MarksAgree(s)
  {
  }

  /** A version that is not stored though a listing has come past it has still to be come to by another. */
  lemma OverwrittenByALaterComer(s: Index, moves: seq<Move>, t: Index, sees: Sight, r: Record, l: nat) returns (k: nat)
    requires Begins(s) && Moves(s, moves, t, sees) && AreApart(s, moves, sees)
    requires r in t.source.records && !IsHeld(t.stored, r)
    requires l < |t.listings| && sees(l, r.stamp.id) && AtMost(r.stamp, t.listings[l].cursor)
    ensures k < |t.listings| && k != l && sees(k, r.stamp.id) && Less(t.listings[k].cursor, r.stamp)
  {
    PassedByAllIsHeld(s, moves, t, sees);
    assert !AllArePast(t, r, sees);
    k :| 0 <= k < |t.listings| && sees(k, r.stamp.id) && !AtMost(r.stamp, t.listings[k].cursor);
  }

  /** When no listing has anything left to ask for, all have come past everything that they see. */
  lemma NothingLeftIsPast(s: Index, moves: seq<Move>, t: Index, sees: Sight, r: Record)
    requires Begins(s) && Moves(s, moves, t, sees)
    requires forall l :: 0 <= l < |t.listings| ==> SeenAfter(t.source.records, t.listings[l].cursor, l, sees) == []
    requires r in t.source.records && exists l :: 0 <= l < |t.listings| && sees(l, r.stamp.id)
    ensures AllArePast(t, r, sees)
  {
    BeginsInv(s, sees);
    MovesKeepInv(s, moves, t, sees);
    forall l | 0 <= l < |t.listings| && sees(l, r.stamp.id) ensures AtMost(r.stamp, t.listings[l].cursor) {
      SeenAfterHolds(t.source.records, t.listings[l].cursor, l, sees);
      assert r !in SeenAfter(t.source.records, t.listings[l].cursor, l, sees);
    }
  }

  // ----- records that one listing alone sees

  ghost predicate SeenByOne(n: nat, sees: Sight) {
    forall l: nat, k: nat, id: nat :: l < n && k < n && id != 0 && sees(l, id) && sees(k, id) ==> l == k
  }

  /** What is marked is stored, or a later version, and the listing that sees it has come past the mark. */
  ghost predicate MarkIsBehind(s: Index, id: nat, sees: Sight)
    requires id in s.marks
  {
    && id != 0 && id in s.stored && s.stored[id] in s.given && s.stored[id].stamp.id == id
    && AtMost(s.marks[id], s.stored[id].stamp)
    && exists l: nat :: l < |s.listings| && sees(l, id) && AtMost(s.marks[id], s.listings[l].cursor)
  }

  ghost predicate MarksAreBehind(s: Index, sees: Sight) {
    (forall l: nat :: PlacedIsStored(s, l)) && (forall id <- s.marks :: MarkIsBehind(s, id, sees))
  }

  /** A move that stores and marks nothing. */
  lemma QuietKeepsBehind(s: Index, t: Index, l: nat, sees: Sight)
    requires MarksAreBehind(s, sees) && l < |s.listings| && !IsAt(t, l, Placed)
    requires t == s.(listings := t.listings) && |t.listings| == |s.listings|
    requires AtMost(s.listings[l].cursor, t.listings[l].cursor)
    requires forall k :: 0 <= k < |s.listings| && k != l ==> t.listings[k] == s.listings[k]
    ensures MarksAreBehind(t, sees)
  {
    forall k: nat ensures PlacedIsStored(t, k) {
      assert PlacedIsStored(s, k);
    }
    forall id | id in t.marks ensures MarkIsBehind(t, id, sees) {
      assert MarkIsBehind(s, id, sees);
      var k: nat :| k < |s.listings| && sees(k, id) && AtMost(s.marks[id], s.listings[k].cursor);
      assert k < |t.listings| && sees(k, id) && AtMost(t.marks[id], t.listings[k].cursor);
    }
  }

  lemma StoreKeepsBehind(s: Index, l: nat, sees: Sight)
    requires Inv(s, sees) && MarksAreBehind(s, sees) && CanMove(s, Store(l)) && SeenByOne(|s.listings|, sees)
    ensures MarksAreBehind(Moved(s, Store(l), sees), sees)
  {
    var t, next := Moved(s, Store(l), sees), s.listings[l].page[0];
    PlacedIsAhead(s, l, sees);
    assert next.stamp.id != 0;
    forall k: nat ensures PlacedIsStored(t, k) {
      if k != l && IsAt(t, k, Placed) {
        assert PlacedIsStored(s, k);
        PlacedIsAhead(s, k, sees);
        assert s.listings[k].page[0].stamp.id != next.stamp.id;
      }
    }
    forall id | id in t.marks ensures MarkIsBehind(t, id, sees) {
      assert MarkIsBehind(s, id, sees);
      var k: nat :| k < |s.listings| && sees(k, id) && AtMost(s.marks[id], s.listings[k].cursor);
      assert id == next.stamp.id ==> k == l;
      assert k < |t.listings| && sees(k, id) && AtMost(t.marks[id], t.listings[k].cursor);
    }
  }

  lemma MarkKeepsBehind(s: Index, l: nat, sees: Sight)
    requires Inv(s, sees) && MarksAreBehind(s, sees) && CanMove(s, Mark(l))
    ensures MarksAreBehind(Moved(s, Mark(l), sees), sees)
  {
    var t, next := Moved(s, Mark(l), sees), s.listings[l].page[0];
    PlacedIsAhead(s, l, sees);
    assert next.stamp.id != 0 && PlacedIsStored(s, l);
    hide Inv;
    forall k: nat ensures PlacedIsStored(t, k) {
      assert PlacedIsStored(s, k);
    }
    forall id | id in t.marks ensures MarkIsBehind(t, id, sees) {
      if id == next.stamp.id {
        assert l < |t.listings| && sees(l, id) && AtMost(t.marks[id], t.listings[l].cursor);
      } else {
        assert MarkIsBehind(s, id, sees);
        var k: nat :| k < |s.listings| && sees(k, id) && AtMost(s.marks[id], s.listings[k].cursor);
        assert k < |t.listings| && sees(k, id) && AtMost(t.marks[id], t.listings[k].cursor);
      }
    }
  }

  lemma MoveKeepsBehind(s: Index, move: Move, sees: Sight)
    requires Inv(s, sees) && MarksAreBehind(s, sees) && CanMove(s, move) && SeenByOne(|s.listings|, sees)
    ensures MarksAreBehind(Moved(s, move, sees), sees) && |Moved(s, move, sees).listings| == |s.listings|
  {
    if move.Store? {
      StoreKeepsBehind(s, move.l, sees);
    } else if move.Mark? {
      MarkKeepsBehind(s, move.l, sees);
    } else if move.Change? {
      hide Changed, Inv;
      var t := Moved(s, move, sees);
      forall l: nat ensures PlacedIsStored(t, l) {
        assert PlacedIsStored(s, l);
      }
      forall id | id in t.marks ensures MarkIsBehind(t, id, sees) {
        assert MarkIsBehind(s, id, sees);
        var k: nat :| k < |s.listings| && sees(k, id) && AtMost(s.marks[id], s.listings[k].cursor);
        assert k < |t.listings| && sees(k, id) && AtMost(t.marks[id], t.listings[k].cursor);
      }
    } else {
      if s.listings[move.l].page != [] {
        PlacedIsAhead(s, move.l, sees);
      }
      hide SeenAfter, PageSize, MarksAreBehind, Inv;
      QuietKeepsBehind(s, Moved(s, move, sees), move.l, sees);
    }
  }

  lemma {:induction false} MovesKeepBehind(s: Index, moves: seq<Move>, t: Index, sees: Sight)
    requires Inv(s, sees) && MarksAreBehind(s, sees) && Moves(s, moves, t, sees) && SeenByOne(|s.listings|, sees)
    ensures Inv(t, sees) && MarksAreBehind(t, sees)
    decreases |moves|
  {
    hide Inv, Moved, MarksAreBehind, SeenByOne;
    if moves != [] {
      MoveKeepsInv(s, moves[0], sees);
      MoveKeepsBehind(s, moves[0], sees);
      MovesKeepBehind(Moved(s, moves[0], sees), moves[1..], t, sees);
    }
  }

  lemma SeenByOneHolds(s: Index, moves: seq<Move>, t: Index, sees: Sight)
    requires Begins(s) && Moves(s, moves, t, sees) && SeenByOne(|s.listings|, sees)
    ensures HoldsWhatAllPassed(t, sees)
  {
    BeginsInv(s, sees);
    assert MarksAreBehind(s, sees);
    hide SeenByOne, Begins;
    MovesKeepBehind(s, moves, t, sees);
    forall r | r in t.source.records && AllArePast(t, r, sees) ensures IsHeld(t.stored, r) {
      assert IsMarked(t.marks, r) && MarkIsBehind(t, r.stamp.id, sees) && r in t.given;
    }
  }

  // ----- two listings that see one record

  const IDLE := Listing(EARLIEST_CHANGE, [], Next)

  /** Listing `k` is at `x` and `l` at `y`; the others have yet to begin. */
  function Two(n: nat, k: nat, x: Listing, l: nat, y: Listing): seq<Listing>
    requires k < n && l < n && k != l
  {
    seq(n, i => if i == k then x else if i == l then y else IDLE)
  }

  lemma TwoMoved(n: nat, k: nat, x: Listing, l: nat, y: Listing, z: Listing)
    requires k < n && l < n && k != l
    ensures Two(n, k, x, l, y)[k := z] == Two(n, k, z, l, y) && Two(n, k, x, l, y)[l := z] == Two(n, k, x, l, z)
  {
  }

  ghost predicate Leads(s: Index, move: Move, t: Index, sees: Sight) {
    CanMove(s, move) && t == Moved(s, move, sees)
  }

  /** States one after another are a run. */
  lemma {:induction false} StatesAreARun(states: seq<Index>, moves: seq<Move>, sees: Sight)
    requires |states| == |moves| + 1
    requires forall i :: 0 <= i < |moves| ==> Leads(states[i], moves[i], states[i + 1], sees)
    ensures Moves(states[0], moves, states[|moves|], sees)
    decreases |moves|
  {
    hide Moved, CanMove;
    if moves != [] {
      assert Leads(states[0], moves[0], states[1], sees);
      forall i | 0 <= i < |moves[1..]| ensures Leads(states[1..][i], moves[1..][i], states[1..][i + 1], sees) {
        assert Leads(states[i + 1], moves[i + 1], states[i + 2], sees);
      }
      StatesAreARun(states[1..], moves[1..], sees);
    }
  }

  lemma {:induction false} MovesConcat(s: Index, moves: seq<Move>, t: Index, more: seq<Move>, u: Index, sees: Sight)
    requires Moves(s, moves, t, sees) && Moves(t, more, u, sees)
    ensures Moves(s, moves + more, u, sees)
    decreases |moves|
  {
    hide Moved, CanMove;
    if moves == [] {
      assert moves + more == more;
    } else {
      assert (moves + more)[1..] == moves[1..] + more;
      MovesConcat(Moved(s, moves[0], sees), moves[1..], t, more, u, sees);
    }
  }

  lemma OneRecordIsSeen(record: Record, cursor: Stamp, l: nat, sees: Sight)
    requires Less(cursor, record.stamp) && sees(l, record.stamp.id)
    ensures SeenAfter([record], cursor, l, sees) == [record]
  {
    assert [record][1..] == [];
  }

  lemma ReplacedRecord(a: Record, b: Record)
    requires a.stamp.id == b.stamp.id
    ensures Insert(Without([a], b.stamp.id), b) == [b]
  {
    assert [a][1..] == [];
  }

  lemma AskForTheOne(s: Index, l: nat, record: Record, sees: Sight)
    requires CanMove(s, Ask(l, 1)) && s.source.records == [record]
    requires Less(s.listings[l].cursor, record.stamp) && sees(l, record.stamp.id)
    ensures Moved(s, Ask(l, 1), sees) == With(s, l, Listing(s.listings[l].cursor, [record], Next))
  {
    OneRecordIsSeen(record, s.listings[l].cursor, l, sees);
    assert [record][..1] == [record];
  }

  lemma ChangeOfTheOne(s: Index, old': Record, new': Record, sees: Sight)
    requires s.source == Source([old'], old'.stamp) && new'.stamp.id == old'.stamp.id != 0
    requires Less(old'.stamp, new'.stamp)
    ensures Leads(s, Change(new'), s.(source := Source([new'], new'.stamp), given := s.given + {new'}), sees)
  {
    ReplacedRecord(old', new');
  }

  /** Two versions of one record, and two listings that see it. */
  ghost predicate AreTwo(n: nat, k: nat, l: nat, old': Record, new': Record, sees: Sight) {
    && k < n && l < n && k != l && sees(k, old'.stamp.id) && sees(l, old'.stamp.id)
    && new'.stamp.id == old'.stamp.id != 0 && old'.stamp.at == 1 && new'.stamp.at == 2
  }

  /** Both listings have seen that the version they were answered is not marked, `k` an older one than `l`. */
  lemma BothAreChecked(n: nat, k: nat, l: nat, old': Record, new': Record, sees: Sight)
    returns (s: Index, moves: seq<Move>, t: Index)
    requires AreTwo(n, k, l, old', new', sees)
    ensures Begins(s) && |s.listings| == n && Moves(s, moves, t, sees)
    ensures forall move <- moves :: !move.Store? && !move.GiveUp?
    ensures t.source == Source([new'], new'.stamp) && t.stored == map[] && t.marks == map[]
    ensures var x, y := Listing(EARLIEST_CHANGE, [old'], Checked), Listing(EARLIEST_CHANGE, [new'], Checked);
            t.listings == Two(n, k, x, l, y)
  {
    var asked, checked := Listing(EARLIEST_CHANGE, [old'], Next), Listing(EARLIEST_CHANGE, [old'], Checked);
    var asked', checked' := Listing(EARLIEST_CHANGE, [new'], Next), Listing(EARLIEST_CHANGE, [new'], Checked);
    s := Index(Source([old'], old'.stamp), map[], map[], Two(n, k, IDLE, l, IDLE), {old'});
    var a := s.(listings := Two(n, k, asked, l, IDLE));
    var b := s.(listings := Two(n, k, checked, l, IDLE));
    var c := b.(source := Source([new'], new'.stamp), given := {old', new'});
    var d := c.(listings := Two(n, k, checked, l, asked'));
    t := c.(listings := Two(n, k, checked, l, checked'));
    moves := [Ask(k, 1), Check(k), Change(new'), Ask(l, 1), Check(l)];
    TwoMoved(n, k, IDLE, l, IDLE, asked);
    TwoMoved(n, k, asked, l, IDLE, checked);
    TwoMoved(n, k, checked, l, IDLE, asked');
    TwoMoved(n, k, checked, l, asked', checked');
    hide SeenAfter, Changed;
    AskForTheOne(s, k, old', sees);
    ChangeOfTheOne(b, old', new', sees);
    AskForTheOne(c, l, new', sees);
    assert Leads(s, moves[0], a, sees) && Leads(a, moves[1], b, sees) && Leads(b, moves[2], c, sees);
    assert Leads(c, moves[3], d, sees) && Leads(d, moves[4], t, sees);
    hide Leads;
    StatesAreARun([s, a, b, c, d, t], moves, sees);
  }

  /** Then `l` stores first and marks last: the older version is stored and the newer one marked. */
  lemma StoresCross(t: Index, n: nat, k: nat, l: nat, old': Record, new': Record, sees: Sight)
    returns (moves: seq<Move>, u: Index)
    requires AreTwo(n, k, l, old', new', sees) && t.stored == map[] && t.marks == map[]
    requires var x, y := Listing(EARLIEST_CHANGE, [old'], Checked), Listing(EARLIEST_CHANGE, [new'], Checked);
             t.listings == Two(n, k, x, l, y)
    ensures Moves(t, moves, u, sees)
    ensures u.source == t.source && IsHeld(u.stored, old') && IsMarked(u.marks, new')
    ensures u.listings == Two(n, k, Listing(old'.stamp, [], Next), l, Listing(new'.stamp, [], Next))
  {
    var id := old'.stamp.id;
    var x, y := Listing(EARLIEST_CHANGE, [old'], Checked), Listing(EARLIEST_CHANGE, [new'], Checked);
    var placed, placed' := x.(phase := Placed), y.(phase := Placed);
    var past, past' := Listing(old'.stamp, [], Next), Listing(new'.stamp, [], Next);
    var a := t.(stored := map[id := new'], listings := Two(n, k, x, l, placed'));
    var b := t.(stored := map[id := old'], listings := Two(n, k, placed, l, placed'));
    var c := b.(marks := map[id := old'.stamp], listings := Two(n, k, past, l, placed'));
    u := b.(marks := map[id := new'.stamp], listings := Two(n, k, past, l, past'));
    moves := [Store(l), Store(k), Mark(k), Mark(l)];
    TwoMoved(n, k, x, l, y, placed');
    TwoMoved(n, k, x, l, placed', placed);
    TwoMoved(n, k, placed, l, placed', past);
    TwoMoved(n, k, past, l, placed', past');
    assert [old'][1..] == [] && [new'][1..] == [];
    assert Leads(t, moves[0], a, sees) && Leads(a, moves[1], b, sees);
    assert Leads(b, moves[2], c, sees) && Leads(c, moves[3], u, sees);
    hide Leads;
    StatesAreARun([t, a, b, c, u], moves, sees);
  }

  lemma {:induction false} NothingStoredIsApart(s: Index, moves: seq<Move>, t: Index, more: seq<Move>, sees: Sight)
    requires Moves(s, moves, t, sees) && (forall move <- moves :: !move.Store? && !move.GiveUp?)
    requires AreApart(t, more, sees)
    ensures AreApart(s, moves + more, sees)
    decreases |moves|
  {
    hide Moved, CanMove;
    if moves == [] {
      assert moves + more == more;
    } else {
      assert (moves + more)[1..] == moves[1..] + more && moves[0] in moves;
      NothingStoredIsApart(Moved(s, moves[0], sees), moves[1..], t, more, sees);
    }
  }

  /** Or `l` stores and marks, and then `k` does: the older version is stored and marked. */
  lemma SlowStore(t: Index, n: nat, k: nat, l: nat, old': Record, new': Record, sees: Sight)
    returns (moves: seq<Move>, u: Index)
    requires AreTwo(n, k, l, old', new', sees) && t.stored == map[] && t.marks == map[]
    requires var x, y := Listing(EARLIEST_CHANGE, [old'], Checked), Listing(EARLIEST_CHANGE, [new'], Checked);
             t.listings == Two(n, k, x, l, y)
    ensures Moves(t, moves, u, sees) && AreApart(t, moves, sees)
    ensures u.source == t.source && IsHeld(u.stored, old') && |u.listings| == n && u.listings[l].cursor == new'.stamp
  {
    var id := old'.stamp.id;
    var x, y := Listing(EARLIEST_CHANGE, [old'], Checked), Listing(EARLIEST_CHANGE, [new'], Checked);
    var placed, placed' := x.(phase := Placed), y.(phase := Placed);
    var past, past' := Listing(old'.stamp, [], Next), Listing(new'.stamp, [], Next);
    var a := t.(stored := map[id := new'], listings := Two(n, k, x, l, placed'));
    var b := a.(marks := map[id := new'.stamp], listings := Two(n, k, x, l, past'));
    var c := b.(stored := map[id := old'], listings := Two(n, k, placed, l, past'));
    u := c.(marks := map[id := old'.stamp], listings := Two(n, k, past, l, past'));
    moves := [Store(l), Mark(l), Store(k), Mark(k)];
    TwoMoved(n, k, x, l, y, placed');
    TwoMoved(n, k, x, l, placed', past');
    TwoMoved(n, k, x, l, past', placed);
    TwoMoved(n, k, placed, l, past', past);
    assert [old'][1..] == [] && [new'][1..] == [];
    assert Leads(t, moves[0], a, sees) && Leads(a, moves[1], b, sees);
    assert Leads(b, moves[2], c, sees) && Leads(c, moves[3], u, sees);
    assert IsApart(t, moves[0]) && IsApart(b, moves[2]);
    hide IsApart, Two;
    StatesAreARun([t, a, b, c, u], moves, sees);
    FourAreApart(t, a, b, c, moves, sees);
  }

  lemma FourAreApart(t: Index, a: Index, b: Index, c: Index, moves: seq<Move>, sees: Sight)
    requires |moves| == 4 && moves[1].Mark? && moves[3].Mark? && CanMove(c, moves[3])
    requires Leads(t, moves[0], a, sees) && Leads(a, moves[1], b, sees) && Leads(b, moves[2], c, sees)
    requires IsApart(t, moves[0]) && IsApart(b, moves[2])
    ensures AreApart(t, moves, sees)
  {
    hide CanMove, Moved;
    assert moves[1..][1..] == moves[2..] && moves[2..][1..] == moves[3..] && moves[3..][1..] == [];
    assert AreApart(c, moves[3..], sees);
    assert AreApart(b, moves[2..], sees);
    assert AreApart(a, moves[1..], sees);
  }

  /** Even with stores kept apart, a slow listing puts the older version over the newer one, until it comes to it. */
  lemma SlowListingOverwrites(n: nat, k: nat, l: nat, id: nat, sees: Sight)
    returns (s: Index, moves: seq<Move>, t: Index, r: Record)
    requires k < n && l < n && k != l && id != 0 && sees(k, id) && sees(l, id)
    ensures Begins(s) && |s.listings| == n && Moves(s, moves, t, sees) && AreApart(s, moves, sees)
    ensures |t.listings| == n && r in t.source.records && t.listings[l].cursor == r.stamp && !IsHeld(t.stored, r)
  {
    var old', new' := Record(Stamp(1, id), "a"), Record(Stamp(2, id), "b");
    hide Moves, Begins, AreApart;
    var first, second, a;
    s, first, a := BothAreChecked(n, k, l, old', new', sees);
    second, t := SlowStore(a, n, k, l, old', new', sees);
    MovesConcat(s, first, a, second, t, sees);
    NothingStoredIsApart(s, first, a, second, sees);
    moves, r := first + second, new';
  }

  /** Listings come past a record that is marked without storing it. */
  lemma {:induction false} AllComePast(s: Index, j: nat, r: Record, sees: Sight) returns (moves: seq<Move>, t: Index)
    requires j <= |s.listings| && s.source.records == [r] && IsMarked(s.marks, r)
    requires forall l :: 0 <= l < |s.listings| ==> s.listings[l].page == []
    ensures Moves(s, moves, t, sees) && t == s.(listings := t.listings) && |t.listings| == |s.listings|
    ensures forall l :: 0 <= l < |t.listings| ==> t.listings[l].page == []
    ensures forall l :: 0 <= l < j && sees(l, r.stamp.id) ==> AtMost(r.stamp, t.listings[l].cursor)
  {
    if j == 0 {
      moves, t := [], s;
    } else {
      var before, u := AllComePast(s, j - 1, r, sees);
      var l := j - 1;
      if sees(l, r.stamp.id) && Less(u.listings[l].cursor, r.stamp) {
        AskForTheOne(u, l, r, sees);
        var a := With(u, l, Listing(u.listings[l].cursor, [r], Next));
        t := With(u, l, Listing(r.stamp, [], Next));
        assert [r][1..] == [] && a.listings[l := t.listings[l]] == t.listings;
        assert Leads(u, Ask(l, 1), a, sees) && Leads(a, Check(l), t, sees);
        StatesAreARun([u, a, t], [Ask(l, 1), Check(l)], sees);
        MovesConcat(s, before, u, [Ask(l, 1), Check(l)], t, sees);
        moves := before + [Ask(l, 1), Check(l)];
      } else {
        moves, t := before, u;
      }
    }
  }

  /**
   For any two listings that see a record there is a run after which an older version of it is stored
   for good: all have come past the newer one and find it marked.
   */
  lemma CrossedStoresLoseAVersion(n: nat, k: nat, l: nat, id: nat, sees: Sight)
    returns (s: Index, moves: seq<Move>, t: Index, r: Record)
    requires k < n && l < n && k != l && id != 0 && sees(k, id) && sees(l, id)
    ensures Begins(s) && |s.listings| == n && Moves(s, moves, t, sees)
    ensures r in t.source.records && AllArePast(t, r, sees) && !IsHeld(t.stored, r)
  {
    var old', new' := Record(Stamp(1, id), "a"), Record(Stamp(2, id), "b");
    hide Moves, Begins;
    var first, second, third, a, b;
    s, first, a := BothAreChecked(n, k, l, old', new', sees);
    second, b := StoresCross(a, n, k, l, old', new', sees);
    MovesConcat(s, first, a, second, b, sees);
    third, t := AllComePast(b, n, new', sees);
    MovesConcat(s, first + second, b, third, t, sees);
    moves, r := first + second + third, new';
    assert sees(k, r.stamp.id);
  }

  /**
   Every run stores what all who see it have come past, if and only if no record is seen by two
   listings.
   */
  lemma EveryRunHoldsIff(n: nat, sees: Sight)
    ensures (forall s: Index, moves: seq<Move>, t: Index ::
               Begins(s) && |s.listings| == n && Moves(s, moves, t, sees) ==> HoldsWhatAllPassed(t, sees)) <==>
            SeenByOne(n, sees)
  {
    hide Begins, Moves, AllArePast;
    if SeenByOne(n, sees) {
      forall s: Index, moves: seq<Move>, t: Index | Begins(s) && |s.listings| == n && Moves(s, moves, t, sees)
        ensures HoldsWhatAllPassed(t, sees)
      {
        SeenByOneHolds(s, moves, t, sees);
      }
    } else {
      var l: nat, k: nat, id: nat :| l < n && k < n && id != 0 && sees(l, id) && sees(k, id) && l != k;
      var s, moves, t, r := CrossedStoresLoseAVersion(n, k, l, id, sees);
    }
  }
}
