/**
 The table that gives each POSIX user and group name its numeric ID: recovered from the
 system's own lists, extended one name at a time, IDs being 32 bits wide.
 */
module IdentityTable {
  const IDS := 0x1_0000_0000
  const LAST_ID := 0xFFFF_FFFF
  const BASE_ID := 100000
  const PREFIX := "bc_"

  type Id = x: int | 0 <= x < IDS

  type Allocations = map<string, Id>

  datatype Identity = Identity(name: string, id: Id)

  datatype Table = Table(allocations: Allocations, reserved: set<Id>, dirty: bool)

  ghost predicate Distinct(allocations: Allocations) {
    forall m <- allocations, n <- allocations :: allocations[m] == allocations[n] ==> m == n
  }

  // ----- the first loop: a candidate above every allocated ID

  /** An order in which a map's entries may come up. */
  ghost predicate IsOrderOf(order: seq<string>, allocations: Allocations) {
    && (forall name :: name in order <==> name in allocations)
    && (forall i, j :: 0 <= i < j < |order| ==> order[i] != order[j])
  }

  /** What the loop over the entries makes of them, in 32 bits. */
  function Candidate(allocations: Allocations, order: seq<string>): Id
    requires forall name <- order :: name in allocations
  {
    if order == [] then BASE_ID
    else
      var candidate := Candidate(allocations, order[..|order| - 1]);
      var id := allocations[order[|order| - 1]];
      if id >= candidate then (id + 1) % IDS else candidate
  }

  /** The least number, from the base up, above every allocated ID. */
  ghost predicate IsStart(allocations: Allocations, start: int) {
    && BASE_ID <= start <= IDS
    && (forall name <- allocations :: allocations[name] < start)
    && (start == BASE_ID || exists name <- allocations :: allocations[name] == start - 1)
  }

  // ----- the second loop: the first ID from there that is not reserved

  /** How many steps up, the last ID followed by the first, lead from one ID to another. */
  function Steps(from: Id, to: Id): nat {
    if from <= to then to - from else to - from + IDS
  }

  ghost predicate IsFirstFree(from: Id, reserved: set<Id>, id: Id) {
    id !in reserved && AllReservedUpTo(from, id, reserved)
  }

  ghost predicate AllReservedUpTo(from: Id, id: Id, reserved: set<Id>) {
    forall other: Id :: Steps(from, other) < Steps(from, id) ==> other in reserved
  }

  lemma OneIdFurther(from: Id, id: Id, reserved: set<Id>, free: Id)
    requires AllReservedUpTo(from, id, reserved) && id in reserved
    requires free !in reserved && Steps(from, id) <= Steps(from, free)
    ensures AllReservedUpTo(from, (id + 1) % IDS, reserved)
    ensures Steps(from, id) < Steps(from, (id + 1) % IDS) <= Steps(from, free)
  {
    assert (id + 1) % IDS == if id == LAST_ID then 0 else id + 1;
  }

  lemma NothingBefore(from: Id, reserved: set<Id>)
    ensures AllReservedUpTo(from, from, reserved) && forall id: Id :: Steps(from, from) <= Steps(from, id)
  {
  }

  /** The IDs that can still be given without starting over from the bottom. */
  ghost function Room(start: int, reserved: set<Id>): set<int> {
    set x | start <= x < IDS && x !in reserved
  }

  // ----- the table

  function Recovered(table: Table, identity: Identity): Table {
    if identity.id >= BASE_ID && PREFIX <= identity.name && identity.name !in table.allocations then
      table.(allocations := table.allocations[identity.name := identity.id], dirty := true)
    else table
  }

  function ReservedAll(table: Table, identities: seq<Identity>): Table {
    if identities == [] then table
    else
      var before := ReservedAll(table, identities[..|identities| - 1]);
      var last := identities[|identities| - 1];
      Recovered(before.(reserved := before.reserved + {last.id}), last)
  }

  class IdentityAllocationTable {
    var allocations: Allocations
    var reserved: set<Id>
    var dirty: bool

    ghost function Value(): Table
      reads this
    {
      Table(allocations, reserved, dirty)
    }

    constructor (allocations: Allocations)
      ensures Value() == Table(allocations, {}, false)
    {
      this.allocations, reserved, dirty := allocations, {}, false;
    }

    method RecoverProjectedAllocation(identity: Identity)
      modifies this`allocations, this`dirty
      ensures Value() == Recovered(old(Value()), identity)
    {
      if identity.id < BASE_ID || !(PREFIX <= identity.name) {
        return;
      }
      if identity.name in allocations {
        return;
      }
      allocations := allocations[identity.name := identity.id];
      dirty := true;
    }

    method Reserve(identities: seq<Identity>)
      modifies this
      ensures Value() == ReservedAll(old(Value()), identities)
    {
      for i := 0 to |identities|
        invariant Value() == ReservedAll(old(Value()), identities[..i])
      {
        reserved := reserved + {identities[i].id};
        RecoverProjectedAllocation(identities[i]);
        assert identities[..i + 1][..i] == identities[..i];
      }
      assert identities[..|identities|] == identities;
    }

    method NextFreeID(order: seq<string>) returns (candidate: Id)
      requires IsOrderOf(order, allocations)
      requires exists id: Id :: id !in reserved
      ensures IsFirstFree(Candidate(allocations, order), reserved, candidate)
    {
      candidate := BASE_ID;
      for i := 0 to |order|
        invariant candidate == Candidate(allocations, order[..i])
      {
        assert order[..i + 1][..i] == order[..i];
        var id := allocations[order[i]];
        if id >= candidate {
          candidate := (id + 1) % IDS;
        }
      }
      assert order[..|order|] == order;
      hide Candidate, AllReservedUpTo, IsOrderOf, Steps;
      ghost var start := candidate;
      NothingBefore(start, reserved);
      ghost var free: Id :| free !in reserved;
      while candidate in reserved
        invariant Steps(start, candidate) <= Steps(start, free) && AllReservedUpTo(start, candidate, reserved)
        decreases Steps(start, free) - Steps(start, candidate)
      {
        OneIdFurther(start, candidate, reserved, free);
        candidate := (candidate + 1) % IDS;
      }
    }

    method IdFor(name: string, order: seq<string>) returns (id: Id)
      requires IsOrderOf(order, allocations)
      requires exists free: Id :: free !in reserved
      modifies this
      ensures Gives(old(Value()), name, order, id, Value())
    {
      if name in allocations {
        return allocations[name];
      }
      id := NextFreeID(order);
      allocations := allocations[name := id];
      reserved := reserved + {id};
      dirty := true;
    }
  }

  /** What one `idFor` call does. */
  ghost predicate Gives(s: Table, name: string, order: seq<string>, id: Id, t: Table)
    requires IsOrderOf(order, s.allocations)
  {
    if name in s.allocations then id == s.allocations[name] && t == s
    else
      && IsFirstFree(Candidate(s.allocations, order), s.reserved, id)
      && t == Table(s.allocations[name := id], s.reserved + {id}, true)
  }

  // ----- where the search starts

  lemma {:induction false} CandidateIsAboveAll(allocations: Allocations, order: seq<string>)
    requires forall name <- order :: name in allocations && allocations[name] != LAST_ID
    ensures BASE_ID <= Candidate(allocations, order)
    ensures forall name <- order :: allocations[name] < Candidate(allocations, order)
    ensures Candidate(allocations, order) == BASE_ID ||
            exists name <- order :: allocations[name] == Candidate(allocations, order) - 1
  {
    if order != [] {
      var last := |order| - 1;
      CandidateIsAboveAll(allocations, order[..last]);
      assert forall name <- order :: name == order[last] || name in order[..last];
    }
  }

  lemma StartIsUnique(allocations: Allocations, start: int, start': int)
    requires IsStart(allocations, start) && IsStart(allocations, start')
    ensures start == start'
  {
  }

  /** There is always a start, and the loop finds it exactly when the last ID is not allocated. */
  lemma CandidateIsTheStartIff(allocations: Allocations, order: seq<string>) returns (start: int)
    requires IsOrderOf(order, allocations)
    ensures IsStart(allocations, start)
    ensures Candidate(allocations, order) == start <==> LAST_ID !in allocations.Values
  {
    if LAST_ID in allocations.Values {
      start := IDS;
      var name :| name in allocations && allocations[name] == LAST_ID;
      assert allocations[name] == start - 1;
    } else {
      CandidateIsAboveAll(allocations, order);
      start := Candidate(allocations, order);
      assert forall name <- allocations :: name in order;
    }
  }

  lemma CandidateOfLast(allocations: Allocations, order: seq<string>, last: string)
    requires forall name <- order + [last] :: name in allocations
    ensures allocations[last] == LAST_ID ==> Candidate(allocations, order + [last]) == 0
    ensures allocations[last] != LAST_ID ==> Candidate(allocations, order + [last]) > allocations[last]
  {
    assert (order + [last])[..|order|] == order;
  }

  lemma {:induction false} OneOrder(allocations: Allocations, names: set<string>) returns (order: seq<string>)
    requires forall name <- names :: name in allocations
    ensures forall name :: name in order <==> name in names
    ensures forall i, j :: 0 <= i < j < |order| ==> order[i] != order[j]
    decreases |names|
  {
    order := [];
    if names != {} {
      var name :| name in names;
      order := OneOrder(allocations, names - {name});
      order := order + [name];
    }
  }

  lemma OrderEndingIn(allocations: Allocations, last: string) returns (order: seq<string>)
    requires last in allocations
    ensures IsOrderOf(order + [last], allocations)
  {
    order := OneOrder(allocations, allocations.Keys - {last});
  }

  lemma {:induction false} OnlyLastIdGivesZero(allocations: Allocations, order: seq<string>)
    requires order != [] && forall name <- order :: name in allocations && allocations[name] == LAST_ID
    ensures Candidate(allocations, order) == 0
  {
    assert order == order[..|order| - 1] + [order[|order| - 1]];
    CandidateOfLast(allocations, order[..|order| - 1], order[|order| - 1]);
  }

  /** The order in which a map's entries come up does not matter unless the last ID is allocated beside another. */
  lemma OrderDoesNotMatterIff(allocations: Allocations)
    ensures (forall order, order' :: IsOrderOf(order, allocations) && IsOrderOf(order', allocations) ==>
               Candidate(allocations, order) == Candidate(allocations, order')) <==>
            (LAST_ID !in allocations.Values || forall name <- allocations :: allocations[name] == LAST_ID)
  {
    if LAST_ID !in allocations.Values {
      forall order, order' | IsOrderOf(order, allocations) && IsOrderOf(order', allocations)
        ensures Candidate(allocations, order) == Candidate(allocations, order')
      {
        var start := CandidateIsTheStartIff(allocations, order);
        var start' := CandidateIsTheStartIff(allocations, order');
        StartIsUnique(allocations, start, start');
      }
    } else if forall name <- allocations :: allocations[name] == LAST_ID {
      forall order, order' | IsOrderOf(order, allocations) && IsOrderOf(order', allocations)
        ensures Candidate(allocations, order) == Candidate(allocations, order')
      {
        var name :| name in allocations;
        assert name in order && name in order';
        OnlyLastIdGivesZero(allocations, order);
        OnlyLastIdGivesZero(allocations, order');
      }
    } else {
      var order, order' := TwoOrdersDiffer(allocations);
    }
  }

  lemma TwoOrdersDiffer(allocations: Allocations) returns (order: seq<string>, order': seq<string>)
    requires LAST_ID in allocations.Values && exists name <- allocations :: allocations[name] != LAST_ID
    ensures IsOrderOf(order, allocations) && IsOrderOf(order', allocations)
    ensures Candidate(allocations, order) != Candidate(allocations, order')
  {
    hide Candidate;
    var highest :| highest in allocations && allocations[highest] == LAST_ID;
    var other :| other in allocations && allocations[other] != LAST_ID;
    order := OrderEndingIn(allocations, highest);
    order' := OrderEndingIn(allocations, other);
    CandidateOfLast(allocations, order, highest);
    CandidateOfLast(allocations, order', other);
    order, order' := order + [highest], order' + [other];
  }

  // ----- what a new name is given

  ghost predicate IsLeastFreeFrom(start: int, reserved: set<Id>, id: Id) {
    start <= id && id !in reserved && forall other: Id :: start <= other < id ==> other in reserved
  }

  /**
   A new name is given the least unreserved ID from the start up, whatever the order, if and
   only if there is one; then no other name has it.
   */
  lemma NewNameIsGivenTheLeastFreeIdIff(s: Table, name: string, order: seq<string>, id: Id, t: Table, start: int)
    requires IsOrderOf(order, s.allocations) && Gives(s, name, order, id, t)
    requires name !in s.allocations && IsStart(s.allocations, start)
    ensures IsLeastFreeFrom(start, s.reserved, id) <==> Room(start, s.reserved) != {}
    ensures start <= id <==> Room(start, s.reserved) != {}
    ensures start <= id ==> id !in s.allocations.Values
  {
    if start <= id {
      assert id in Room(start, s.reserved);
    }
    if free :| free in Room(start, s.reserved) {
      var start' := CandidateIsTheStartIff(s.allocations, order);
      StartIsUnique(s.allocations, start, start');
      assert Candidate(s.allocations, order) == start;
      assert Steps(start, free) >= Steps(start, id);
      forall other: Id | start <= other < id ensures other in s.reserved {
        assert Steps(start, other) < Steps(start, id);
      }
    }
  }

  /** Giving an ID moves the start just past it and takes exactly one from the room. */
  lemma GivingTakesOneFromTheRoom(s: Table, name: string, order: seq<string>, id: Id, t: Table, start: int)
    requires IsOrderOf(order, s.allocations) && Gives(s, name, order, id, t)
    requires name !in s.allocations && IsStart(s.allocations, start) && Room(start, s.reserved) != {}
    ensures IsStart(t.allocations, id + 1)
    ensures Room(id + 1, t.reserved) == Room(start, s.reserved) - {id} && id in Room(start, s.reserved)
  {
    NewNameIsGivenTheLeastFreeIdIff(s, name, order, id, t, start);
    assert t.allocations[name] == id;
  }

  // ----- any sequence of calls

  datatype Call = Call(name: string, order: seq<string>, id: Id)

  ghost predicate Step(s: Table, call: Call, t: Table) {
    IsOrderOf(call.order, s.allocations) && Gives(s, call.name, call.order, call.id, t)
  }

  ghost predicate Run(states: seq<Table>, calls: seq<Call>) {
    |states| == |calls| + 1 && forall i :: 0 <= i < |calls| ==> Step(states[i], calls[i], states[i + 1])
  }

  function Added(s: Table, t: Table): int {
    |t.allocations| - |s.allocations|
  }

  /** The call finds its name, or gives it the least unreserved ID above every allocated one. */
  ghost predicate GivesTheLeastFree(s: Table, call: Call) {
    || call.name in s.allocations
    || exists start :: IsStart(s.allocations, start) && IsLeastFreeFrom(start, s.reserved, call.id)
  }

  lemma NewNameIsAdded(s: Table, call: Call, t: Table)
    requires Step(s, call, t)
    ensures Added(s, t) == if call.name in s.allocations then 0 else 1
  {
    if call.name !in s.allocations {
      assert t.allocations.Keys == s.allocations.Keys + {call.name};
    }
  }

  lemma StepTakesFromTheRoom(s: Table, call: Call, t: Table, start: int) returns (start': int)
    requires Step(s, call, t) && IsStart(s.allocations, start)
    requires call.name in s.allocations || Room(start, s.reserved) != {}
    ensures IsStart(t.allocations, start') && |Room(start', t.reserved)| == |Room(start, s.reserved)| - Added(s, t)
    ensures GivesTheLeastFree(s, call) && 0 <= Added(s, t) <= 1
  {
    start' := start;
    if call.name !in s.allocations {
      NewNameIsGivenTheLeastFreeIdIff(s, call.name, call.order, call.id, t, start);
      GivingTakesOneFromTheRoom(s, call.name, call.order, call.id, t, start);
      NewNameIsAdded(s, call, t);
      start' := call.id + 1;
    }
  }

  lemma {:induction false} AllocationsOnlyGrow(states: seq<Table>, calls: seq<Call>, i: nat, k: nat)
    requires Run(states, calls) && i <= k < |states|
    ensures Added(states[i], states[k]) >= 0
    ensures forall name <- states[i].allocations ::
              name in states[k].allocations && states[k].allocations[name] == states[i].allocations[name]
  {
    if i < k {
      AllocationsOnlyGrow(states, calls, i, k - 1);
      hide IsOrderOf, IsFirstFree;
      assert Step(states[k - 1], calls[k - 1], states[k]);
      NewNameIsAdded(states[k - 1], calls[k - 1], states[k]);
    }
  }

  /** With enough room each call gives the least free ID. */
  lemma {:induction false} RoomIsUsedUp(states: seq<Table>, calls: seq<Call>, start: int, k: nat) returns (start': int)
    requires Run(states, calls) && IsStart(states[0].allocations, start) && k < |states|
    requires Added(states[0], states[k]) <= |Room(start, states[0].reserved)|
    ensures IsStart(states[k].allocations, start')
    ensures |Room(start', states[k].reserved)| == |Room(start, states[0].reserved)| - Added(states[0], states[k])
    ensures forall i :: 0 <= i < k ==> GivesTheLeastFree(states[i], calls[i])
  {
    hide IsStart, GivesTheLeastFree, Gives, IsOrderOf;
    start' := start;
    if k > 0 {
      AllocationsOnlyGrow(states, calls, k - 1, k);
      start' := RoomIsUsedUp(states, calls, start, k - 1);
      assert Step(states[k - 1], calls[k - 1], states[k]);
      NewNameIsAdded(states[k - 1], calls[k - 1], states[k]);
      start' := StepTakesFromTheRoom(states[k - 1], calls[k - 1], states[k], start');
    }
  }

  lemma {:induction false} LeastFreeNeedsRoom(states: seq<Table>, calls: seq<Call>, start: int, k: nat)
    returns (start': int)
    requires Run(states, calls) && IsStart(states[0].allocations, start) && k < |states|
    requires forall i :: 0 <= i < k ==> GivesTheLeastFree(states[i], calls[i])
    ensures IsStart(states[k].allocations, start')
    ensures |Room(start', states[k].reserved)| == |Room(start, states[0].reserved)| - Added(states[0], states[k])
  {
    hide IsStart, GivesTheLeastFree, Gives, IsOrderOf;
    start' := start;
    if k > 0 {
      start' := LeastFreeNeedsRoom(states, calls, start, k - 1);
      assert Step(states[k - 1], calls[k - 1], states[k]) && GivesTheLeastFree(states[k - 1], calls[k - 1]);
      LeastFreeIsRoom(states[k - 1], calls[k - 1], start');
      start' := StepTakesFromTheRoom(states[k - 1], calls[k - 1], states[k], start');
    }
  }

  lemma LeastFreeIsRoom(s: Table, call: Call, start: int)
    requires GivesTheLeastFree(s, call) && IsStart(s.allocations, start)
    ensures call.name in s.allocations || Room(start, s.reserved) != {}
  {
    if call.name !in s.allocations {
      var start' :| IsStart(s.allocations, start') && IsLeastFreeFrom(start', s.reserved, call.id);
      StartIsUnique(s.allocations, start, start');
      assert call.id in Room(start, s.reserved);
    }
  }

  /**
   Over any sequence of calls, in whatever order map entries come up: every name that is new
   gets the least unreserved ID above all allocated ones if and only if the names added are
   no more than the unreserved IDs there were above the first start.
   */
  lemma EveryNewNameGetsTheLeastFreeIdIff(states: seq<Table>, calls: seq<Call>, start: int)
    requires Run(states, calls) && IsStart(states[0].allocations, start)
    ensures (forall i :: 0 <= i < |calls| ==> GivesTheLeastFree(states[i], calls[i])) <==>
            Added(states[0], states[|calls|]) <= |Room(start, states[0].reserved)|
  {
    if Added(states[0], states[|calls|]) <= |Room(start, states[0].reserved)| {
      var start' := RoomIsUsedUp(states, calls, start, |calls|);
    } else if forall i :: 0 <= i < |calls| ==> GivesTheLeastFree(states[i], calls[i]) {
      var start' := LeastFreeNeedsRoom(states, calls, start, |calls|);
    }
  }

  /** While each new name gets the least free ID, distinct IDs stay distinct. */
  lemma {:induction false} IdsStayDistinct(states: seq<Table>, calls: seq<Call>, k: nat)
    requires Run(states, calls) && k < |states| && Distinct(states[0].allocations)
    requires forall i :: 0 <= i < k ==> GivesTheLeastFree(states[i], calls[i])
    ensures Distinct(states[k].allocations)
  {
    if k > 0 {
      IdsStayDistinct(states, calls, k - 1);
      assert Step(states[k - 1], calls[k - 1], states[k]);
      StepKeepsDistinct(states[k - 1], calls[k - 1], states[k]);
    }
  }

  lemma StepKeepsDistinct(s: Table, call: Call, t: Table)
    requires Step(s, call, t) && GivesTheLeastFree(s, call) && Distinct(s.allocations)
    ensures Distinct(t.allocations)
  {
  }

  /** Room or no room, what a call answers is what the name keeps. */
  lemma AnswersNeverChange(states: seq<Table>, calls: seq<Call>, i: nat)
    requires Run(states, calls) && i < |calls|
    ensures calls[i].name in states[|calls|].allocations && states[|calls|].allocations[calls[i].name] == calls[i].id
  {
    assert Step(states[i], calls[i], states[i + 1]);
    AllocationsOnlyGrow(states, calls, i + 1, |calls|);
  }

  // ----- enough room

  ghost function Range(low: int, high: int): set<int>
    requires low <= high
    decreases high - low
  {
    if low == high then {} else Range(low, high - 1) + {high - 1}
  }

  lemma {:induction false} RangeHolds(low: int, high: int)
    requires low <= high
    ensures |Range(low, high)| == high - low && forall x :: x in Range(low, high) <==> low <= x < high
    decreases high - low
  {
    if low < high {
      RangeHolds(low, high - 1);
    }
  }

  lemma {:induction false} SizeOfUnion<T>(a: set<T>, b: set<T>, c: set<T>)
    requires a <= b + c
    ensures |a| <= |b| + |c|
  {
    if a != {} {
      var x :| x in a;
      if x in b {
        SizeOfUnion(a - {x}, b - {x}, c);
      } else {
        SizeOfUnion(a - {x}, b, c - {x});
      }
    }
  }

  /** The start, the reserved IDs and the names to add together staying within 32 bits is enough room. */
  lemma RoomIsAtLeast(start: int, reserved: set<Id>)
    requires start <= IDS
    ensures |Room(start, reserved)| >= IDS - start - |reserved|
  {
    RangeHolds(start, IDS);
    var ids: set<int> := reserved;
    SizeOfUnion(Range(start, IDS), Room(start, reserved), ids);
  }

  /**
   With distinct IDs to begin with, and the start, the reserved IDs and the names added together
   within 32 bits, every call gives the least free ID and all IDs are distinct at the end.
   */
  lemma EnoughRoomIsEnough(states: seq<Table>, calls: seq<Call>, start: int)
    requires Run(states, calls) && IsStart(states[0].allocations, start) && Distinct(states[0].allocations)
    requires start + |states[0].reserved| + Added(states[0], states[|calls|]) <= IDS
    ensures forall i :: 0 <= i < |calls| ==> GivesTheLeastFree(states[i], calls[i])
    ensures Distinct(states[|calls|].allocations)
  {
    RoomIsAtLeast(start, states[0].reserved);
    EveryNewNameGetsTheLeastFreeIdIff(states, calls, start);
    IdsStayDistinct(states, calls, |calls|);
  }

  // ----- when the IDs of different names stay different

  /** The candidates that some order of the map's entries gives. */
  ghost predicate IsPossibleCandidate(allocations: Allocations, candidate: Id) {
    if LAST_ID !in allocations.Values then IsStart(allocations, candidate)
    else candidate == 0 || ComesAfterAnother(allocations, candidate)
  }

  ghost predicate ComesAfterAnother(allocations: Allocations, candidate: Id) {
    exists name <- allocations :: allocations[name] != LAST_ID && candidate == allocations[name] + 1
  }

  lemma {:induction false} CandidateComesFrom(allocations: Allocations, order: seq<string>)
    requires forall name <- order :: name in allocations
    ensures var candidate := Candidate(allocations, order);
            || candidate == 0 || ComesAfterAnother(allocations, candidate)
            || forall name <- order :: allocations[name] != LAST_ID
  {
    if order != [] {
      var last := |order| - 1;
      CandidateComesFrom(allocations, order[..last]);
      assert order[last] in allocations;
      assert forall name <- order :: name == order[last] || name in order[..last];
    }
  }

  lemma OrderEndingInTwo(allocations: Allocations, first: string, last: string) returns (order: seq<string>)
    requires first in allocations && last in allocations && first != last
    ensures IsOrderOf(order + [first] + [last], allocations)
  {
    order := OneOrder(allocations, allocations.Keys - {first, last});
  }

  /** Some order gives a candidate exactly when it is possible. */
  lemma PossibleCandidateIff(allocations: Allocations, candidate: Id)
    ensures (exists order :: IsOrderOf(order, allocations) && Candidate(allocations, order) == candidate) <==>
            IsPossibleCandidate(allocations, candidate)
  {
    hide Candidate;
    if order :| IsOrderOf(order, allocations) && Candidate(allocations, order) == candidate {
      var start := CandidateIsTheStartIff(allocations, order);
      CandidateComesFrom(allocations, order);
      if LAST_ID in allocations.Values {
        var highest :| highest in allocations && allocations[highest] == LAST_ID;
        assert highest in order;
      }
    }
    if IsPossibleCandidate(allocations, candidate) {
      var order := OrderGiving(allocations, candidate);
    }
  }

  lemma OrderGiving(allocations: Allocations, candidate: Id) returns (order: seq<string>)
    requires IsPossibleCandidate(allocations, candidate)
    ensures IsOrderOf(order, allocations) && Candidate(allocations, order) == candidate
  {
    hide Candidate;
    if LAST_ID !in allocations.Values {
      order := OneOrder(allocations, allocations.Keys);
      var start := CandidateIsTheStartIff(allocations, order);
      StartIsUnique(allocations, start, candidate);
    } else {
      var highest :| highest in allocations && allocations[highest] == LAST_ID;
      if candidate == 0 {
        order := OrderEndingIn(allocations, highest);
        CandidateOfLast(allocations, order, highest);
        order := order + [highest];
      } else {
        var other :| other in allocations && allocations[other] != LAST_ID && candidate == allocations[other] + 1;
        order := OrderEndingInTwo(allocations, highest, other);
        CandidateOfLast(allocations, order, highest);
        CandidateAfterZero(allocations, order + [highest], other);
        order := order + [highest] + [other];
      }
    }
  }

  lemma CandidateAfterZero(allocations: Allocations, order: seq<string>, last: string)
    requires forall name <- order + [last] :: name in allocations
    requires allocations[last] != LAST_ID && (forall name <- order :: name in allocations)
    requires Candidate(allocations, order) == 0
    ensures Candidate(allocations, order + [last]) == allocations[last] + 1
  {
    assert (order + [last])[..|order|] == order && (order + [last])[|order|] == last;
  }

  /** From no possible candidate does the search arrive at an ID that a name already has. */
  ghost predicate FirstFreeIsUnallocated(s: Table) {
    forall candidate: Id, id: Id ::
      IsPossibleCandidate(s.allocations, candidate) && IsFirstFree(candidate, s.reserved, id) ==>
      id !in s.allocations.Values
  }

  /** One new name: its ID is its own in every map order exactly when no possible search ends at an allocated ID. */
  lemma EveryOrderGivesADistinctIdIff(s: Table, name: string)
    requires Distinct(s.allocations) && name !in s.allocations
    ensures (forall order, id, t :: Step(s, Call(name, order, id), t) ==> Distinct(t.allocations)) <==>
            FirstFreeIsUnallocated(s)
  {
    hide Candidate, IsFirstFree, IsPossibleCandidate;
    if FirstFreeIsUnallocated(s) {
      forall order, id, t | Step(s, Call(name, order, id), t) ensures Distinct(t.allocations) {
        PossibleCandidateIff(s.allocations, Candidate(s.allocations, order));
        assert id !in s.allocations.Values;
        UnallocatedIdIsDistinct(s.allocations, name, id);
      }
    } else {
      var candidate: Id, id: Id :| IsPossibleCandidate(s.allocations, candidate) &&
                                   IsFirstFree(candidate, s.reserved, id) &&
        id in s.allocations.Values;
      var order := OrderGiving(s.allocations, candidate);
      var t := Table(s.allocations[name := id], s.reserved + {id}, true);
      assert Step(s, Call(name, order, id), t);
      AllocatedIdIsDoubled(s.allocations, name, id);
    }
  }

  lemma UnallocatedIdIsDistinct(allocations: Allocations, name: string, id: Id)
    requires Distinct(allocations) && name !in allocations && id !in allocations.Values
    ensures Distinct(allocations[name := id])
  {
    assert forall other <- allocations :: allocations[other] in allocations.Values;
  }

  lemma AllocatedIdIsDoubled(allocations: Allocations, name: string, id: Id)
    requires name !in allocations && id in allocations.Values
    ensures !Distinct(allocations[name := id])
  {
    var other :| other in allocations && allocations[other] == id;
    var after := allocations[name := id];
    assert after[other] == after[name] && other != name;
  }

  /** Room above the start is enough for one name, and so are allocated IDs that are all reserved. */
  lemma RoomOrReservedIsUnallocated(s: Table, start: int)
    requires IsStart(s.allocations, start) && (Room(start, s.reserved) != {} || AllocatedIsReserved(s))
    ensures FirstFreeIsUnallocated(s)
  {
    forall candidate: Id, id: Id | IsPossibleCandidate(s.allocations, candidate) &&
                                   IsFirstFree(candidate, s.reserved, id)
      ensures id !in s.allocations.Values
    {
      if !AllocatedIsReserved(s) {
        var order := OrderGiving(s.allocations, candidate);
        var name := NewName(s.allocations);
        NewNameIsGivenTheLeastFreeIdIff(s, name, order, id, Table(s.allocations[name := id], s.reserved + {id}, true),
            start);
      }
    }
  }

  ghost predicate AllocatedIsReserved(s: Table) {
    forall name <- s.allocations :: s.allocations[name] in s.reserved
  }

  lemma {:induction false} LongerThanAll(names: set<string>) returns (n: nat)
    ensures forall name <- names :: |name| < n
    decreases |names|
  {
    n := 0;
    if names != {} {
      var name :| name in names;
      n := LongerThanAll(names - {name});
      n := n + |name| + 1;
    }
  }

  lemma NewName(allocations: Allocations) returns (name: string)
    ensures name !in allocations
  {
    var n := LongerThanAll(allocations.Keys);
    name := seq(n, _ => 'a');
    assert name in allocations ==> |name| < n;
  }

  lemma {:induction false} FirstFreeFrom(from: Id, id: Id, reserved: set<Id>, free: Id) returns (first: Id)
    requires AllReservedUpTo(from, id, reserved) && free !in reserved && Steps(from, id) <= Steps(from, free)
    ensures IsFirstFree(from, reserved, first)
    decreases Steps(from, free) - Steps(from, id)
  {
    first := id;
    if id in reserved {
      OneIdFurther(from, id, reserved, free);
      first := FirstFreeFrom(from, (id + 1) % IDS, reserved, free);
    }
  }

  lemma SomeCall(s: Table, free: Id) returns (call: Call, t: Table)
    requires free !in s.reserved
    ensures Step(s, call, t) && call.name !in s.allocations && call.id !in s.reserved
    ensures t == Table(s.allocations[call.name := call.id], s.reserved + {call.id}, true)
  {
    var name := NewName(s.allocations);
    var order := OneOrder(s.allocations, s.allocations.Keys);
    var from := Candidate(s.allocations, order);
    NothingBefore(from, s.reserved);
    var id := FirstFreeFrom(from, from, s.reserved, free);
    call, t := Call(name, order, id), Table(s.allocations[name := id], s.reserved + {id}, true);
  }

  /** New names, one after the other, come upon every ID that is not reserved, an allocated one too. */
  lemma {:induction false} UnreservedIdIsGivenAgain(s: Table, owner: string)
    returns (states: seq<Table>, calls: seq<Call>)
    requires owner in s.allocations && s.allocations[owner] !in s.reserved
    ensures Run(states, calls) && states[0] == s && !Distinct(states[|calls|].allocations)
    decreases |Room(0, s.reserved)|
  {
    hide IsOrderOf, IsFirstFree, Candidate;
    var call, t := SomeCall(s, s.allocations[owner]);
    if call.id == s.allocations[owner] {
      states, calls := [s, t], [call];
      assert t.allocations[owner] == t.allocations[call.name];
    } else {
      assert Room(0, t.reserved) == Room(0, s.reserved) - {call.id} && call.id in Room(0, s.reserved);
      states, calls := UnreservedIdIsGivenAgain(t, owner);
      RunFromOneBefore(s, call, states, calls);
      states, calls := [s] + states, [call] + calls;
    }
  }

  lemma RunFromOneBefore(s: Table, call: Call, states: seq<Table>, calls: seq<Call>)
    requires Run(states, calls) && Step(s, call, states[0])
    ensures Run([s] + states, [call] + calls)
  {
    hide Step;
    var all, each := [s] + states, [call] + calls;
    forall i | 0 <= i < |each| ensures Step(all[i], each[i], all[i + 1]) {
      if i > 0 {
        assert all[i] == states[i - 1] && each[i] == calls[i - 1] && all[i + 1] == states[i];
      }
    }
  }

  lemma {:induction false} ReservedStaysDistinct(states: seq<Table>, calls: seq<Call>, k: nat)
    requires Run(states, calls) && k < |states| && Distinct(states[0].allocations) && AllocatedIsReserved(states[0])
    ensures Distinct(states[k].allocations) && AllocatedIsReserved(states[k])
  {
    if k > 0 {
      ReservedStaysDistinct(states, calls, k - 1);
      var s, call := states[k - 1], calls[k - 1];
      assert Step(s, call, states[k]);
      if call.name !in s.allocations {
        UnallocatedIdIsDistinct(s.allocations, call.name, call.id);
      }
    }
  }

  /** Every run whatever, however long, keeps distinct IDs distinct if and only if each allocated ID is reserved too. */
  lemma EveryRunStaysDistinctIff(s: Table)
    requires Distinct(s.allocations)
    ensures (forall states: seq<Table>, calls: seq<Call> ::
               Run(states, calls) && states[0] == s ==> Distinct(states[|calls|].allocations)) <==>
            AllocatedIsReserved(s)
  {
    hide Step, Distinct;
    if AllocatedIsReserved(s) {
      forall states: seq<Table>, calls: seq<Call> | Run(states, calls) && states[0] == s
        ensures Distinct(states[|calls|].allocations)
      {
        ReservedStaysDistinct(states, calls, |calls|);
      }
    } else {
      var owner :| owner in s.allocations && s.allocations[owner] !in s.reserved;
      var states, calls := UnreservedIdIsGivenAgain(s, owner);
    }
  }

  const THREE_IDS: Allocations := map["bc_a" := 100000, "bc_b" := 100001, "bc_c" := LAST_ID]

  lemma ThreeIdsInOrder()
    ensures IsOrderOf(["bc_b", "bc_c", "bc_a"], THREE_IDS) && Distinct(THREE_IDS)
    ensures Candidate(THREE_IDS, ["bc_b", "bc_c", "bc_a"]) == 100001
  {
    hide Candidate;
    assert ["bc_b", "bc_c", "bc_a"] == ["bc_b"] + ["bc_c"] + ["bc_a"];
    CandidateOfLast(THREE_IDS, ["bc_b"], "bc_c");
    CandidateAfterZero(THREE_IDS, ["bc_b"] + ["bc_c"], "bc_a");
  }

  /**
   With the usual system IDs reserved, two people's IDs stored but not listed by the system, and the
   last ID given away.
   */
  lemma WithoutRoomAnIdCanBeGivenTwice() returns (s: Table, order: seq<string>, t: Table)
    ensures IsOrderOf(order, s.allocations) && Distinct(s.allocations) && {0, 1, 65534} <= s.reserved
    ensures Gives(s, "bc_d", order, 100001, t) && !Distinct(t.allocations)
  {
    hide Candidate, Distinct;
    ThreeIdsInOrder();
    s, order := Table(THREE_IDS, {0, 1, 65534}, false), ["bc_b", "bc_c", "bc_a"];
    t := Table(THREE_IDS["bc_d" := 100001], s.reserved + {100001}, true);
    NothingBefore(100001, s.reserved);
    AllocatedIdIsDoubled(THREE_IDS, "bc_d", THREE_IDS["bc_b"]);
  }

  // ----- recovery from the system's lists

  predicate Qualifies(identity: Identity) {
    identity.id >= BASE_ID && PREFIX <= identity.name
  }

  /** The first of its name that qualifies, the name having no ID yet. */
  predicate IsTaken(allocations: Allocations, identities: seq<Identity>, i: nat)
    requires i < |identities|
  {
    && Qualifies(identities[i]) && identities[i].name !in allocations
    && forall j :: 0 <= j < i && identities[j].name == identities[i].name ==> !Qualifies(identities[j])
  }

  /** What reserving leaves: the old IDs as they were, and beside them exactly the taken identities. */
  ghost predicate HoldsTheTaken(table: Table, identities: seq<Identity>, after: Allocations) {
    && (forall name <- table.allocations :: name in after && after[name] == table.allocations[name])
    && (forall i :: 0 <= i < |identities| && IsTaken(table.allocations, identities, i) ==>
          identities[i].name in after && after[identities[i].name] == identities[i].id)
    && (forall name <- after :: name in table.allocations || IsTakenName(table.allocations, identities, name))
  }

  ghost predicate IsTakenName(allocations: Allocations, identities: seq<Identity>, name: string) {
    exists i :: 0 <= i < |identities| && IsTaken(allocations, identities, i) && identities[i].name == name
  }

  lemma {:induction false} FirstQualifying(allocations: Allocations, identities: seq<Identity>, k: nat) returns (i: nat)
    requires k < |identities| && Qualifies(identities[k]) && identities[k].name !in allocations
    ensures i <= k && IsTaken(allocations, identities, i) && identities[i].name == identities[k].name
  {
    i := k;
    if j :| 0 <= j < k && identities[j].name == identities[k].name && Qualifies(identities[j]) {
      i := FirstQualifying(allocations, identities, j);
    }
  }

  lemma TakenOfPrefix(allocations: Allocations, identities: seq<Identity>, last: Identity, i: nat)
    requires i < |identities|
    ensures IsTaken(allocations, identities + [last], i) <==> IsTaken(allocations, identities, i)
  {
    var all := identities + [last];
    assert forall j :: 0 <= j <= i ==> all[j] == identities[j];
  }

  lemma LastIsTakenIff(table: Table, identities: seq<Identity>, last: Identity, before: Allocations)
    requires HoldsTheTaken(table, identities, before)
    ensures IsTaken(table.allocations, identities + [last], |identities|) <==> Qualifies(last) && last.name !in before
  {
    var all := identities + [last];
    if Qualifies(last) && last.name !in table.allocations {
      var i := FirstQualifying(table.allocations, all, |identities|);
      if i < |identities| {
        TakenOfPrefix(table.allocations, identities, last, i);
        assert all[i] == identities[i];
      }
    }
    if i :| 0 <= i < |identities| && IsTaken(table.allocations, identities, i) && identities[i].name == last.name {
      assert all[i] == identities[i];
    }
  }

  lemma OneMoreIdentity(table: Table, identities: seq<Identity>, last: Identity, before: Table)
    requires HoldsTheTaken(table, identities, before.allocations)
    ensures HoldsTheTaken(table, identities + [last], Recovered(before, last).allocations)
  {
    var all, after := identities + [last], Recovered(before, last).allocations;
    LastIsTakenIff(table, identities, last, before.allocations);
    forall i | 0 <= i < |all| && IsTaken(table.allocations, all, i)
      ensures all[i].name in after && after[all[i].name] == all[i].id
    {
      if i < |identities| {
        TakenOfPrefix(table.allocations, identities, last, i);
        assert all[i] == identities[i];
      }
    }
    forall name | name in after && name !in table.allocations ensures IsTakenName(table.allocations, all, name) {
      if name in before.allocations {
        var i :| 0 <= i < |identities| && IsTaken(table.allocations, identities, i) && identities[i].name == name;
        TakenOfPrefix(table.allocations, identities, last, i);
        assert all[i] == identities[i];
      } else {
        assert all[|identities|].name == name;
      }
    }
  }

  /** Reserving recovers exactly the taken identities, changes no ID and reserves every listed one. */
  lemma {:induction false} ReserveRecovers(table: Table, identities: seq<Identity>)
    ensures HoldsTheTaken(table, identities, ReservedAll(table, identities).allocations)
    ensures ReservedAll(table, identities).reserved == table.reserved + set identity <- identities :: identity.id
  {
    if identities != [] {
      var rest, last := identities[..|identities| - 1], identities[|identities| - 1];
      assert identities == rest + [last];
      ReserveRecovers(table, rest);
      var before := ReservedAll(table, rest);
      OneMoreIdentity(table, rest, last, before.(reserved := before.reserved + {last.id}));
    }
  }

  ghost predicate Keeps(before: Allocations, after: Allocations) {
    forall name <- before :: name in after && after[name] == before[name]
  }

  lemma {:induction false} ReserveIsDirtyIff(table: Table, identities: seq<Identity>)
    ensures var after := ReservedAll(table, identities);
            Keeps(table.allocations, after.allocations) &&
            (after.dirty <==> table.dirty || after.allocations != table.allocations)
  {
    if identities != [] {
      var rest, last := identities[..|identities| - 1], identities[|identities| - 1];
      ReserveIsDirtyIff(table, rest);
      var before := ReservedAll(table, rest);
      OneMoreIsDirtyIff(table, before.(reserved := before.reserved + {last.id}), last);
    }
  }

  lemma OneMoreIsDirtyIff(table: Table, before: Table, identity: Identity)
    requires Keeps(table.allocations, before.allocations)
    requires before.dirty <==> table.dirty || before.allocations != table.allocations
    ensures var after := Recovered(before, identity);
            Keeps(table.allocations, after.allocations) &&
            (after.dirty <==> table.dirty || after.allocations != table.allocations)
  {
    var after := Recovered(before, identity);
    if after != before {
      assert identity.name in after.allocations && identity.name !in table.allocations;
    }
  }

  /**
   From what was stored, over the system's groups and users and any run of calls: the table is dirty, and
   so is stored again, exactly when its allocations differ from what was stored.
   */
  lemma {:induction false} DirtyIffChanged(stored: Allocations, groups: seq<Identity>, users: seq<Identity>,
      states: seq<Table>, calls: seq<Call>, k: nat)
    requires Run(states, calls) && k < |states|
    requires states[0] == ReservedAll(ReservedAll(Table(stored, {}, false), groups), users)
    ensures Keeps(stored, states[k].allocations)
    ensures states[k].dirty <==> states[k].allocations != stored
  {
    if k == 0 {
      var loaded := Table(stored, {}, false);
      ReserveIsDirtyIff(loaded, groups);
      ReserveIsDirtyIff(ReservedAll(loaded, groups), users);
      hide ReservedAll;
      KeepsTwice(stored, ReservedAll(loaded, groups).allocations, states[0].allocations);
    } else {
      DirtyIffChanged(stored, groups, users, states, calls, k - 1);
      hide ReservedAll, IsFirstFree, IsOrderOf;
      var s, call, t := states[k - 1], calls[k - 1], states[k];
      assert Step(s, call, t);
      if call.name !in s.allocations {
        assert call.name in t.allocations && call.name !in stored;
      }
    }
  }

  lemma KeepsTwice(a: Allocations, b: Allocations, c: Allocations)
    requires Keeps(a, b) && Keeps(b, c)
    ensures Keeps(a, c) && (a == c ==> a == b)
  {
    if a == c {
      assert forall name :: name in b <==> name in a;
    }
  }

  /** No two taken identities share an ID, with each other or with an old name. */
  ghost predicate TakenIdsAreOwn(allocations: Allocations, identities: seq<Identity>) {
    && (forall i, j :: (&& 0 <= i < j < |identities| && IsTaken(allocations, identities, i)
                        && IsTaken(allocations, identities, j)) ==> identities[i].id != identities[j].id)
    && (forall i, name <- allocations :: 0 <= i < |identities| && IsTaken(allocations, identities, i) ==>
          identities[i].id != allocations[name])
  }

  lemma OwnIdsAreDistinct(table: Table, identities: seq<Identity>, after: Allocations)
    requires Distinct(table.allocations) && HoldsTheTaken(table, identities, after)
    requires TakenIdsAreOwn(table.allocations, identities)
    ensures Distinct(after)
  {
    forall m, n | m in after && n in after && after[m] == after[n] ensures m == n {
      if m !in table.allocations {
        assert IsTakenName(table.allocations, identities, m);
      }
      if n !in table.allocations {
        assert IsTakenName(table.allocations, identities, n);
      }
    }
  }

  lemma DistinctIdsAreOwn(table: Table, identities: seq<Identity>, after: Allocations)
    requires HoldsTheTaken(table, identities, after) && Distinct(after)
    ensures TakenIdsAreOwn(table.allocations, identities)
  {
    forall i, j | 0 <= i < j < |identities| && IsTaken(table.allocations, identities, i) &&
                  IsTaken(table.allocations, identities, j)
      ensures identities[i].id != identities[j].id
    {
      assert identities[i].name != identities[j].name;
    }
  }

  /** Distinct IDs stay distinct exactly when the taken identities have IDs of their own. */
  lemma ReserveKeepsDistinctIff(table: Table, identities: seq<Identity>)
    requires Distinct(table.allocations)
    ensures Distinct(ReservedAll(table, identities).allocations) <==> TakenIdsAreOwn(table.allocations, identities)
  {
    hide Distinct, TakenIdsAreOwn, HoldsTheTaken;
    var after := ReservedAll(table, identities).allocations;
    ReserveRecovers(table, identities);
    if TakenIdsAreOwn(table.allocations, identities) {
      OwnIdsAreDistinct(table, identities, after);
    } else if Distinct(after) {
      DistinctIdsAreOwn(table, identities, after);
    }
  }

  /** A group and a user may have the same number; recovered under two names, it is no longer distinct. */
  lemma SharedNumberIsRecoveredTwice()
    ensures var identities := [Identity("bc_group", 100000), Identity("bc_user", 100000)];
      var table := ReservedAll(Table(map[], {}, false), identities);
      !Distinct(table.allocations)
  {
    var identities := [Identity("bc_group", 100000), Identity("bc_user", 100000)];
    var table := Table(map[], {}, false);
    assert PREFIX <= "bc_group" && PREFIX <= "bc_user";
    assert IsTaken(table.allocations, identities, 0) && IsTaken(table.allocations, identities, 1);
    ReserveKeepsDistinctIff(table, identities);
  }
}
