/** `strings.Index`, `strings.Count` and `strings.Replace(…, 1)` on bytes. */
module Matching {
  import opened Utf8

  predicate MatchesAt(s: Text, m: Text, i: nat) {
    i + |m| <= |s| && s[i..i + |m|] == m
  }

  /** The leftmost match of `m` at or after `from`, or -1. */
  function IndexFrom(s: Text, m: Text, from: nat): (i: int)
    ensures i == -1 || (from <= i && MatchesAt(s, m, i))
    ensures forall k: nat :: from <= k && (i == -1 || k < i) ==> !MatchesAt(s, m, k)
    decreases |s| - from
  {
    if from > |s| then -1
    else if MatchesAt(s, m, from) then from
    else IndexFrom(s, m, from + 1)
  }

  /** `strings.Count` of a non-empty `m`: leftmost matches that do not overlap. */
  function CountFrom(s: Text, m: Text, from: nat): nat
    requires m != []
    decreases |s| - from
  {
    var i := IndexFrom(s, m, from);
    if i == -1 then 0 else 1 + CountFrom(s, m, i + |m|)
  }

  function Index(s: Text, m: Text): int {
    IndexFrom(s, m, 0)
  }

  function Count(s: Text, m: Text): nat
    requires m != []
  {
    CountFrom(s, m, 0)
  }

  function ReplaceOne(s: Text, m: Text, new_: Text): Text
    requires Index(s, m) != -1
  {
    var i := Index(s, m);
    s[..i] + new_ + s[i + |m|..]
  }

  /** A leftmost match with nothing at or after its end. */
  ghost predicate SoleLeftmost(s: Text, m: Text, i: nat) {
    && MatchesAt(s, m, i)
    && (forall k: nat :: k < i ==> !MatchesAt(s, m, k))
    && (forall k: nat :: i + |m| <= k ==> !MatchesAt(s, m, k))
  }

  /** `strings.Count` is 1 exactly for a leftmost match with no match at or after its end. */
  lemma CountIsOneIff(s: Text, m: Text)
    requires m != []
    ensures Count(s, m) == 1 <==> Index(s, m) != -1 && SoleLeftmost(s, m, Index(s, m))
  {
    var i := Index(s, m);
    if i != -1 {
      assert Count(s, m) == 1 + CountFrom(s, m, i + |m|);
      var next := IndexFrom(s, m, i + |m|);
      assert next != -1 ==> MatchesAt(s, m, next);
    }
  }

  /** Matches from `from` on, each the first after the end of the one before, and none left after the last. */
  ghost predicate AreLeftmost(s: Text, m: Text, from: nat, starts: seq<nat>)
    decreases |starts|
  {
    if starts == [] then forall k: nat :: from <= k ==> !MatchesAt(s, m, k)
    else
      && from <= starts[0] && MatchesAt(s, m, starts[0])
      && (forall k: nat :: from <= k < starts[0] ==> !MatchesAt(s, m, k))
      && AreLeftmost(s, m, starts[0] + |m|, starts[1..])
  }

  /** `strings.Count` counts the matches found one after the other from the left. */
  lemma {:induction false} CountIsTheLeftmost(s: Text, m: Text, from: nat, starts: seq<nat>)
    requires m != [] && AreLeftmost(s, m, from, starts)
    ensures CountFrom(s, m, from) == |starts|
    decreases |starts|
  {
    var i := IndexFrom(s, m, from);
    if starts != [] {
      assert i == starts[0];
      CountIsTheLeftmost(s, m, i + |m|, starts[1..]);
    }
  }

  /** A text overlaps itself when a proper, non-empty end of it is also its beginning. */
  predicate Overlaps(m: Text) {
    exists k :: 0 < k < |m| && m[k..] == m[..|m| - k]
  }

  lemma OverlappingMatches(s: Text, m: Text, i: nat, k: nat)
    requires MatchesAt(s, m, i) && MatchesAt(s, m, k) && i < k < i + |m|
    ensures Overlaps(m)
  {
    var d := k - i;
    assert s[k..i + |m|] == s[i..i + |m|][d..] == m[d..];
    assert s[k..i + |m|] == s[k..k + |m|][..|m| - d] == m[..|m| - d];
  }

  ghost predicate OnlyMatch(s: Text, m: Text, i: nat) {
    MatchesAt(s, m, i) && forall k: nat :: MatchesAt(s, m, k) ==> k == i
  }

  /** For a text that does not overlap itself, a count of 1 is true uniqueness. */
  lemma CountIsOneMeansUnique(s: Text, m: Text)
    requires m != [] && !Overlaps(m)
    ensures Count(s, m) == 1 <==> exists i: nat :: OnlyMatch(s, m, i)
  {
    CountIsOneIff(s, m);
    var i := Index(s, m);
    if Count(s, m) == 1 {
      forall k: nat | MatchesAt(s, m, k) ensures k == i {
        if i < k < i + |m| {
          OverlappingMatches(s, m, i, k);
        }
      }
      assert OnlyMatch(s, m, i);
    }
    if j: nat :| OnlyMatch(s, m, j) {
      assert SoleLeftmost(s, m, j);
      assert i == j;
    }
  }

  /** For one that does, there is a text in which the count is 1 and two places match: its overlapping copies. */
  lemma OverlappingCopies(m: Text, k: nat)
    requires 0 < k < |m| && m[k..] == m[..|m| - k]
    ensures var s := m[..k] + m; MatchesAt(s, m, 0) && MatchesAt(s, m, k) && Count(s, m) == 1
  {
    var s := m[..k] + m;
    assert m == m[..k] + m[k..];
    assert m == m[..|m| - k] + m[|m| - k..];
    assert s[..|m|] == m[..k] + m[..|m| - k] == m;
    assert s[k..k + |m|] == m;
    assert MatchesAt(s, m, 0);
    CountIsOneIff(s, m);
  }

  /** So "aa" counts once in "aaa". */
  lemma CountIsOneWithTwoMatches()
    ensures Count([97, 97, 97], [97, 97]) == 1
    ensures MatchesAt([97, 97, 97], [97, 97], 0) && MatchesAt([97, 97, 97], [97, 97], 1)
  {
    var m: Text := [97, 97];
    assert m[1..] == m[..1] && m[..1] + m == [97, 97, 97];
    OverlappingCopies(m, 1);
  }

  /** A count of 1 means one match, in every text, if and only if the text looked for does not overlap itself. */
  lemma CountIsUniquenessIff(m: Text)
    requires m != []
    ensures (forall s: Text :: Count(s, m) == 1 <==> exists i: nat :: OnlyMatch(s, m, i)) <==> !Overlaps(m)
  {
    hide Count;
    if Overlaps(m) {
      var k :| 0 < k < |m| && m[k..] == m[..|m| - k];
      OverlappingCopies(m, k);
      assert Count(m[..k] + m, m) == 1;
    } else {
      forall s: Text ensures Count(s, m) == 1 <==> exists i: nat :: OnlyMatch(s, m, i) {
        CountIsOneMeansUnique(s, m);
      }
    }
  }
}
