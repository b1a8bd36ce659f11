/**
 The last edit layer: each run of spaces and tabs counts as one space, in the file
 and in `oldText`. A table of offsets maps the collapsed match back to the exact
 bytes it came from.
 */
module WhitespaceEdit {
  import opened Utf8
  import opened Lines
  import opened Matching
  import opened EditOutcome

  /** The byte at `i` opens a run of inline white space, or stands outside every run. */
  predicate StartsRun(s: Text, i: nat)
    requires i < |s|
  {
    !(IsInlineSpace(s[i]) && i > 0 && IsInlineSpace(s[i - 1]))
  }

  function Collapsed(s: Text): Text {
    if s == [] then []
    else
      var n := |s| - 1;
      Collapsed(s[..n]) + if !StartsRun(s, n) then [] else if IsInlineSpace(s[n]) then [SPACE] else [s[n]]
  }

  /** The original position of each collapsed byte. */
  function RunStarts(s: Text): (starts: seq<nat>)
    ensures |starts| == |Collapsed(s)|
    ensures forall k <- starts :: k < |s|
  {
    if s == [] then []
    else
      var n := |s| - 1;
      RunStarts(s[..n]) + if StartsRun(s, n) then [n] else []
  }

  function Offsets(s: Text): seq<nat> {
    RunStarts(s) + [|s|]
  }

  method CollapseInlineWhitespace(value: Text) returns (collapsed: Text, offsets: seq<nat>)
    ensures collapsed == Collapsed(value) && offsets == Offsets(value)
  {
    collapsed, offsets := [], [];
    var inWhitespaceRun := false;
    for index := 0 to |value|
      invariant inWhitespaceRun == (index > 0 && IsInlineSpace(value[index - 1]))
      invariant collapsed == Collapsed(value[..index]) && offsets == RunStarts(value[..index])
    {
      assert value[..index + 1][..index] == value[..index];
      var character := value[index];
      if IsInlineSpace(character) {
        if inWhitespaceRun {
          continue;
        }
        inWhitespaceRun := true;
        offsets := offsets + [index];
        collapsed := collapsed + [SPACE];
        continue;
      }
      inWhitespaceRun := false;
      offsets := offsets + [index];
      collapsed := collapsed + [character];
    }
    assert value[..|value|] == value;
    offsets := offsets + [|value|];
  }

  function ApplyWhitespaceEdit(content: Text, oldText: Text, newText: Text): Outcome {
    var collapsedOld := Collapsed(oldText);
    if IsBlank(collapsedOld) then NotApplied(0)
    else
      var collapsed := Collapsed(content);
      var count := Count(collapsed, collapsedOld);
      if count != 1 then NotApplied(count)
      else
        var start := Index(collapsed, collapsedOld);
        var end := start + |collapsedOld|;
        CountIsOneIff(collapsed, collapsedOld);
        OffsetCutsBetweenRuns(content, start);
        OffsetCutsBetweenRuns(content, end);
        Applied(content[..Offsets(content)[start]] + newText + content[Offsets(content)[end]..])
  }

  // ----- cutting between runs

  /** Cutting `s` at `a` splits no run. */
  predicate BetweenRuns(s: Text, a: nat) {
    a <= |s| && !(0 < a < |s| && IsInlineSpace(s[a - 1]) && IsInlineSpace(s[a]))
  }

  /** Text cut between runs collapses piece by piece. */
  lemma {:induction false} CollapsedConcat(s: Text, a: nat)
    requires BetweenRuns(s, a)
    ensures Collapsed(s) == Collapsed(s[..a]) + Collapsed(s[a..])
  {
    var n := |s| - 1;
    if a == |s| {
      assert s[..a] == s && s[a..] == [];
    } else if a == n {
      assert s[a..] == [s[n]] && s[a..][..0] == [];
    } else {
      assert s[..n][..a] == s[..a] && s[..n][a..] == s[a..][..n - a];
      CollapsedConcat(s[..n], a);
    }
  }

  lemma {:induction false} OffsetCutsBetweenRuns(s: Text, i: nat)
    requires i <= |Collapsed(s)|
    ensures BetweenRuns(s, Offsets(s)[i]) && |Collapsed(s[..Offsets(s)[i]])| == i
  {
    if i == |Collapsed(s)| {
      assert s[..|s|] == s;
    } else {
      var n := |s| - 1;
      if i < |Collapsed(s[..n])| {
        OffsetCutsBetweenRuns(s[..n], i);
        assert s[..n][..Offsets(s)[i]] == s[..Offsets(s)[i]];
      }
    }
  }

  /** A cut between runs is in the table, at the place its collapsed prefix ends. */
  lemma {:induction false} CutIsInTheTable(s: Text, a: nat)
    requires BetweenRuns(s, a)
    ensures |Collapsed(s[..a])| <= |Collapsed(s)| && Offsets(s)[|Collapsed(s[..a])|] == a
  {
    if a == |s| {
      assert s[..a] == s;
    } else if a < |s| - 1 {
      var n := |s| - 1;
      assert s[..n][..a] == s[..a];
      CutIsInTheTable(s[..n], a);
      CollapsedConcat(s[..n], a);
      assert BetweenRuns(s[..n], a) && |Collapsed(s[..n][a..])| > 0 by { FirstByteIsKept(s[..n][a..]); }
    }
  }

  lemma NothingCollapses()
    ensures Collapsed([]) == []
  {
  }

  lemma {:induction false} FirstByteIsKept(s: Text)
    requires s != []
    ensures Collapsed(s) != []
    ensures Collapsed(s)[0] == if IsInlineSpace(s[0]) then SPACE else s[0]
  {
    if |s| > 1 {
      FirstByteIsKept(s[..|s| - 1]);
    }
  }

  /** The offset table is strictly increasing: one entry for every collapsed byte, and the end. */
  lemma {:induction false} OffsetsIncrease(s: Text, i: nat, j: nat)
    requires i < j <= |Collapsed(s)|
    ensures Offsets(s)[i] < Offsets(s)[j]
  {
    if j == |Collapsed(s)| {
      assert RunStarts(s)[i] in RunStarts(s);
    } else {
      var n := |s| - 1;
      if j == |RunStarts(s[..n])| {
        assert RunStarts(s[..n])[i] in RunStarts(s[..n]);
      } else {
        OffsetsIncrease(s[..n], i, j);
      }
    }
  }

  /** The bytes between two offsets collapse to exactly the collapsed bytes between their positions. */
  lemma SliceCollapses(s: Text, i: nat, j: nat)
    requires i <= j <= |Collapsed(s)|
    ensures Offsets(s)[i] <= Offsets(s)[j] <= |s|
    ensures Collapsed(s[Offsets(s)[i]..Offsets(s)[j]]) == Collapsed(s)[i..j]
  {
    hide Collapsed, RunStarts;
    var a, b := Offsets(s)[i], Offsets(s)[j];
    OffsetCutsBetweenRuns(s, i);
    OffsetCutsBetweenRuns(s, j);
    if i < j {
      OffsetsIncrease(s, i, j);
    }
    SpanCollapses(s, a, b);
  }

  lemma SpanCollapses(s: Text, a: nat, b: nat)
    requires a <= b && BetweenRuns(s, a) && BetweenRuns(s, b)
    ensures var i, j := |Collapsed(s[..a])|, |Collapsed(s[..b])|;
            i <= j <= |Collapsed(s)| && Collapsed(s[a..b]) == Collapsed(s)[i..j]
  {
    hide Collapsed;
    CollapsedConcat(s, b);
    assert s[..b][..a] == s[..a] && s[..b][a..] == s[a..b];
    CollapsedConcat(s[..b], a);
  }

  // ----- what collapsing leaves

  /** A text as its bytes other than spaces and tabs, each with whether some spacing stands before it. */
  datatype Shape = Shape(bytes: seq<(bool, Byte)>, endsSpaced: bool)

  function ShapeOf(s: Text): Shape {
    if s == [] then Shape([], false) else OneByteMore(ShapeOf(s[..|s| - 1]), s[|s| - 1])
  }

  function OneByteMore(shape: Shape, b: Byte): Shape {
    if IsInlineSpace(b) then shape.(endsSpaced := true) else Shape(shape.bytes + [(shape.endsSpaced, b)], false)
  }

  /** The text of a shape with the least spacing. */
  function Plainest(shape: Shape): Text {
    PlainestBytes(shape.bytes) + if shape.endsSpaced then [SPACE] else []
  }

  function PlainestBytes(bytes: seq<(bool, Byte)>): Text {
    if bytes == [] then []
    else
      var n := |bytes| - 1;
      PlainestBytes(bytes[..n]) + (if bytes[n].0 then [SPACE, bytes[n].1] else [bytes[n].1])
  }

  lemma PlainestOfMore(shape: Shape, b: Byte)
    ensures Plainest(OneByteMore(shape, b)) ==
            if !IsInlineSpace(b) then Plainest(shape) + [b]
            else if shape.endsSpaced then Plainest(shape)
            else Plainest(shape) + [SPACE]
  {
    var more := OneByteMore(shape, b);
    if !IsInlineSpace(b) {
      assert more.bytes[..|shape.bytes|] == shape.bytes;
    }
  }

  lemma ShapeOfMore(s: Text, b: Byte)
    ensures ShapeOf(s + [b]) == OneByteMore(ShapeOf(s), b)
  {
    assert (s + [b])[..|s|] == s;
  }

  lemma {:induction false} CollapsedIsPlainest(s: Text)
    ensures Collapsed(s) == Plainest(ShapeOf(s))
    ensures ShapeOf(s).endsSpaced <==> s != [] && IsInlineSpace(s[|s| - 1])
  {
    if s != [] {
      var n := |s| - 1;
      CollapsedIsPlainest(s[..n]);
      PlainestOfMore(ShapeOf(s[..n]), s[n]);
    }
  }

  lemma {:induction false} ShapeOfPlainest(s: Text)
    ensures ShapeOf(Plainest(ShapeOf(s))) == ShapeOf(s)
  {
    if s != [] {
      var before, last := ShapeOf(s[..|s| - 1]), s[|s| - 1];
      ShapeOfPlainest(s[..|s| - 1]);
      PlainestOfMore(before, last);
      ShapeOfMore(Plainest(before), SPACE);
      ShapeOfMore(Plainest(before), last);
      hide Plainest;
    }
  }

  /** Texts collapse alike exactly when they hold the same bytes with spacing, of any kind, in the same places. */
  lemma CollapseAlikeIff(a: Text, b: Text)
    ensures Collapsed(a) == Collapsed(b) <==> ShapeOf(a) == ShapeOf(b)
  {
    CollapsedIsPlainest(a);
    CollapsedIsPlainest(b);
    ShapeOfPlainest(a);
    ShapeOfPlainest(b);
  }

  // ----- what an edit replaces

  /** The bytes from `a` to `b` are whole runs and differ from `oldText` in inline spacing only. */
  ghost predicate SameUpToSpacing(content: Text, oldText: Text, a: nat, b: nat) {
    && a <= b && BetweenRuns(content, a) && BetweenRuns(content, b)
    && ShapeOf(content[a..b]) == ShapeOf(oldText)
  }

  /** They are the leftmost such bytes, and no such bytes start at or after their end. */
  ghost predicate SoleSpan(content: Text, oldText: Text, a: nat, b: nat) {
    && SameUpToSpacing(content, oldText, a, b)
    && (forall x: nat, y: nat :: SameUpToSpacing(content, oldText, x, y) ==> a <= x < b)
  }

  lemma SpanIsMatch(content: Text, oldText: Text, a: nat, b: nat)
    requires SameUpToSpacing(content, oldText, a, b)
    ensures MatchesAt(Collapsed(content), Collapsed(oldText), |Collapsed(content[..a])|)
    ensures |Collapsed(content[..a])| + |Collapsed(oldText)| == |Collapsed(content[..b])|
  {
    hide Collapsed;
    SpanCollapses(content, a, b);
    CollapseAlikeIff(content[a..b], oldText);
  }

  lemma MatchIsASlice(s: Text, m: Text, i: nat)
    requires MatchesAt(s, m, i)
    ensures i + |m| <= |s| && s[i..i + |m|] == m
  {
  }

  lemma CollapsesAlike(content: Text, oldText: Text, a: nat, b: nat)
    requires a <= b && BetweenRuns(content, a) && BetweenRuns(content, b)
    requires Collapsed(content[a..b]) == Collapsed(oldText)
    ensures SameUpToSpacing(content, oldText, a, b)
  {
    hide Collapsed, ShapeOf;
    CollapseAlikeIff(content[a..b], oldText);
  }

  lemma MatchIsSpan(content: Text, oldText: Text, i: nat)
    requires MatchesAt(Collapsed(content), Collapsed(oldText), i)
    ensures SameUpToSpacing(content, oldText, Offsets(content)[i], Offsets(content)[i + |Collapsed(oldText)|])
  {
    hide Collapsed, RunStarts, StartsRun, BetweenRuns, MatchesAt, SameUpToSpacing;
    var j := i + |Collapsed(oldText)|;
    MatchIsASlice(Collapsed(content), Collapsed(oldText), i);
    OffsetCutsBetweenRuns(content, i);
    OffsetCutsBetweenRuns(content, j);
    SliceCollapses(content, i, j);
    var a, b := Offsets(content)[i], Offsets(content)[j];
    hide Offsets;
    CollapsesAlike(content, oldText, a, b);
  }

  /** Cutting later between runs leaves a longer collapsed prefix. */
  lemma LaterCutsCollapseLater(s: Text, a: nat, b: nat)
    requires BetweenRuns(s, a) && BetweenRuns(s, b)
    ensures a < b <==> |Collapsed(s[..a])| < |Collapsed(s[..b])|
  {
    hide Collapsed;
    CutIsInTheTable(s, a);
    CutIsInTheTable(s, b);
    var i, j := |Collapsed(s[..a])|, |Collapsed(s[..b])|;
    if i < j {
      OffsetsIncrease(s, i, j);
    } else if j < i {
      OffsetsIncrease(s, j, i);
    }
  }

  lemma SoleMatchIsSoleSpan(content: Text, oldText: Text)
    requires Collapsed(oldText) != [] && Count(Collapsed(content), Collapsed(oldText)) == 1
    ensures var i := Index(Collapsed(content), Collapsed(oldText));
            && 0 <= i && i + |Collapsed(oldText)| <= |Collapsed(content)|
            && SoleSpan(content, oldText, Offsets(content)[i], Offsets(content)[i + |Collapsed(oldText)|])
  {
    hide Collapsed, CountFrom, IndexFrom;
    var s, m := Collapsed(content), Collapsed(oldText);
    CountIsOneIff(s, m);
    var i := Index(s, m);
    MatchIsSpan(content, oldText, i);
    OffsetCutsBetweenRuns(content, i);
    OffsetCutsBetweenRuns(content, i + |m|);
    var a, b := Offsets(content)[i], Offsets(content)[i + |m|];
    forall x: nat, y: nat | SameUpToSpacing(content, oldText, x, y) ensures a <= x < b {
      SpanIsMatch(content, oldText, x, y);
      LaterCutsCollapseLater(content, x, a);
      LaterCutsCollapseLater(content, x, b);
    }
  }

  lemma SoleSpanIsSoleMatch(content: Text, oldText: Text, a: nat, b: nat)
    requires Collapsed(oldText) != [] && SoleSpan(content, oldText, a, b)
    ensures var i := |Collapsed(content[..a])|;
            && Count(Collapsed(content), Collapsed(oldText)) == 1
            && Index(Collapsed(content), Collapsed(oldText)) == i
            && i + |Collapsed(oldText)| <= |Collapsed(content)|
            && Offsets(content)[i] == a && Offsets(content)[i + |Collapsed(oldText)|] == b
  {
    hide Collapsed, CountFrom, IndexFrom;
    var s, m := Collapsed(content), Collapsed(oldText);
    var i := |Collapsed(content[..a])|;
    SpanIsMatch(content, oldText, a, b);
    CutIsInTheTable(content, a);
    CutIsInTheTable(content, b);
    forall k: nat | MatchesAt(s, m, k) ensures i <= k < i + |m| {
      MatchIsSpan(content, oldText, k);
      OffsetCutsBetweenRuns(content, k);
      var x := Offsets(content)[k];
      LaterCutsCollapseLater(content, x, a);
      LaterCutsCollapseLater(content, x, b);
    }
    CountIsOneIff(s, m);
    assert MatchesAt(s, m, Index(s, m));
  }

  /**
   The edit applies exactly when `oldText` is not blank and one span of whole runs
   differs from it in inline spacing only; it replaces that span and keeps every
   other byte.
   */
  lemma WhitespaceEditReplacesTheSoleSpan(content: Text, oldText: Text, newText: Text)
    ensures var outcome := ApplyWhitespaceEdit(content, oldText, newText);
            && (outcome.Applied? <==>
                  !IsBlank(Collapsed(oldText)) && exists a: nat, b: nat :: SoleSpan(content, oldText, a, b))
            && (forall a: nat, b: nat :: SoleSpan(content, oldText, a, b) && outcome.Applied? ==>
                  outcome == Applied(content[..a] + newText + content[b..]))
  {
    hide ApplyWhitespaceEdit, SoleSpan, Collapsed, IsBlank;
    if ApplyWhitespaceEdit(content, oldText, newText).Applied? {
      AppliedHasASpan(content, oldText, newText);
    }
    forall a: nat, b: nat | SoleSpan(content, oldText, a, b) && !IsBlank(Collapsed(oldText))
      ensures b <= |content| && a <= b
      ensures ApplyWhitespaceEdit(content, oldText, newText) == Applied(content[..a] + newText + content[b..])
    {
      SpanIsApplied(content, oldText, newText, a, b);
    }
  }

  lemma AppliedHasASpan(content: Text, oldText: Text, newText: Text)
    requires ApplyWhitespaceEdit(content, oldText, newText).Applied?
    ensures !IsBlank(Collapsed(oldText)) && exists a: nat, b: nat :: SoleSpan(content, oldText, a, b)
  {
    hide Collapsed, Count, Index, SoleSpan;
    SoleMatchIsSoleSpan(content, oldText);
    var i := Index(Collapsed(content), Collapsed(oldText));
    assert SoleSpan(content, oldText, Offsets(content)[i], Offsets(content)[i + |Collapsed(oldText)|]);
  }

  lemma NothingIsBlank()
    ensures IsBlank([])
  {
  }

  lemma SpanIsWithin(content: Text, oldText: Text, a: nat, b: nat)
    requires SoleSpan(content, oldText, a, b)
    ensures a <= b <= |content|
  {
    hide Collapsed;
  }

  lemma SpanIsApplied(content: Text, oldText: Text, newText: Text, a: nat, b: nat)
    requires SoleSpan(content, oldText, a, b) && !IsBlank(Collapsed(oldText))
    ensures a <= b <= |content|
    ensures ApplyWhitespaceEdit(content, oldText, newText) == Applied(content[..a] + newText + content[b..])
  {
    hide Collapsed, Count, Index, RunStarts, Offsets, SoleSpan, IsBlank;
    NothingIsBlank();
    SpanIsWithin(content, oldText, a, b);
    SoleSpanIsSoleMatch(content, oldText, a, b);
  }
}
