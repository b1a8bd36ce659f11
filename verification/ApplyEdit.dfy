/** The edit tool's four match layers in order, and what they have in common. */
module ApplyEdit {
  import opened Slices
  import opened Utf8
  import opened Lines
  import opened Matching
  import opened EditOutcome
  import Paging
  import L = LeadingEdit
  import U = UnicodeEdit
  import W = WhitespaceEdit

  /** `applyExactOrTolerantEdit`. */
  function Apply(content: Text, oldText: Text, newText: Text): Outcome {
    if oldText == [] then NotApplied(0)
    else
      var count := Count(content, oldText);
      if count > 1 then NotApplied(count)
      else if count == 1 then
        CountIsOneIff(content, oldText);
        Applied(ReplaceOne(content, oldText, newText))
      else ApplyTolerant(content, oldText, newText)
  }

  function ApplyTolerant(content: Text, oldText: Text, newText: Text): Outcome
    requires oldText != []
  {
    var leading := L.ApplyLeadingEdit(content, oldText, newText);
    if leading.Some? then Applied(leading.value)
    else
      var unicode := U.ApplyUnicodeEdit(content, oldText, newText);
      if unicode.Applied? || unicode.matches > 1 then unicode
      else
        var spaced := W.ApplyWhitespaceEdit(content, oldText, newText);
        if spaced.Applied? || spaced.matches > 1 then spaced else NotApplied(0)
  }

  // ----- which layer answers

  ghost predicate Found(content: Text, oldText: Text) {
    exists i: nat :: MatchesAt(content, oldText, i)
  }

  /** The least indentation of the lines of both texts that are not blank. */
  function Amount(oldText: Text, newText: Text): nat {
    L.CommonIndent(Split(oldText) + Split(newText))
  }

  ghost predicate IsOneWindow(content: Text, oldText: Text, newText: Text, at: nat, prefix: Text) {
    L.OnlyMatch(Split(content), Split(oldText), at, prefix, Amount(oldText, newText))
  }

  ghost predicate OneWindow(content: Text, oldText: Text, newText: Text) {
    exists at: nat, prefix: Text :: IsOneWindow(content, oldText, newText, at, prefix)
  }

  ghost predicate WindowIsReplaced(content: Text, oldText: Text, newText: Text, at: nat, prefix: Text, updated: Text) {
    L.IsReplaced(Split(updated), Split(content), at, |Split(oldText)|, Split(newText), prefix, Amount(oldText, newText))
  }

  ghost predicate LookAlikeFound(content: Text, oldText: Text) {
    exists a: nat, b: nat :: U.LooksAlike(content, oldText, a, b)
  }

  /**
   What each layer promises when its turn comes: the text is not found as it is; not exactly
   one window of lines fits; nothing looks like it.
   */
  ghost predicate AnsweredBy(content: Text, oldText: Text, newText: Text, outcome: Outcome) {
    && (forall i: nat :: SoleLeftmost(content, oldText, i) ==>
          outcome == Applied(content[..i] + newText + content[i + |oldText|..]))
    && (!Found(content, oldText) ==>
          && (forall at: nat, prefix: Text :: IsOneWindow(content, oldText, newText, at, prefix) ==>
                outcome.Applied? && WindowIsReplaced(content, oldText, newText, at, prefix, outcome.updated))
          && (!OneWindow(content, oldText, newText) ==>
                && (forall a: nat, b: nat :: U.SoleLookAlike(content, oldText, a, b) ==>
                      outcome == Applied(content[..a] + newText + content[b..]))
                && (!LookAlikeFound(content, oldText) && !IsBlank(W.Collapsed(oldText)) ==>
                      forall a: nat, b: nat :: W.SoleSpan(content, oldText, a, b) ==>
                        outcome == Applied(content[..a] + newText + content[b..]))))
  }

  /**
   Some layer found its one place in its turn. The exact and the look-alike layer pass the
   turn on only when they found no place at all; the layer of lines also when it found several.
   */
  ghost predicate SomeLayerAnswers(content: Text, oldText: Text, newText: Text) {
    || (exists i: nat :: SoleLeftmost(content, oldText, i))
    || (&& !Found(content, oldText)
        && (|| OneWindow(content, oldText, newText)
            || (exists a: nat, b: nat :: U.SoleLookAlike(content, oldText, a, b))
            || (&& !LookAlikeFound(content, oldText)
                && !IsBlank(W.Collapsed(oldText))
                && exists a: nat, b: nat :: W.SoleSpan(content, oldText, a, b))))
  }

  lemma CountIsZeroIff(s: Text, m: Text)
    requires m != []
    ensures Count(s, m) == 0 <==> forall i: nat :: !MatchesAt(s, m, i)
  {
    if Index(s, m) != -1 {
      assert MatchesAt(s, m, Index(s, m));
    }
  }

  lemma SoleLeftmostIffCountIsOne(s: Text, m: Text)
    requires m != []
    ensures (exists i: nat :: SoleLeftmost(s, m, i)) <==> Count(s, m) == 1
    ensures forall i: nat :: SoleLeftmost(s, m, i) ==> Index(s, m) == i
  {
    CountIsOneIff(s, m);
    forall i: nat | SoleLeftmost(s, m, i) ensures Index(s, m) == i {
      assert MatchesAt(s, m, Index(s, m));
    }
  }

  lemma NoLookAlikeIffNoMatch(content: Text, oldText: Text, newText: Text)
    requires Valid(content) && oldText != []
    ensures U.ApplyUnicodeEdit(content, oldText, newText) == NotApplied(0) <==> !LookAlikeFound(content, oldText)
    ensures U.ApplyUnicodeEdit(content, oldText, newText) != NotApplied(1)
  {
    hide Encode, Decode, Valid, U.PlainRunes, U.LooksAlike;
    U.PlainIsNotEmpty(oldText);
    var plain, m := U.PlainRunes(Decode(content)), U.PlainRunes(Decode(oldText));
    CountIsZeroIff(U.Plain(content), U.Plain(oldText));
    if i: nat :| MatchesAt(U.Plain(content), U.Plain(oldText), i) {
      var k := U.ByteMatchIsRuneMatch(plain, m, i);
      U.RuneMatchIsLookAlike(content, oldText, k);
    }
    if a: nat, b: nat :| U.LooksAlike(content, oldText, a, b) {
      var k := U.LookAlikeIsRuneMatch(content, oldText, a, b);
      U.RuneMatchIsByteMatch(plain, m, k);
    }
  }

  lemma LeadingLayerAnswers(content: Text, oldText: Text, newText: Text)
    ensures var outcome := L.ApplyLeadingEdit(content, oldText, newText);
            && (outcome.Some? <==> OneWindow(content, oldText, newText))
            && (forall at: nat, prefix: Text :: IsOneWindow(content, oldText, newText, at, prefix) ==>
                  outcome.Some? && WindowIsReplaced(content, oldText, newText, at, prefix, outcome.value))
  {
    hide L.ApplyLeadingEdit, L.OnlyMatch, L.IsReplaced, L.IsLeastIndent, L.CommonIndent;
    var amount := Amount(oldText, newText);
    L.LeastIndentIsCommon(Split(oldText) + Split(newText), amount);
    L.LeadingEditReplacesTheOnlyWindow(content, oldText, newText, amount);
    if at: nat, prefix: Text :| L.OnlyMatch(Split(content), Split(oldText), at, prefix, amount) {
      assert IsOneWindow(content, oldText, newText, at, prefix);
    }
  }

  lemma TolerantLayersAnswer(content: Text, oldText: Text, newText: Text)
    requires Valid(content) && oldText != [] && !Found(content, oldText)
    ensures AnsweredBy(content, oldText, newText, ApplyTolerant(content, oldText, newText))
    ensures ApplyTolerant(content, oldText, newText).Applied? <==> SomeLayerAnswers(content, oldText, newText)
  {
    hide Valid, L.ApplyLeadingEdit, U.ApplyUnicodeEdit, U.SoleLookAlike, U.LooksAlike;
    hide W.ApplyWhitespaceEdit, W.SoleSpan, W.Collapsed, IsBlank, Split, IsOneWindow, WindowIsReplaced;
    LeadingLayerAnswers(content, oldText, newText);
    U.UnicodeEditReplacesTheSoleLookAlike(content, oldText, newText);
    NoLookAlikeIffNoMatch(content, oldText, newText);
    W.WhitespaceEditReplacesTheSoleSpan(content, oldText, newText);
  }

  /**
   On valid content the tool applies an edit exactly when some layer finds one place in its
   turn, and it replaces that place and nothing else.
   */
  lemma EditReplacesOnePlace(content: Text, oldText: Text, newText: Text)
    requires Valid(content) && oldText != []
    ensures AnsweredBy(content, oldText, newText, Apply(content, oldText, newText))
    ensures Apply(content, oldText, newText).Applied? <==> SomeLayerAnswers(content, oldText, newText)
  {
    hide Valid, ApplyTolerant, OneWindow, LookAlikeFound, Count;
    CountIsZeroIff(content, oldText);
    SoleLeftmostIffCountIsOne(content, oldText);
    if !Found(content, oldText) {
      TolerantLayersAnswer(content, oldText, newText);
    }
  }

  // ----- several windows of lines do not refuse an edit

  ghost predicate SeveralWindows(content: Text, oldText: Text, newText: Text) {
    exists k: nat, l: nat, p: Text, q: Text ::
      k < l && TwoWindows(Split(content), Split(oldText), Amount(oldText, newText), k, p, l, q)
  }

  ghost predicate TwoWindows(file: seq<Text>, old': seq<Text>, amount: nat, k: nat, p: Text, l: nat, q: Text) {
    L.WindowMatches(file, old', k, p, amount) && L.WindowMatches(file, old', l, q, amount)
  }

  lemma SeveralAreNotOne(content: Text, oldText: Text, newText: Text)
    requires SeveralWindows(content, oldText, newText)
    ensures !OneWindow(content, oldText, newText)
  {
    hide Split, Amount, L.WindowMatches;
    var file, old', amount := Split(content), Split(oldText), Amount(oldText, newText);
    var k: nat, l: nat, p: Text, q: Text :| k < l && TwoWindows(file, old', amount, k, p, l, q);
    forall at: nat, prefix: Text ensures !IsOneWindow(content, oldText, newText, at, prefix) {
      assert L.WindowMatches(file, old', k, p, amount) && L.WindowMatches(file, old', l, q, amount);
    }
  }

  /**
   An edit whose text is not found as it is, and that several windows of lines fit, is applied
   all the same exactly when one span looks like the text, or none does and one span, the text
   not being blank, differs from it in spacing only.
   */
  lemma SeveralWindowsAreAppliedIff(content: Text, oldText: Text, newText: Text)
    requires Valid(content) && oldText != [] && !Found(content, oldText) && SeveralWindows(content, oldText, newText)
    ensures Apply(content, oldText, newText).Applied? <==>
            || (exists a: nat, b: nat :: U.SoleLookAlike(content, oldText, a, b))
            || (&& !LookAlikeFound(content, oldText) && !IsBlank(W.Collapsed(oldText))
                && exists a: nat, b: nat :: W.SoleSpan(content, oldText, a, b))
  {
    hide Valid, Apply, LookAlikeFound, U.SoleLookAlike, W.SoleSpan, W.Collapsed, IsBlank;
    SeveralAreNotOne(content, oldText, newText);
    EditReplacesOnePlace(content, oldText, newText);
    assert forall i: nat :: SoleLeftmost(content, oldText, i) ==> MatchesAt(content, oldText, i);
  }

  /** "x", "x" and "x", no-break space, "y" as lines; the text "x " fits the first two and is replaced in the third. */
  const TWO_WINDOWS: Text := [120, 10, 120, 10, 120, 0xC2, 0xA0, 121]
  const X_AND_SPACE: Text := [120, 32]

  lemma SplitOfTheExample()
    ensures Split(TWO_WINDOWS) == [[120], [120], [120, 0xC2, 0xA0, 121]]
    ensures Split(X_AND_SPACE) == [X_AND_SPACE] && Split([122]) == [[122]]
  {
    hide Split;
    var lines: seq<Text> := [[120], [120], [120, 0xC2, 0xA0, 121]];
    assert Join(lines[2..]) == lines[2] && lines[1..][1..] == lines[2..];
    assert Join(lines[1..]) == [120, 10, 120, 0xC2, 0xA0, 121];
    assert Join(lines) == TWO_WINDOWS;
    SplitInvertsJoin(lines);
    SplitInvertsJoin([X_AND_SPACE]);
    SplitInvertsJoin([[122]]);
  }

  lemma IndentOfTheExample()
    ensures L.CommonIndent([X_AND_SPACE] + [[122]]) == 0
  {
    hide L.LeastIndent;
    var both: seq<Text> := [X_AND_SPACE] + [[122]];
    assert Width(both[1]) == 1 && both[1][1..] == [];
    assert Decode(both[1]) == [122] && 122 in Decode(both[1]);
    assert !IsBlank(both[1]) && L.LeadingLength(both[1]) == 0;
    L.LeastIndentIs(both);
  }

  lemma BothWindowsMatch()
    ensures var file: seq<Text> := [[120], [120], [120, 0xC2, 0xA0, 121]];
            TwoWindows(file, [X_AND_SPACE], 0, 0, [], 1, [])
  {
    hide IsBlank;
    var line: Text := [120];
    assert L.TrimRight(line) == line;
    assert X_AND_SPACE[..1] == line && L.TrimRight(X_AND_SPACE) == line;
    assert L.LeadingLength(line) == 0;
    assert L.LineMatches(line, X_AND_SPACE, [], 0);
  }

  lemma {:induction false} AsciiEncodes(runes: seq<Rune>)
    requires forall k :: 0 <= k < |runes| ==> runes[k] < 0x80
    ensures |Encode(runes)| == |runes| && forall k :: 0 <= k < |runes| ==> Encode(runes)[k] == runes[k]
  {
    if runes != [] {
      AsciiEncodes(runes[1..]);
      assert Encode(runes) == [runes[0]] + Encode(runes[1..]);
    }
  }

  lemma RunesOfTheExample()
    ensures Valid(TWO_WINDOWS) && Decode(TWO_WINDOWS) == [120, 10, 120, 10, 120, 0xA0, 121]
    ensures Decode(X_AND_SPACE) == [120, 32]
  {
    hide Encode, Decode, Valid;
    var before: seq<Rune>, after: seq<Rune>, text: seq<Rune> := [120, 10, 120, 10, 120], [121], [120, 32];
    AsciiEncodes(before);
    AsciiEncodes(after);
    AsciiEncodes(text);
    NoBreakSpaceEncodes();
    EncodeConcat([0xA0], after);
    EncodeConcat(before, [0xA0] + after);
    assert before + ([0xA0] + after) == [120, 10, 120, 10, 120, 0xA0, 121];
    assert Encode(before + ([0xA0] + after)) == TWO_WINDOWS;
    assert Encode(text) == X_AND_SPACE;
    DecodeInvertsEncode(before + ([0xA0] + after));
    DecodeInvertsEncode(text);
  }

  lemma NoBreakSpaceEncodes()
    ensures Encode([0xA0]) == [0xC2, 0xA0]
  {
    var runes: seq<Rune> := [0xA0];
    assert runes[1..] == [] && EncodeRune(0xA0) == [0xC2, 0xA0];
  }

  /** Two windows fit, and the edit is applied elsewhere. */
  lemma SeveralWindowsCanBeApplied()
    ensures !Found(TWO_WINDOWS, X_AND_SPACE) && SeveralWindows(TWO_WINDOWS, X_AND_SPACE, [122])
    ensures Apply(TWO_WINDOWS, X_AND_SPACE, [122]).Applied?
  {
    hide Valid, Decode, Encode, Apply, Split, TwoWindows, L.CommonIndent, U.SoleLookAlike;
    SplitOfTheExample();
    IndentOfTheExample();
    BothWindowsMatch();
    assert TwoWindows(Split(TWO_WINDOWS), Split(X_AND_SPACE), Amount(X_AND_SPACE, [122]), 0, [], 1, []);
    forall i: nat | MatchesAt(TWO_WINDOWS, X_AND_SPACE, i) ensures 32 in TWO_WINDOWS {
      assert TWO_WINDOWS[i..i + 2][1] == X_AND_SPACE[1];
    }
    RunesOfTheExample();
    var plain, m := U.PlainRunes(Decode(TWO_WINDOWS)), U.PlainRunes(Decode(X_AND_SPACE));
    assert plain == [120, 10, 120, 10, 120, 32, 121] && m == [120, 32];
    assert U.RunesMatchAt(plain, m, 4);
    forall j: nat | U.RunesMatchAt(plain, m, j) ensures j == 4 {
      assert plain[j..j + 2][1] == plain[j + 1] == 32;
    }
    U.SoleRuneMatchIsSole(TWO_WINDOWS, X_AND_SPACE, 4);
    SeveralWindowsAreAppliedIff(TWO_WINDOWS, X_AND_SPACE, [122]);
  }

  // ----- edits keep text valid

  lemma {:induction false} AsciiIsValid(s: Text)
    requires forall k :: 0 <= k < |s| ==> s[k] < 0x80
    ensures Valid(s)
  {
    if s != [] {
      AsciiIsValid(s[1..]);
    }
  }

  lemma ReplacementIsValid(content: Text, newText: Text, a: nat, b: nat)
    requires Valid(content) && Valid(newText) && a <= b <= |content|
    requires Valid(content[..a]) && Valid(content[..b])
    ensures Valid(content[..a] + newText + content[b..])
  {
    hide Valid;
    CutIsValidOnBothSides(content, b);
    ValidConcat(content[..a], newText);
    ValidConcat(content[..a] + newText, content[b..]);
  }

  lemma {:induction false} LinesOfValidTextAreValid(lines: seq<Text>)
    requires Valid(Join(lines))
    ensures forall line <- lines :: Valid(line)
  {
    hide Valid;
    if |lines| == 1 {
      assert lines[0] == Join(lines);
    } else if |lines| > 1 {
      var s, rest := Join(lines), [NEWLINE] + Join(lines[1..]);
      assert s == lines[0] + rest && s[..|lines[0]|] == lines[0] && s[|lines[0]|] == NEWLINE;
      CutIffRuneStart(s, |lines[0]|);
      ValidRemainder(lines[0], rest);
      AsciiIsValid([NEWLINE]);
      ValidRemainder([NEWLINE], Join(lines[1..]));
      LinesOfValidTextAreValid(lines[1..]);
      assert lines == [lines[0]] + lines[1..];
    }
  }

  lemma {:induction false} JoinOfValidLinesIsValid(lines: seq<Text>)
    requires forall line <- lines :: Valid(line)
    ensures Valid(Join(lines))
  {
    hide Valid;
    if lines == [] {
      AsciiIsValid([]);
    } else if |lines| > 1 {
      JoinOfValidLinesIsValid(lines[1..]);
      AsciiIsValid([NEWLINE]);
      ValidConcat(lines[0], [NEWLINE]);
      ValidConcat(lines[0] + [NEWLINE], Join(lines[1..]));
    }
  }

  /** Dropping leading spaces and tabs, or adding some, keeps a line valid. */
  lemma OutdentedIsValid(line: Text, amount: nat)
    requires Valid(line) && (!IsBlank(line) ==> amount <= L.LeadingLength(line))
    ensures Valid(L.Outdented(line, amount))
  {
    hide Valid, IsBlank;
    if !IsBlank(line) {
      AsciiIsValid(line[..amount]);
      assert line == line[..amount] + line[amount..];
      ValidRemainder(line[..amount], line[amount..]);
    }
  }

  lemma ReindentedIsValid(line: Text, prefix: Text)
    requires Valid(line) && forall k :: 0 <= k < |prefix| ==> IsInlineSpace(prefix[k])
    ensures Valid(L.Reindented(line, prefix))
  {
    hide Valid, IsBlank;
    AsciiIsValid(prefix);
    ValidConcat(prefix, line);
  }

  lemma EditedLinesAreValid(content: Text, oldText: Text, newText: Text, at: nat, prefix: Text)
    requires Valid(content) && Valid(newText)
    requires L.WindowFits(L.LinesOf(content, oldText, newText), at, prefix)
    ensures forall line <- L.EditedLines(L.LinesOf(content, oldText, newText), at, prefix) :: Valid(line)
  {
    hide Valid, Split, IsBlank, L.Fits, L.LeastIndent, L.Outdented, L.Reindented;
    var texts := L.LinesOf(content, oldText, newText);
    var part, replacement := Split(oldText), Split(newText);
    var amount := L.CommonIndent(part + replacement);
    L.LeastIndentIs(part + replacement);
    JoinInvertsSplit(content);
    JoinInvertsSplit(newText);
    LinesOfValidTextAreValid(Split(content));
    LinesOfValidTextAreValid(replacement);
    L.PrefixIsCommonIndentation(texts.file[at..at + |texts.pattern|], texts.pattern, prefix);
    forall i | 0 <= i < |replacement| ensures Valid(L.ReindentedLines(texts.replacement, prefix)[i]) {
      assert replacement[i] == (part + replacement)[|part| + i];
      assert replacement[i] in replacement;
      OutdentedIsValid(replacement[i], amount);
      ReindentedIsValid(L.Outdented(replacement[i], amount), prefix);
    }
  }

  lemma LeadingEditKeepsValid(content: Text, oldText: Text, newText: Text)
    requires Valid(content) && Valid(newText) && L.ApplyLeadingEdit(content, oldText, newText).Some?
    ensures Valid(L.ApplyLeadingEdit(content, oldText, newText).value)
  {
    hide Valid, L.LinesOf, L.ApplyLeadingEdit, L.EditedLines, Split;
    L.OnlyWindowIsEdited(content, oldText, newText);
    var texts := L.LinesOf(content, oldText, newText);
    var at: nat, prefix: Text :| L.OnlyWindow(texts, at, prefix);
    EditedLinesAreValid(content, oldText, newText, at, prefix);
    JoinOfValidLinesIsValid(L.EditedLines(texts, at, prefix));
    JoinInvertsSplit(L.ApplyLeadingEdit(content, oldText, newText).value);
  }

  lemma {:induction false} LastRune(s: Text) returns (k: nat)
    requires Valid(s) && s != []
    ensures k < |s| && Valid(s[..k]) && Width(s[k..]) == |s| - k
    decreases |s|
  {
    var w := Width(s);
    if w == |s| {
      k := 0;
    } else {
      var rest := LastRune(s[w..]);
      k := w + rest;
      FirstRuneIsValid(s);
      Cut(s, w, k);
      Drop(s, w, rest);
      hide Valid, Width;
      ValidConcat(s[..w], s[w..k]);
    }
  }

  lemma {:induction false} CollapsedWithoutSpaces(s: Text)
    requires forall k :: 0 <= k < |s| ==> !IsInlineSpace(s[k])
    ensures W.Collapsed(s) == s
  {
    if s != [] {
      CollapsedWithoutSpaces(s[..|s| - 1]);
      AllButLast(s);
    }
  }

  /** Appending bytes that are no spaces appends them to the collapsed text. */
  lemma CollapsedAppend(p: Text, f: Text)
    requires forall k :: 0 <= k < |f| ==> !IsInlineSpace(f[k])
    ensures W.Collapsed(p + f) == W.Collapsed(p) + f
  {
    hide W.Collapsed;
    var s := p + f;
    assert s[..|p|] == p && s[|p|..] == f;
    W.CollapsedConcat(s, |p|);
    CollapsedWithoutSpaces(f);
  }

  lemma {:induction false} CollapsedKeepsValid(s: Text)
    requires Valid(s)
    ensures Valid(W.Collapsed(s))
    decreases |s|
  {
    if s != [] {
      var k := LastRune(s);
      CollapsedKeepsValid(s[..k]);
      CollapsedLastRune(s, k);
    }
  }

  lemma OneSpaceMore(s: Text, n: nat)
    requires n + 1 == |s| && IsInlineSpace(s[n])
    ensures W.Collapsed(s) == W.Collapsed(s[..n]) || W.Collapsed(s) == W.Collapsed(s[..n]) + [SPACE]
  {
  }

  lemma OtherRunesHoldNoSpace(rune: Text)
    requires 0 < Width(rune) == |rune| && !IsInlineSpace(rune[0])
    ensures forall k :: 0 <= k < |rune| ==> !IsInlineSpace(rune[k])
  {
  }

  lemma CollapsedLastRune(s: Text, k: nat)
    requires k < |s| && Width(s[k..]) == |s| - k && Valid(W.Collapsed(s[..k]))
    ensures Valid(W.Collapsed(s))
  {
    hide Valid, W.Collapsed;
    var rune := s[k..];
    if IsInlineSpace(rune[0]) {
      OneSpaceMore(s, k);
      AsciiIsValid([SPACE]);
      ValidConcat(W.Collapsed(s[..k]), [SPACE]);
    } else {
      OtherRunesHoldNoSpace(rune);
      FirstRuneIsValid(rune);
      assert rune[..|rune|] == rune && s == s[..k] + rune;
      CollapsedAppend(s[..k], rune);
      ValidConcat(W.Collapsed(s[..k]), rune);
    }
  }

  /** A span cut between runs, from a rune boundary, ends at one if it collapses to valid text. */
  lemma SpanEndsAtBoundary(s: Text, a: nat, b: nat)
    requires Valid(s) && a <= b <= |s| && Valid(s[..a]) && Valid(W.Collapsed(s[a..b]))
    ensures Valid(s[..b])
  {
    hide Valid, W.Collapsed;
    var k := Paging.ValidPrefixLength(s, b);
    if k < b {
      var p, f := s[a..k], s[k..b];
      Slices.Middle(s, a, k, b);
      forall j | k < j <= b && j < |s| ensures IsContinuation(s[j]) {
        CutIffRuneStart(s, j);
      }
      assert !IsInlineSpace(s[k]) by {
        CutIsValidOnBothSides(s, k);
        NoBoundaryInside(s, k, b);
      }
      Paging.ValidBetween(s, a, k);
      CollapsedKeepsValid(p);
      CollapsedAppend(p, f);
      ValidRemainder(W.Collapsed(p), f);
      ValidConcat(s[..k], f);
    }
  }

  lemma NoBoundaryInside(s: Text, k: nat, b: nat)
    requires k < b <= |s| && Valid(s[..k]) && Valid(s[k..])
    requires forall j :: k < j <= b ==> !Valid(s[..j])
    ensures s[k] >= 0x80
  {
    hide Valid;
    if s[k] < 0x80 {
      assert s[..k + 1] == s[..k] + [s[k]];
      AsciiIsValid([s[k]]);
      ValidConcat(s[..k], [s[k]]);
    }
  }

  lemma WhitespaceSpanIsValid(content: Text, oldText: Text, a: nat, b: nat)
    requires Valid(content) && Valid(oldText) && oldText != [] && W.SameUpToSpacing(content, oldText, a, b)
    ensures Valid(content[..a]) && Valid(content[..b])
  {
    W.CollapseAlikeIff(content[a..b], oldText);
    hide W.ShapeOf, W.Collapsed;
    W.FirstByteIsKept(oldText);
    assert a < b by { W.NothingCollapses(); }
    W.FirstByteIsKept(content[a..b]);
    assert RuneStart(oldText[0]);
    CutIffRuneStart(content, a);
    CollapsedKeepsValid(oldText);
    SpanEndsAtBoundary(content, a, b);
  }

  /** Whatever layer answers, an edit of valid text by valid text is valid text. */
  lemma EditKeepsValid(content: Text, oldText: Text, newText: Text)
    requires Valid(content) && Valid(oldText) && Valid(newText)
    requires Apply(content, oldText, newText).Applied?
    ensures Valid(Apply(content, oldText, newText).updated)
  {
    hide Valid, ApplyTolerant;
    if Count(content, oldText) == 1 {
      CountIsOneIff(content, oldText);
      MatchFallsOnBoundaries(content, Index(content, oldText), oldText);
      ReplacementIsValid(content, newText, Index(content, oldText), Index(content, oldText) + |oldText|);
    } else {
      TolerantEditKeepsValid(content, oldText, newText);
    }
  }

  lemma TolerantEditKeepsValid(content: Text, oldText: Text, newText: Text)
    requires Valid(content) && Valid(oldText) && Valid(newText) && oldText != []
    requires ApplyTolerant(content, oldText, newText).Applied?
    ensures Valid(ApplyTolerant(content, oldText, newText).updated)
  {
    hide Valid, L.ApplyLeadingEdit, U.ApplyUnicodeEdit, W.ApplyWhitespaceEdit, W.SameUpToSpacing, W.Collapsed, IsBlank;
    if L.ApplyLeadingEdit(content, oldText, newText).Some? {
      LeadingEditKeepsValid(content, oldText, newText);
    } else if U.ApplyUnicodeEdit(content, oldText, newText).Applied? {
      U.UnicodeEditReplacesTheSoleLookAlike(content, oldText, newText);
      var a: nat, b: nat :| U.SoleLookAlike(content, oldText, a, b);
      ReplacementIsValid(content, newText, a, b);
    } else {
      W.WhitespaceEditReplacesTheSoleSpan(content, oldText, newText);
      var a: nat, b: nat :| W.SoleSpan(content, oldText, a, b);
      WhitespaceSpanIsValid(content, oldText, a, b);
      SpanOrdered(content, oldText, a, b);
      ReplacementIsValid(content, newText, a, b);
    }
  }

  lemma SpanOrdered(content: Text, oldText: Text, a: nat, b: nat)
    requires W.SameUpToSpacing(content, oldText, a, b)
    ensures a <= b <= |content|
  {
  }
}
