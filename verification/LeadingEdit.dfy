/**
 The edit layer that tolerates missing indentation: `oldText` matches a window of
 whole lines when every line agrees up to leading and trailing spaces and tabs, and
 the file indents all of them by the same extra prefix. The replacement is indented
 by that prefix.
 */
module LeadingEdit {
  import opened Options
  import opened Slices
  import opened Utf8
  import opened Lines

  // ----- one line

  function LeadingLength(s: Text): (n: nat)
    ensures n <= |s| && (forall k :: 0 <= k < n ==> IsInlineSpace(s[k])) && (n < |s| ==> !IsInlineSpace(s[n]))
  {
    if s != [] && IsInlineSpace(s[0]) then 1 + LeadingLength(s[1..]) else 0
  }

  function TrimLeft(s: Text): Text {
    s[LeadingLength(s)..]
  }

  function TrimRight(s: Text): (t: Text)
    ensures t <= s && (t != [] ==> !IsInlineSpace(t[|t| - 1]))
  {
    if s != [] && IsInlineSpace(s[|s| - 1]) then TrimRight(s[..|s| - 1]) else s
  }

  /** A line without the spaces and tabs around it. */
  function Core(line: Text): Text {
    TrimLeft(TrimRight(line))
  }

  function Indent(line: Text): Text {
    TrimRight(line)[..LeadingLength(TrimRight(line))]
  }

  predicate IsBlankLine(line: Text) {
    IsBlank(TrimRight(line))
  }

  // ----- matching a window of lines

  /** What the lines so far say the file's extra indentation is. */
  datatype Prefixes = Open | One(prefix: Text) | Clash

  function WithLine(prefixes: Prefixes, windowLine: Text, patternLine: Text): Prefixes {
    var window, pattern := TrimRight(windowLine), TrimRight(patternLine);
    if prefixes.Clash? || IsBlank(window) then prefixes
    else if |window| < |pattern| then Clash
    else
      var prefix := window[..|window| - |pattern|];
      if prefixes.Open? || prefixes.prefix == prefix then One(prefix) else Clash
  }

  function PrefixesOf(window: seq<Text>, pattern: seq<Text>): Prefixes
    requires |window| == |pattern|
  {
    if window == [] then Open
    else
      var n := |window| - 1;
      WithLine(PrefixesOf(window[..n], pattern[..n]), window[n], pattern[n])
  }

  predicate SameCores(window: seq<Text>, pattern: seq<Text>)
    requires |window| == |pattern|
  {
    forall i :: 0 <= i < |window| ==> Core(window[i]) == Core(pattern[i])
  }

  function MatchWindow(window: seq<Text>, pattern: seq<Text>): Option<Text>
    requires |window| == |pattern|
  {
    if !SameCores(window, pattern) then None
    else
      match PrefixesOf(window, pattern)
      case Open => Some([])
      case One(prefix) => Some(prefix)
      case Clash => None
  }

  /** `matchButForLeadingWhitespace`: the cores first, then the set of prefixes. */
  method MatchButForLeadingWhitespace(window: seq<Text>, pattern: seq<Text>) returns (r: Option<Text>)
    ensures |window| != |pattern| ==> r.None?
    ensures |window| == |pattern| ==> r == MatchWindow(window, pattern)
  {
    hide TrimRight, Core;
    if |window| != |pattern| {
      return None;
    }
    for index := 0 to |window|
      invariant forall i :: 0 <= i < index ==> Core(window[i]) == Core(pattern[i])
    {
      if Core(window[index]) != Core(pattern[index]) {
        return None;
      }
    }
    r := PrefixOfWindow(window, pattern);
  }

  ghost predicate Holds(prefixes: set<Text>, found: Prefixes) {
    match found
    case Open => prefixes == {}
    case One(prefix) => prefixes == {prefix}
    case Clash => exists p, q :: p in prefixes && q in prefixes && p != q
  }

  method PrefixOfWindow(window: seq<Text>, pattern: seq<Text>) returns (r: Option<Text>)
    requires |window| == |pattern|
    ensures r ==
            match PrefixesOf(window, pattern) {
              case Open => Some([])
              case One(prefix) => Some(prefix)
              case Clash => None
            }
  {
    hide TrimRight, IsBlank;
    var prefixes: set<Text> := {};
    for index := 0 to |window|
      invariant Holds(prefixes, PrefixesOf(window[..index], pattern[..index]))
    {
      assert window[..index + 1][..index] == window[..index] && pattern[..index + 1][..index] == pattern[..index];
      var windowLine, patternLine := TrimRight(window[index]), TrimRight(pattern[index]);
      if IsBlank(windowLine) {
        continue;
      }
      if |windowLine| < |patternLine| {
        ClashStays(window, pattern, index + 1);
        return None;
      }
      prefixes := prefixes + {windowLine[..|windowLine| - |patternLine|]};
    }
    assert window[..|window|] == window && pattern[..|pattern|] == pattern;
    if prefixes == {} {
      return Some([]);
    }
    var prefix :| prefix in prefixes;
    if prefixes - {prefix} != {} {
      ghost var other :| other in prefixes - {prefix};
      return None;
    }
    assert prefixes == {prefix};
    return Some(prefix);
  }

  lemma {:induction false} ClashStays(window: seq<Text>, pattern: seq<Text>, n: nat)
    requires n <= |window| == |pattern| && PrefixesOf(window[..n], pattern[..n]).Clash?
    ensures PrefixesOf(window, pattern).Clash?
    decreases |window|
  {
    if n < |window| {
      var k := |window| - 1;
      assert window[..k][..n] == window[..n] && pattern[..k][..n] == pattern[..n];
      ClashStays(window[..k], pattern[..k], n);
    } else {
      assert window[..n] == window && pattern[..n] == pattern;
    }
  }

  /** The window line is the pattern line with `prefix` before its indentation, indentation counted by length. */
  predicate LineFits(windowLine: Text, patternLine: Text, prefix: Text) {
    && Core(windowLine) == Core(patternLine)
    && (!IsBlankLine(windowLine) ==>
          && |Indent(windowLine)| == |prefix| + |Indent(patternLine)|
          && prefix <= Indent(windowLine))
  }

  predicate AllBlank(window: seq<Text>) {
    forall i :: 0 <= i < |window| ==> IsBlankLine(window[i])
  }

  predicate LinesFit(window: seq<Text>, pattern: seq<Text>, prefix: Text)
    requires |window| == |pattern|
  {
    forall i :: 0 <= i < |window| ==> LineFits(window[i], pattern[i], prefix)
  }

  /** Every line fits with the same prefix; a window of blank lines adds none. */
  predicate Fits(window: seq<Text>, pattern: seq<Text>, prefix: Text)
    requires |window| == |pattern|
  {
    && LinesFit(window, pattern, prefix)
    && (AllBlank(window) ==> prefix == [])
  }

  lemma LinePrefix(windowLine: Text, patternLine: Text)
    requires Core(windowLine) == Core(patternLine)
    ensures var window, pattern := TrimRight(windowLine), TrimRight(patternLine);
            && window == Indent(windowLine) + Core(windowLine) && pattern == Indent(patternLine) + Core(patternLine)
            && |window| - |pattern| == |Indent(windowLine)| - |Indent(patternLine)|
  {
  }

  lemma LineFitsIff(windowLine: Text, patternLine: Text, prefix: Text)
    requires Core(windowLine) == Core(patternLine) && !IsBlankLine(windowLine)
    ensures LineFits(windowLine, patternLine, prefix) <==>
            var window, pattern := TrimRight(windowLine), TrimRight(patternLine);
            |window| >= |pattern| && prefix == window[..|window| - |pattern|]
  {
    LinePrefix(windowLine, patternLine);
    hide TrimRight, LeadingLength, Core, Indent, IsBlankLine;
    PrefixOfTheIndent(Indent(windowLine), Core(windowLine), |Indent(patternLine)|, prefix);
  }

  lemma PrefixOfTheIndent(indent: Text, core: Text, n: nat, prefix: Text)
    ensures |indent| == |prefix| + n && prefix <= indent <==>
            |indent| >= n && prefix == (indent + core)[..|indent| - n]
  {
    if |indent| >= n {
      assert (indent + core)[..|indent| - n] == indent[..|indent| - n];
    }
  }

  lemma {:induction false} PrefixesMean(window: seq<Text>, pattern: seq<Text>, q: Text)
    requires |window| == |pattern| && SameCores(window, pattern)
    ensures match PrefixesOf(window, pattern) {
              case Open => AllBlank(window)
              case One(prefix) => !AllBlank(window) && (LinesFit(window, pattern, q) <==> q == prefix)
              case Clash => !AllBlank(window) && !LinesFit(window, pattern, q)
            }
  {
    hide TrimRight, Core, Indent, IsBlank;
    if window != [] {
      var n := |window| - 1;
      PrefixesMean(window[..n], pattern[..n], q);
      OneLineMore(window, pattern, q);
      hide AllBlank, LinesFit;
      if !IsBlankLine(window[n]) {
        LineFitsIff(window[n], pattern[n], q);
        if PrefixesOf(window[..n], pattern[..n]).Open? {
          AllBlankFits(window[..n], pattern[..n], q);
        }
      }
    }
  }

  lemma OneLineMore(window: seq<Text>, pattern: seq<Text>, q: Text)
    requires |window| == |pattern| && window != []
    ensures var n := |window| - 1;
            && (AllBlank(window) <==> AllBlank(window[..n]) && IsBlankLine(window[n]))
            && (LinesFit(window, pattern, q) <==>
                  LinesFit(window[..n], pattern[..n], q) && LineFits(window[n], pattern[n], q))
  {
    hide IsBlankLine, LineFits;
  }

  lemma AllBlankFits(window: seq<Text>, pattern: seq<Text>, q: Text)
    requires |window| == |pattern| && SameCores(window, pattern) && AllBlank(window)
    ensures LinesFit(window, pattern, q)
  {
  }

  /** The loop over lines finds a prefix exactly when one fits every line, and then it is that one. */
  lemma MatchWindowIff(window: seq<Text>, pattern: seq<Text>, prefix: Text)
    requires |window| == |pattern|
    ensures MatchWindow(window, pattern) == Some(prefix) <==> Fits(window, pattern, prefix)
  {
    hide TrimRight, Core, Indent, IsBlank;
    if SameCores(window, pattern) {
      PrefixesMean(window, pattern, prefix);
      if AllBlank(window) {
        AllBlankFits(window, pattern, prefix);
      }
    } else {
      var i :| 0 <= i < |window| && Core(window[i]) != Core(pattern[i]);
      assert !LineFits(window[i], pattern[i], prefix);
    }
  }

  /** The prefix is made of spaces and tabs and begins every non-blank line of the window. */
  lemma PrefixIsCommonIndentation(window: seq<Text>, pattern: seq<Text>, prefix: Text)
    requires |window| == |pattern| && Fits(window, pattern, prefix)
    ensures forall k :: 0 <= k < |prefix| ==> IsInlineSpace(prefix[k])
    ensures forall i :: 0 <= i < |window| && !IsBlankLine(window[i]) ==> prefix <= window[i]
  {
    hide IsBlank, TrimRight;
    forall i | 0 <= i < |window| && !IsBlankLine(window[i])
      ensures prefix <= window[i] && forall k :: 0 <= k < |prefix| ==> IsInlineSpace(prefix[k])
    {
      assert LineFits(window[i], pattern[i], prefix);
      assert prefix <= Indent(window[i]) <= TrimRight(window[i]) <= window[i];
    }
  }

  // ----- the common indentation of both texts

  /** The least indentation of the non-blank lines, or -1 when there is none. */
  function LeastIndent(lines: seq<Text>): int {
    if lines == [] then -1
    else
      var n := |lines| - 1;
      var rest := LeastIndent(lines[..n]);
      if IsBlank(lines[n]) then rest
      else if rest == -1 || LeadingLength(lines[n]) < rest then LeadingLength(lines[n])
      else rest
  }

  lemma {:induction false} LeastIndentIs(lines: seq<Text>)
    ensures var m := LeastIndent(lines);
            && (m == -1 <==> forall i :: 0 <= i < |lines| ==> IsBlank(lines[i]))
            && (m != -1 ==> exists i :: 0 <= i < |lines| && !IsBlank(lines[i]) && m == LeadingLength(lines[i]))
            && (forall i :: 0 <= i < |lines| && !IsBlank(lines[i]) ==> m <= LeadingLength(lines[i]))
  {
    hide IsBlank, LeadingLength;
    if lines != [] {
      var n := |lines| - 1;
      LeastIndentIs(lines[..n]);
      assert forall i :: 0 <= i < n ==> lines[..n][i] == lines[i];
    }
  }

  function CommonIndent(lines: seq<Text>): nat {
    if LeastIndent(lines) < 0 then 0 else LeastIndent(lines)
  }

  method MinCommonLeadingWhitespace(lines: seq<Text>) returns (minimum: int)
    ensures minimum == CommonIndent(lines)
  {
    minimum := -1;
    for index := 0 to |lines|
      invariant minimum == LeastIndent(lines[..index])
    {
      assert lines[..index + 1][..index] == lines[..index];
      if IsBlank(lines[index]) {
        continue;
      }
      var leading := |lines[index]| - |TrimLeft(lines[index])|;
      if minimum == -1 || leading < minimum {
        minimum := leading;
      }
    }
    assert lines[..|lines|] == lines;
    if minimum < 0 {
      minimum := 0;
    }
  }

  function Outdented(line: Text, amount: nat): Text {
    if IsBlank(line) || |line| < amount then line else line[amount..]
  }

  function OutdentedLines(lines: seq<Text>, amount: nat): seq<Text> {
    seq(|lines|, i requires 0 <= i < |lines| => Outdented(lines[i], amount))
  }

  function Reindented(line: Text, prefix: Text): Text {
    if IsBlank(line) then line else prefix + line
  }

  function ReindentedLines(lines: seq<Text>, prefix: Text): seq<Text> {
    seq(|lines|, i requires 0 <= i < |lines| => Reindented(lines[i], prefix))
  }

  // ----- the edit

  predicate MatchesAt(lines: seq<Text>, pattern: seq<Text>, k: nat) {
    k + |pattern| <= |lines| && MatchWindow(lines[k..k + |pattern|], pattern).Some?
  }

  /** The starts, below `upTo`, of the windows that match. */
  function MatchStarts(lines: seq<Text>, pattern: seq<Text>, upTo: nat): (starts: seq<nat>)
    requires pattern != [] && upTo + |pattern| <= |lines| + 1
    ensures forall k <- starts :: k < upTo
  {
    if upTo == 0 then []
    else
      var k := upTo - 1;
      var before := MatchStarts(lines, pattern, k);
      if MatchesAt(lines, pattern, k) then before + [k] else before
  }

  lemma {:induction false} MatchStartsAre(lines: seq<Text>, pattern: seq<Text>, upTo: nat)
    requires pattern != [] && upTo + |pattern| <= |lines| + 1
    ensures var starts := MatchStarts(lines, pattern, upTo);
            && (forall k: nat :: k in starts <==> k < upTo && MatchesAt(lines, pattern, k))
            && (forall i, j :: 0 <= i < j < |starts| ==> starts[i] < starts[j])
  {
    hide MatchesAt;
    if upTo > 0 {
      MatchStartsAre(lines, pattern, upTo - 1);
      var before, k := MatchStarts(lines, pattern, upTo - 1), upTo - 1;
      var starts := MatchStarts(lines, pattern, upTo);
      assert starts == if MatchesAt(lines, pattern, k) then before + [k] else before;
      assert forall i :: 0 <= i < |before| ==> before[i] in before;
    }
  }

  datatype Texts = Texts(file: seq<Text>, pattern: seq<Text>, replacement: seq<Text>)

  /** The three texts as lines, old and new outdented by their common indentation. */
  function LinesOf(content: Text, oldText: Text, newText: Text): (texts: Texts)
    ensures texts.pattern != []
  {
    var part, replacement := Split(oldText), Split(newText);
    var amount := CommonIndent(part + replacement);
    Texts(Split(content), OutdentedLines(part, amount), OutdentedLines(replacement, amount))
  }

  function EditedLines(texts: Texts, at: nat, prefix: Text): seq<Text>
    requires at + |texts.pattern| <= |texts.file|
  {
    texts.file[..at] + ReindentedLines(texts.replacement, prefix) + texts.file[at + |texts.pattern|..]
  }

  function WindowAt(texts: Texts, k: nat): Option<Text>
    requires k + |texts.pattern| <= |texts.file|
  {
    MatchWindow(texts.file[k..k + |texts.pattern|], texts.pattern)
  }

  function AllStarts(texts: Texts): seq<nat>
    requires texts.pattern != []
  {
    if |texts.pattern| > |texts.file| then []
    else MatchStarts(texts.file, texts.pattern, |texts.file| - |texts.pattern| + 1)
  }

  lemma AllStartsAre(texts: Texts)
    requires texts.pattern != []
    ensures var starts := AllStarts(texts);
            && (forall k: nat :: k in starts <==> k + |texts.pattern| <= |texts.file| && WindowAt(texts, k).Some?)
            && (forall i, j :: 0 <= i < j < |starts| ==> starts[i] < starts[j])
            && (starts != [] ==> starts[0] in starts)
  {
    hide MatchWindow;
    if |texts.pattern| <= |texts.file| {
      MatchStartsAre(texts.file, texts.pattern, |texts.file| - |texts.pattern| + 1);
      forall k: nat ensures k in AllStarts(texts) <==> k + |texts.pattern| <= |texts.file| && WindowAt(texts, k).Some? {
        assert MatchesAt(texts.file, texts.pattern, k) <==>
               k + |texts.pattern| <= |texts.file| && WindowAt(texts, k).Some?;
      }
    }
  }

  function ApplyToLines(texts: Texts): Option<seq<Text>>
    requires texts.pattern != []
  {
    var starts := AllStarts(texts);
    if |starts| != 1 then None
    else
      AllStartsAre(texts);
      Some(EditedLines(texts, starts[0], WindowAt(texts, starts[0]).value))
  }

  function ApplyLeadingEdit(content: Text, oldText: Text, newText: Text): Option<Text> {
    match ApplyToLines(LinesOf(content, oldText, newText))
    case None => None
    case Some(lines) => Some(Join(lines))
  }

  method ReindentReplacement(lines: seq<Text>, prefix: Text) returns (reindented: seq<Text>)
    ensures reindented == ReindentedLines(lines, prefix)
    ensures |reindented| == |lines|
    ensures forall i :: 0 <= i < |lines| ==> reindented[i] == if IsBlank(lines[i]) then lines[i] else prefix + lines[i]
  {
    reindented := [];
    for i := 0 to |lines|
      invariant reindented == ReindentedLines(lines, prefix)[..i]
    {
      reindented := reindented + [Reindented(lines[i], prefix)];
    }
  }

  /** The prefix kept while searching is the last matching window's. */
  ghost predicate LastPrefix(lines: seq<Text>, pattern: seq<Text>, starts: seq<nat>, prefix: Text)
    requires starts != []
  {
    var last := starts[|starts| - 1];
    last + |pattern| <= |lines| && MatchWindow(lines[last..last + |pattern|], pattern) == Some(prefix)
  }

  method ReplacePartWithMissingLeadingWhitespace(content: Text, oldText: Text, newText: Text) returns (r: Option<Text>)
    ensures r == ApplyLeadingEdit(content, oldText, newText)
  {
    hide Split, IsBlank, LeastIndent, MatchWindow, Join;
    var fileLines, partLines, replaceLines := Split(content), Split(oldText), Split(newText);
    if |partLines| > |fileLines| {
      return None;
    }
    var minLead := MinCommonLeadingWhitespace(partLines + replaceLines);
    partLines, replaceLines := OutdentedLines(partLines, minLead), OutdentedLines(replaceLines, minLead);
    var starts: seq<nat> := [];
    var addedPrefix: Text := [];
    var index := 0;
    while index + |partLines| <= |fileLines|
      invariant index + |partLines| <= |fileLines| + 1
      invariant starts == MatchStarts(fileLines, partLines, index)
      invariant starts != [] ==> LastPrefix(fileLines, partLines, starts, addedPrefix)
    {
      var matched := MatchButForLeadingWhitespace(fileLines[index..index + |partLines|], partLines);
      if matched.Some? {
        starts := starts + [index];
        addedPrefix := matched.value;
      }
      index := index + 1;
    }
    if |starts| != 1 {
      return None;
    }
    var reindented := ReindentReplacement(replaceLines, addedPrefix);
    return Some(Join(fileLines[..starts[0]] + reindented + fileLines[starts[0] + |partLines|..]));
  }

  // ----- what an edit replaces

  ghost predicate WindowFits(texts: Texts, at: nat, prefix: Text) {
    at + |texts.pattern| <= |texts.file| && Fits(texts.file[at..at + |texts.pattern|], texts.pattern, prefix)
  }

  /** Exactly one window of the file fits. */
  ghost predicate OnlyWindow(texts: Texts, at: nat, prefix: Text) {
    && WindowFits(texts, at, prefix)
    && (forall k: nat, q: Text :: WindowFits(texts, k, q) ==> k == at)
  }

  lemma WindowFitsIff(texts: Texts, k: nat, q: Text)
    ensures WindowFits(texts, k, q) <==> k + |texts.pattern| <= |texts.file| && WindowAt(texts, k) == Some(q)
  {
    hide Fits, MatchWindow;
    if k + |texts.pattern| <= |texts.file| {
      MatchWindowIff(texts.file[k..k + |texts.pattern|], texts.pattern, q);
    }
  }

  /** One start in the list is one window that fits, and the other way round. */
  lemma OneStartIffOnlyWindow(texts: Texts)
    requires texts.pattern != []
    ensures ApplyToLines(texts).Some? <==> exists at: nat, prefix: Text :: OnlyWindow(texts, at, prefix)
    ensures forall at: nat, prefix: Text ::
              OnlyWindow(texts, at, prefix) ==> ApplyToLines(texts) == Some(EditedLines(texts, at, prefix))
  {
    hide WindowAt, AllStarts, EditedLines, WindowFits;
    var starts := AllStarts(texts);
    AllStartsAre(texts);
    forall k: nat, q: Text
      ensures WindowFits(texts, k, q) <==> k + |texts.pattern| <= |texts.file| && WindowAt(texts, k) == Some(q)
    {
      WindowFitsIff(texts, k, q);
    }
    if |starts| == 1 {
      assert OnlyWindow(texts, starts[0], WindowAt(texts, starts[0]).value);
    }
    forall at: nat, prefix: Text | OnlyWindow(texts, at, prefix)
      ensures |starts| == 1 && starts[0] == at && WindowAt(texts, at) == Some(prefix)
    {
      assert WindowFits(texts, at, prefix);
      assert at in starts;
      assert |starts| > 1 ==> starts[0] < starts[1];
      forall i | 0 <= i < |starts| ensures starts[i] == at {
        assert starts[i] in starts;
        assert WindowFits(texts, starts[i], WindowAt(texts, starts[i]).value);
      }
    }
  }

  lemma NoNewlineInEdited(content: Text, oldText: Text, newText: Text, at: nat, prefix: Text)
    requires WindowFits(LinesOf(content, oldText, newText), at, prefix)
    ensures var lines := EditedLines(LinesOf(content, oldText, newText), at, prefix);
            lines != [] && forall line <- lines :: NEWLINE !in line
  {
    hide Split, Fits, IsBlank, LeastIndent;
    var texts := LinesOf(content, oldText, newText);
    assert NEWLINE !in prefix by {
      PrefixIsCommonIndentation(texts.file[at..at + |texts.pattern|], texts.pattern, prefix);
    }
    var replacement := Split(newText);
    forall i | 0 <= i < |replacement| ensures NEWLINE !in Reindented(texts.replacement[i], prefix) {
      assert replacement[i] in replacement;
    }
  }

  /** The edit applies exactly when one and only one window fits, and then gives the edited lines. */
  lemma OnlyWindowIsEdited(content: Text, oldText: Text, newText: Text)
    ensures ApplyLeadingEdit(content, oldText, newText).Some? <==>
            exists at: nat, prefix: Text :: OnlyWindow(LinesOf(content, oldText, newText), at, prefix)
    ensures forall at: nat, prefix: Text :: OnlyWindow(LinesOf(content, oldText, newText), at, prefix) ==>
              && ApplyLeadingEdit(content, oldText, newText).Some?
              && Split(ApplyLeadingEdit(content, oldText, newText).value) ==
                 EditedLines(LinesOf(content, oldText, newText), at, prefix)
  {
    hide Split, Fits, LinesOf, EditedLines, ApplyToLines;
    var texts := LinesOf(content, oldText, newText);
    OneStartIffOnlyWindow(texts);
    forall at: nat, prefix: Text | OnlyWindow(texts, at, prefix)
      ensures Split(Join(EditedLines(texts, at, prefix))) == EditedLines(texts, at, prefix)
    {
      NoNewlineInEdited(content, oldText, newText, at, prefix);
      SplitInvertsJoin(EditedLines(texts, at, prefix));
    }
  }

  // ----- the parts of a line

  predicate IsInline(s: Text) {
    forall k :: 0 <= k < |s| ==> IsInlineSpace(s[k])
  }

  /** Spaces and tabs around a core that has none at its ends; a line of nothing else is all trail. */
  predicate AreParts(line: Text, indent: Text, core: Text, trail: Text) {
    && line == indent + core + trail && IsInline(indent) && IsInline(trail)
    && (if core == [] then indent == [] else !IsInlineSpace(core[0]) && !IsInlineSpace(core[|core| - 1]))
  }

  lemma {:induction false} TrailIsInline(line: Text)
    ensures IsInline(line[|TrimRight(line)|..])
  {
    if line != [] && IsInlineSpace(line[|line| - 1]) {
      var n := |line| - 1;
      TrailIsInline(line[..n]);
      assert line[|TrimRight(line)|..] == line[..n][|TrimRight(line)|..] + [line[n]];
    }
  }

  lemma LineHasParts(line: Text)
    ensures AreParts(line, Indent(line), Core(line), line[|TrimRight(line)|..])
  {
    hide TrimRight, LeadingLength;
    TrailIsInline(line);
    var trimmed := TrimRight(line);
    var n := LeadingLength(trimmed);
    assert trimmed == line[..|trimmed|] && line == trimmed + line[|trimmed|..];
    assert trimmed == trimmed[..n] + trimmed[n..];
    if n < |trimmed| {
      assert trimmed[n..][0] == trimmed[n] && trimmed[n..][|trimmed| - n - 1] == trimmed[|trimmed| - 1];
    }
  }

  /** A line has its parts in one way only. */
  lemma PartsAreOne(line: Text, indent: Text, core: Text, trail: Text)
    requires AreParts(line, indent, core, trail)
    ensures indent == Indent(line) && core == Core(line) && trail == line[|TrimRight(line)|..]
  {
    hide TrimRight, LeadingLength;
    LineHasParts(line);
    var i, c, t := Indent(line), Core(line), line[|TrimRight(line)|..];
    hide Indent, Core;
    SamePlaces(line, indent, core, trail, i, c, t);
    assert indent == line[..|indent|] && i == line[..|i|];
    assert core == line[|indent|..|indent| + |core|] && c == line[|i|..|i| + |c|];
    assert trail == line[|indent| + |core|..] && t == line[|i| + |c|..];
  }

  lemma SamePlaces(line: Text, indent: Text, core: Text, trail: Text, i: Text, c: Text, t: Text)
    requires AreParts(line, indent, core, trail) && AreParts(line, i, c, t)
    ensures |indent| == |i| && |core| == |c|
  {
    if core != [] {
      assert line[|indent|] == core[0] && line[|indent| + |core| - 1] == core[|core| - 1];
    }
    if c != [] {
      assert line[|i|] == c[0] && line[|i| + |c| - 1] == c[|c| - 1];
    }
    assert forall k :: 0 <= k < |line| && k < |indent| ==> IsInlineSpace(line[k]) by {
      assert forall k :: 0 <= k < |indent| ==> line[k] == indent[k];
    }
    assert forall k :: 0 <= k < |line| && k < |i| ==> IsInlineSpace(line[k]) by {
      assert forall k :: 0 <= k < |i| ==> line[k] == i[k];
    }
    assert forall k :: |indent| + |core| <= k < |line| ==> IsInlineSpace(line[k]) by {
      assert forall k :: |indent| + |core| <= k < |line| ==> line[k] == trail[k - |indent| - |core|];
    }
    assert forall k :: |i| + |c| <= k < |line| ==> IsInlineSpace(line[k]) by {
      assert forall k :: |i| + |c| <= k < |line| ==> line[k] == t[k - |i| - |c|];
    }
  }

  lemma InlineIsBlank(s: Text)
    requires IsInline(s)
    ensures Valid(s) && IsBlank(s)
    decreases |s|
  {
    if s != [] {
      assert Width(s) == 1;
      InlineIsBlank(s[1..]);
    }
  }

  /** Whether a line is blank is up to its core. */
  lemma BlankIffCore(line: Text, indent: Text, core: Text, trail: Text)
    requires AreParts(line, indent, core, trail)
    ensures IsBlank(line) <==> IsBlank(core)
    ensures IsBlank(indent + core) <==> IsBlank(core)
  {
    InlineIsBlank(indent);
    InlineIsBlank(trail);
    hide Decode, IsSpace;
    DecodeConcat(indent, core);
    assert trail != [] ==> trail[0] < 0x80;
    DecodeBeforeAscii(indent + core, trail);
  }

  lemma LeadingIsTheIndent(line: Text, indent: Text, core: Text, trail: Text)
    requires AreParts(line, indent, core, trail) && core != []
    ensures LeadingLength(line) == |indent|
  {
    hide LeadingLength;
    assert line[|indent|] == core[0];
    assert forall k :: 0 <= k < |indent| ==> line[k] == indent[k];
  }

  lemma PartsOfTheRest(line: Text, indent: Text, core: Text, trail: Text, amount: nat)
    requires AreParts(line, indent, core, trail) && core != [] && amount <= |indent|
    ensures AreParts(line[amount..], indent[amount..], core, trail)
  {
    assert line[amount..] == indent[amount..] + core + trail;
  }

  lemma OutdentedParts(line: Text, amount: nat)
    requires !IsBlank(line) && amount <= LeadingLength(line)
    ensures amount <= |Indent(line)| && Core(line) != []
    ensures Core(line[amount..]) == Core(line) && Indent(line[amount..]) == Indent(line)[amount..]
  {
    hide TrimRight, LeadingLength, Indent, Core, IsBlank, AreParts;
    LineHasParts(line);
    var i, c, t := Indent(line), Core(line), line[|TrimRight(line)|..];
    BlankIffCore(line, i, c, t);
    assert c != [] by { InlineIsBlank([]); }
    LeadingIsTheIndent(line, i, c, t);
    PartsOfTheRest(line, i, c, t, amount);
    PartsAreOne(line[amount..], i[amount..], c, t);
  }

  // ----- what an edit does, line by line

  /** The least indentation of the lines that are not blank, or none if all are. */
  ghost predicate IsLeastIndent(lines: seq<Text>, amount: nat) {
    && (forall i :: 0 <= i < |lines| && !IsBlank(lines[i]) ==> amount <= LeadingLength(lines[i]))
    && (|| (exists i :: 0 <= i < |lines| && !IsBlank(lines[i]) && amount == LeadingLength(lines[i]))
        || (amount == 0 && forall i :: 0 <= i < |lines| ==> IsBlank(lines[i])))
  }

  lemma LeastIndentIsCommon(lines: seq<Text>, amount: nat)
    ensures IsLeastIndent(lines, amount) <==> amount == CommonIndent(lines)
  {
    hide IsBlank, LeadingLength, LeastIndent;
    LeastIndentIs(lines);
  }

  /**
   A line of the file matches a line of the old text: the same core, and unless blank it is indented as
   the other is, `amount` less, behind the prefix. Indentation is counted, not compared.
   */
  predicate LineMatches(line: Text, oldLine: Text, prefix: Text, amount: nat) {
    && Core(line) == Core(oldLine)
    && (!IsBlank(line) ==> prefix <= Indent(line) && |Indent(line)| + amount == |prefix| + |Indent(oldLine)|)
  }

  lemma LineMatchesIff(line: Text, oldLine: Text, prefix: Text, amount: nat)
    requires !IsBlank(oldLine) ==> amount <= LeadingLength(oldLine)
    ensures LineFits(line, Outdented(oldLine, amount), prefix) <==> LineMatches(line, oldLine, prefix, amount)
    ensures IsBlankLine(line) <==> IsBlank(line)
  {
    BlankLineIff(line);
    BlankLineIff(oldLine);
    hide TrimRight, LeadingLength, Core, IsBlank, IsBlankLine;
    if !IsBlank(oldLine) {
      OutdentedParts(oldLine, amount);
    }
    hide Indent;
  }

  lemma BlankLineIff(line: Text)
    ensures IsBlankLine(line) <==> IsBlank(line)
    ensures IsBlank(line) <==> IsBlank(Core(line))
  {
    hide IsBlank, TrimRight, LeadingLength;
    LineHasParts(line);
    BlankIffCore(line, Indent(line), Core(line), line[|TrimRight(line)|..]);
    assert TrimRight(line) == Indent(line) + Core(line);
  }

  /** All old lines match the lines of the file from `at`; a window of blank lines has no prefix. */
  ghost predicate WindowMatches(file: seq<Text>, old': seq<Text>, at: nat, prefix: Text, amount: nat) {
    && at + |old'| <= |file|
    && (forall k :: 0 <= k < |old'| ==> LineMatches(file[at + k], old'[k], prefix, amount))
    && ((forall line <- file[at..at + |old'|] :: IsBlank(line)) ==> prefix == [])
  }

  ghost predicate OnlyMatch(file: seq<Text>, old': seq<Text>, at: nat, prefix: Text, amount: nat) {
    && WindowMatches(file, old', at, prefix, amount)
    && forall k: nat, q: Text :: WindowMatches(file, old', k, q, amount) ==> k == at
  }

  /** The new line, unless blank, `amount` less indented behind the prefix. */
  predicate IsReindented(line: Text, newLine: Text, prefix: Text, amount: nat) {
    if IsBlank(newLine) then line == newLine else amount <= |newLine| && line == prefix + newLine[amount..]
  }

  /** The window is replaced by the new lines, and the lines before and after it are as they were. */
  ghost predicate IsReplaced(updated: seq<Text>, file: seq<Text>, at: nat, length: nat, new': seq<Text>, prefix: Text,
      amount: nat)
  {
    && at + length <= |file| && |updated| == |file| - length + |new'|
    && updated[..at] == file[..at] && updated[at + |new'|..] == file[at + length..]
    && forall k :: 0 <= k < |new'| ==> IsReindented(updated[at + k], new'[k], prefix, amount)
  }

  lemma WindowMatchesIff(content: Text, oldText: Text, newText: Text, at: nat, prefix: Text, amount: nat)
    requires IsLeastIndent(Split(oldText) + Split(newText), amount)
    ensures WindowFits(LinesOf(content, oldText, newText), at, prefix) <==>
            WindowMatches(Split(content), Split(oldText), at, prefix, amount)
  {
    hide Split, IsBlank, LeadingLength, LeastIndent, Outdented, LineFits, LineMatches;
    var file, old', new' := Split(content), Split(oldText), Split(newText);
    LeastIndentIsCommon(old' + new', amount);
    var texts := LinesOf(content, oldText, newText);
    assert texts == Texts(file, OutdentedLines(old', amount), OutdentedLines(new', amount));
    hide LinesOf;
    if at + |old'| <= |file| {
      var window := file[at..at + |old'|];
      forall k | 0 <= k < |old'|
        ensures window[k] == file[at + k] && texts.pattern[k] == Outdented(old'[k], amount)
        ensures LineFits(window[k], texts.pattern[k], prefix) <==> LineMatches(file[at + k], old'[k], prefix, amount)
        ensures IsBlankLine(window[k]) <==> IsBlank(window[k])
      {
        assert (old' + new')[k] == old'[k];
        LineMatchesIff(file[at + k], old'[k], prefix, amount);
      }
    }
  }

  lemma SplicedIsReplaced(file: seq<Text>, lines: seq<Text>, at: nat, length: nat, new': seq<Text>, prefix: Text,
      amount: nat)
    requires at + length <= |file| && |lines| == |new'|
    requires forall k :: 0 <= k < |new'| ==> IsReindented(lines[k], new'[k], prefix, amount)
    ensures IsReplaced(file[..at] + lines + file[at + length..], file, at, length, new', prefix, amount)
  {
    hide IsReindented;
    Spliced(file[..at], lines, file[at + length..]);
  }

  lemma EditedIsReplaced(content: Text, oldText: Text, newText: Text, at: nat, prefix: Text, amount: nat)
    requires IsLeastIndent(Split(oldText) + Split(newText), amount)
    requires at + |Split(oldText)| <= |Split(content)|
    ensures IsReplaced(EditedLines(LinesOf(content, oldText, newText), at, prefix), Split(content), at,
                       |Split(oldText)|, Split(newText), prefix, amount)
  {
    hide Split, IsBlank, LeadingLength, LeastIndent, IsReplaced, Reindented, Outdented, IsReindented;
    var file, old', new' := Split(content), Split(oldText), Split(newText);
    LeastIndentIsCommon(old' + new', amount);
    var replacement := OutdentedLines(new', amount);
    assert LinesOf(content, oldText, newText) == Texts(file, OutdentedLines(old', amount), replacement);
    hide LinesOf;
    var lines := ReindentedLines(replacement, prefix);
    forall k | 0 <= k < |new'| ensures IsReindented(lines[k], new'[k], prefix, amount) {
      assert (old' + new')[|old'| + k] == new'[k];
      assert lines[k] == Reindented(Outdented(new'[k], amount), prefix);
      ReindentedIs(new'[k], prefix, amount);
    }
    SplicedIsReplaced(file, lines, at, |old'|, new', prefix, amount);
  }

  lemma ReindentedIs(newLine: Text, prefix: Text, amount: nat)
    requires !IsBlank(newLine) ==> amount <= LeadingLength(newLine)
    ensures IsReindented(Reindented(Outdented(newLine, amount), prefix), newLine, prefix, amount)
  {
    hide IsBlank, LeadingLength;
    if !IsBlank(newLine) {
      OutdentedParts(newLine, amount);
      BlankLineIff(newLine);
      BlankLineIff(newLine[amount..]);
    }
  }

  /**
   With `amount` the least indentation of the old and new lines that are not blank: the edit applies
   exactly when the old lines match one window of the file and no other. The updated file's own lines
   are then the lines before the window, the new lines, each `amount` less indented behind the window's
   prefix unless it is blank, and the lines after the window.
   */
  lemma LeadingEditReplacesTheOnlyWindow(content: Text, oldText: Text, newText: Text, amount: nat)
    requires IsLeastIndent(Split(oldText) + Split(newText), amount)
    ensures ApplyLeadingEdit(content, oldText, newText).Some? <==>
            exists at: nat, prefix: Text :: OnlyMatch(Split(content), Split(oldText), at, prefix, amount)
    ensures forall at: nat, prefix: Text :: OnlyMatch(Split(content), Split(oldText), at, prefix, amount) ==>
              && ApplyLeadingEdit(content, oldText, newText).Some?
              && IsReplaced(Split(ApplyLeadingEdit(content, oldText, newText).value), Split(content), at,
                            |Split(oldText)|, Split(newText), prefix, amount)
  {
    hide Split, LinesOf, ApplyLeadingEdit, OnlyWindow, OnlyMatch, IsLeastIndent, IsReplaced;
    OnlyWindowIsEdited(content, oldText, newText);
    if ApplyLeadingEdit(content, oldText, newText).Some? {
      var at: nat, prefix: Text :| OnlyWindow(LinesOf(content, oldText, newText), at, prefix);
      OnlyMatchIff(content, oldText, newText, at, prefix, amount);
    }
    forall at: nat, prefix: Text | OnlyMatch(Split(content), Split(oldText), at, prefix, amount)
      ensures ApplyLeadingEdit(content, oldText, newText).Some?
      ensures IsReplaced(Split(ApplyLeadingEdit(content, oldText, newText).value), Split(content), at,
                         |Split(oldText)|, Split(newText), prefix, amount)
    {
      OnlyMatchIff(content, oldText, newText, at, prefix, amount);
      MatchIsWithin(content, oldText, newText, at, prefix, amount);
      EditedIsReplaced(content, oldText, newText, at, prefix, amount);
    }
  }

  lemma OnlyMatchIff(content: Text, oldText: Text, newText: Text, at: nat, prefix: Text, amount: nat)
    requires IsLeastIndent(Split(oldText) + Split(newText), amount)
    ensures OnlyWindow(LinesOf(content, oldText, newText), at, prefix) <==>
            OnlyMatch(Split(content), Split(oldText), at, prefix, amount)
  {
    hide Split, LinesOf, WindowFits, WindowMatches, IsLeastIndent;
    forall k: nat, q: Text
      ensures WindowFits(LinesOf(content, oldText, newText), k, q) <==>
              WindowMatches(Split(content), Split(oldText), k, q, amount)
    {
      WindowMatchesIff(content, oldText, newText, k, q, amount);
    }
  }

  lemma MatchIsWithin(content: Text, oldText: Text, newText: Text, at: nat, prefix: Text, amount: nat)
    requires OnlyMatch(Split(content), Split(oldText), at, prefix, amount)
    ensures at + |Split(oldText)| <= |Split(content)|
    ensures LinesOf(content, oldText, newText).file == Split(content)
    ensures |LinesOf(content, oldText, newText).pattern| == |Split(oldText)|
  {
  }
}
