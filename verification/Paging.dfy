/**
 The read tool's windows: a file is shown in pages of at most a given number of
 bytes, cut only between runes, and read on by following `nextByte`.
 */
module Paging {
  import opened Slices
  import opened Utf8
  import opened Lines

  // ----- the three cutting loops and the functions they compute

  /** The first rune boundary at or after `index`. */
  function SnapForward(content: Text, index: nat): (r: nat)
    requires index <= |content|
    ensures index <= r <= |content|
    ensures r == |content| || RuneStart(content[r])
    ensures forall k :: index <= k < r ==> IsContinuation(content[k])
    decreases |content| - index
  {
    if index < |content| && !RuneStart(content[index]) then SnapForward(content, index + 1) else index
  }

  /** The last rune boundary at or before `index`, but not before `minimum`. */
  function SnapBack(content: Text, index: nat, minimum: nat): (r: nat)
    requires minimum <= index <= |content|
    ensures minimum <= r <= index
    ensures r == minimum || r == |content| || RuneStart(content[r])
    ensures forall k :: r < k <= index && k < |content| ==> IsContinuation(content[k])
  {
    if minimum < index < |content| && !RuneStart(content[index]) then SnapBack(content, index - 1, minimum) else index
  }

  /** The longest valid prefix of at most `index` bytes. */
  function ValidPrefixLength(content: Text, index: nat): (r: nat)
    requires index <= |content|
    ensures r <= index && Valid(content[..r])
    ensures forall k :: r < k <= index ==> !Valid(content[..k])
  {
    if index > 0 && !Valid(content[..index]) then ValidPrefixLength(content, index - 1) else index
  }

  method SnapForwardToRuneBoundary(content: Text, start: nat) returns (index: nat)
    requires start <= |content|
    ensures index == SnapForward(content, start)
  {
    index := start;
    while index < |content| && !RuneStart(content[index])
      invariant index <= |content| && SnapForward(content, index) == SnapForward(content, start)
    {
      index := index + 1;
    }
  }

  method SnapBackToRuneBoundary(content: Text, end: nat, minimum: nat) returns (index: nat)
    requires minimum <= end <= |content|
    ensures index == SnapBack(content, end, minimum)
  {
    index := end;
    while index > minimum && index < |content| && !RuneStart(content[index])
      invariant minimum <= index <= end && SnapBack(content, index, minimum) == SnapBack(content, end, minimum)
    {
      index := index - 1;
    }
  }

  function Truncated(content: Text, maxBytes: int): (Text, bool) {
    if maxBytes <= 0 || |content| <= maxBytes then (content, false)
    else (content[..ValidPrefixLength(content, maxBytes)], true)
  }

  method TruncateTextByBytes(content: Text, maxBytes: int) returns (shown: Text, isTruncated: bool)
    ensures (shown, isTruncated) == Truncated(content, maxBytes)
  {
    if maxBytes <= 0 || |content| <= maxBytes {
      return content, false;
    }
    shown := content[..maxBytes];
    while |shown| > 0 && !Valid(shown)
      invariant |shown| <= maxBytes && shown == content[..|shown|]
      invariant ValidPrefixLength(content, |shown|) == ValidPrefixLength(content, maxBytes)
    {
      shown := shown[..|shown| - 1];
    }
    isTruncated := true;
  }

  // ----- one page

  datatype Request = Request(startByte: int, startLine: int, lineCount: int)

  datatype Page = Page(
    content: Text, startLine: int, endLine: int, totalLines: nat, isTruncated: bool,
    startByte: nat, endByte: nat, nextByte: nat, totalBytes: nat, isEndOfFile: bool, hintsAtBytes: bool)

  function ByteWindow(content: Text, startByte: nat, maxBytes: nat): Page {
    var total := |content|;
    var start := SnapForward(content, if startByte > total then total else startByte);
    var end := SnapBack(content, if start + maxBytes > total then total else start + maxBytes, start);
    var next := if end < total then end else 0;
    Page(content[start..end], 0, 0, 0, next > 0, start, end, next, total, next == 0, false)
  }

  function FileRead(content: Text, request: Request, maxBytes: nat): Page {
    var total := |content|;
    var lines := FileLines(content);
    if request.startByte > 0 then ByteWindow(content, request.startByte, maxBytes)
    else if lines == [] then Page([], 0, 0, 0, false, 0, 0, 0, total, true, false)
    else if request.startLine <= 0 then
      var (shown, isTruncated) := Truncated(content, maxBytes);
      var next := if isTruncated then |shown| else 0;
      Page(shown, 1, |lines|, |lines|, isTruncated, 0, |shown|, next, total, !isTruncated, false)
    else if request.startLine > |lines| then
      Page([], request.startLine, request.startLine - 1, |lines|, false, 0, 0, 0, total, true, true)
    else
      var count := if request.lineCount <= 0 then 200 else request.lineCount;
      var end := if request.startLine + count - 1 > |lines| then |lines| else request.startLine + count - 1;
      var (shown, isTruncated) := Truncated(Join(lines[request.startLine - 1..end]), maxBytes);
      Page(shown, request.startLine, end, |lines|, isTruncated, 0, 0, 0, total, end >= |lines| && !isTruncated, false)
  }

  // ----- what a page is

  /** The first page is cut exactly where a byte window starting at 0 would be. */
  lemma {:induction false} TruncationCutsWhereTheWindowDoes(content: Text, index: nat)
    requires Valid(content) && index <= |content|
    ensures ValidPrefixLength(content, index) == SnapBack(content, index, 0)
  {
    CutIffRuneStart(content, index);
    if index > 0 && !Valid(content[..index]) {
      TruncationCutsWhereTheWindowDoes(content, index - 1);
    }
  }

  /** Between two rune boundaries of valid text lies valid text. */
  lemma ValidBetween(content: Text, from: nat, to: nat)
    requires Valid(content) && from <= to <= |content|
    requires Valid(content[..from]) && Valid(content[..to])
    ensures Valid(content[from..to])
  {
    assert content[..from] + content[from..to] == content[..to];
    ValidRemainder(content[..from], content[from..to]);
  }

  /** Every byte window of valid text, wherever it is asked to start, is valid text within the bound. */
  lemma ByteWindowIsValid(content: Text, startByte: nat, maxBytes: nat)
    requires Valid(content)
    ensures var page := ByteWindow(content, startByte, maxBytes);
            && page.startByte <= page.endByte <= |content|
            && page.content == content[page.startByte..page.endByte]
            && |page.content| <= maxBytes && Valid(page.content)
            && Valid(content[..page.startByte]) && Valid(content[..page.endByte])
  {
    var page := ByteWindow(content, startByte, maxBytes);
    CutIffRuneStart(content, page.startByte);
    CutIffRuneStart(content, page.endByte);
    ValidBetween(content, page.startByte, page.endByte);
  }

  /** A page asked for at a rune boundary starts there, and ends on the last boundary the bound allows. */
  ghost predicate IsPageAt(content: Text, start: nat, maxBytes: nat, page: Page) {
    && start <= page.endByte <= |content|
    && page.content == content[start..page.endByte]
    && |page.content| <= maxBytes
    && Valid(content[..page.endByte])
    && (forall k :: page.endByte < k <= start + maxBytes && k <= |content| ==> !Valid(content[..k]))
    && (page.isEndOfFile <==> page.endByte == |content|)
    && (!page.isEndOfFile ==> page.nextByte == page.endByte)
  }

  lemma LaterPageAt(content: Text, start: nat, maxBytes: nat)
    requires Valid(content) && 0 < start < |content| && Valid(content[..start])
    ensures IsPageAt(content, start, maxBytes, ByteWindow(content, start, maxBytes))
  {
    var page := ByteWindow(content, start, maxBytes);
    CutIffRuneStart(content, start);
    ByteWindowIsValid(content, start, maxBytes);
    forall k | page.endByte < k <= start + maxBytes && k <= |content| ensures !Valid(content[..k]) {
      CutIffRuneStart(content, k);
    }
  }

  lemma FirstPageAt(content: Text, maxBytes: nat)
    requires Valid(content) && maxBytes > 0
    ensures var shown := Truncated(content, maxBytes).0;
            && |shown| <= maxBytes && shown <= content && Valid(shown)
            && (Truncated(content, maxBytes).1 <==> |shown| < |content|)
            && (forall k :: |shown| < k <= maxBytes && k <= |content| ==> !Valid(content[..k]))
  {
  }

  lemma PageAt(content: Text, start: nat, maxBytes: nat)
    requires Valid(content) && start <= |content| && Valid(content[..start]) && maxBytes > 0
    requires start < |content| || start == 0
    ensures IsPageAt(content, start, maxBytes, FileRead(content, Request(start, 0, 0), maxBytes))
  {
    if start > 0 {
      LaterPageAt(content, start, maxBytes);
    } else {
      FirstPageAt(content, maxBytes);
      assert Truncated(content, maxBytes).0 == content[..|Truncated(content, maxBytes).0|];
    }
  }

  // ----- reading a whole file

  /** Where following `nextByte` leads: to the end of the file, or to a page that repeats itself. */
  datatype Reading = Complete(pages: seq<Text>) | Stalled(pages: seq<Text>, at: nat)

  function ReadFrom(content: Text, start: nat, maxBytes: nat): (reading: Reading)
    decreases |content| - start
  {
    var page := FileRead(content, Request(start, 0, 0), maxBytes);
    if page.isEndOfFile then Complete([page.content])
    else if page.nextByte <= start || start >= |content| then Stalled([page.content], page.nextByte)
    else Before(page.content, ReadFrom(content, page.nextByte, maxBytes))
  }

  function Concat(pages: seq<Text>): Text {
    if pages == [] then [] else pages[0] + Concat(pages[1..])
  }

  /** The widest rune of a text, in bytes. */
  function WidestRune(s: Text): nat
    decreases |s|
  {
    if Width(s) == 0 then 0
    else
      var rest := WidestRune(s[Width(s)..]);
      if rest > Width(s) then rest else Width(s)
  }

  function Max(a: nat, b: nat): nat {
    if a > b then a else b
  }

  lemma {:induction false} WidestOfConcat(a: Text, b: Text)
    requires Valid(a)
    ensures WidestRune(a + b) == Max(WidestRune(a), WidestRune(b))
    decreases |a|
  {
    if a == [] {
      assert a + b == b;
    } else {
      WidthOfExtension(a, b);
      assert (a + b)[Width(a)..] == a[Width(a)..] + b;
      WidestOfConcat(a[Width(a)..], b);
    }
  }

  lemma {:induction false} WidestAtMostLength(s: Text)
    ensures WidestRune(s) <= |s| && WidestRune(s) <= 4
    decreases |s|
  {
    if Width(s) > 0 {
      WidestAtMostLength(s[Width(s)..]);
    }
  }

  ghost predicate PagesFit(pages: seq<Text>, maxBytes: nat) {
    forall page <- pages :: Valid(page) && |page| <= maxBytes
  }

  /** Pages show the file from `start` to its end, or to the place where they stall. */
  ghost predicate ShowFrom(content: Text, start: nat, reading: Reading)
    requires start <= |content|
  {
    match reading
    case Complete(pages) => Concat(pages) == content[start..]
    case Stalled(pages, at) => start <= at < |content| && Concat(pages) == content[start..at]
  }

  /** Pages are valid, within the bound, and stall only before a rune that is wider than the bound. */
  ghost predicate AreSound(content: Text, maxBytes: nat, reading: Reading) {
    && PagesFit(reading.pages, maxBytes)
    && (reading.Stalled? && reading.at < |content| ==>
          Valid(content[..reading.at]) && Width(content[reading.at..]) > maxBytes)
  }

  function Before(page: Text, reading: Reading): Reading {
    reading.(pages := [page] + reading.pages)
  }

  lemma OnePageMore(content: Text, start: nat, next: nat, reading: Reading)
    requires start <= next <= |content| && ShowFrom(content, next, reading)
    ensures ShowFrom(content, start, Before(content[start..next], reading))
  {
    var page := content[start..next];
    assert ([page] + reading.pages)[1..] == reading.pages;
    if reading.Complete? {
      assert page + content[next..] == content[start..];
    } else {
      assert page + content[next..reading.at] == content[start..reading.at];
    }
  }

  lemma OneSoundPageMore(content: Text, maxBytes: nat, page: Text, reading: Reading)
    requires Valid(page) && |page| <= maxBytes && AreSound(content, maxBytes, reading)
    ensures AreSound(content, maxBytes, Before(page, reading))
  {
    hide Valid, Width;
    var pages := [page] + reading.pages;
    assert forall p <- pages :: p == page || p in reading.pages;
  }

  /** A reading that ends, or stalls, where it starts. */
  lemma NoPageShown(content: Text, maxBytes: nat, at: nat)
    requires at <= |content| && Valid(content[..at])
    ensures at == |content| ==> ShowFrom(content, at, Complete([])) && AreSound(content, maxBytes, Complete([]))
    ensures at < |content| ==> ShowFrom(content, at, Stalled([], at))
    ensures at < |content| && Width(content[at..]) > maxBytes ==> AreSound(content, maxBytes, Stalled([], at))
  {
    hide Valid, Width;
  }

  lemma {:induction false} PagesJoinUp(content: Text, start: nat, maxBytes: nat)
    requires Valid(content) && start <= |content| && Valid(content[..start]) && maxBytes > 0
    requires start < |content| || start == 0
    ensures ShowFrom(content, start, ReadFrom(content, start, maxBytes))
    ensures AreSound(content, maxBytes, ReadFrom(content, start, maxBytes))
    decreases |content| - start
  {
    hide FileRead, Valid, Width, ShowFrom, AreSound;
    var page := FileRead(content, Request(start, 0, 0), maxBytes);
    PageAt(content, start, maxBytes);
    ValidBetween(content, start, page.endByte);
    var rest: Reading;
    if page.isEndOfFile {
      rest := Complete([]);
      NoPageShown(content, maxBytes, |content|);
    } else if page.nextByte <= start {
      rest := Stalled([], start);
      StalledOnAWideRune(content, start, maxBytes, page);
      NoPageShown(content, maxBytes, start);
    } else {
      rest := ReadFrom(content, page.nextByte, maxBytes);
      PagesJoinUp(content, page.nextByte, maxBytes);
    }
    OnePageMore(content, start, page.endByte, rest);
    OneSoundPageMore(content, maxBytes, page.content, rest);
    assert ReadFrom(content, start, maxBytes) == Before(page.content, rest);
  }

  /** A page that makes no progress sits before a rune wider than the bound. */
  lemma StalledOnAWideRune(content: Text, start: nat, maxBytes: nat, page: Page)
    requires Valid(content) && start < |content| && Valid(content[..start])
    requires IsPageAt(content, start, maxBytes, page) && page.endByte == start
    ensures Width(content[start..]) > maxBytes
  {
    CutIsValidOnBothSides(content, start);
    var rest := content[start..];
    var w := Width(rest);
    FirstRuneIsValid(rest);
    hide Valid, Width;
    ValidConcat(content[..start], rest[..w]);
    Cut(content, start, start + w);
  }

  lemma {:induction false} PagesBoundTheWidestRune(pages: seq<Text>, maxBytes: nat)
    requires PagesFit(pages, maxBytes)
    ensures WidestRune(Concat(pages)) <= maxBytes
  {
    if pages != [] {
      WidestOfConcat(pages[0], Concat(pages[1..]));
      WidestAtMostLength(pages[0]);
      PagesBoundTheWidestRune(pages[1..], maxBytes);
    }
  }

  lemma SoundReadingCompletesIffRunesFit(content: Text, maxBytes: nat, reading: Reading)
    requires Valid(content) && ShowFrom(content, 0, reading) && AreSound(content, maxBytes, reading)
    ensures reading.Complete? <==> WidestRune(content) <= maxBytes
    ensures reading.Complete? ==> Concat(reading.pages) == content
  {
    if reading.Complete? {
      hide Width, Valid;
      PagesBoundTheWidestRune(reading.pages, maxBytes);
    } else {
      hide Valid;
      assert content[..reading.at] + content[reading.at..] == content;
      WidestOfConcat(content[..reading.at], content[reading.at..]);
    }
  }

  /**
   Following `nextByte` from byte 0 reaches the end of a valid file exactly when
   no rune of it is wider than the output bound. The pages then are valid, within
   the bound, and concatenate to the file byte for byte.
   */
  lemma ReadingCompletesIffRunesFit(content: Text, maxBytes: nat)
    requires Valid(content) && maxBytes > 0
    ensures var reading := ReadFrom(content, 0, maxBytes);
            && PagesFit(reading.pages, maxBytes)
            && (reading.Complete? <==> WidestRune(content) <= maxBytes)
            && (reading.Complete? ==> Concat(reading.pages) == content)
  {
    assert content[..0] == [] && Valid([]);
    hide FileRead, ReadFrom, Valid;
    PagesJoinUp(content, 0, maxBytes);
    SoundReadingCompletesIffRunesFit(content, maxBytes, ReadFrom(content, 0, maxBytes));
  }

  /** Four bytes are enough for any file. */
  lemma FourBytesAlwaysSuffice(content: Text, maxBytes: nat)
    requires Valid(content) && maxBytes >= 4
    ensures var reading := ReadFrom(content, 0, maxBytes);
            reading.Complete? && PagesFit(reading.pages, maxBytes) && Concat(reading.pages) == content
  {
    WidestAtMostLength(content);
    ReadingCompletesIffRunesFit(content, maxBytes);
  }

  /** Three are not: the file holding one four-byte rune (U+1F600) never ends. */
  lemma ThreeBytesCanStall()
    ensures Valid([0xF0, 0x9F, 0x98, 0x80])
    ensures ReadFrom([0xF0, 0x9F, 0x98, 0x80], 0, 3).Stalled?
  {
    var content: Text := [0xF0, 0x9F, 0x98, 0x80];
    assert Width(content) == 4 && content[4..] == [];
    ReadingCompletesIffRunesFit(content, 3);
  }

  // ----- following `endLine`

  /** The pages of a reading that asks for the line after the last one shown. */
  function LinePages(content: Text, startLine: nat, lineCount: int, maxBytes: nat): (pages: seq<Page>)
    requires 1 <= startLine <= |FileLines(content)|
    ensures pages != []
    decreases |FileLines(content)| - startLine
  {
    var page := FileRead(content, Request(0, startLine, lineCount), maxBytes);
    if page.endLine >= page.totalLines then [page]
    else [page] + LinePages(content, page.endLine + 1, lineCount, maxBytes)
  }

  function Contents(pages: seq<Page>): seq<Text> {
    if pages == [] then [] else [pages[0].content] + Contents(pages[1..])
  }

  lemma TruncationShortens(content: Text, maxBytes: int)
    ensures var (shown, isTruncated) := Truncated(content, maxBytes);
            if isTruncated then |shown| < |content| else shown == content
  {
  }

  lemma LinePageIs(content: Text, startLine: nat, lineCount: int, maxBytes: nat)
    requires 1 <= startLine <= |FileLines(content)|
    ensures var page, lines := FileRead(content, Request(0, startLine, lineCount), maxBytes), FileLines(content);
            && page.totalLines == |lines| && startLine <= page.endLine <= |lines|
            && var text := Join(lines[startLine - 1..page.endLine]);
               if page.isTruncated then |page.content| < |text| else page.content == text
  {
    hide FileLines, Truncated, Join;
    var page := FileRead(content, Request(0, startLine, lineCount), maxBytes);
    TruncationShortens(Join(FileLines(content)[startLine - 1..page.endLine]), maxBytes);
  }

  /** A page of lines says that it ends the file exactly when it shows all lines from its first one on. */
  lemma LinePageEndsTheFileIff(content: Text, startLine: nat, lineCount: int, maxBytes: nat)
    requires 1 <= startLine <= |FileLines(content)|
    ensures var page := FileRead(content, Request(0, startLine, lineCount), maxBytes);
            && page.startLine == startLine && page.totalLines == |FileLines(content)|
            && page.totalBytes == |content| && page.nextByte == 0
            && (page.isEndOfFile <==> page.content == Join(FileLines(content)[startLine - 1..]))
  {
    LinePageIs(content, startLine, lineCount, maxBytes);
    var page, lines := FileRead(content, Request(0, startLine, lineCount), maxBytes), FileLines(content);
    var window, rest := lines[startLine - 1..page.endLine], lines[page.endLine..];
    hide FileLines, Join, Truncated;
    assert lines[startLine - 1..] == window + rest;
    if rest == [] {
      assert window + rest == window;
    } else {
      JoinOfConcat(window, rest);
    }
  }

  /** The pages show the text, or at least one of them is cut short and so is the whole. */
  ghost predicate ShowUnlessTruncated(pages: seq<Page>, text: Text) {
    if forall page <- pages :: !page.isTruncated then Join(Contents(pages)) == text
    else |Join(Contents(pages))| < |text|
  }

  lemma OneLinePageMore(page: Page, pages: seq<Page>, first: Text, rest: Text)
    requires pages != [] && ShowUnlessTruncated(pages, rest)
    requires if page.isTruncated then |page.content| < |first| else page.content == first
    ensures ShowUnlessTruncated([page] + pages, first + [NEWLINE] + rest)
  {
    hide Join;
    var all := [page] + pages;
    assert all[1..] == pages && Contents(all) == [page.content] + Contents(pages) && Contents(pages) != [];
    JoinOfConcat([page.content], Contents(pages));
    JoinOfOne(page.content);
    assert all[0] == page && forall other <- pages :: other in all;
    assert forall other <- all :: other == page || other in pages;
  }

  lemma JoinOfOne(line: Text)
    ensures Join([line]) == line
  {
  }

  lemma {:induction false} LinePagesJoinUp(content: Text, startLine: nat, lineCount: int, maxBytes: nat)
    requires 1 <= startLine <= |FileLines(content)|
    ensures var text := Join(FileLines(content)[startLine - 1..]);
            ShowUnlessTruncated(LinePages(content, startLine, lineCount, maxBytes), text)
    decreases |FileLines(content)| - startLine
  {
    hide FileLines, FileRead, Join, ShowUnlessTruncated;
    var lines := FileLines(content);
    var page := FileRead(content, Request(0, startLine, lineCount), maxBytes);
    LinePageIs(content, startLine, lineCount, maxBytes);
    var window := lines[startLine - 1..page.endLine];
    if page.endLine >= page.totalLines {
      assert window == lines[startLine - 1..];
      OneLinePage(page, Join(window));
    } else {
      LinePagesJoinUp(content, page.endLine + 1, lineCount, maxBytes);
      assert lines[startLine - 1..] == window + lines[page.endLine..];
      JoinOfConcat(window, lines[page.endLine..]);
      var rest := LinePages(content, page.endLine + 1, lineCount, maxBytes);
      OneLinePageMore(page, rest, Join(window), Join(lines[page.endLine..]));
    }
  }

  lemma OneLinePage(page: Page, text: Text)
    requires if page.isTruncated then |page.content| < |text| else page.content == text
    ensures ShowUnlessTruncated([page], text)
  {
    assert [page][0] == page && Contents([page]) == [page.content];
  }

  /** A file's lines, `count` at a time. */
  function Windows(lines: seq<Text>, count: nat): seq<seq<Text>>
    requires count > 0
  {
    if lines == [] then [] else if |lines| <= count then [lines] else [lines[..count]] + Windows(lines[count..], count)
  }

  /** How many lines a request asks for. */
  function LinesAsked(lineCount: int): nat {
    if lineCount <= 0 then 200 else lineCount
  }

  ghost predicate WindowsFit(lines: seq<Text>, count: nat, maxBytes: nat)
    requires count > 0
  {
    maxBytes == 0 || forall window <- Windows(lines, count) :: |Join(window)| <= maxBytes
  }

  lemma LinePageIsTruncatedIff(content: Text, startLine: nat, lineCount: int, maxBytes: nat)
    requires 1 <= startLine <= |FileLines(content)|
    ensures var page, all := FileRead(content, Request(0, startLine, lineCount), maxBytes), FileLines(content);
            var lines := all[startLine - 1..];
            && page.endLine == (if |lines| <= LinesAsked(lineCount) then |FileLines(content)|
                                else startLine - 1 + LinesAsked(lineCount))
            && (page.isTruncated <==> maxBytes > 0 && |Join(all[startLine - 1..page.endLine])| > maxBytes)
  {
    hide FileLines, Join;
  }

  lemma {:induction false} NoPageIsTruncatedIff(content: Text, startLine: nat, lineCount: int, maxBytes: nat)
    requires 1 <= startLine <= |FileLines(content)|
    ensures (forall page <- LinePages(content, startLine, lineCount, maxBytes) :: !page.isTruncated) <==>
            WindowsFit(FileLines(content)[startLine - 1..], LinesAsked(lineCount), maxBytes)
    decreases |FileLines(content)| - startLine
  {
    hide FileLines, FileRead, Join, WindowsFit, LinesAsked;
    var all, count := FileLines(content), LinesAsked(lineCount);
    var lines := all[startLine - 1..];
    var page := FileRead(content, Request(0, startLine, lineCount), maxBytes);
    LinePageIs(content, startLine, lineCount, maxBytes);
    LinePageIsTruncatedIff(content, startLine, lineCount, maxBytes);
    WindowsFitIff(lines, count, maxBytes);
    Cut(all, startLine - 1, page.endLine);
    if |lines| <= count {
      assert lines[..|lines|] == lines;
      OnePageTruncated(page, []);
    } else {
      NoPageIsTruncatedIff(content, page.endLine + 1, lineCount, maxBytes);
      Drop(all, startLine - 1, count);
      OnePageTruncated(page, LinePages(content, page.endLine + 1, lineCount, maxBytes));
    }
  }

  lemma OnePageTruncated(page: Page, pages: seq<Page>)
    ensures (forall p <- [page] + pages :: !p.isTruncated) <==> !page.isTruncated && forall p <- pages :: !p.isTruncated
  {
    assert ([page] + pages)[0] == page;
    assert forall p :: p in [page] + pages <==> p == page || p in pages;
  }

  lemma WindowsFitIff(lines: seq<Text>, count: nat, maxBytes: nat)
    requires count > 0 && lines != []
    ensures WindowsFit(lines, count, maxBytes) <==>
            if |lines| <= count then maxBytes == 0 || |Join(lines)| <= maxBytes
            else (maxBytes == 0 || |Join(lines[..count])| <= maxBytes) && WindowsFit(lines[count..], count, maxBytes)
  {
    hide Join;
    var windows := Windows(lines, count);
    if |lines| <= count {
      assert windows == [lines] && windows[0] == lines;
    } else {
      var rest := Windows(lines[count..], count);
      assert windows == [lines[..count]] + rest && windows[0] == lines[..count];
      assert forall w :: w in windows <==> w == lines[..count] || w in rest;
    }
  }

  /**
   Reading on by lines shows all lines of a file exactly when no window of as many lines as are
   asked for is longer than the bound: what is cut from a page is skipped by the next.
   */
  lemma ReadingByLinesIsCompleteIff(content: Text, lineCount: int, maxBytes: nat)
    requires FileLines(content) != []
    ensures Join(Contents(LinePages(content, 1, lineCount, maxBytes))) == Join(FileLines(content)) <==>
            WindowsFit(FileLines(content), LinesAsked(lineCount), maxBytes)
  {
    LinePagesJoinUp(content, 1, lineCount, maxBytes);
    NoPageIsTruncatedIff(content, 1, lineCount, maxBytes);
    assert FileLines(content)[0..] == FileLines(content);
  }

  /** Two lines "ab" and "c", one at a time in one byte: the "b" is never shown. */
  lemma LongLineIsSkipped()
    ensures FileLines([97, 98, NEWLINE, 99]) != []
    ensures Join(Contents(LinePages([97, 98, NEWLINE, 99], 1, 1, 1))) != Join(FileLines([97, 98, NEWLINE, 99]))
  {
    var content: Text, lines: seq<Text> := [97, 98, NEWLINE, 99], [[97, 98], [99]];
    assert lines[1..] == [[99]] && Join(lines) == content;
    SplitInvertsJoin(lines);
    assert FileLines(content) == lines;
    assert Windows(lines, 1) == [lines[..1]] + Windows(lines[1..], 1);
    assert lines[..1] == [[97, 98]] && Join(lines[..1]) == [97, 98] && lines[..1] in Windows(lines, 1);
    ReadingByLinesIsCompleteIff(content, 1, 1);
  }
}
