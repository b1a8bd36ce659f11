/** Lines: `strings.Split(s, "\n")`, `strings.Join(lines, "\n")` and the read tool's line list. */
module Lines {
  import opened Slices
  import opened Utf8

  const NEWLINE: Byte := 10
  const SPACE: Byte := 32
  const TAB: Byte := 9

  /** A byte that `" \t"` trims. */
  predicate IsInlineSpace(b: Byte) {
    b == SPACE || b == TAB
  }

  /** `strings.Split(s, "\n")`. */
  function Split(s: Text): (lines: seq<Text>)
    ensures lines != []
    ensures forall line <- lines :: NEWLINE !in line
  {
    if s == [] then [[]]
    else
      var rest := Split(s[1..]);
      if s[0] == NEWLINE then [[]] + rest else [[s[0]] + rest[0]] + rest[1..]
  }

  /** `strings.Join(lines, "\n")`. */
  function Join(lines: seq<Text>): Text {
    if lines == [] then []
    else if |lines| == 1 then lines[0]
    else lines[0] + [NEWLINE] + Join(lines[1..])
  }

  lemma {:induction false} JoinInvertsSplit(s: Text)
    ensures Join(Split(s)) == s
  {
    if s != [] {
      var rest := Split(s[1..]);
      JoinInvertsSplit(s[1..]);
      if s[0] != NEWLINE {
        assert Split(s)[1..] == rest[1..];
      } else {
        assert Split(s)[1..] == rest;
      }
    }
  }

  lemma {:induction false} SplitOfConcat(line: Text, s: Text)
    requires NEWLINE !in line
    ensures Split(line + s) == [line + Split(s)[0]] + Split(s)[1..]
  {
    if line == [] {
      assert line + s == s && line + Split(s)[0] == Split(s)[0];
    } else {
      assert (line + s)[1..] == line[1..] + s;
      SplitOfConcat(line[1..], s);
      assert [line[0]] + (line[1..] + Split(s)[0]) == line + Split(s)[0];
    }
  }

  /** Lines without newlines survive being joined and split again. */
  lemma {:induction false} SplitInvertsJoin(lines: seq<Text>)
    requires lines != [] && forall line <- lines :: NEWLINE !in line
    ensures Split(Join(lines)) == lines
  {
    if |lines| == 1 {
      SplitOfConcat(lines[0], []);
      assert lines[0] + [] == lines[0];
    } else {
      var rest := [NEWLINE] + Join(lines[1..]);
      assert Join(lines) == lines[0] + rest;
      SplitOfConcat(lines[0], rest);
      assert rest[1..] == Join(lines[1..]);
      SplitInvertsJoin(lines[1..]);
      assert Split(rest) == [[]] + lines[1..];
      assert lines[0] + Split(rest)[0] == lines[0];
    }
  }

  lemma {:induction false} JoinOfConcat(a: seq<Text>, b: seq<Text>)
    requires a != [] && b != []
    ensures Join(a + b) == Join(a) + [NEWLINE] + Join(b)
  {
    assert (a + b)[1..] == a[1..] + b;
    if |a| > 1 {
      JoinOfConcat(a[1..], b);
      assert a[0] + [NEWLINE] + (Join(a[1..]) + [NEWLINE] + Join(b)) ==
             a[0] + [NEWLINE] + Join(a[1..]) + [NEWLINE] + Join(b);
    }
  }

  /** `splitFileLines`: a final newline ends the last line instead of opening another. */
  function FileLines(content: Text): seq<Text> {
    if content == [] then []
    else if content[|content| - 1] == NEWLINE then Split(content[..|content| - 1])
    else Split(content)
  }

  /** An empty file has no lines; any other is its lines joined, and the newline it ends in if it ends in one. */
  lemma FileLinesJoinUp(content: Text)
    ensures content == [] <==> FileLines(content) == []
    ensures forall line <- FileLines(content) :: NEWLINE !in line
    ensures content != [] ==>
              content == Join(FileLines(content)) + if content[|content| - 1] == NEWLINE then [NEWLINE] else []
  {
    hide Split, Join;
    if content != [] {
      JoinInvertsSplit(content);
      JoinInvertsSplit(content[..|content| - 1]);
      AllButLast(content);
    }
  }
}
