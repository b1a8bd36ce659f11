/**
 Printing words as a shell command line, against a reader of command lines that follows
 sections 2.2.1 to 2.2.3 and 2.3 of the POSIX Shell Command Language.
 */
module ShellWords {
  import opened Options
  import Utf8

  const NUL: char := '\0'

  predicate NulFree(s: string) {
    NUL !in s
  }

  // ----- the reader

  datatype Token = Word(text: string) | Operator(text: string)

  /** Characters that stand for themselves wherever they stand unquoted. */
  predicate IsPlain(c: char) {
    'a' <= c <= 'z' || 'A' <= c <= 'Z' || '0' <= c <= '9' || c == '/' || c == '.' || c == '-' || c == '_'
  }

  predicate IsNameCharacter(c: char) {
    'a' <= c <= 'z' || 'A' <= c <= 'Z' || '0' <= c <= '9' || c == '_'
  }

  /** Where the next single quote stands, if nothing before it is unreadable. */
  function ClosingQuote(s: string): (n: Option<nat>)
    ensures n.Some? ==> n.value < |s|
  {
    if s == "" || s[0] == NUL then None
    else if s[0] == '\'' then Some(0)
    else
      match ClosingQuote(s[1..])
      case Some(n) => Some(n + 1)
      case None => None
  }

  /** The shell's user's home directory, and what a command puts out. */
  datatype Shell = Shell(home: string, output: seq<Token> -> string)

  /** Command substitution cuts all newlines off the end of the output (section 2.6.3). */
  function WithoutFinalNewlines(s: string): string {
    if s != "" && s[|s| - 1] == '\n' then WithoutFinalNewlines(s[..|s| - 1]) else s
  }

  datatype Quoted = Quoted(text: string, rest: string)

  /** The tokens of a command, and what follows the parenthesis that ends a nested one. */
  datatype Line = Line(tokens: seq<Token>, rest: string)

  /**
   The text up to the closing double quote, the home variable replaced by its value and a
   nested command by its output, and what follows.
   */
  function ReadDoubleQuoted(s: string, shell: Shell): (quoted: Option<Quoted>)
    ensures quoted.Some? ==> |quoted.value.rest| < |s|
    decreases |s|
  {
    if s == "" || s[0] == NUL || s[0] == '`' then None
    else if s[0] == '"' then Some(Quoted("", s[1..]))
    else if "$(" <= s then
      match Read(s[2..], None, shell, true)
      case Some(line) => Before(WithoutFinalNewlines(shell.output(line.tokens)), ReadDoubleQuoted(line.rest, shell))
      case None => None
    else if s[0] == '$' then
      if "$HOME" <= s && |s| > 5 && !IsNameCharacter(s[5]) then Before(shell.home, ReadDoubleQuoted(s[5..], shell))
      else None
    else if s[0] == '\\' && |s| > 1 && s[1] in ['$', '`', '"', '\\'] then
      Before([s[1]], ReadDoubleQuoted(s[2..], shell))
    else if s[0] == '\\' && |s| > 1 && s[1] == '\n' then ReadDoubleQuoted(s[2..], shell)
    else Before([s[0]], ReadDoubleQuoted(s[1..], shell))
  }

  function Before(text: string, quoted: Option<Quoted>): (r: Option<Quoted>)
    ensures r.Some? <==> quoted.Some?
    ensures r.Some? ==> r.value.rest == quoted.value.rest
  {
    match quoted
    case Some(q) => Some(Quoted(text + q.text, q.rest))
    case None => None
  }

  function Grown(word: Option<string>, text: string): Option<string> {
    Some(if word.Some? then word.value + text else text)
  }

  function Ended(word: Option<string>): seq<Token> {
    if word.Some? then [Word(word.value)] else []
  }

  function Then(tokens: seq<Token>, line: Option<Line>): (r: Option<Line>)
    ensures r.Some? <==> line.Some?
    ensures r.Some? ==> r.value.rest == line.value.rest
  {
    match line
    case Some(more) => Some(Line(tokens + more.tokens, more.rest))
    case None => None
  }

  predicate IsNumber(word: Option<string>) {
    word.Some? && forall c <- word.value :: '0' <= c <= '9'
  }

  predicate IsOperatorCharacter(c: char) {
    c in ['<', '>', '&', '|', ';', '(', ')']
  }

  /**
   The tokens of a command, `word` being what is read of the word that is open; a nested one
   ends at its closing parenthesis. Anything a shell would treat in a way not told here is
   refused: other operators, a number before a redirection, unquoted expansions, patterns and
   comments, and the NUL character.
   */
  function Read(s: string, word: Option<string>, shell: Shell, nested: bool): (line: Option<Line>)
    ensures line.Some? ==> if nested then |line.value.rest| < |s| else line.value.rest == ""
    decreases |s|
  {
    if s == "" then if nested then None else Some(Line(Ended(word), ""))
    else if IsPlain(s[0]) then Read(s[1..], Grown(word, [s[0]]), shell, nested)
    else if s[0] == ' ' || s[0] == '\t' then Then(Ended(word), Read(s[1..], None, shell, nested))
    else if s[0] == ')' then if nested then Some(Line(Ended(word), s[1..])) else None
    else if s[0] == '\'' then
      match ClosingQuote(s[1..])
      case Some(n) => Read(s[n + 2..], Grown(word, s[1..n + 1]), shell, nested)
      case None => None
    else if s[0] == '"' then
      match ReadDoubleQuoted(s[1..], shell)
      case Some(quoted) => Read(quoted.rest, Grown(word, quoted.text), shell, nested)
      case None => None
    else if s[0] == '\\' then
      if |s| == 1 || s[1] == NUL then None
      else if s[1] == '\n' then Read(s[2..], word, shell, nested)
      else Read(s[2..], Grown(word, [s[1]]), shell, nested)
    else if s[0] == '<' || s[0] == '>' then
      if IsNumber(word) || (|s| > 1 && IsOperatorCharacter(s[1])) then None
      else Then(Ended(word) + [Operator([s[0]])], Read(s[1..], None, shell, nested))
    else if "&&" <= s then
      if |s| > 2 && IsOperatorCharacter(s[2]) then None
      else Then(Ended(word) + [Operator("&&")], Read(s[2..], None, shell, nested))
    else None
  }

  /** A whole command line. */
  function ReadLine(s: string, shell: Shell): Option<seq<Token>> {
    match Read(s, None, shell, false)
    case Some(line) => Some(line.tokens)
    case None => None
  }

  // ----- the printer

  /** `strings.ReplaceAll` for a pattern of one character. */
  function ReplaceAll(s: string, c: char, text: string): string {
    if s == "" then "" else (if s[0] == c then text else [s[0]]) + ReplaceAll(s[1..], c, text)
  }

  function ShellSingleQuoted(value: string): string {
    "'" + ReplaceAll(value, '\'', "'\\''") + "'"
  }

  function ShellPathArgument(path: string): string {
    if path == "~" then "\"$HOME\""
    else if "~/" <= path then "\"$HOME\"/" + ShellSingleQuoted(path[2..])
    else ShellSingleQuoted(path)
  }

  /** The file a path names for the shell's user. */
  function Resolved(path: string, home: string): string {
    if path == "~" then home
    else if "~/" <= path then home + "/" + path[2..]
    else path
  }

  // ----- quoting

  lemma GrownTwice(word: Option<string>, a: string, b: string)
    ensures Grown(Grown(word, a), b) == Grown(word, a + b)
  {
    assert word.Some? ==> word.value + a + b == word.value + (a + b);
  }

  lemma {:induction false} ClosingQuoteAfter(text: string, rest: string)
    requires NulFree(text) && '\'' !in text
    ensures ClosingQuote(text + ['\''] + rest) == Some(|text|)
  {
    var s := text + ['\''] + rest;
    if text != "" {
      assert s[1..] == text[1..] + ['\''] + rest;
      ClosingQuoteAfter(text[1..], rest);
    }
  }

  lemma ReadSegment(text: string, rest: string, word: Option<string>, shell: Shell, nested: bool)
    requires NulFree(text) && '\'' !in text
    ensures Read("'" + text + "'" + rest, word, shell, nested) == Read(rest, Grown(word, text), shell, nested)
  {
    var s := "'" + text + "'" + rest;
    assert s[1..] == text + ['\''] + rest;
    ClosingQuoteAfter(text, rest);
    assert s[1..|text| + 1] == text && s[|text| + 2..] == rest;
  }

  lemma {:induction false} ReplaceAllConcat(a: string, b: string, c: char, text: string)
    ensures ReplaceAll(a + b, c, text) == ReplaceAll(a, c, text) + ReplaceAll(b, c, text)
  {
    if a == "" {
      assert a + b == b;
    } else {
      assert (a + b)[1..] == a[1..] + b;
      ReplaceAllConcat(a[1..], b, c, text);
    }
  }

  lemma {:induction false} NothingToReplace(s: string, c: char, text: string)
    requires c !in s
    ensures ReplaceAll(s, c, text) == s
  {
    if s != "" {
      NothingToReplace(s[1..], c, text);
    }
  }

  /** A value is its part up to its first quote, that quote, and the rest; or has no quote. */
  function FirstQuote(value: string): (k: nat)
    ensures k <= |value| && '\'' !in value[..k] && (k < |value| ==> value[k] == '\'')
  {
    if value == "" || value[0] == '\'' then 0 else 1 + FirstQuote(value[1..])
  }

  lemma QuotedWhole(value: string)
    requires '\'' !in value
    ensures ShellSingleQuoted(value) == "'" + value + "'"
  {
    NothingToReplace(value, '\'', "'\\''");
  }

  lemma ReplacedInTwo(a: string, b: string, text: string)
    requires '\'' !in a
    ensures ReplaceAll(a + ['\''] + b, '\'', text) == a + text + ReplaceAll(b, '\'', text)
  {
    var tail := ['\''] + b;
    assert a + ['\''] + b == a + tail && tail[1..] == b;
    ReplaceAllConcat(a, tail, '\'', text);
    NothingToReplace(a, '\'', text);
  }

  /** A quoted value with a quote in it: what is before that, an escaped quote, and what is after it quoted. */
  lemma QuotedInTwo(a: string, b: string, rest: string)
    requires '\'' !in a
    ensures ShellSingleQuoted(a + ['\''] + b) + rest == "'" + a + "'" + (['\\', '\''] + (ShellSingleQuoted(b) + rest))
  {
    hide ReplaceAll;
    ReplacedInTwo(a, b, "'\\''");
    var replaced := ReplaceAll(b, '\'', "'\\''");
    assert "'" + (a + "'\\''" + replaced) + "'" + rest ==
           "'" + a + "'" + (['\\', '\''] + ("'" + replaced + "'" + rest));
  }

  lemma ReadEscaped(c: char, rest: string, word: Option<string>, shell: Shell, nested: bool)
    requires c != NUL && c != '\n'
    ensures Read(['\\', c] + rest, word, shell, nested) == Read(rest, Grown(word, [c]), shell, nested)
  {
    assert (['\\', c] + rest)[2..] == rest;
  }

  lemma {:induction false} QuotedReads(value: string, rest: string, word: Option<string>, shell: Shell, nested: bool)
    requires NulFree(value)
    ensures Read(ShellSingleQuoted(value) + rest, word, shell, nested) == Read(rest, Grown(word, value), shell, nested)
    decreases |value|
  {
    hide Read, ShellSingleQuoted, Grown;
    var k := FirstQuote(value);
    if k == |value| {
      assert value[..k] == value;
      QuotedWhole(value);
      ReadSegment(value, rest, word, shell, nested);
    } else {
      var a, b := value[..k], value[k + 1..];
      assert value == a + ['\''] + b;
      QuotedInTwo(a, b, rest);
      var tail := ShellSingleQuoted(b) + rest;
      ReadSegment(a, ['\\', '\''] + tail, word, shell, nested);
      ReadEscaped('\'', tail, Grown(word, a), shell, nested);
      QuotedReads(b, rest, Grown(Grown(word, a), "'"), shell, nested);
      GrownTwice(word, a, "'");
      GrownTwice(word, a + "'", b);
    }
  }

  lemma {:induction false} NoQuoteBeforeNul(text: string, rest: string)
    requires !NulFree(text) && '\'' !in text
    ensures ClosingQuote(text + rest) == None
  {
    if text[0] != NUL {
      assert (text + rest)[1..] == text[1..] + rest;
      NoQuoteBeforeNul(text[1..], rest);
    }
  }

  lemma NulIsRefusedAtOnce(text: string, rest: string, word: Option<string>, shell: Shell, nested: bool)
    requires !NulFree(text) && '\'' !in text
    ensures Read("'" + text + rest, word, shell, nested) == None
  {
    assert ("'" + text + rest)[1..] == text + rest;
    NoQuoteBeforeNul(text, rest);
  }

  lemma {:induction false} QuotedNulIsRefused(value: string, rest: string, word: Option<string>, shell: Shell,
      nested: bool)
    requires !NulFree(value)
    ensures Read(ShellSingleQuoted(value) + rest, word, shell, nested) == None
    decreases |value|
  {
    hide Read, ShellSingleQuoted, Grown;
    var k := FirstQuote(value);
    if k == |value| {
      assert value[..k] == value;
      QuotedWhole(value);
      assert "'" + value + "'" + rest == "'" + value + ("'" + rest);
      NulIsRefusedAtOnce(value, "'" + rest, word, shell, nested);
    } else {
      var a, b := value[..k], value[k + 1..];
      assert value == a + ['\''] + b;
      QuotedInTwo(a, b, rest);
      var tail := ['\\', '\''] + (ShellSingleQuoted(b) + rest);
      if NulFree(a) {
        ReadSegment(a, tail, word, shell, nested);
        ReadEscaped('\'', ShellSingleQuoted(b) + rest, Grown(word, a), shell, nested);
        QuotedNulIsRefused(b, rest, Grown(Grown(word, a), "'"), shell, nested);
      } else {
        assert "'" + a + "'" + tail == "'" + a + ("'" + tail);
        NulIsRefusedAtOnce(a, "'" + tail, word, shell, nested);
      }
    }
  }

  /** A shell reads a quoted value as that value, one word, exactly when it holds no NUL. */
  lemma QuotedReadsAsOneWordIff(value: string, shell: Shell)
    ensures ReadLine(ShellSingleQuoted(value), shell) == Some([Word(value)]) <==> NulFree(value)
  {
    hide ShellSingleQuoted;
    assert ShellSingleQuoted(value) + "" == ShellSingleQuoted(value);
    if NulFree(value) {
      QuotedReads(value, "", None, shell, false);
    } else {
      QuotedNulIsRefused(value, "", None, shell, false);
    }
  }

  // ----- paths

  lemma HomeIsReplaced(rest: string, shell: Shell)
    ensures ReadDoubleQuoted("$HOME\"" + rest, shell) == Some(Quoted(shell.home, rest))
  {
    hide Read;
    var s := "$HOME\"" + rest;
    assert s[..5] == "$HOME" && s[5..] == "\"" + rest && s[1] == 'H' && "$("[1] == '(';
    assert ("\"" + rest)[1..] == rest;
    assert ReadDoubleQuoted("\"" + rest, shell) == Some(Quoted("", rest));
    assert shell.home + "" == shell.home;
  }

  lemma HomeReads(rest: string, word: Option<string>, shell: Shell, nested: bool)
    ensures Read("\"$HOME\"" + rest, word, shell, nested) == Read(rest, Grown(word, shell.home), shell, nested)
  {
    hide ReadDoubleQuoted, Grown;
    assert ("\"$HOME\"" + rest)[1..] == "$HOME\"" + rest;
    HomeIsReplaced(rest, shell);
  }

  lemma PlainCharacterReads(c: char, rest: string, word: Option<string>, shell: Shell, nested: bool)
    requires IsPlain(c)
    ensures Read([c] + rest, word, shell, nested) == Read(rest, Grown(word, [c]), shell, nested)
  {
    hide ReadDoubleQuoted, ClosingQuote, Grown;
    assert ([c] + rest)[1..] == rest;
  }

  lemma {:induction false} PlainReads(text: string, rest: string, word: Option<string>, shell: Shell, nested: bool)
    requires text != "" && forall c <- text :: IsPlain(c)
    ensures Read(text + rest, word, shell, nested) == Read(rest, Grown(word, text), shell, nested)
  {
    var c, tail := text[0], text[1..];
    assert IsPlain(c) && forall d <- tail :: IsPlain(d);
    hide Read, Grown, IsPlain;
    assert text == [c] + tail && text + rest == [c] + (tail + rest);
    PlainCharacterReads(c, tail + rest, word, shell, nested);
    if tail == "" {
      assert tail + rest == rest && [c] + tail == [c];
    } else {
      PlainReads(tail, rest, Grown(word, [c]), shell, nested);
      GrownTwice(word, [c], tail);
    }
  }

  /** A tilde, alone or before a slash, stands for the home directory. */
  lemma ResolvedIs(path: string, home: string)
    ensures Resolved(path, home) == if path == "~" || "~/" <= path then home + path[1..] else path
  {
    assert "~/" <= path ==> path[1..] == "/" + path[2..];
  }

  /** A path argument is one word: the path, its leading tilde replaced by the home directory. */
  lemma PathArgumentReads(path: string, rest: string, word: Option<string>, shell: Shell, nested: bool)
    requires NulFree(path)
    ensures Read(ShellPathArgument(path) + rest, word, shell, nested) ==
            Read(rest, Grown(word, Resolved(path, shell.home)), shell, nested)
  {
    hide Read, ShellSingleQuoted;
    if path == "~" {
      HomeReads(rest, word, shell, nested);
    } else if "~/" <= path {
      var quoted := ShellSingleQuoted(path[2..]) + rest;
      assert ShellPathArgument(path) + rest == "\"$HOME\"" + ("/" + quoted);
      HomeReads("/" + quoted, word, shell, nested);
      PlainReads("/", quoted, Grown(word, shell.home), shell, nested);
      QuotedReads(path[2..], rest, Grown(Grown(word, shell.home), "/"), shell, nested);
      GrownTwice(word, shell.home, "/");
      GrownTwice(word, shell.home + "/", path[2..]);
    } else {
      QuotedReads(path, rest, word, shell, nested);
    }
  }

  lemma PathArgumentWithNulIsRefused(path: string, rest: string, word: Option<string>, shell: Shell, nested: bool)
    requires !NulFree(path)
    ensures Read(ShellPathArgument(path) + rest, word, shell, nested) == None
  {
    hide Read, ShellSingleQuoted;
    if "~/" <= path {
      var quoted := ShellSingleQuoted(path[2..]) + rest;
      assert ShellPathArgument(path) + rest == "\"$HOME\"" + ("/" + quoted);
      HomeReads("/" + quoted, word, shell, nested);
      PlainReads("/", quoted, Grown(word, shell.home), shell, nested);
      assert path == "~/" + path[2..];
      QuotedNulIsRefused(path[2..], rest, Grown(Grown(word, shell.home), "/"), shell, nested);
    } else {
      QuotedNulIsRefused(path, rest, word, shell, nested);
    }
  }

  // ----- lists of words

  function Joined(parts: seq<string>, separator: string): string {
    if parts == [] then "" else if |parts| == 1 then parts[0] else parts[0] + separator + Joined(parts[1..], separator)
  }

  function AllQuoted(words: seq<string>): seq<string> {
    if words == [] then [] else [ShellSingleQuoted(words[0])] + AllQuoted(words[1..])
  }

  function AllWords(words: seq<string>): seq<Token> {
    if words == [] then [] else [Word(words[0])] + AllWords(words[1..])
  }

  lemma SpaceReads(rest: string, word: Option<string>, shell: Shell, nested: bool)
    ensures Read(" " + rest, word, shell, nested) == Then(Ended(word), Read(rest, None, shell, nested))
  {
    assert (" " + rest)[1..] == rest;
  }

  /** A list of words, quoted and joined by spaces, reads back as that list exactly when no word holds a NUL. */
  lemma {:induction false} WordsReadBackIff(words: seq<string>, shell: Shell)
    ensures ReadLine(Joined(AllQuoted(words), " "), shell) == Some(AllWords(words)) <==>
            forall word <- words :: NulFree(word)
    ensures ReadLine(Joined(AllQuoted(words), " "), shell) == None <==> exists word <- words :: !NulFree(word)
  {
    hide ReadLine, ShellSingleQuoted, NulFree;
    if words == [] {
      NothingReads(shell);
    } else if |words| == 1 {
      assert words[1..] == [] && AllQuoted([]) == [] && AllWords([]) == [];
      assert Joined(AllQuoted(words), " ") == ShellSingleQuoted(words[0]) && AllWords(words) == [Word(words[0])];
      assert words[0] in words;
      OneWordReads(words[0], shell);
    } else {
      var rest := words[1..];
      WordsReadBackIff(rest, shell);
      var line := Joined(AllQuoted(rest), " ");
      assert AllQuoted(words)[1..] == AllQuoted(rest);
      assert Joined(AllQuoted(words), " ") == ShellSingleQuoted(words[0]) + (" " + line);
      assert forall word :: word in words <==> word == words[0] || word in rest;
      FirstWordReads(words[0], line, shell);
    }
  }

  lemma NothingReads(shell: Shell)
    ensures ReadLine("", shell) == Some([])
  {
  }

  lemma OneWordReads(word: string, shell: Shell)
    ensures ReadLine(ShellSingleQuoted(word), shell) == if NulFree(word) then Some([Word(word)]) else None
  {
    assert ShellSingleQuoted(word) + "" == ShellSingleQuoted(word);
    if NulFree(word) {
      QuotedReads(word, "", None, shell, false);
    } else {
      QuotedNulIsRefused(word, "", None, shell, false);
    }
  }

  lemma FirstWordReads(word: string, line: string, shell: Shell)
    ensures ReadLine(ShellSingleQuoted(word) + (" " + line), shell) ==
            if NulFree(word) && ReadLine(line, shell).Some? then Some([Word(word)] + ReadLine(line, shell).value)
            else None
  {
    hide Read, ShellSingleQuoted;
    if NulFree(word) {
      QuotedReads(word, " " + line, None, shell, false);
      SpaceReads(line, Some(word), shell, false);
    } else {
      QuotedNulIsRefused(word, " " + line, None, shell, false);
    }
  }

  // ----- the delivery check

  function WordLength(s: string): (n: nat)
    ensures n <= |s| && (forall c <- s[..n] :: !Utf8.IsSpaceCharacter(c)) && (n < |s| ==> Utf8.IsSpaceCharacter(s[n]))
  {
    if s == "" || Utf8.IsSpaceCharacter(s[0]) then 0 else 1 + WordLength(s[1..])
  }

  /** `strings.Fields`. */
  function Fields(s: string): seq<string>
    decreases |s|
  {
    if s == "" then []
    else if Utf8.IsSpaceCharacter(s[0]) then Fields(s[1..])
    else [s[..WordLength(s)]] + Fields(s[WordLength(s)..])
  }

  predicate IsField(word: string) {
    word != "" && forall c <- word :: !Utf8.IsSpaceCharacter(c)
  }

  /** There is no field, and so no command to run, exactly when there is nothing but white space. */
  lemma {:induction false} NoFieldsIff(s: string)
    ensures Fields(s) == [] <==> forall c <- s :: Utf8.IsSpaceCharacter(c)
    decreases |s|
  {
    if s != "" && Utf8.IsSpaceCharacter(s[0]) {
      NoFieldsIff(s[1..]);
      assert s == [s[0]] + s[1..];
    } else if s != "" {
      assert s[0] in s;
    }
  }

  lemma {:induction false} FieldsHold(s: string)
    ensures forall word <- Fields(s) :: IsField(word) && forall c <- word :: c in s
    decreases |s|
  {
    if s != "" && Utf8.IsSpaceCharacter(s[0]) {
      FieldsHold(s[1..]);
    } else if s != "" {
      FieldsHold(s[WordLength(s)..]);
    }
  }

  function WithoutSpaces(s: string): string {
    if s == "" then "" else (if Utf8.IsSpaceCharacter(s[0]) then "" else [s[0]]) + WithoutSpaces(s[1..])
  }

  lemma {:induction false} WordsAreKept(word: string, rest: string)
    requires forall c <- word :: !Utf8.IsSpaceCharacter(c)
    ensures WithoutSpaces(word + rest) == word + WithoutSpaces(rest)
  {
    if word == "" {
      assert word + rest == rest;
    } else {
      assert (word + rest)[1..] == word[1..] + rest;
      WordsAreKept(word[1..], rest);
    }
  }

  /** Fields are words without white space, and together they are the text but for its white space. */
  lemma {:induction false} FieldsAreTheText(s: string)
    ensures (forall word <- Fields(s) :: IsField(word)) && Joined(Fields(s), "") == WithoutSpaces(s)
    decreases |s|
  {
    if s != "" && Utf8.IsSpaceCharacter(s[0]) {
      FieldsAreTheText(s[1..]);
    } else if s != "" {
      var n := WordLength(s);
      FieldsAreTheText(s[n..]);
      assert s == s[..n] + s[n..];
      WordsAreKept(s[..n], s[n..]);
      JoinedWithFirst(s[..n], Fields(s[n..]));
    }
  }

  lemma JoinedWithFirst(word: string, words: seq<string>)
    ensures Joined([word] + words, "") == word + Joined(words, "")
  {
    assert ([word] + words)[1..] == words;
  }

  lemma {:induction false} WordLengthIs(word: string, rest: string)
    requires (forall c <- word :: !Utf8.IsSpaceCharacter(c)) && (rest == "" || Utf8.IsSpaceCharacter(rest[0]))
    ensures WordLength(word + rest) == |word|
  {
    if word != "" {
      assert (word + rest)[1..] == word[1..] + rest;
      WordLengthIs(word[1..], rest);
    } else {
      assert word + rest == rest;
    }
  }

  lemma WordIsTheFirstField(word: string, rest: string)
    requires IsField(word) && (rest == "" || Utf8.IsSpaceCharacter(rest[0]))
    ensures Fields(word + rest) == [word] + Fields(rest)
  {
    hide Utf8.IsSpaceCharacter;
    WordLengthIs(word, rest);
    assert (word + rest)[..|word|] == word && (word + rest)[|word|..] == rest;
    assert (word + rest)[0] == word[0];
  }

  /** Splitting into fields undoes joining with spaces. */
  lemma {:induction false} FieldsOfJoined(words: seq<string>)
    requires forall word <- words :: IsField(word)
    ensures Fields(Joined(words, " ")) == words
  {
    if words != [] {
      var first, line := words[0], Joined(words[1..], " ");
      assert IsField(first);
      var rest := if |words| == 1 then "" else " " + line;
      assert Joined(words, " ") == first + rest;
      WordIsTheFirstField(first, rest);
      hide IsField;
      FieldsOfJoined(words[1..]);
      assert |words| > 1 ==> rest[1..] == line;
      assert words == [first] + words[1..];
    }
  }

  lemma {:induction false} AllQuotedConcat(a: seq<string>, b: seq<string>)
    ensures AllQuoted(a + b) == AllQuoted(a) + AllQuoted(b)
  {
    if a == [] {
      assert a + b == b;
    } else {
      assert (a + b)[1..] == a[1..] + b;
      AllQuotedConcat(a[1..], b);
    }
  }

  lemma OneWordMore(first: seq<string>, rest: seq<string>, i: nat)
    requires i < |rest|
    ensures AllQuoted(first + rest[..i + 1]) == AllQuoted(first + rest[..i]) + [ShellSingleQuoted(rest[i])]
  {
    hide ShellSingleQuoted;
    assert first + rest[..i + 1] == first + rest[..i] + [rest[i]];
    AllQuotedConcat(first + rest[..i], [rest[i]]);
    assert [rest[i]][1..] == [];
  }

  /**
   `deliveryCheckCommand`, how paths are joined being a parameter. A check of white space only
   has no first word to take, and nothing is returned.
   */
  method DeliveryCheckCommand(check: string, directory: string, join: (string, string) -> string, path: string,
      shell: Shell)
    returns (command: Option<string>)
    ensures command.None? <==> forall c <- check :: Utf8.IsSpaceCharacter(c)
    ensures command.Some? ==> Fields(check) != []
    ensures command.Some? ==>
              var words := [join(directory, Fields(check)[0])] + Fields(check)[1..] + [path];
              (ReadLine(command.value, shell) == Some(AllWords(words)) <==> forall word <- words :: NulFree(word))
  {
    hide Fields, Read, ReadLine, ShellSingleQuoted, Joined, NulFree, AllWords;
    var words := Fields(check);
    NoFieldsIff(check);
    if words == [] {
      return None;
    }
    var quoted := [ShellSingleQuoted(join(directory, words[0]))];
    var rest := words[1..] + [path];
    ghost var first := [join(directory, words[0])];
    assert first + words[1..] + [path] == first + rest;
    assert rest[..0] == [] && first + [] == first;
    for i := 0 to |rest|
      invariant quoted == AllQuoted(first + rest[..i])
    {
      OneWordMore(first, rest, i);
      quoted := quoted + [ShellSingleQuoted(rest[i])];
    }
    assert rest[..|rest|] == rest;
    var line := Joined(quoted, " ");
    WordsReadBackIff(first + rest, shell);
    return Some(line);
  }

  // ----- the commands of the file tools

  function Digit(d: nat): char
    requires d < 10
  {
    ('0' as int + d) as char
  }

  function Decimal(n: nat): string {
    (if n < 10 then "" else Decimal(n / 10)) + [Digit(n % 10)]
  }

  /** `strconv.Itoa`. */
  function Itoa(n: int): string {
    if n < 0 then "-" + Decimal(-n) else Decimal(n)
  }

  lemma {:induction false} DecimalIsPlain(n: nat)
    ensures Decimal(n) != "" && forall c <- Decimal(n) :: IsPlain(c)
  {
    if n >= 10 {
      DecimalIsPlain(n / 10);
    }
  }

  /** What a decimal numeral stands for. */
  function NumberOf(digits: string): int {
    if digits == "" then 0
    else NumberOf(digits[..|digits| - 1]) * 10 + (digits[|digits| - 1] as int - '0' as int)
  }

  lemma {:induction false} DecimalReadsBack(n: nat)
    ensures NumberOf(Decimal(n)) == n
  {
    hide NumberOf, Digit;
    NumberOfNothing();
    if n >= 10 {
      DecimalReadsBack(n / 10);
      OneDigitMore(Decimal(n / 10), n % 10);
    } else {
      assert "" + [Digit(n)] == [Digit(n)];
      OneDigitMore("", n);
    }
  }

  lemma NumberOfNothing()
    ensures NumberOf("") == 0
  {
  }

  lemma OneDigitMore(digits: string, d: nat)
    requires d < 10
    ensures NumberOf(digits + [Digit(d)]) == NumberOf(digits) * 10 + d
  {
    var more := digits + [Digit(d)];
    assert more[..|digits|] == digits && more[|digits|] == Digit(d);
  }

  /** A number is written as the numeral that stands for it, a minus before it if it is negative. */
  lemma ItoaReadsBack(n: int)
    ensures if n >= 0 then NumberOf(Itoa(n)) == n else Itoa(n)[0] == '-' && NumberOf(Itoa(n)[1..]) == -n
  {
    DecimalReadsBack(if n < 0 then -n else n);
    assert n < 0 ==> Itoa(n)[1..] == Decimal(-n);
  }

  function FileReadShellCommand(path: string, limit: int): string {
    "wc -c < " + ShellPathArgument(path) + " && head -c " + Itoa(limit) + " < " + ShellPathArgument(path)
  }

  function FileWriteShellCommand(path: string): string {
    "mkdir -p -- \"$(dirname -- " + ShellPathArgument(path) + ")\" && cat > " + ShellPathArgument(path)
  }

  function FileDeleteShellCommand(path: string): string {
    "rm -- " + ShellPathArgument(path)
  }

  lemma ThenTwice(a: seq<Token>, b: seq<Token>, line: Option<Line>)
    ensures Then(a, Then(b, line)) == Then(a + b, line)
  {
    assert line.Some? ==> a + (b + line.value.tokens) == a + b + line.value.tokens;
  }

  lemma WordAndSpaceRead(text: string, rest: string, shell: Shell, nested: bool)
    requires text != "" && forall c <- text :: IsPlain(c)
    ensures Read(text + " " + rest, None, shell, nested) == Then([Word(text)], Read(rest, None, shell, nested))
  {
    hide Read;
    assert text + " " + rest == text + (" " + rest);
    PlainReads(text, " " + rest, None, shell, nested);
    SpaceReads(rest, Some(text), shell, nested);
  }

  lemma OperatorReads(s: string, shell: Shell, nested: bool)
    requires |s| > 1 && (s[0] == '<' || s[0] == '>') && s[1] == ' '
    ensures Read(s, None, shell, nested) == Then([Operator([s[0]])], Read(s[1..], None, shell, nested))
  {
    hide ReadDoubleQuoted, ClosingQuote;
    assert Ended(None) + [Operator([s[0]])] == [Operator([s[0]])];
  }

  lemma RedirectionReads(c: char, rest: string, shell: Shell, nested: bool)
    requires c == '<' || c == '>'
    ensures Read([c] + " " + rest, None, shell, nested) == Then([Operator([c])], Read(rest, None, shell, nested))
  {
    hide Read;
    var s := [c] + " " + rest;
    assert s[0] == c && s[1] == ' ' && s[1..] == " " + rest;
    OperatorReads(s, shell, nested);
    SpaceReads(rest, None, shell, nested);
    ThenTwice([Operator([c])], [], Read(rest, None, shell, nested));
    assert [Operator([c])] + [] == [Operator([c])];
  }

  lemma AndReads(rest: string, shell: Shell, nested: bool)
    ensures Read("&& " + rest, None, shell, nested) == Then([Operator("&&")], Read(rest, None, shell, nested))
  {
    assert ("&& " + rest)[2..] == " " + rest && Ended(None) + [Operator("&&")] == [Operator("&&")];
    SpaceReads(rest, None, shell, nested);
    ThenTwice([Operator("&&")], [], Read(rest, None, shell, nested));
    assert [Operator("&&")] + [] == [Operator("&&")];
  }

  lemma PathAndSpaceRead(path: string, rest: string, shell: Shell, nested: bool)
    ensures Read(ShellPathArgument(path) + " " + rest, None, shell, nested) ==
            if NulFree(path) then Then([Word(Resolved(path, shell.home))], Read(rest, None, shell, nested)) else None
  {
    hide Read, ShellPathArgument, Resolved;
    assert ShellPathArgument(path) + " " + rest == ShellPathArgument(path) + (" " + rest);
    if NulFree(path) {
      PathArgumentReads(path, " " + rest, None, shell, nested);
      SpaceReads(rest, Some(Resolved(path, shell.home)), shell, nested);
    } else {
      PathArgumentWithNulIsRefused(path, " " + rest, None, shell, nested);
    }
  }

  lemma LastPathReads(path: string, shell: Shell)
    ensures Read(ShellPathArgument(path), None, shell, false) ==
            if NulFree(path) then Some(Line([Word(Resolved(path, shell.home))], "")) else None
  {
    hide ShellPathArgument;
    assert ShellPathArgument(path) + "" == ShellPathArgument(path);
    if NulFree(path) {
      PathArgumentReads(path, "", None, shell, false);
    } else {
      PathArgumentWithNulIsRefused(path, "", None, shell, false);
    }
  }

  /** Deleting names exactly the file of the path. */
  lemma DeleteReadsBackIff(path: string, shell: Shell)
    ensures var tokens := [Word("rm"), Word("--"), Word(Resolved(path, shell.home))];
            ReadLine(FileDeleteShellCommand(path), shell) == Some(tokens) <==> NulFree(path)
  {
    hide Read, ShellPathArgument, Resolved;
    var argument := ShellPathArgument(path);
    assert FileDeleteShellCommand(path) == "rm" + " " + ("--" + " " + argument);
    WordAndSpaceRead("rm", "--" + " " + argument, shell, false);
    WordAndSpaceRead("--", argument, shell, false);
    LastPathReads(path, shell);
    ThenTwice([Word("rm")], [Word("--")], Read(argument, None, shell, false));
    var file := Word(Resolved(path, shell.home));
    assert [Word("rm")] + [Word("--")] + [file] == [Word("rm"), Word("--"), file];
  }

  lemma ItoaIsPlain(n: int)
    ensures Itoa(n) != "" && forall c <- Itoa(n) :: IsPlain(c)
  {
    DecimalIsPlain(if n < 0 then -n else n);
  }

  lemma ThenFour(a: Token, b: Token, c: Token, d: Token, line: Option<Line>)
    ensures Then([a], Then([b], Then([c], Then([d], line)))) == Then([a, b, c, d], line)
  {
    assert line.Some? ==> [a] + ([b] + ([c] + ([d] + line.value.tokens))) == [a, b, c, d] + line.value.tokens;
  }

  lemma SizeCommandReads(path: string, rest: string, shell: Shell)
    ensures Read("wc -c < " + (ShellPathArgument(path) + " " + rest), None, shell, false) ==
            var tokens := [Word("wc"), Word("-c"), Operator("<"), Word(Resolved(path, shell.home))];
            if NulFree(path) then Then(tokens, Read(rest, None, shell, false)) else None
  {
    hide Read, ShellPathArgument, Resolved;
    var line := ShellPathArgument(path) + " " + rest;
    assert "wc -c < " + line == "wc" + " " + ("-c" + " " + ("<" + " " + line));
    WordAndSpaceRead("wc", "-c" + " " + ("<" + " " + line), shell, false);
    WordAndSpaceRead("-c", "<" + " " + line, shell, false);
    RedirectionReads('<', line, shell, false);
    PathAndSpaceRead(path, rest, shell, false);
    ThenFour(Word("wc"), Word("-c"), Operator("<"), Word(Resolved(path, shell.home)), Read(rest, None, shell, false));
  }

  lemma HeadCommandReads(path: string, limit: int, shell: Shell)
    requires NulFree(path)
    ensures Read("head -c " + (Itoa(limit) + " " + ("<" + " " + ShellPathArgument(path))), None, shell, false) ==
            var file := Word(Resolved(path, shell.home));
            Some(Line([Word("head"), Word("-c"), Word(Itoa(limit)), Operator("<"), file], ""))
  {
    hide Read, ShellPathArgument, Resolved, Itoa;
    var argument := ShellPathArgument(path);
    var line := Itoa(limit) + " " + ("<" + " " + argument);
    assert "head -c " + line == "head" + " " + ("-c" + " " + line);
    WordAndSpaceRead("head", "-c" + " " + line, shell, false);
    WordAndSpaceRead("-c", line, shell, false);
    ItoaIsPlain(limit);
    WordAndSpaceRead(Itoa(limit), "<" + " " + argument, shell, false);
    RedirectionReads('<', argument, shell, false);
    LastPathReads(path, shell);
    ThenFour(Word("head"), Word("-c"), Word(Itoa(limit)), Operator("<"), Read(argument, None, shell, false));
    var file := Word(Resolved(path, shell.home));
    assert [Word("head"), Word("-c"), Word(Itoa(limit)), Operator("<")] + [file] ==
           [Word("head"), Word("-c"), Word(Itoa(limit)), Operator("<"), file];
  }

  function ReadTokens(file: string, limit: int): seq<Token> {
    [Word("wc"), Word("-c"), Operator("<"), Word(file), Operator("&&")] +
    [Word("head"), Word("-c"), Word(Itoa(limit)), Operator("<"), Word(file)]
  }

  /** Reading sizes and reads exactly the file of the path, within the limit. */
  lemma ReadReadsBackIff(path: string, limit: int, shell: Shell)
    ensures var tokens := ReadTokens(Resolved(path, shell.home), limit);
            ReadLine(FileReadShellCommand(path, limit), shell) == Some(tokens) <==> NulFree(path)
  {
    hide Read, ShellPathArgument, Resolved, Itoa;
    var argument := ShellPathArgument(path);
    var head := "head -c " + (Itoa(limit) + " " + ("<" + " " + argument));
    assert FileReadShellCommand(path, limit) == "wc -c < " + (argument + " " + ("&& " + head));
    SizeCommandReads(path, "&& " + head, shell);
    if NulFree(path) {
      AndReads(head, shell, false);
      HeadCommandReads(path, limit, shell);
      ThenTwice([Word("wc"), Word("-c"), Operator("<"), Word(Resolved(path, shell.home))], [Operator("&&")],
          Read(head, None, shell, false));
      assert [Word("wc"), Word("-c"), Operator("<"), Word(Resolved(path, shell.home))] + [Operator("&&")] ==
             [Word("wc"), Word("-c"), Operator("<"), Word(Resolved(path, shell.home)), Operator("&&")];
    }
  }

  // ----- a command inside a command

  lemma ParenthesisEnds(rest: string, word: string, shell: Shell)
    ensures Read(")" + rest, Grown(None, word), shell, true) == Some(Line([Word(word)], rest))
  {
    assert (")" + rest)[1..] == rest;
  }

  lemma NestedPathReads(path: string, rest: string, shell: Shell)
    ensures Read(ShellPathArgument(path) + ")" + rest, None, shell, true) ==
            if NulFree(path) then Some(Line([Word(Resolved(path, shell.home))], rest)) else None
  {
    hide ShellPathArgument, Resolved, NulFree, Read;
    assert ShellPathArgument(path) + ")" + rest == ShellPathArgument(path) + (")" + rest);
    if NulFree(path) {
      PathArgumentReads(path, ")" + rest, None, shell, true);
      ParenthesisEnds(rest, Resolved(path, shell.home), shell);
    } else {
      PathArgumentWithNulIsRefused(path, ")" + rest, None, shell, true);
    }
  }

  /** The command that names the directory of the file. */
  function DirnameTokens(file: string): seq<Token> {
    [Word("dirname"), Word("--"), Word(file)]
  }

  /** What stands for the directory of the file in the write command. */
  function DirectoryMade(file: string, shell: Shell): string {
    WithoutFinalNewlines(shell.output(DirnameTokens(file)))
  }

  lemma DirnameReads(path: string, rest: string, shell: Shell)
    ensures Read("dirname -- " + (ShellPathArgument(path) + ")" + rest), None, shell, true) ==
            if NulFree(path) then Some(Line(DirnameTokens(Resolved(path, shell.home)), rest)) else None
  {
    hide Read, ShellPathArgument, Resolved;
    var line := ShellPathArgument(path) + ")" + rest;
    assert "dirname -- " + line == "dirname" + " " + ("--" + " " + line);
    WordAndSpaceRead("dirname", "--" + " " + line, shell, true);
    WordAndSpaceRead("--", line, shell, true);
    NestedPathReads(path, rest, shell);
    ThenTwice([Word("dirname")], [Word("--")], Read(line, None, shell, true));
    var file := Resolved(path, shell.home);
    assert [Word("dirname")] + [Word("--")] + [Word(file)] == DirnameTokens(file);
  }

  /** In double quotes a nested command is one word with its output, whatever its own quotes. */
  lemma NestedCommandReads(path: string, rest: string, shell: Shell)
    ensures Read("\"$(dirname -- " + (ShellPathArgument(path) + ")" + ("\"" + rest)), None, shell, false) ==
            if NulFree(path) then Read(rest, Some(DirectoryMade(Resolved(path, shell.home), shell)), shell, false)
            else None
  {
    hide Read, ReadDoubleQuoted, ShellPathArgument, Resolved, DirectoryMade;
    var tail := ShellPathArgument(path) + ")" + ("\"" + rest);
    var line := "dirname -- " + tail;
    assert "\"$(dirname -- " + tail == "\"" + ("$(" + line);
    QuoteOpens("$(" + line, None, shell);
    NestedIsRead(line, shell);
    DirnameReads(path, "\"" + rest, shell);
    QuoteCloses(rest, shell);
    if NulFree(path) {
      OutputIsTheWord(path, rest, shell);
    }
  }

  lemma OutputIsTheWord(path: string, rest: string, shell: Shell)
    ensures var file := Resolved(path, shell.home);
            Before(WithoutFinalNewlines(shell.output(DirnameTokens(file))), Some(Quoted("", rest))) ==
            Some(Quoted(DirectoryMade(file, shell), rest))
  {
    hide Resolved;
    var output := DirectoryMade(Resolved(path, shell.home), shell);
    assert output + "" == output;
  }

  lemma QuoteOpens(text: string, word: Option<string>, shell: Shell)
    ensures Read("\"" + text, word, shell, false) ==
            match ReadDoubleQuoted(text, shell)
            case Some(quoted) => Read(quoted.rest, Grown(word, quoted.text), shell, false)
            case None => None
  {
    assert ("\"" + text)[1..] == text;
  }

  lemma QuoteCloses(rest: string, shell: Shell)
    ensures ReadDoubleQuoted("\"" + rest, shell) == Some(Quoted("", rest))
  {
    assert ("\"" + rest)[1..] == rest;
  }

  lemma NestedIsRead(line: string, shell: Shell)
    ensures ReadDoubleQuoted("$(" + line, shell) ==
            match Read(line, None, shell, true)
            case Some(command) =>
              Before(WithoutFinalNewlines(shell.output(command.tokens)), ReadDoubleQuoted(command.rest, shell))
            case None => None
  {
    assert ("$(" + line)[2..] == line;
  }

  function WriteTokens(file: string, shell: Shell): seq<Token> {
    [Word("mkdir"), Word("-p"), Word("--"), Word(DirectoryMade(file, shell))] +
    [Operator("&&"), Word("cat"), Operator(">"), Word(file)]
  }

  lemma CatReads(path: string, shell: Shell)
    requires NulFree(path)
    ensures Read("&& cat > " + ShellPathArgument(path), None, shell, false) ==
            Some(Line([Operator("&&"), Word("cat"), Operator(">"), Word(Resolved(path, shell.home))], ""))
  {
    hide Read, ShellPathArgument, Resolved;
    var argument := ShellPathArgument(path);
    assert "&& cat > " + argument == "&& " + ("cat" + " " + (">" + " " + argument));
    AndReads("cat" + " " + (">" + " " + argument), shell, false);
    WordAndSpaceRead("cat", ">" + " " + argument, shell, false);
    RedirectionReads('>', argument, shell, false);
    LastPathReads(path, shell);
    var file := Word(Resolved(path, shell.home));
    assert [Operator("&&")] + ([Word("cat")] + ([Operator(">")] + [file])) ==
           [Operator("&&"), Word("cat"), Operator(">"), file];
  }

  lemma WriteCommandIs(path: string)
    ensures var argument := ShellPathArgument(path);
            var nested := "\"$(dirname -- " + (argument + ")" + ("\"" + (" " + ("&& cat > " + argument))));
            FileWriteShellCommand(path) == "mkdir" + " " + ("-p" + " " + ("--" + " " + nested))
  {
    hide ShellPathArgument;
  }

  /** Writing makes the directory that the nested command names and writes exactly the file of the path. */
  lemma WriteReadsBackIff(path: string, shell: Shell)
    ensures ReadLine(FileWriteShellCommand(path), shell) == Some(WriteTokens(Resolved(path, shell.home), shell)) <==>
            NulFree(path)
  {
    hide Read, ShellPathArgument, Resolved, DirnameTokens;
    var argument := ShellPathArgument(path);
    var cat := "&& cat > " + argument;
    var nested := "\"$(dirname -- " + (argument + ")" + ("\"" + (" " + cat)));
    WriteCommandIs(path);
    hide FileWriteShellCommand;
    WordAndSpaceRead("mkdir", "-p" + " " + ("--" + " " + nested), shell, false);
    WordAndSpaceRead("-p", "--" + " " + nested, shell, false);
    WordAndSpaceRead("--", nested, shell, false);
    NestedCommandReads(path, " " + cat, shell);
    if NulFree(path) {
      var output := DirectoryMade(Resolved(path, shell.home), shell);
      SpaceReads(cat, Some(output), shell, false);
      CatReads(path, shell);
      ThenFour(Word("mkdir"), Word("-p"), Word("--"), Word(output), Read(cat, None, shell, false));
    }
  }

  // ----- the directory that is made

  function WithoutFinalSlashes(s: string): (t: string)
    ensures t == "" || t[|t| - 1] != '/'
  {
    if s != "" && s[|s| - 1] == '/' then WithoutFinalSlashes(s[..|s| - 1]) else s
  }

  /** What is left of a path, slash included, when the name at its end is taken off. */
  function UpToLastSlash(s: string): (t: string)
    ensures t == "" || t[|t| - 1] == '/'
  {
    if s != "" && s[|s| - 1] != '/' then UpToLastSlash(s[..|s| - 1]) else s
  }

  /** `dirname`, as POSIX describes it. */
  function Dirname(path: string): (directory: string)
    ensures directory != ""
  {
    var named := WithoutFinalSlashes(path);
    if named == "" then if path == "" then "." else "/"
    else if UpToLastSlash(named) == "" then "."
    else
      var directory := WithoutFinalSlashes(UpToLastSlash(named));
      if directory == "" then "/" else directory
  }

  lemma {:induction false} NameIsTakenOff(directory: string, name: string)
    requires '/' !in name
    ensures UpToLastSlash(directory + "/" + name) == directory + "/"
  {
    var path := directory + "/" + name;
    if name != "" {
      assert path[..|path| - 1] == directory + "/" + name[..|name| - 1];
      NameIsTakenOff(directory, name[..|name| - 1]);
    } else {
      assert path == directory + "/";
    }
  }

  /** The directory of a name in a directory is that directory. */
  lemma DirnameOfJoined(directory: string, name: string)
    requires directory != "" && directory[|directory| - 1] != '/' && name != "" && '/' !in name
    ensures Dirname(directory + "/" + name) == directory
  {
    var path := directory + "/" + name;
    assert path[|path| - 1] == name[|name| - 1] && name[|name| - 1] in name;
    assert WithoutFinalSlashes(path) == path;
    NameIsTakenOff(directory, name);
    assert (directory + "/")[..|directory|] == directory;
    assert WithoutFinalSlashes(directory + "/") == WithoutFinalSlashes(directory) == directory;
  }

  /** The shell's `dirname` puts out the directory and a newline. */
  ghost predicate KnowsDirname(shell: Shell) {
    forall file :: shell.output(DirnameTokens(file)) == Dirname(file) + "\n"
  }

  /** The directory that writing makes is the file's own exactly when its name does not end in a newline. */
  lemma WriteMakesTheDirectoryIff(path: string, shell: Shell)
    requires KnowsDirname(shell)
    ensures var directory := Dirname(Resolved(path, shell.home));
            DirectoryMade(Resolved(path, shell.home), shell) == directory <==> directory[|directory| - 1] != '\n'
  {
    var directory := Dirname(Resolved(path, shell.home));
    assert (directory + "\n")[..|directory|] == directory;
    assert WithoutFinalNewlines(directory + "\n") == WithoutFinalNewlines(directory);
    if directory[|directory| - 1] == '\n' {
      WithoutNewlinesIsShorter(directory[..|directory| - 1]);
    }
  }

  lemma {:induction false} WithoutNewlinesIsShorter(s: string)
    ensures |WithoutFinalNewlines(s)| <= |s|
  {
    if s != "" && s[|s| - 1] == '\n' {
      WithoutNewlinesIsShorter(s[..|s| - 1]);
    }
  }

  lemma OutputOfNewlineDirectory()
    ensures Dirname("/d\n/x") == "/d\n" && WithoutFinalNewlines("/d\n" + "\n") == "/d"
  {
    var directory := "/d\n";
    var output := directory + "\n";
    assert directory + "/" + "x" == "/d\n/x";
    DirnameOfJoined(directory, "x") by { assert directory[2] == '\n'; }
    hide Dirname;
    assert output[..3] == directory && directory[..2] == "/d";
    assert WithoutFinalNewlines(output) == WithoutFinalNewlines(directory) == WithoutFinalNewlines("/d") == "/d";
  }

  /** For a file in a directory whose name ends in a newline, another directory is made. */
  lemma WriteCanMakeAnotherDirectory(shell: Shell)
    requires KnowsDirname(shell)
    ensures Dirname(Resolved("/d\n/x", shell.home)) == "/d\n"
    ensures DirectoryMade(Resolved("/d\n/x", shell.home), shell) == "/d"
  {
    hide Dirname, WithoutFinalNewlines, DirnameTokens;
    assert "/d\n/x"[0] == '/' && Resolved("/d\n/x", shell.home) == "/d\n/x";
    OutputOfNewlineDirectory();
  }
}
