/**
 The edit layer that tolerates look-alikes: typographic quotes, dashes and spaces
 match their plain forms. The match is found in normalised bytes and mapped back
 to the original text by counting runes.
 */
module UnicodeEdit {
  import opened Slices
  import opened Utf8
  import opened Matching
  import opened EditOutcome

  function PlainRune(r: Rune): Rune {
    if 0x2018 <= r <= 0x201B then 0x27
    else if 0x201C <= r <= 0x201F then 0x22
    else if 0x2010 <= r <= 0x2015 || r == 0x2212 then 0x2D
    else if r == 0xA0 || 0x2002 <= r <= 0x200A || r == 0x202F || r == 0x205F || r == 0x3000 then 0x20
    else r
  }

  /** Exactly these runes are taken for a plain quote, double quote, hyphen or space; every other for itself. */
  lemma PlainRuneIff(r: Rune)
    ensures PlainRune(r) == 0x27 <==> r in {0x27, 0x2018, 0x2019, 0x201A, 0x201B}
    ensures PlainRune(r) == 0x22 <==> r in {0x22, 0x201C, 0x201D, 0x201E, 0x201F}
    ensures PlainRune(r) == 0x2D <==> r in {0x2D, 0x2010, 0x2011, 0x2012, 0x2013, 0x2014, 0x2015, 0x2212}
    ensures PlainRune(r) == 0x20 <==>
            r in {0x20, 0xA0, 0x2002, 0x2003, 0x2004, 0x2005, 0x2006, 0x2007, 0x2008, 0x2009, 0x200A, 0x202F, 0x205F,
                  0x3000}
    ensures PlainRune(r) !in {0x20, 0x22, 0x27, 0x2D} ==> PlainRune(r) == r
  {
  }

  function PlainRunes(runes: seq<Rune>): seq<Rune> {
    seq(|runes|, k requires 0 <= k < |runes| => PlainRune(runes[k]))
  }

  /** `normalizeEditLookalikes`: `strings.Map` decodes, maps and encodes. */
  function Plain(s: Text): Text {
    Encode(PlainRunes(Decode(s)))
  }

  function ApplyUnicodeEdit(content: Text, oldText: Text, newText: Text): Outcome
    requires oldText != []
  {
    var plainContent, plainOld := Plain(content), Plain(oldText);
    PlainIsNotEmpty(oldText);
    if Count(plainContent, plainOld) != 1 then NotApplied(Count(plainContent, plainOld))
    else
      SoleMatchIsARuneSpan(content, oldText);
      var byteIndex := Index(plainContent, plainOld);
      var runeIndex := |Decode(plainContent[..byteIndex])|;
      var runeLength := |Decode(plainOld)|;
      var runes := Decode(content);
      Applied(Encode(runes[..runeIndex]) + newText + Encode(runes[runeIndex + runeLength..]))
  }

  // ----- matches of bytes are matches of runes

  predicate RunesMatchAt(runes: seq<Rune>, m: seq<Rune>, k: nat) {
    k + |m| <= |runes| && runes[k..k + |m|] == m
  }

  /** A leftmost match of runes with nothing at or after its end. */
  ghost predicate SoleRuneMatch(runes: seq<Rune>, m: seq<Rune>, k: nat) {
    && RunesMatchAt(runes, m, k)
    && (forall j: nat :: j < k ==> !RunesMatchAt(runes, m, j))
    && (forall j: nat :: k + |m| <= j ==> !RunesMatchAt(runes, m, j))
  }

  /** The byte at which rune `k` of an encoding starts. */
  function ByteOf(runes: seq<Rune>, k: nat): nat
    requires k <= |runes|
  {
    |Encode(runes[..k])|
  }

  lemma {:induction false} LaterRunesStartLater(runes: seq<Rune>, j: nat, k: nat)
    requires j <= k <= |runes|
    ensures ByteOf(runes, j) + (k - j) <= ByteOf(runes, k)
    decreases k
  {
    if j < k {
      LaterRunesStartLater(runes, j, k - 1);
      assert runes[..k] == runes[..k - 1] + [runes[k - 1]];
      EncodeConcat(runes[..k - 1], [runes[k - 1]]);
    }
  }

  /** Cutting an encoding where runes start cuts the runes. */
  lemma EncodedParts(runes: seq<Rune>, x: seq<Rune>, y: seq<Rune>, z: seq<Rune>)
    requires runes == x + (y + z)
    ensures var s, a, b := Encode(runes), |Encode(x)|, |Encode(x + y)|;
            a <= b <= |s| && s[..a] == Encode(x) && s[a..b] == Encode(y) && s[b..] == Encode(z)
  {
    hide Encode;
    EncodeConcat(x, y + z);
    EncodeConcat(y, z);
    EncodeConcat(x, y);
    ThreeParts(Encode(x), Encode(y), Encode(z));
  }

  lemma EncodedSpan(runes: seq<Rune>, j: nat, k: nat)
    requires j <= k <= |runes|
    ensures var s, a, b := Encode(runes), ByteOf(runes, j), ByteOf(runes, k);
            && a <= b <= |s|
            && s[..a] == Encode(runes[..j]) && s[a..b] == Encode(runes[j..k]) && s[b..] == Encode(runes[k..])
  {
    hide Encode;
    CutInThree(runes, j, k);
    EncodedParts(runes, runes[..j], runes[j..k], runes[k..]);
  }

  lemma RuneMatchIsByteMatch(runes: seq<Rune>, m: seq<Rune>, k: nat)
    requires RunesMatchAt(runes, m, k)
    ensures MatchesAt(Encode(runes), Encode(m), ByteOf(runes, k))
    ensures ByteOf(runes, k) + |Encode(m)| == ByteOf(runes, k + |m|)
  {
    hide Encode;
    EncodedSpan(runes, k, k + |m|);
  }

  /** A match of encoded bytes starts and ends between runes, so the runes match too. */
  lemma ByteMatchIsRuneMatch(runes: seq<Rune>, m: seq<Rune>, i: nat) returns (k: nat)
    requires Encode(m) != [] && MatchesAt(Encode(runes), Encode(m), i)
    ensures k == |Decode(Encode(runes)[..i])|
    ensures RunesMatchAt(runes, m, k) && ByteOf(runes, k) == i
  {
    hide Width, Scalar, Encode, Decode, Valid;
    var s, t := Encode(runes), Encode(m);
    DecodeInvertsEncode(runes);
    DecodeInvertsEncode(m);
    MatchFallsOnBoundaries(s, i, t);
    k := |Decode(s[..i])|;
    assert s == s[..i] + (t + s[i + |t|..]);
    DecodeConcat(s[..i], t + s[i + |t|..]);
    DecodeConcat(t, s[i + |t|..]);
    assert runes == Decode(s[..i]) + (m + Decode(s[i + |t|..]));
    assert runes[..k] == Decode(s[..i]);
    EncodeInvertsDecode(s[..i]);
  }

  lemma SoleByteMatchIsSoleRuneMatch(runes: seq<Rune>, m: seq<Rune>, i: nat) returns (k: nat)
    requires Encode(m) != [] && SoleLeftmost(Encode(runes), Encode(m), i)
    ensures SoleRuneMatch(runes, m, k)
  {
    hide Encode;
    k := ByteMatchIsRuneMatch(runes, m, i);
    RuneMatchIsByteMatch(runes, m, k);
    forall j: nat | RunesMatchAt(runes, m, j) ensures k <= j < k + |m| {
      RuneMatchIsByteMatch(runes, m, j);
      if j < k {
        LaterRunesStartLater(runes, j, k);
      } else if k + |m| <= j {
        LaterRunesStartLater(runes, k + |m|, j);
      }
    }
  }

  lemma SoleRuneMatchIsSoleByteMatch(runes: seq<Rune>, m: seq<Rune>, k: nat)
    requires Encode(m) != [] && SoleRuneMatch(runes, m, k)
    ensures k <= |runes| && SoleLeftmost(Encode(runes), Encode(m), ByteOf(runes, k))
  {
    assert k + |m| <= |runes|;
    hide Encode, MatchesAt, RunesMatchAt, ByteOf, SoleRuneMatch;
    RuneMatchIsByteMatch(runes, m, k);
    forall b: nat | MatchesAt(Encode(runes), Encode(m), b)
      ensures ByteOf(runes, k) <= b < ByteOf(runes, k) + |Encode(m)|
    {
      ByteMatchIsWithin(runes, m, k, b);
    }
  }

  lemma MatchIsWithin(runes: seq<Rune>, m: seq<Rune>, k: nat)
    requires SoleRuneMatch(runes, m, k)
    ensures RunesMatchAt(runes, m, k) && k + |m| <= |runes|
  {
  }

  lemma ByteMatchIsWithin(runes: seq<Rune>, m: seq<Rune>, k: nat, b: nat)
    requires Encode(m) != [] && SoleRuneMatch(runes, m, k) && MatchesAt(Encode(runes), Encode(m), b)
    ensures k + |m| <= |runes| && ByteOf(runes, k) <= b < ByteOf(runes, k) + |Encode(m)|
  {
    hide Encode, Decode, MatchesAt, ByteOf, RunesMatchAt;
    var j := ByteMatchIsRuneMatch(runes, m, b);
    MatchIsWithin(runes, m, k);
    assert k <= j < k + |m|;
    hide SoleRuneMatch;
    RuneMatchIsByteMatch(runes, m, k);
    LaterRunesStartLater(runes, k, j);
    LaterRunesStartLater(runes, j, k + |m|);
  }

  /** Counting one match in the bytes is finding one in the runes. */
  lemma CountOfRunes(runes: seq<Rune>, m: seq<Rune>)
    requires Encode(m) != []
    ensures Count(Encode(runes), Encode(m)) == 1 <==> exists k: nat :: SoleRuneMatch(runes, m, k)
  {
    hide Encode, Count, SoleRuneMatch;
    var s, t := Encode(runes), Encode(m);
    CountIsOneIff(s, t);
    if Count(s, t) == 1 {
      var k := SoleByteMatchIsSoleRuneMatch(runes, m, Index(s, t));
    }
    if k: nat :| SoleRuneMatch(runes, m, k) {
      SoleRuneMatchIsSoleByteMatch(runes, m, k);
      assert Index(s, t) == ByteOf(runes, k) by { IndexOfSole(s, t, ByteOf(runes, k)); }
    }
  }

  lemma IndexOfSole(s: Text, m: Text, i: nat)
    requires SoleLeftmost(s, m, i)
    ensures Index(s, m) == i
  {
    assert MatchesAt(s, m, i) && (Index(s, m) != -1 ==> MatchesAt(s, m, Index(s, m)));
  }

  // ----- what an edit replaces

  lemma PlainFacts(s: Text)
    ensures Valid(Plain(s)) && Decode(Plain(s)) == PlainRunes(Decode(s))
  {
    DecodeInvertsEncode(PlainRunes(Decode(s)));
  }

  lemma PlainIsNotEmpty(s: Text)
    requires s != []
    ensures Decode(s) != [] && Plain(s) != []
  {
    assert |PlainRunes(Decode(s))| > 0;
  }

  lemma SoleMatchIsARuneSpan(content: Text, oldText: Text)
    requires oldText != [] && Plain(oldText) != [] && Count(Plain(content), Plain(oldText)) == 1
    ensures var i := Index(Plain(content), Plain(oldText));
            && 0 <= i <= |Plain(content)|
            && RunesMatchAt(PlainRunes(Decode(content)), PlainRunes(Decode(oldText)), |Decode(Plain(content)[..i])|)
            && |Decode(Plain(oldText))| == |Decode(oldText)|
  {
    CountIsOneIff(Plain(content), Plain(oldText));
    PlainIsNotEmpty(oldText);
    PlainFacts(oldText);
    var k := ByteMatchIsRuneMatch(PlainRunes(Decode(content)), PlainRunes(Decode(oldText)),
        Index(Plain(content), Plain(oldText)));
  }

  /** The text from `a` to `b` is whole runes of `content` and looks like `oldText`. */
  ghost predicate LooksAlike(content: Text, oldText: Text, a: nat, b: nat) {
    && a <= b <= |content|
    && Valid(content[..a]) && Valid(content[..b])
    && Plain(content[a..b]) == Plain(oldText)
  }

  /** It is the leftmost such text, and no such text starts at or after its end. */
  ghost predicate SoleLookAlike(content: Text, oldText: Text, a: nat, b: nat) {
    && LooksAlike(content, oldText, a, b)
    && (forall x: nat, y: nat :: LooksAlike(content, oldText, x, y) ==> a <= x < b)
  }

  lemma PlainOfSlice(runes: seq<Rune>, j: nat, k: nat)
    requires j <= k <= |runes|
    ensures |PlainRunes(runes)| == |runes|
    ensures PlainRunes(runes[j..k]) == PlainRunes(runes)[j..k]
  {
  }

  lemma PlainOfEncoded(runes: seq<Rune>)
    ensures Plain(Encode(runes)) == Encode(PlainRunes(runes))
  {
    DecodeInvertsEncode(runes);
  }

  lemma PlainOfDecoded(s: Text)
    ensures Plain(s) == Encode(PlainRunes(Decode(s)))
  {
  }

  lemma PlainOfMatch(runes: seq<Rune>, m: seq<Rune>, k: nat)
    requires RunesMatchAt(PlainRunes(runes), PlainRunes(m), k)
    ensures k + |m| <= |runes| && PlainRunes(runes[k..k + |m|]) == PlainRunes(m)
  {
    PlainOfSlice(runes, k, k + |m|);
  }

  /** The bytes before a rune are valid text, and the encoding of the runes before it. */
  lemma BytesBefore(content: Text, k: nat)
    requires Valid(content) && k <= |Decode(content)|
    ensures var runes, a := Decode(content), ByteOf(Decode(content), k);
            a <= |content| && content[..a] == Encode(runes[..k]) && Valid(content[..a])
  {
    hide Encode, Decode, Valid;
    EncodeInvertsDecode(content);
    EncodedSpan(Decode(content), k, k);
    DecodeInvertsEncode(Decode(content)[..k]);
  }

  lemma BytesAfter(content: Text, k: nat)
    requires Valid(content) && k <= |Decode(content)|
    ensures var runes, a := Decode(content), ByteOf(Decode(content), k);
            a <= |content| && content[a..] == Encode(runes[k..])
  {
    hide Encode, Decode, Valid;
    EncodeInvertsDecode(content);
    EncodedSpan(Decode(content), k, k);
  }

  lemma BytesBetween(content: Text, j: nat, k: nat)
    requires Valid(content) && j <= k <= |Decode(content)|
    ensures var runes, a, b := Decode(content), ByteOf(Decode(content), j), ByteOf(Decode(content), k);
            a <= b <= |content| && content[a..b] == Encode(runes[j..k])
  {
    hide Encode, Decode, Valid;
    EncodeInvertsDecode(content);
    EncodedSpan(Decode(content), j, k);
  }

  lemma RuneMatchLooksAlike(content: Text, oldText: Text, k: nat)
    requires Valid(content) && RunesMatchAt(PlainRunes(Decode(content)), PlainRunes(Decode(oldText)), k)
    ensures var runes, n := Decode(content), |Decode(oldText)|;
            k + n <= |runes| && LooksAlike(content, oldText, ByteOf(runes, k), ByteOf(runes, k + n))
  {
    var runes, n := Decode(content), |Decode(oldText)|;
    hide Encode, Decode, Valid, Plain, PlainRunes, ByteOf, LooksAlike;
    PlainOfMatch(runes, Decode(oldText), k);
    hide RunesMatchAt;
    BytesBefore(content, k);
    BytesBefore(content, k + n);
    BytesBetween(content, k, k + n);
    LooksLikeItsRunes(content, oldText, ByteOf(runes, k), ByteOf(runes, k + n), runes[k..k + n]);
  }

  /** In valid content a look-alike span is a rune match in the normalised runes, and the other way round. */
  lemma RuneMatchIsLookAlike(content: Text, oldText: Text, k: nat)
    requires Valid(content) && RunesMatchAt(PlainRunes(Decode(content)), PlainRunes(Decode(oldText)), k)
    ensures var runes, n := Decode(content), |Decode(oldText)|;
            && k + n <= |runes|
            && LooksAlike(content, oldText, ByteOf(runes, k), ByteOf(runes, k + n))
            && content[..ByteOf(runes, k)] == Encode(runes[..k])
            && content[ByteOf(runes, k + n)..] == Encode(runes[k + n..])
  {
    hide Encode, Decode, Valid, Plain, PlainRunes, ByteOf, RunesMatchAt;
    RuneMatchLooksAlike(content, oldText, k);
    BytesBefore(content, k);
    BytesAfter(content, k + |Decode(oldText)|);
  }

  lemma LooksLikeItsRunes(content: Text, oldText: Text, a: nat, b: nat, runes: seq<Rune>)
    requires a <= b <= |content| && Valid(content[..a]) && Valid(content[..b])
    requires content[a..b] == Encode(runes) && PlainRunes(runes) == PlainRunes(Decode(oldText))
    ensures LooksAlike(content, oldText, a, b)
  {
    hide Encode, Decode, Valid, Plain, PlainRunes;
    PlainOfEncoded(runes);
    PlainOfDecoded(oldText);
  }

  lemma LookAlikeIsRuneMatch(content: Text, oldText: Text, a: nat, b: nat) returns (k: nat)
    requires Valid(content) && LooksAlike(content, oldText, a, b)
    ensures RunesMatchAt(PlainRunes(Decode(content)), PlainRunes(Decode(oldText)), k)
    ensures a == ByteOf(Decode(content), k) && b == ByteOf(Decode(content), k + |Decode(oldText)|)
  {
    hide Width, Scalar, Encode, Decode, Valid;
    var head, span, tail := content[..a], content[a..b], content[b..];
    assert content[..b] == head + span;
    ValidRemainder(head, span);
    assert content == head + (span + tail);
    DecodeConcat(head, span + tail);
    DecodeConcat(span, tail);
    PlainFacts(span);
    PlainFacts(oldText);
    k := |Decode(head)|;
    var runes := Decode(content);
    assert runes[..k] == Decode(head);
    EncodeInvertsDecode(head);
    DecodeConcat(head, span);
    assert |Decode(span)| == |PlainRunes(Decode(span))| == |Decode(oldText)|;
    assert runes[..k + |Decode(span)|] == Decode(head + span);
    EncodeInvertsDecode(content[..b]);
    assert PlainRunes(runes)[k..k + |Decode(span)|] == PlainRunes(Decode(span));
  }

  lemma SoleRuneMatchIsSole(content: Text, oldText: Text, k: nat)
    requires Valid(content) && SoleRuneMatch(PlainRunes(Decode(content)), PlainRunes(Decode(oldText)), k)
    ensures var runes, n := Decode(content), |Decode(oldText)|;
            SoleLookAlike(content, oldText, ByteOf(runes, k), ByteOf(runes, k + n))
  {
    hide Width, Scalar, Encode, Decode, Valid, LooksAlike;
    var runes, n := Decode(content), |Decode(oldText)|;
    RuneMatchIsLookAlike(content, oldText, k);
    forall x: nat, y: nat | LooksAlike(content, oldText, x, y) ensures ByteOf(runes, k) <= x < ByteOf(runes, k + n) {
      var j := LookAlikeIsRuneMatch(content, oldText, x, y);
      assert k <= j < k + n;
      LaterRunesStartLater(runes, k, j);
      LaterRunesStartLater(runes, j, k + n);
    }
  }

  lemma SoleIsSoleRuneMatch(content: Text, oldText: Text, a: nat, b: nat) returns (k: nat)
    requires Valid(content) && SoleLookAlike(content, oldText, a, b)
    ensures SoleRuneMatch(PlainRunes(Decode(content)), PlainRunes(Decode(oldText)), k)
    ensures a == ByteOf(Decode(content), k) && b == ByteOf(Decode(content), k + |Decode(oldText)|)
  {
    hide Width, Scalar, Encode, Decode, Valid, LooksAlike;
    var runes, n := Decode(content), |Decode(oldText)|;
    k := LookAlikeIsRuneMatch(content, oldText, a, b);
    forall j: nat | RunesMatchAt(PlainRunes(runes), PlainRunes(Decode(oldText)), j) ensures k <= j < k + n {
      RuneMatchIsLookAlike(content, oldText, j);
      if j < k {
        LaterRunesStartLater(runes, j, k);
      } else if k + n <= j {
        LaterRunesStartLater(runes, k + n, j);
      }
    }
  }

  /** The rune position the edit computes from its byte match is the sole match's. */
  lemma ComputedPosition(content: Text, oldText: Text, k: nat)
    requires oldText != [] && SoleRuneMatch(PlainRunes(Decode(content)), PlainRunes(Decode(oldText)), k)
    ensures Plain(oldText) != [] && Count(Plain(content), Plain(oldText)) == 1
    ensures var i := Index(Plain(content), Plain(oldText));
            0 <= i <= |Plain(content)| && |Decode(Plain(content)[..i])| == k
    ensures |Decode(Plain(oldText))| == |Decode(oldText)|
  {
    hide Width, Scalar, Encode, Decode, Valid, CountFrom, IndexFrom;
    var plain, m := PlainRunes(Decode(content)), PlainRunes(Decode(oldText));
    PlainIsNotEmpty(oldText);
    PlainFacts(oldText);
    CountOfRunes(plain, m);
    CountIsOneIff(Plain(content), Plain(oldText));
    var i := Index(Plain(content), Plain(oldText));
    var j := ByteMatchIsRuneMatch(plain, m, i);
    RuneMatchIsByteMatch(plain, m, k);
    assert k <= j;
    LaterRunesStartLater(plain, k, j);
    assert i <= ByteOf(plain, k);
  }

  lemma AppliedSpan(content: Text, oldText: Text, newText: Text, a: nat, b: nat)
    requires Valid(content) && oldText != [] && SoleLookAlike(content, oldText, a, b)
    ensures ApplyUnicodeEdit(content, oldText, newText) == Applied(content[..a] + newText + content[b..])
  {
    hide Width, Scalar, Encode, Decode, Valid, Count, Index, Plain;
    var k := SoleIsSoleRuneMatch(content, oldText, a, b);
    ComputedPosition(content, oldText, k);
    RuneMatchIsLookAlike(content, oldText, k);
  }

  /**
   On valid content the edit applies exactly when one span of whole runes looks like
   `oldText`, and it replaces that span: every byte outside it stays, although the
   span and `oldText` may differ in length.
   */
  lemma UnicodeEditReplacesTheSoleLookAlike(content: Text, oldText: Text, newText: Text)
    requires Valid(content) && oldText != []
    ensures var outcome := ApplyUnicodeEdit(content, oldText, newText);
            && (outcome.Applied? <==> exists a: nat, b: nat :: SoleLookAlike(content, oldText, a, b))
            && (forall a: nat, b: nat :: SoleLookAlike(content, oldText, a, b) ==>
                  outcome == Applied(content[..a] + newText + content[b..]))
  {
    hide Encode, Decode, Valid, CountFrom, IndexFrom, PlainRunes;
    if ApplyUnicodeEdit(content, oldText, newText).Applied? {
      PlainIsNotEmpty(oldText);
      CountOfRunes(PlainRunes(Decode(content)), PlainRunes(Decode(oldText)));
      var k: nat :| SoleRuneMatch(PlainRunes(Decode(content)), PlainRunes(Decode(oldText)), k);
      SoleRuneMatchIsSole(content, oldText, k);
    }
    forall a: nat, b: nat | SoleLookAlike(content, oldText, a, b)
      ensures ApplyUnicodeEdit(content, oldText, newText) == Applied(content[..a] + newText + content[b..])
    {
      AppliedSpan(content, oldText, newText, a, b);
    }
  }
}
