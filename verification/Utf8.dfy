/** UTF-8 as Go reads and writes it: sections 3 and 4 of RFC 3629. */
module Utf8 {
  import opened Slices

  type Byte = b: int | 0 <= b < 256 witness 0
  type Text = seq<Byte>

  /** A Unicode scalar value. */
  type Rune = r: int | 0 <= r < 0xD800 || 0xE000 <= r < 0x110000 witness 0

  const RUNE_ERROR: Rune := 0xFFFD

  predicate IsContinuation(b: Byte) {
    0x80 <= b < 0xC0
  }

  /** `utf8.RuneStart`. */
  predicate RuneStart(b: Byte) {
    !IsContinuation(b)
  }

  /** The number of bytes the rune announced by `b` takes, or 0 when no rune starts with `b`. */
  function AnnouncedWidth(b: Byte): nat {
    if b < 0x80 then 1
    else if 0xC2 <= b < 0xE0 then 2
    else if 0xE0 <= b < 0xF0 then 3
    else if 0xF0 <= b < 0xF5 then 4
    else 0
  }

  /** The second byte of a well-formed rune is narrowed after four particular first bytes. */
  predicate SecondByteFits(first: Byte, second: Byte) {
    && IsContinuation(second)
    && (first == 0xE0 ==> 0xA0 <= second)
    && (first == 0xED ==> second < 0xA0)
    && (first == 0xF0 ==> 0x90 <= second)
    && (first == 0xF4 ==> second < 0x90)
  }

  /** The width of the well-formed rune at the front of `s`, or 0 when there is none. */
  function Width(s: Text): (n: nat)
    ensures n <= |s| && n <= 4
  {
    if s == [] then 0
    else
      var n := AnnouncedWidth(s[0]);
      if n > |s| then 0
      else if n > 1 && !SecondByteFits(s[0], s[1]) then 0
      else if n > 2 && !IsContinuation(s[2]) then 0
      else if n > 3 && !IsContinuation(s[3]) then 0
      else n
  }

  /** `utf8.Valid`. */
  predicate Valid(s: Text)
    decreases |s|
  {
    s == [] || (Width(s) > 0 && Valid(s[Width(s)..]))
  }

  /** The bits a byte carries after its marker. */
  function Payload(b: Byte, marker: int): int {
    b - marker
  }

  /** The scalar value of the well-formed rune at the front of `s`. */
  function Scalar(s: Text): Rune
    requires Width(s) > 0
  {
    if Width(s) == 1 then s[0]
    else if Width(s) == 2 then Payload(s[0], 0xC0) * 64 + Payload(s[1], 0x80)
    else if Width(s) == 3 then Payload(s[0], 0xE0) * 4096 + Payload(s[1], 0x80) * 64 + Payload(s[2], 0x80)
    else Payload(s[0], 0xF0) * 262144 + Payload(s[1], 0x80) * 4096 + Payload(s[2], 0x80) * 64 + Payload(s[3], 0x80)
  }

  /** `[]rune(s)`: a byte that starts no well-formed rune decodes, alone, to U+FFFD. */
  function Decode(s: Text): seq<Rune>
    decreases |s|
  {
    if s == [] then []
    else if Width(s) == 0 then [RUNE_ERROR] + Decode(s[1..])
    else [Scalar(s)] + Decode(s[Width(s)..])
  }

  function EncodeRune(r: Rune): (s: Text)
    ensures 1 <= |s| <= 4
  {
    if r < 0x80 then [r]
    else if r < 0x800 then [0xC0 + r / 64, 0x80 + r % 64]
    else if r < 0x10000 then [0xE0 + r / 4096, 0x80 + r / 64 % 64, 0x80 + r % 64]
    else [0xF0 + r / 262144, 0x80 + r / 4096 % 64, 0x80 + r / 64 % 64, 0x80 + r % 64]
  }

  /** `string(runes)`. */
  function Encode(runes: seq<Rune>): Text {
    if runes == [] then [] else EncodeRune(runes[0]) + Encode(runes[1..])
  }

  // ----- one rune

  lemma WidthOfExtension(a: Text, b: Text)
    requires Width(a) > 0
    ensures Width(a + b) == Width(a)
    ensures Scalar(a + b) == Scalar(a)
  {
  }

  lemma TwoBytesReadBack(r: Rune)
    requires 0x80 <= r < 0x800
    ensures Width(EncodeRune(r)) == 2 && Scalar(EncodeRune(r)) == r
  {
  }

  lemma ThreeBytesReadBack(r: Rune)
    requires 0x800 <= r < 0x10000
    ensures Width(EncodeRune(r)) == 3 && Scalar(EncodeRune(r)) == r
  {
    var a, b, c := r / 4096, r / 64 % 64, r % 64;
    assert r == a * 4096 + b * 64 + c;
    assert EncodeRune(r) == [0xE0 + a, 0x80 + b, 0x80 + c];
  }

  lemma FourDigits(r: Rune)
    requires 0x10000 <= r
    ensures var a, b, c, d := r / 262144, r / 4096 % 64, r / 64 % 64, r % 64;
            r == a * 262144 + b * 4096 + c * 64 + d && 0 <= a <= 4 && (a == 0 ==> b >= 16) && (a == 4 ==> b < 16)
  {
    var x, y := r / 64, r / 4096;
    assert r == x * 64 + r % 64;
    assert x == y * 64 + x % 64;
    assert y == r / 262144 * 64 + y % 64;
  }

  lemma FourBytesRead(a: int, b: int, c: int, d: int)
    requires 0 <= a <= 4 && (a == 0 ==> b >= 16) && (a == 4 ==> b < 16)
    requires 0 <= b < 64 && 0 <= c < 64 && 0 <= d < 64
    ensures var s: Text := [0xF0 + a, 0x80 + b, 0x80 + c, 0x80 + d];
            Width(s) == 4 && Scalar(s) == a * 262144 + b * 4096 + c * 64 + d
  {
  }

  lemma FourBytesReadBack(r: Rune)
    requires 0x10000 <= r
    ensures Width(EncodeRune(r)) == 4 && Scalar(EncodeRune(r)) == r
  {
    hide Width, Scalar;
    FourDigits(r);
    FourBytesRead(r / 262144, r / 4096 % 64, r / 64 % 64, r % 64);
  }

  /** Decoding the encoding of a rune gives the rune back, whatever follows it. */
  lemma EncodedRuneReadsBack(r: Rune, rest: Text)
    ensures Width(EncodeRune(r) + rest) == |EncodeRune(r)|
    ensures Scalar(EncodeRune(r) + rest) == r
  {
    if r >= 0x10000 {
      FourBytesReadBack(r);
    } else if r >= 0x800 {
      ThreeBytesReadBack(r);
    } else if r >= 0x80 {
      TwoBytesReadBack(r);
    }
    WidthOfExtension(EncodeRune(r), rest);
  }

  /** Division by 64 strips the last base-64 digit. */
  lemma LastDigit(high: int, low: int)
    requires 0 <= low < 64
    ensures (high * 64 + low) / 64 == high && (high * 64 + low) % 64 == low
  {
  }

  lemma DividingTwice(r: nat)
    ensures r / 64 / 64 == r / 4096
    ensures r / 64 / 64 / 64 == r / 262144
  {
  }

  /** Encoding the rune read from the front of a text gives exactly the bytes it was read from. */
  lemma ScalarEncodesBack(s: Text)
    requires Width(s) > 0
    ensures EncodeRune(Scalar(s)) == s[..Width(s)]
  {
    var w := Width(s);
    if w == 2 {
      LastDigit(Payload(s[0], 0xC0), Payload(s[1], 0x80));
    } else if w == 3 {
      ThreeBytesEncodeBack(s);
    } else if w == 4 {
      FourBytesEncodeBack(s);
    }
  }

  lemma ThreeBytesEncodeBack(s: Text)
    requires Width(s) == 3
    ensures EncodeRune(Scalar(s)) == s[..3]
  {
    var a, b, c := Payload(s[0], 0xE0), Payload(s[1], 0x80), Payload(s[2], 0x80);
    LastDigit(a, b);
    LastDigit(a * 64 + b, c);
    DividingTwice(Scalar(s));
    assert Scalar(s) == (a * 64 + b) * 64 + c;
  }

  lemma FourBytesEncodeBack(s: Text)
    requires Width(s) == 4
    ensures EncodeRune(Scalar(s)) == s[..4]
  {
    var a, b, c, d := Payload(s[0], 0xF0), Payload(s[1], 0x80), Payload(s[2], 0x80), Payload(s[3], 0x80);
    LastDigit(a, b);
    LastDigit(a * 64 + b, c);
    LastDigit((a * 64 + b) * 64 + c, d);
    DividingTwice(Scalar(s));
    assert Scalar(s) == ((a * 64 + b) * 64 + c) * 64 + d;
  }

  // ----- whole texts

  lemma {:induction false} ValidConcat(a: Text, b: Text)
    requires Valid(a) && Valid(b)
    ensures Valid(a + b)
    decreases |a|
  {
    if a == [] {
      assert a + b == b;
    } else {
      WidthOfExtension(a, b);
      assert (a + b)[Width(a)..] == a[Width(a)..] + b;
      ValidConcat(a[Width(a)..], b);
    }
  }

  lemma {:induction false} ValidRemainder(a: Text, b: Text)
    requires Valid(a) && Valid(a + b)
    ensures Valid(b)
    decreases |a|
  {
    if a == [] {
      assert a + b == b;
    } else {
      WidthOfExtension(a, b);
      assert (a + b)[Width(a)..] == a[Width(a)..] + b;
      ValidRemainder(a[Width(a)..], b);
    }
  }

  lemma FirstRuneHasItsWidth(s: Text)
    requires Width(s) > 0
    ensures Width(s[..Width(s)]) == Width(s)
  {
  }

  lemma FirstRuneIsValid(s: Text)
    requires Width(s) > 0
    ensures Valid(s[..Width(s)])
  {
    var rune := s[..Width(s)];
    assert Width(rune) == |rune| && rune[|rune|..] == [];
  }

  /** In valid text the bytes that `RuneStart` accepts are exactly the places where it can be cut. */
  lemma {:induction false} CutIffRuneStart(s: Text, i: nat)
    requires Valid(s) && i <= |s|
    ensures Valid(s[..i]) <==> i == |s| || RuneStart(s[i])
    decreases |s|
  {
    if i == |s| {
      assert s[..i] == s;
    } else if i > 0 {
      var w := Width(s);
      if i < w {
        assert Width(s[..i]) == 0;
        assert IsContinuation(s[i]);
      } else {
        Cut(s, w, i);
        FirstRuneHasItsWidth(s);
        WidthOfExtension(s[..w], s[w..i]);
        CutIffRuneStart(s[w..], i - w);
      }
    }
  }

  /** Cutting valid text where a prefix is valid leaves both sides valid. */
  lemma CutIsValidOnBothSides(s: Text, i: nat)
    requires Valid(s) && i <= |s| && Valid(s[..i])
    ensures Valid(s[i..])
  {
    assert s[..i] + s[i..] == s;
    ValidRemainder(s[..i], s[i..]);
  }

  lemma ValidStartsARune(m: Text)
    requires Valid(m) && m != []
    ensures RuneStart(m[0])
  {
  }

  /** A valid, non-empty text found inside valid text starts and ends at rune boundaries. */
  lemma MatchFallsOnBoundaries(s: Text, at: nat, m: Text)
    requires Valid(s) && Valid(m) && m != []
    requires at + |m| <= |s| && s[at..at + |m|] == m
    ensures Valid(s[..at]) && Valid(s[..at + |m|]) && Valid(s[at + |m|..])
  {
    hide Valid, Width;
    Piece(s, at, m);
    ValidStartsARune(m);
    CutIffRuneStart(s, at);
    ValidConcat(s[..at], m);
    CutIsValidOnBothSides(s, at + |m|);
  }

  lemma {:induction false} DecodeConcat(a: Text, b: Text)
    requires Valid(a)
    ensures Decode(a + b) == Decode(a) + Decode(b)
    decreases |a|
  {
    if a == [] {
      assert a + b == b;
    } else {
      WidthOfExtension(a, b);
      assert (a + b)[Width(a)..] == a[Width(a)..] + b;
      DecodeConcat(a[Width(a)..], b);
    }
  }

  /** A byte below 0x80 begins a rune, whatever stands before it. */
  lemma {:induction false} DecodeBeforeAscii(a: Text, b: Text)
    requires b == [] || b[0] < 0x80
    ensures Decode(a + b) == Decode(a) + Decode(b)
    decreases |a|
  {
    if a == [] {
      assert a + b == b;
    } else {
      WidthBeforeAscii(a, b);
      var w := if Width(a) == 0 then 1 else Width(a);
      assert (a + b)[w..] == a[w..] + b;
      hide Width, Scalar;
      DecodeBeforeAscii(a[w..], b);
    }
  }

  lemma WidthBeforeAscii(a: Text, b: Text)
    requires a != [] && (b == [] || b[0] < 0x80)
    ensures Width(a + b) == Width(a) && (Width(a) > 0 ==> Scalar(a + b) == Scalar(a))
  {
    assert forall i :: |a| <= i < |a + b| ==> (a + b)[i] == b[i - |a|];
    if b == [] {
      assert a + b == a;
    } else if Width(a) > 0 {
      WidthOfExtension(a, b);
    }
  }

  lemma {:induction false} EncodeConcat(a: seq<Rune>, b: seq<Rune>)
    ensures Encode(a + b) == Encode(a) + Encode(b)
  {
    if a == [] {
      assert a + b == b;
    } else {
      assert (a + b)[1..] == a[1..] + b;
      EncodeConcat(a[1..], b);
    }
  }

  /** `string([]rune(s)) == s` for valid `s`. */
  lemma {:induction false} EncodeInvertsDecode(s: Text)
    requires Valid(s)
    ensures Encode(Decode(s)) == s
    decreases |s|
  {
    if s != [] {
      ScalarEncodesBack(s);
      EncodeInvertsDecode(s[Width(s)..]);
      assert [Scalar(s)] + Decode(s[Width(s)..]) == Decode(s);
    }
  }

  /** Every sequence of scalar values encodes to valid text that decodes to the same sequence. */
  lemma {:induction false} DecodeInvertsEncode(runes: seq<Rune>)
    ensures Valid(Encode(runes)) && Decode(Encode(runes)) == runes
  {
    if runes != [] {
      var s, rest := EncodeRune(runes[0]), Encode(runes[1..]);
      EncodedRuneReadsBack(runes[0], rest);
      assert (s + rest)[|s|..] == rest;
      DecodeInvertsEncode(runes[1..]);
    }
  }

  // ----- white space, as `unicode.IsSpace` and `strings.TrimSpace` see it

  predicate IsSpace(r: Rune) {
    || 0x09 <= r <= 0x0D || r == 0x20 || r == 0x85 || r == 0xA0 || r == 0x1680
    || 0x2000 <= r <= 0x200A || r == 0x2028 || r == 0x2029 || r == 0x202F || r == 0x205F || r == 0x3000
  }

  /** The same of a character. */
  predicate IsSpaceCharacter(c: char) {
    IsSpace(c as int)
  }

  /** `strings.TrimSpace`: what is left when the white space on both sides is taken off. */
  function TrimSpace(s: string): (t: string)
    ensures t != "" ==> !IsSpaceCharacter(t[0]) && !IsSpaceCharacter(t[|t| - 1])
    ensures t == "" <==> forall k :: 0 <= k < |s| ==> IsSpaceCharacter(s[k])
    decreases |s|
  {
    if s == "" then ""
    else if IsSpaceCharacter(s[0]) then TrimSpace(s[1..])
    else if IsSpaceCharacter(s[|s| - 1]) then TrimSpace(s[..|s| - 1])
    else s
  }

  /** Nothing but white space is taken off. */
  lemma {:induction false} TrimSpaceTakesOffSpace(s: string) returns (front: string, back: string)
    ensures s == front + TrimSpace(s) + back
    ensures forall c <- front + back :: IsSpaceCharacter(c)
    decreases |s|
  {
    hide IsSpaceCharacter;
    front, back := "", "";
    if s == "" {
    } else if IsSpaceCharacter(s[0]) {
      front, back := TrimSpaceTakesOffSpace(s[1..]);
      assert s == [s[0]] + s[1..];
      front := [s[0]] + front;
    } else if IsSpaceCharacter(s[|s| - 1]) {
      front, back := TrimSpaceTakesOffSpace(s[..|s| - 1]);
      AllButLast(s);
      back := back + [s[|s| - 1]];
    }
  }

  /** `unicode.IsSpace`, rune by rune. */
  lemma IsSpaceIff(r: Rune)
    ensures IsSpace(r) <==>
            r in {0x09, 0x0A, 0x0B, 0x0C, 0x0D, 0x20, 0x85, 0xA0, 0x1680, 0x2000, 0x2001, 0x2002, 0x2003, 0x2004,
                  0x2005, 0x2006, 0x2007, 0x2008, 0x2009, 0x200A, 0x2028, 0x2029, 0x202F, 0x205F, 0x3000}
  {
  }

  /** `strings.TrimSpace(s) == ""`. */
  predicate IsBlank(s: Text) {
    forall r <- Decode(s) :: IsSpace(r)
  }
}
