/** UTF-8 (section 4 of RFC 3629): the byte patterns of valid text, and that they are exactly the encodings of
    code points. */
module Utf8 {
  import opened Operations

  predicate Tail(b: Byte) {
    0x80 <= b <= 0xBF
  }

  /** The length of the UTF-8 character that s begins with, or 0 if it begins with none. */
  function CharLength(s: Text): (n: nat)
    requires s != []
    ensures n <= |s|
  {
    if s[0] <= 0x7F then 1
    else if |s| >= 2 && 0xC2 <= s[0] <= 0xDF && Tail(s[1]) then 2
    else if |s| >= 3 && ThreeBytes(s[0], s[1]) && Tail(s[2]) then 3
    else if |s| >= 4 && FourBytes(s[0], s[1]) && Tail(s[2]) && Tail(s[3]) then 4
    else 0
  }

  /** No overlong forms and no surrogates. */
  predicate ThreeBytes(first: Byte, second: Byte) {
    || (first == 0xE0 && 0xA0 <= second <= 0xBF)
    || (0xE1 <= first <= 0xEC && Tail(second))
    || (first == 0xED && 0x80 <= second <= 0x9F)
    || (0xEE <= first <= 0xEF && Tail(second))
  }

  /** No overlong forms and nothing above U+10FFFF. */
  predicate FourBytes(first: Byte, second: Byte) {
    || (first == 0xF0 && 0x90 <= second <= 0xBF)
    || (0xF1 <= first <= 0xF3 && Tail(second))
    || (first == 0xF4 && 0x80 <= second <= 0x8F)
  }

  predicate ValidUtf8(s: Text)
    decreases |s|
  {
    s == [] || (CharLength(s) > 0 && ValidUtf8(s[CharLength(s)..]))
  }

  /** The code points that characters have: no surrogates. */
  type CodePoint = c: nat | c <= 0x10FFFF && !(0xD800 <= c <= 0xDFFF)

  /** The UTF-8 encoding of a code point, by arithmetic. */
  function EncodeChar(c: CodePoint): Text {
    if c < 0x80 then [c]
    else if c < 0x800 then [0xC0 + c / 64, 0x80 + c % 64]
    else if c < 0x10000 then [0xE0 + c / 64 / 64, 0x80 + c / 64 % 64, 0x80 + c % 64]
    else [0xF0 + c / 64 / 64 / 64, 0x80 + c / 64 / 64 % 64, 0x80 + c / 64 % 64, 0x80 + c % 64]
  }

  function Encode(chars: seq<CodePoint>): Text {
    if chars == [] then [] else EncodeChar(chars[0]) + Encode(chars[1..])
  }

  /** A number and six more bits. */
  function Extend(n: int, b: Byte): int {
    n * 64 + b as int - 0x80
  }

  /** The number that the character at the front stands for. */
  function CharAt(s: Text): int
    requires s != []
  {
    var first := s[0] as int;
    match CharLength(s)
    case 2 => Extend(first - 0xC0, s[1])
    case 3 => Extend(Extend(first - 0xE0, s[1]), s[2])
    case 4 => Extend(Extend(Extend(first - 0xF0, s[1]), s[2]), s[3])
    case _ => first
  }

  lemma ExtendUndone(n: int, b: Byte)
    requires Tail(b)
    ensures Extend(n, b) / 64 == n && 0x80 + Extend(n, b) % 64 == b as int
  {
  }

  lemma CharIsEncoded(s: Text)
    requires s != [] && CharLength(s) > 0
    ensures 0 <= CharAt(s) <= 0x10FFFF && !(0xD800 <= CharAt(s) <= 0xDFFF)
    ensures EncodeChar(CharAt(s)) == s[..CharLength(s)]
  {
    match CharLength(s)
    case 2 => TwoBytesEncode(s[0], s[1]);
    case 3 => ThreeBytesEncode(s[0], s[1], s[2]);
    case 4 => FourBytesEncode(s[0], s[1], s[2], s[3]);
    case _ =>
  }

  lemma TwoBytesEncode(a: Byte, b: Byte)
    requires 0xC2 <= a <= 0xDF && Tail(b)
    ensures var c := Extend(a as int - 0xC0, b); 0x80 <= c < 0x800 && EncodeChar(c) == [a, b]
  {
    ExtendUndone(a as int - 0xC0, b);
  }

  lemma ThreeBytesEncode(a: Byte, b: Byte, d: Byte)
    requires ThreeBytes(a, b) && Tail(d)
    ensures var c := Extend(Extend(a as int - 0xE0, b), d);
            0x800 <= c < 0x10000 && !(0xD800 <= c <= 0xDFFF) && EncodeChar(c) == [a, b, d]
  {
    var n := Extend(a as int - 0xE0, b);
    ExtendUndone(a as int - 0xE0, b);
    ExtendUndone(n, d);
  }

  lemma FourBytesInRange(a: Byte, b: Byte, d: Byte, e: Byte)
    requires FourBytes(a, b) && Tail(d) && Tail(e)
    ensures 0x10000 <= Extend(Extend(Extend(a as int - 0xF0, b), d), e) <= 0x10FFFF
  {
  }

  lemma FourSixes(first: int, n: int, m: int, c: CodePoint)
    requires 0x10000 <= c && c / 64 == m && m / 64 == n && n / 64 == first
    ensures EncodeChar(c) == [0xF0 + first, 0x80 + n % 64, 0x80 + m % 64, 0x80 + c % 64]
  {
  }

  lemma FourBytesEncode(a: Byte, b: Byte, d: Byte, e: Byte)
    requires FourBytes(a, b) && Tail(d) && Tail(e)
    ensures var c := Extend(Extend(Extend(a as int - 0xF0, b), d), e);
            0x10000 <= c <= 0x10FFFF && EncodeChar(c) == [a, b, d, e]
  {
    var first := a as int - 0xF0;
    var n := Extend(first, b);
    var m := Extend(n, d);
    ExtendUndone(first, b);
    ExtendUndone(n, d);
    ExtendUndone(m, e);
    FourBytesInRange(a, b, d, e);
    FourSixes(first, n, m, Extend(m, e));
  }

  lemma EncodedIsChar(c: CodePoint, rest: Text)
    ensures CharLength(EncodeChar(c) + rest) == |EncodeChar(c)| > 0
  {
  }

  /** Text is UTF-8 exactly when it is the encoding of some code points. */
  lemma {:induction false} Utf8Exactly(s: Text)
    ensures ValidUtf8(s) <==> exists chars :: s == Encode(chars)
  {
    if ValidUtf8(s) {
      var chars := Decoded(s);
    }
    forall chars | s == Encode(chars)
      ensures ValidUtf8(s)
    {
      EncodedIsValid(chars);
    }
  }

  lemma {:induction false} Decoded(s: Text) returns (chars: seq<CodePoint>)
    requires ValidUtf8(s)
    ensures s == Encode(chars)
    decreases |s|
  {
    chars := [];
    if s != [] {
      CharIsEncoded(s);
      var rest := Decoded(s[CharLength(s)..]);
      chars := [CharAt(s)] + rest;
      assert chars[1..] == rest;
    }
  }

  lemma {:induction false} EncodedIsValid(chars: seq<CodePoint>)
    ensures ValidUtf8(Encode(chars))
  {
    if chars != [] {
      EncodedIsValid(chars[1..]);
      var s := Encode(chars);
      EncodedIsChar(chars[0], Encode(chars[1..]));
      assert s[CharLength(s)..] == Encode(chars[1..]);
    }
  }

  /** ASCII text can always be encoded. */
  lemma {:induction false} AsciiIsUtf8(s: Text)
    requires forall i :: 0 <= i < |s| ==> s[i] <= 0x7F
    ensures ValidUtf8(s)
    decreases |s|
  {
    if s != [] {
      AsciiIsUtf8(s[1..]);
    }
  }
}
