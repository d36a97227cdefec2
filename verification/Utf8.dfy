/** UTF-8 and percent-encoding, printers and parsers. */
module Utf8 {
  import opened Wrappers
  import opened Text

  type Byte = b: int | 0 <= b < 256

  function EncodeChar(c: char): (bs: seq<Byte>)
    ensures 1 <= |bs| <= 4
  {
    var n := c as int;
    if n < 0x80 then [n]
    else if n < 0x800 then [0xC0 + n / 64, 0x80 + n % 64]
    else if n < 0x10000 then [0xE0 + n / 4096, 0x80 + n / 64 % 64, 0x80 + n % 64]
    else [0xF0 + n / 262144, 0x80 + n / 4096 % 64, 0x80 + n / 64 % 64, 0x80 + n % 64]
  }

  function Encode(s: string): seq<Byte> {
    if s == "" then [] else EncodeChar(s[0]) + Encode(s[1..])
  }

  predicate IsContinuation(b: Byte) {
    0x80 <= b < 0xC0
  }

  /** How many bytes the first character takes, told from its first byte. */
  function Width(b: Byte): nat {
    if b < 0x80 then 1 else if b < 0xC0 then 0 else if b < 0xE0 then 2 else if b < 0xF0 then 3 else if b < 0xF8 then 4 else 0
  }

  /** The code point of a sequence of the given width, before any check of its value. */
  function CodePoint(bs: seq<Byte>): int
    requires bs != [] && 1 <= Width(bs[0]) <= |bs|
  {
    var lead: int := bs[0];
    match Width(bs[0])
    case 1 => lead
    case 2 => (lead - 0xC0) * 64 + Low(bs[1])
    case 3 => (lead - 0xE0) * 4096 + Low(bs[1]) * 64 + Low(bs[2])
    case _ => (lead - 0xF0) * 262144 + Low(bs[1]) * 4096 + Low(bs[2]) * 64 + Low(bs[3])
  }

  /** The six bits a continuation byte carries. */
  function Low(b: int): int {
    b - 0x80
  }

  /** Not a surrogate, not too large, and not written longer than necessary. */
  predicate IsShortest(n: int, width: nat) {
    && (0 <= n < 0xD800 || 0xE000 <= n < 0x11_0000)
    && (width == 2 ==> n >= 0x80) && (width == 3 ==> n >= 0x800) && (width == 4 ==> n >= 0x10000)
  }

  /** The first character and the rest, if the bytes start with a well-formed sequence. */
  function DecodeChar(bs: seq<Byte>): Option<(char, seq<Byte>)>
    requires bs != []
    ensures DecodeChar(bs).Some? ==> |DecodeChar(bs).value.1| < |bs|
  {
    var w := Width(bs[0]);
    if !(1 <= w <= |bs|) || (exists i | 1 <= i < w :: !IsContinuation(bs[i])) || !IsShortest(CodePoint(bs), w) then None
    else Some((CodePoint(bs) as char, bs[w..]))
  }

  function Decode(bs: seq<Byte>): Option<string>
    decreases |bs|
  {
    if bs == [] then Some("")
    else match DecodeChar(bs)
      case None => None
      case Some((c, rest)) =>
        match Decode(rest)
        case None => None
        case Some(s) => Some([c] + s)
  }

  lemma CodePointOfEncoded(c: char)
    ensures Width(EncodeChar(c)[0]) == |EncodeChar(c)|
    ensures CodePoint(EncodeChar(c)) == c as int
    ensures forall i | 1 <= i < |EncodeChar(c)| :: IsContinuation(EncodeChar(c)[i])
  {
    SixBitDigits(c as int);
  }

  lemma SixBitDigits(n: int)
    requires 0 <= n < 0x11_0000
    ensures n == n / 64 * 64 + n % 64
    ensures n / 64 == n / 4096 * 64 + n / 64 % 64
    ensures n / 4096 == n / 262144 * 64 + n / 4096 % 64
    ensures n < 0x800 ==> n / 64 < 32
    ensures n < 0x10000 ==> n / 4096 < 16
    ensures n / 262144 < 8
  {
  }

  lemma DecodeCharUndoesEncode(c: char, rest: seq<Byte>)
    ensures DecodeChar(EncodeChar(c) + rest) == Some((c, rest))
  {
    CodePointOfEncoded(c);
    var bs := EncodeChar(c) + rest;
    assert bs[..|EncodeChar(c)|] == EncodeChar(c) && bs[|EncodeChar(c)|..] == rest;
    assert CodePoint(bs) == c as int;
  }

  lemma {:induction false} DecodeUndoesEncode(s: string)
    ensures Decode(Encode(s)) == Some(s)
  {
    if s != "" {
      DecodeCharUndoesEncode(s[0], Encode(s[1..]));
      DecodeUndoesEncode(s[1..]);
      assert [s[0]] + s[1..] == s;
    }
  }

  // ---------------------------------------------------------------- percent-encoding

  function HexDigit(d: nat): char
    requires d < 16
  {
    if d < 10 then ('0' as int + d) as char else ('A' as int + d - 10) as char
  }

  function HexValue(c: char): Option<nat> {
    if '0' <= c <= '9' then Some(c as int - '0' as int)
    else if 'A' <= c <= 'F' then Some(c as int - 'A' as int + 10)
    else if 'a' <= c <= 'f' then Some(c as int - 'a' as int + 10)
    else None
  }

  /** The characters that are never escaped. */
  predicate IsUnreserved(c: char) {
    IsLetter(c) || IsDigit(c) || c == '-' || c == '_' || c == '.' || c == '~'
  }

  function EscapeByte(b: Byte): string {
    if b < 0x80 && IsUnreserved(b as char) then [b as char]
    else if b == 0x20 then "+"
    else ['%', HexDigit(b / 16), HexDigit(b % 16)]
  }

  /** As a query component: a space becomes a plus sign. */
  function QueryEscape(bs: seq<Byte>): string {
    if bs == [] then "" else EscapeByte(bs[0]) + QueryEscape(bs[1..])
  }

  function Unescape(s: string, plusIsSpace: bool): Option<seq<Byte>> {
    if s == "" then Some([])
    else if s[0] == '%' then
      if |s| < 3 || HexValue(s[1]).None? || HexValue(s[2]).None? then None
      else match Unescape(s[3..], plusIsSpace)
        case None => None
        case Some(bs) => Some([HexValue(s[1]).value * 16 + HexValue(s[2]).value] + bs)
    else match Unescape(s[1..], plusIsSpace)
      case None => None
      case Some(bs) => Some((if s[0] == '+' && plusIsSpace then [0x20] else EncodeChar(s[0])) + bs)
  }

  lemma HexRoundTrip(b: Byte)
    ensures HexValue(HexDigit(b / 16)) == Some(b / 16) && HexValue(HexDigit(b % 16)) == Some(b % 16)
  {
  }

  lemma UnescapeByte(b: Byte, rest: string)
    requires Unescape(rest, true).Some?
    ensures Unescape(EscapeByte(b) + rest, true) == Some([b] + Unescape(rest, true).value)
  {
    HexRoundTrip(b);
    var s := EscapeByte(b) + rest;
    assert s[|EscapeByte(b)|..] == rest;
  }

  lemma {:induction false} UnescapeUndoesEscape(bs: seq<Byte>)
    ensures Unescape(QueryEscape(bs), true) == Some(bs)
  {
    if bs != [] {
      UnescapeUndoesEscape(bs[1..]);
      UnescapeByte(bs[0], QueryEscape(bs[1..]));
      assert [bs[0]] + bs[1..] == bs;
    }
  }

  /** Text without percent signs is its own percent-encoding outside a query. */
  lemma {:induction false} UnescapeOfPlain(s: string)
    requires forall i | 0 <= i < |s| :: s[i] != '%'
    ensures Unescape(s, false) == Some(Encode(s))
  {
    if s != "" {
      UnescapeOfPlain(s[1..]);
    }
  }

  /** Go's len of a string is the length of its UTF-8 form. */
  lemma {:induction false} ByteLenIsEncodedLength(s: string)
    ensures ByteLen(s) == |Encode(s)|
  {
    if s != "" {
      var init, last := s[..|s| - 1], s[|s| - 1];
      ByteLenIsEncodedLength(init);
      EncodeOfSum(init, [last]);
      assert Encode([last]) == EncodeChar(last) + Encode("");
      assert s == init + [last];
    }
  }

  lemma {:induction false} EncodeOfSum(a: string, b: string)
    ensures Encode(a + b) == Encode(a) + Encode(b)
  {
    if a == "" {
      assert a + b == b;
    } else {
      EncodeOfSum(a[1..], b);
      assert (a + b)[0] == a[0] && (a + b)[1..] == a[1..] + b;
      assert EncodeChar(a[0]) + (Encode(a[1..]) + Encode(b)) == (EncodeChar(a[0]) + Encode(a[1..])) + Encode(b);
    }
  }

  /** A space is a plus sign, the unreserved characters stand for themselves, and everything else is
      escaped in upper case. */
  lemma EscapesAreSpelledOut()
    ensures EscapeByte(0x20) == "+" && EscapeByte('~' as int) == "~" && EscapeByte('-' as int) == "-"
    ensures EscapeByte('+' as int) == "%2B" && EscapeByte(0xC3) == "%C3" && EscapeByte('/' as int) == "%2F"
    ensures EncodeChar('A') == [0x41] && EncodeChar(0xE9 as char) == [0xC3, 0xA9]
  {
  }
}
