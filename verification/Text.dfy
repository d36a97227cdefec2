/** Strings as sequences of code points, with just enough of Go's Unicode tables: lowering maps one
    code point to one code point, and both tables act as usual on ASCII. */
module Text {

  datatype Unicode = Unicode(lower: char -> char, space: char -> bool)

  predicate IsAscii(c: char) {
    c < 128 as char
  }

  predicate IsLowerLetter(c: char) { 'a' <= c <= 'z' }

  predicate IsUpperLetter(c: char) { 'A' <= c <= 'Z' }

  predicate IsLetter(c: char) { IsLowerLetter(c) || IsUpperLetter(c) }

  predicate IsDigit(c: char) { '0' <= c <= '9' }

  /** Letters, digits and the underscore. */
  predicate IsWordChar(c: char) { IsLetter(c) || IsDigit(c) || c == '_' }

  /** [a-z0-9_] */
  predicate IsLowerWordChar(c: char) { IsLowerLetter(c) || IsDigit(c) || c == '_' }

  function AsciiLower(c: char): char {
    if IsUpperLetter(c) then (c as int + 32) as char else c
  }

  predicate IsAsciiSpace(c: char) {
    c == ' ' || 9 as char <= c <= 13 as char
  }

  ghost predicate WellFormed(u: Unicode) {
    && (forall c: char | IsAscii(c) :: u.lower(c) == AsciiLower(c))
    && (forall c: char | IsAscii(c) :: u.space(c) <==> IsAsciiSpace(c))
  }

  function ToLower(u: Unicode, s: string): (r: string)
    ensures |r| == |s| && forall i | 0 <= i < |s| :: r[i] == u.lower(s[i])
  {
    seq(|s|, i requires 0 <= i < |s| => u.lower(s[i]))
  }

  ghost predicate All(s: string, p: char -> bool) {
    forall i | 0 <= i < |s| :: p(s[i])
  }

  lemma LowerOfLowerWord(u: Unicode, s: string)
    requires WellFormed(u) && All(s, IsLowerWordChar)
    ensures ToLower(u, s) == s
  {
  }

  function TrimLeft(u: Unicode, s: string): string {
    if s != [] && u.space(s[0]) then TrimLeft(u, s[1..]) else s
  }

  function TrimRight(u: Unicode, s: string): string {
    if s != [] && u.space(s[|s| - 1]) then TrimRight(u, s[..|s| - 1]) else s
  }

  function TrimSpace(u: Unicode, s: string): string {
    TrimRight(u, TrimLeft(u, s))
  }

  ghost predicate AllSpace(u: Unicode, s: string) {
    forall i | 0 <= i < |s| :: u.space(s[i])
  }

  /** No space at either end. */
  ghost predicate IsTight(u: Unicode, s: string) {
    s != "" ==> !u.space(s[0]) && !u.space(s[|s| - 1])
  }

  lemma {:induction false} TrimLeftDrops(u: Unicode, a: string, s: string)
    requires AllSpace(u, a)
    ensures TrimLeft(u, a + s) == TrimLeft(u, s)
  {
    if a == "" {
      assert a + s == s;
    } else {
      TrimLeftDrops(u, a[1..], s);
      assert (a + s)[1..] == a[1..] + s;
    }
  }

  lemma {:induction false} TrimRightDrops(u: Unicode, s: string, b: string)
    requires AllSpace(u, b)
    ensures TrimRight(u, s + b) == TrimRight(u, s)
    decreases |b|
  {
    if b == "" {
      assert s + b == s;
    } else {
      var init := b[..|b| - 1];
      TrimRightDrops(u, s, init);
      assert (s + b)[..|s + b| - 1] == s + init;
    }
  }

  lemma {:induction false} TrimLeftSplits(u: Unicode, s: string) returns (a: string)
    ensures s == a + TrimLeft(u, s) && AllSpace(u, a)
    ensures TrimLeft(u, s) != "" ==> !u.space(TrimLeft(u, s)[0])
  {
    a := "";
    if s != "" && u.space(s[0]) {
      a := TrimLeftSplits(u, s[1..]);
      a := [s[0]] + a;
    }
  }

  lemma {:induction false} TrimRightSplits(u: Unicode, s: string) returns (b: string)
    ensures s == TrimRight(u, s) + b && AllSpace(u, b)
    ensures TrimRight(u, s) != "" ==> !u.space(TrimRight(u, s)[|TrimRight(u, s)| - 1])
    decreases |s|
  {
    b := "";
    if s != "" && u.space(s[|s| - 1]) {
      b := TrimRightSplits(u, s[..|s| - 1]);
      b := b + [s[|s| - 1]];
    }
  }

  /** Trimming takes spaces off both ends, and leaves none there. */
  lemma TrimSplits(u: Unicode, s: string) returns (a: string, b: string)
    ensures s == a + TrimSpace(u, s) + b && AllSpace(u, a) && AllSpace(u, b)
    ensures IsTight(u, TrimSpace(u, s))
  {
    a := TrimLeftSplits(u, s);
    b := TrimRightSplits(u, TrimLeft(u, s));
    if TrimSpace(u, s) != "" {
      assert TrimLeft(u, s)[0] == TrimSpace(u, s)[0];
    }
  }

  /** That determines the result. */
  lemma TrimIsUnique(u: Unicode, a: string, t: string, b: string)
    requires AllSpace(u, a) && AllSpace(u, b) && IsTight(u, t)
    ensures TrimSpace(u, a + t + b) == t
  {
    assert a + t + b == a + (t + b);
    TrimLeftDrops(u, a, t + b);
    if t == "" {
      assert t + b == b;
      TrimLeftDrops(u, b, "");
      assert b + "" == b;
    } else {
      assert TrimLeft(u, t + b) == t + b;
      TrimRightDrops(u, t, b);
    }
  }

  /** Padding is ignored. */
  lemma TrimIgnoresPadding(u: Unicode, a: string, s: string, b: string)
    requires AllSpace(u, a) && AllSpace(u, b)
    ensures TrimSpace(u, a + s + b) == TrimSpace(u, s)
  {
    var a', b' := TrimSplits(u, s);
    assert a + s + b == (a + a') + TrimSpace(u, s) + (b' + b);
    TrimIsUnique(u, a + a', TrimSpace(u, s), b' + b);
  }

  /** Only blank text is trimmed to nothing. */
  lemma TrimOfBlank(u: Unicode, s: string)
    ensures TrimSpace(u, s) == "" <==> AllSpace(u, s)
  {
    var a, b := TrimSplits(u, s);
    if AllSpace(u, s) {
      TrimIsUnique(u, s, "", "");
      assert s + "" + "" == s;
    }
  }

  /** Text without spaces at its ends is left alone. */
  lemma TrimOfTight(u: Unicode, s: string)
    requires IsTight(u, s)
    ensures TrimSpace(u, s) == s
  {
    TrimIsUnique(u, "", s, "");
    assert "" + s + "" == s;
  }

  /** The number of bytes of the UTF-8 form, which is what Go's len counts. */
  function ByteLen(s: string): nat {
    if s == [] then 0
    else
      var c := s[|s| - 1] as int;
      ByteLen(s[..|s| - 1]) + if c < 0x80 then 1 else if c < 0x800 then 2 else if c < 0x10000 then 3 else 4
  }

  lemma {:induction false} ByteLenOfAscii(s: string)
    requires All(s, IsAscii)
    ensures ByteLen(s) == |s|
  {
    if s != [] {
      assert IsAscii(s[|s| - 1]);
      ByteLenOfAscii(s[..|s| - 1]);
    }
  }

  lemma {:induction false} ByteLenAtLeast(s: string)
    ensures ByteLen(s) >= |s|
  {
    if s != [] {
      ByteLenAtLeast(s[..|s| - 1]);
    }
  }
}
