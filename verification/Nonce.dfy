/** Pairing nonces: generation, validation, and the printer/parser pair that carries a nonce through
    a bot username. The parser is a regular expression; its closed form is proved, not assumed. */
module Nonce {
  import opened Wrappers
  import opened Text
  import opened Regex

  /** Crockford base32, lowercased: no i, l, o or u. */
  const ALPHABET := "0123456789abcdefghjkmnpqrstvwxyz"

  const ALPHABET_MASK: bv8 := 0x1F

  const DEFAULT_LENGTH := 12
  const MIN_LENGTH := 8

  /** The largest counted repetition Go's regexp compiles. */
  const MAX_REPEAT := 1000

  const MAX_USERNAME := 32

  /** All but NoEntropy wrap the package's ErrInvalid. */
  datatype NonceError =
    | TooShort
    | BadCharacter(index: nat)
    | EmptyPrefix
    | BadPrefixStart
    | BadPrefixCharacter(index: nat)
    | UsernameTooLong
    | Drift
    | NoEntropy

  predicate InAlphabet(c: char) {
    c in ALPHABET
  }

  predicate IsNonce(s: string) {
    |s| >= MIN_LENGTH && forall i | 0 <= i < |s| :: InAlphabet(s[i])
  }

  /** The alphabet as runs of consecutive characters: 0-9, a-h, jk, mn, p-t, v-z. */
  function SymbolAt(i: nat): char
    requires i < 32
  {
    if i < 10 then ('0' as int + i) as char
    else if i < 18 then ('a' as int + i - 10) as char
    else if i < 20 then ('j' as int + i - 18) as char
    else if i < 22 then ('m' as int + i - 20) as char
    else if i < 27 then ('p' as int + i - 22) as char
    else ('v' as int + i - 27) as char
  }

  lemma AlphabetRuns(i: nat)
    requires i < |ALPHABET|
    ensures ALPHABET[i] == SymbolAt(i)
  {
  }

  lemma AlphabetIsInjective(i: nat, j: nat)
    requires i < |ALPHABET| && j < |ALPHABET| && ALPHABET[i] == ALPHABET[j]
    ensures i == j
  {
    AlphabetRuns(i);
    AlphabetRuns(j);
  }

  predicate IsCrockford(c: char) {
    IsDigit(c) || (IsLowerLetter(c) && c != 'i' && c != 'l' && c != 'o' && c != 'u')
  }

  function IndexOf(c: char): nat
    requires IsCrockford(c)
  {
    var a := c as int - 'a' as int;
    if IsDigit(c) then c as int - '0' as int
    else if c < 'i' then a + 10
    else if c < 'l' then a + 9
    else if c < 'o' then a + 8
    else if c < 'u' then a + 7
    else a + 6
  }

  /** The alphabet is the digits and the lowercase letters other than i, l, o and u. */
  lemma AlphabetIsCrockford(c: char)
    ensures InAlphabet(c) <==> IsCrockford(c)
  {
    if IsCrockford(c) {
      AlphabetRuns(IndexOf(c));
    }
    if InAlphabet(c) {
      var i :| 0 <= i < |ALPHABET| && ALPHABET[i] == c;
      AlphabetRuns(i);
    }
  }

  // ---------------------------------------------------------------- generation

  function Symbol(b: bv8): char {
    ALPHABET[(b & ALPHABET_MASK) as nat]
  }

  function Symbols(buf: seq<bv8>): string {
    seq(|buf|, i requires 0 <= i < |buf| => Symbol(buf[i]))
  }

  lemma MaskIsIndex(b: bv8)
    ensures (b & ALPHABET_MASK) as nat < |ALPHABET|
  {
  }

  /** The mask keeps the remainder by 32. */
  lemma MaskIsRemainder(b: bv8)
    ensures (b & ALPHABET_MASK) as nat == b as nat % 32
  {
    assert b == ((b >> 5) << 5) | (b & 0x1F);
    assert (b >> 5) as nat == b as nat / 32;
  }

  /** `random` is the buffer the system filled, or nothing when it could not be read. */
  method NewN(n: int, random: Option<seq<bv8>>) returns (r: Result<string, NonceError>)
    requires n >= MIN_LENGTH && random.Some? ==> |random.value| == n
    ensures n < MIN_LENGTH ==> r == Err(TooShort)
    ensures n >= MIN_LENGTH && random.None? ==> r == Err(NoEntropy)
    ensures n >= MIN_LENGTH && random.Some? ==> r == Ok(Symbols(random.value))
    ensures r.Ok? ==> |r.value| == n && IsNonce(r.value)
    ensures r.Ok? ==> forall i | 0 <= i < n :: r.value[i] == ALPHABET[random.value[i] as nat % 32]
  {
    if n < MIN_LENGTH {
      return Err(TooShort);
    }
    if random.None? {
      return Err(NoEntropy);
    }
    var buf := random.value;
    var out := new char[n];
    var i := 0;
    while i < n
      invariant 0 <= i <= n
      invariant forall k | 0 <= k < i :: out[k] == Symbol(buf[k])
    {
      out[i] := ALPHABET[(buf[i] & ALPHABET_MASK) as nat];
      i := i + 1;
    }
    assert out[..] == Symbols(buf);
    forall k | 0 <= k < n
      ensures out[k] == ALPHABET[buf[k] as nat % 32]
    {
      MaskIsRemainder(buf[k]);
    }
    return Ok(out[..]);
  }

  // ---------------------------------------------------------------- validation

  /** The first index whose character fails `p`. */
  ghost function FirstFailure(s: string, p: char -> bool, from: nat := 0): Option<nat>
    requires from <= |s|
    decreases |s| - from
  {
    if from == |s| then None
    else if !p(s[from]) then Some(from)
    else FirstFailure(s, p, from + 1)
  }

  lemma {:induction false} NoFailure(s: string, p: char -> bool, from: nat)
    requires from <= |s|
    ensures FirstFailure(s, p, from).None? <==> forall i | from <= i < |s| :: p(s[i])
    decreases |s| - from
  {
    if from < |s| && p(s[from]) {
      NoFailure(s, p, from + 1);
    }
  }

  lemma {:induction false} FirstFailureIsFirst(s: string, p: char -> bool, from: nat)
    requires from <= |s|
    ensures var found := FirstFailure(s, p, from);
            found.Some? ==>
              from <= found.value < |s| && !p(s[found.value]) && forall i | from <= i < found.value :: p(s[i])
    decreases |s| - from
  {
    if from < |s| && p(s[from]) {
      FirstFailureIsFirst(s, p, from + 1);
    }
  }

  /** Accepts exactly the nonces, and otherwise says which rule is broken first. */
  method Validate(s: string) returns (err: Option<NonceError>)
    ensures err.None? <==> IsNonce(s)
    ensures err == ValidationError(s)
  {
    if ByteLen(s) < MIN_LENGTH {
      ByteLenAtLeast(s);
      return Some(TooShort);
    }
    var i := 0;
    while i < |s|
      invariant 0 <= i <= |s|
      invariant forall k | 0 <= k < i :: InAlphabet(s[k])
      invariant FirstFailure(s, InAlphabet) == FirstFailure(s, InAlphabet, i)
    {
      if s[i] !in ALPHABET {
        return Some(BadCharacter(i));
      }
      i := i + 1;
    }
    AlphabetIsAscii(s);
    ByteLenOfAscii(s);
    return None;
  }

  ghost function ValidationError(s: string): Option<NonceError> {
    if ByteLen(s) < MIN_LENGTH then Some(TooShort)
    else match FirstFailure(s, InAlphabet)
      case None => None
      case Some(i) => Some(BadCharacter(i))
  }

  lemma AlphabetIsAscii(s: string)
    requires forall i | 0 <= i < |s| :: InAlphabet(s[i])
    ensures All(s, IsAscii) && All(s, IsLowerWordChar)
  {
    forall i | 0 <= i < |s|
      ensures IsAscii(s[i]) && IsLowerWordChar(s[i])
    {
      AlphabetIsCrockford(s[i]);
    }
  }

  lemma ValidationErrorIsExact(s: string)
    ensures ValidationError(s).None? <==> IsNonce(s)
    ensures ValidationError(s) == Some(TooShort) <==> ByteLen(s) < 8
    ensures var err := ValidationError(s);
            err.Some? && err != Some(TooShort) ==>
              && err.value.BadCharacter? && err.value.index < |s| && !InAlphabet(s[err.value.index])
              && forall i | 0 <= i < err.value.index :: InAlphabet(s[i])
  {
    FirstFailureIsFirst(s, InAlphabet, 0);
    NoFailure(s, InAlphabet, 0);
    ByteLenAtLeast(s);
    if forall i | 0 <= i < |s| :: InAlphabet(s[i]) {
      AlphabetIsAscii(s);
      ByteLenOfAscii(s);
    }
  }

  // ---------------------------------------------------------------- the pattern

  const ALPHABET_CLASS: set<char> := set c | c in ALPHABET

  /** <prefix>_(<nonce>)_bot, after the opening anchor. */
  function PatternBody(prefix: string, length: nat): Re {
    Cat(Literal(prefix + "_"), Cat(Group(Times(Class(ALPHABET_CLASS), length)), Cat(Literal("_bot"), End)))
  }

  function Pattern(u: Unicode, prefix: string, length: nat): Re {
    Cat(Begin, PatternBody(ToLower(u, prefix), length))
  }

  /** The pattern's only match: prefix, nonce, suffix, nothing else, with the nonce captured. */
  lemma PatternDenotes(prefix: string, length: nat, t: string, m: Match)
    ensures Denotes(PatternBody(prefix, length), t, 0, None, m) <==>
            var a, b := |prefix| + 1, |prefix| + 1 + length;
            && |t| == b + 4 && t[..a] == prefix + "_" && AllIn(t[a..b], ALPHABET_CLASS) && t[b..] == "_bot"
            && m == Match(|t|, Some(Span(a, b)))
  {
    var a, b := |prefix| + 1, |prefix| + 1 + length;
    var suffix := Cat(Literal("_bot"), End);
    CatAfterLiteral(prefix + "_", Cat(Group(Times(Class(ALPHABET_CLASS), length)), suffix), t, 0, None, m);
    if a <= |t| {
      GroupOfTimes(ALPHABET_CLASS, length, suffix, t, a, m);
      if b <= |t| {
        SuffixDenotes(t, b, Some(Span(a, b)), m);
      }
    }
  }

  lemma SuffixDenotes(t: string, i: nat, c: Option<Span>, m: Match)
    requires i <= |t|
    ensures Denotes(Cat(Literal("_bot"), End), t, i, c, m) <==> t[i..] == "_bot" && m == Match(|t|, c)
  {
    CatAfterLiteral("_bot", End, t, i, c, m);
    assert i + 4 == |t| ==> t[i..i + 4] == t[i..];
  }

  lemma CatAfterLiteral(w: string, rest: Re, t: string, i: nat, c: Option<Span>, m: Match)
    requires i <= |t|
    ensures Denotes(Cat(Literal(w), rest), t, i, c, m)
       <==> i + |w| <= |t| && t[i..i + |w|] == w && Denotes(rest, t, i + |w|, c, m)
  {
    var k := Match(i + |w|, c);
    LiteralDenotes(w, t, i, c, k);
    if k': Match :| k'.end <= |t| && Denotes(Literal(w), t, i, c, k') && Denotes(rest, t, k'.end, k'.group, m) {
      LiteralDenotes(w, t, i, c, k');
    }
  }

  lemma GroupOfTimes(chars: set<char>, n: nat, rest: Re, t: string, i: nat, m: Match)
    requires i <= |t|
    ensures Denotes(Cat(Group(Times(Class(chars), n)), rest), t, i, None, m)
       <==> i + n <= |t| && AllIn(t[i..i + n], chars) && Denotes(rest, t, i + n, Some(Span(i, i + n)), m)
  {
    var group := Group(Times(Class(chars), n));
    var g := Match(i + n, Some(Span(i, i + n)));
    GroupedTimes(chars, n, t, i, g);
    if g': Match :| g'.end <= |t| && Denotes(group, t, i, None, g') && Denotes(rest, t, g'.end, g'.group, m) {
      GroupedTimes(chars, n, t, i, g');
    }
  }

  lemma GroupedTimes(chars: set<char>, n: nat, t: string, i: nat, g: Match)
    requires i <= |t|
    ensures Denotes(Group(Times(Class(chars), n)), t, i, None, g)
       <==> i + n <= |t| && AllIn(t[i..i + n], chars) && g == Match(i + n, Some(Span(i, i + n)))
  {
    var body := Times(Class(chars), n);
    TimesDenotes(chars, n, t, i, None, Match(i + n, None));
    if k: Match :| Denotes(body, t, i, None, k) && g == Match(k.end, Some(Span(i, k.end))) {
      TimesDenotes(chars, n, t, i, None, k);
    }
  }

  // ---------------------------------------------------------------- extraction

  /** The submatch FindStringSubmatch reports for a group. */
  function Submatch(t: string, group: Option<Span>): string {
    match group
    case None => ""
    case Some(Span(from, to)) => if from <= to <= |t| then t[from..to] else ""
  }

  function ExtractN(u: Unicode, username: string, prefix: string, length: int): Option<string> {
    if length < MIN_LENGTH || length > MAX_REPEAT then None
    else
      var t := ToLower(u, username);
      match Find(Pattern(u, prefix, length), t)
      case None => None
      case Some((_, m)) => Some(Submatch(t, m.group))
  }

  function Extract(u: Unicode, username: string, prefix: string): Option<string> {
    ExtractN(u, username, prefix, DEFAULT_LENGTH)
  }

  function Packed(prefix: string, n: string): string {
    prefix + "_" + n + "_bot"
  }

  /** What extraction means, said without regular expressions. */
  lemma ExtractIsExact(u: Unicode, username: string, prefix: string, length: int, n: string)
    ensures ExtractN(u, username, prefix, length) == Some(n)
       <==> length <= MAX_REPEAT && |n| == length && IsNonce(n) && ToLower(u, username) == Packed(ToLower(u, prefix), n)
  {
    if MIN_LENGTH <= length <= MAX_REPEAT {
      FindIsExact(ToLower(u, prefix), length, ToLower(u, username), n);
    }
  }

  lemma FindIsExact(p: string, length: nat, t: string, n: string)
    requires length >= MIN_LENGTH
    ensures var found := Find(Cat(Begin, PatternBody(p, length)), t);
            ((found.Some? && Submatch(t, found.value.1.group) == n) <==> (|n| == length && IsNonce(n) && t == Packed(p, n)))
  {
    var a, b := |p| + 1, |p| + 1 + length;
    AnchoredFind(PatternBody(p, length), t, 0);
    var found := Find(Cat(Begin, PatternBody(p, length)), t);
    if found.Some? {
      PatternDenotes(p, length, t, found.value.1);
      MatchIsPacked(p, length, t);
      PackedPieces(p, n);
    }
    if |n| == length && IsNonce(n) && t == Packed(p, n) {
      PackedPieces(p, n);
      CapturedIsNonce(n);
      PatternDenotes(p, length, t, Match(|t|, Some(Span(a, b))));
    }
  }

  lemma MatchIsPacked(p: string, length: nat, t: string)
    requires var a, b := |p| + 1, |p| + 1 + length;
             |t| == b + 4 && t[..a] == p + "_" && AllIn(t[a..b], ALPHABET_CLASS) && t[b..] == "_bot"
    requires length >= MIN_LENGTH
    ensures var n := t[|p| + 1..|p| + 1 + length]; t == Packed(p, n) && IsNonce(n)
  {
  }

  lemma CapturedIsNonce(s: string)
    ensures AllIn(s, ALPHABET_CLASS) <==> forall i | 0 <= i < |s| :: InAlphabet(s[i])
  {
  }

  lemma PackedPieces(p: string, n: string)
    ensures var t, a, b := Packed(p, n), |p| + 1, |p| + 1 + |n|;
            |t| == b + 4 && t[..a] == p + "_" && t[a..b] == n && t[b..] == "_bot"
  {
  }

  /** A username has at most one reading as prefix and nonce, across all prefixes and lengths. */
  lemma UniqueDecoding(p: string, n: string, p': string, n': string)
    requires IsNonce(n) && IsNonce(n') && Packed(p, n) == Packed(p', n')
    ensures p == p' && n == n'
  {
    var t := Packed(p, n);
    PackedPieces(p, n);
    PackedPieces(p', n');
    if |n| < |n'| {
      UnderscoreIsNoSymbol(t, |p|, |p'| + 1, n');
    } else if |n'| < |n| {
      UnderscoreIsNoSymbol(t, |p'|, |p| + 1, n);
    }
    assert t[..|p|] == p && t[..|p'|] == p';
  }

  lemma UnderscoreIsNoSymbol(t: string, x: nat, from: nat, n: string)
    requires x < |t| && from + |n| <= |t| && t[from..from + |n|] == n && t[x] == '_'
    requires IsNonce(n)
    ensures !(from <= x < from + |n|)
  {
    if from <= x < from + |n| {
      assert n[x - from] == t[x];
      AlphabetIsCrockford('_');
    }
  }

  /** Whatever prefixes and lengths are tried, a username yields at most one nonce. */
  lemma ExtractionIsUnambiguous(u: Unicode, username: string, p: string, l: int, n: string, p': string, l': int, n': string)
    requires ExtractN(u, username, p, l) == Some(n) && ExtractN(u, username, p', l') == Some(n')
    ensures ToLower(u, p) == ToLower(u, p') && l == l' && n == n'
  {
    ExtractIsExact(u, username, p, l, n);
    ExtractIsExact(u, username, p', l', n');
    UniqueDecoding(ToLower(u, p), n, ToLower(u, p'), n');
  }

  // ---------------------------------------------------------------- packing

  /** A lowered prefix a bot username may start with. */
  predicate IsPrefix(p: string) {
    p != [] && IsLowerLetter(p[0]) && forall i | 0 <= i < |p| :: IsLowerWordChar(p[i])
  }

  /** The checks before packing, in order. */
  ghost function PackCheck(p: string, n: string): Option<NonceError> {
    if p == [] then Some(EmptyPrefix)
    else if !IsLowerLetter(p[0]) then Some(BadPrefixStart)
    else if FirstFailure(p, IsLowerWordChar).Some? then Some(BadPrefixCharacter(FirstFailure(p, IsLowerWordChar).value))
    else if ValidationError(n).Some? then ValidationError(n)
    else if ByteLen(Packed(p, n)) > MAX_USERNAME then Some(UsernameTooLong)
    else None
  }

  /** Packing as the program does it, the closing round trip through the parser included. */
  ghost function Pack(u: Unicode, prefix: string, n: string): Result<string, NonceError> {
    var p := ToLower(u, prefix);
    match PackCheck(p, n)
    case Some(e) => Err(e)
    case None => if ExtractN(u, Packed(p, n), p, ByteLen(n)) != Some(n) then Err(Drift) else Ok(Packed(p, n))
  }

  method PackIntoUsername(u: Unicode, prefix: string, n: string) returns (r: Result<string, NonceError>)
    ensures r == Pack(u, prefix, n)
  {
    var p := ToLower(u, prefix);
    if p == [] {
      return Err(EmptyPrefix);
    }
    if p[0] < 'a' || p[0] > 'z' {
      return Err(BadPrefixStart);
    }
    var i := 0;
    while i < |p|
      invariant 0 <= i <= |p|
      invariant FirstFailure(p, IsLowerWordChar) == FirstFailure(p, IsLowerWordChar, i)
    {
      var c := p[i];
      if !('a' <= c <= 'z') && !('0' <= c <= '9') && c != '_' {
        return Err(BadPrefixCharacter(i));
      }
      i := i + 1;
    }
    var err := Validate(n);
    if err.Some? {
      return Err(err.value);
    }
    var username := p + "_" + n + "_bot";
    if ByteLen(username) > MAX_USERNAME {
      return Err(UsernameTooLong);
    }
    var got := ExtractN(u, username, p, ByteLen(n));
    if got != Some(n) {
      return Err(Drift);
    }
    return Ok(username);
  }

  lemma PackedIsLowerWord(p: string, n: string)
    requires IsPrefix(p) && IsNonce(n)
    ensures All(Packed(p, n), IsLowerWordChar) && All(Packed(p, n), IsAscii)
  {
    AlphabetIsAscii(n);
  }

  /** Packing succeeds exactly on a good prefix, a valid nonce and a result of at most 32 characters;
      the closing round trip never fails. */
  lemma PackIsExact(u: Unicode, prefix: string, n: string)
    requires WellFormed(u)
    ensures Pack(u, prefix, n) != Err(Drift)
    ensures var p := ToLower(u, prefix);
            if IsPrefix(p) && IsNonce(n) && |Packed(p, n)| <= MAX_USERNAME then Pack(u, prefix, n) == Ok(Packed(p, n))
            else Pack(u, prefix, n).Err?
  {
    var p := ToLower(u, prefix);
    NoFailure(p, IsLowerWordChar, 0);
    ValidationErrorIsExact(n);
    if IsPrefix(p) && IsNonce(n) {
      PackedIsLowerWord(p, n);
      AlphabetIsAscii(n);
      ByteLenOfAscii(n);
      ByteLenOfAscii(Packed(p, n));
      LowerOfLowerWord(u, p);
      LowerOfLowerWord(u, Packed(p, n));
      ExtractIsExact(u, Packed(p, n), p, |n|, n);
    }
  }

  /** Why packing fails: the first rule that is broken. */
  lemma PackErrorIsExact(u: Unicode, prefix: string, n: string)
    requires WellFormed(u) && Pack(u, prefix, n).Err?
    ensures IsFirstBroken(ToLower(u, prefix), n, Pack(u, prefix, n).error)
  {
    PackIsExact(u, prefix, n);
    CheckIsExact(ToLower(u, prefix), n);
  }

  ghost predicate IsFirstBroken(p: string, n: string, e: NonceError) {
    if p == "" then e == EmptyPrefix
    else if !('a' <= p[0] <= 'z') then e == BadPrefixStart
    else if !All(p, IsLowerWordChar) then
      && e.BadPrefixCharacter? && e.index < |p| && !IsLowerWordChar(p[e.index])
      && forall i | 0 <= i < e.index :: IsLowerWordChar(p[i])
    else if ByteLen(n) < 8 then e == TooShort
    else if !IsNonce(n) then
      && e.BadCharacter? && e.index < |n| && !InAlphabet(n[e.index])
      && forall i | 0 <= i < e.index :: InAlphabet(n[i])
    else e == UsernameTooLong && |p| + |n| + 5 > 32
  }

  lemma CheckIsExact(p: string, n: string)
    requires PackCheck(p, n).Some?
    ensures IsFirstBroken(p, n, PackCheck(p, n).value)
  {
    NoFailure(p, IsLowerWordChar, 0);
    FirstFailureIsFirst(p, IsLowerWordChar, 0);
    ValidationErrorIsExact(n);
    if All(p, IsLowerWordChar) && IsNonce(n) {
      AlphabetIsAscii(n);
      ByteLenOfAscii(Packed(p, n));
      PackedPieces(p, n);
    }
  }

  /** Extraction undoes packing, in any letter case of the username, provided it is told the length of
      the nonce. */
  lemma {:induction false} ExtractUndoesPack(u: Unicode, prefix: string, n: string, username: string, length: int)
    requires WellFormed(u) && Pack(u, prefix, n) == Ok(ToLower(u, username))
    ensures ExtractN(u, username, prefix, length) == Some(n) <==> length == |n|
  {
    PackIsExact(u, prefix, n);
    ExtractIsExact(u, username, prefix, length, n);
  }

  /** Packing undoes extraction, provided the prefix and the length are ones it accepts. */
  lemma PackUndoesExtract(u: Unicode, prefix: string, username: string, length: int, n: string)
    requires WellFormed(u) && ExtractN(u, username, prefix, length) == Some(n)
    ensures Pack(u, prefix, n) == Ok(ToLower(u, username))
       <==> IsPrefix(ToLower(u, prefix)) && |username| <= MAX_USERNAME
  {
    ExtractIsExact(u, username, prefix, length, n);
    PackIsExact(u, prefix, n);
  }
}
