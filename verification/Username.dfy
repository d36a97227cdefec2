/** Telegram bot usernames: validation by regular expression, and coercion of arbitrary text. */
module Username {
  import opened Wrappers
  import opened Text
  import opened Regex

  const USERNAME_MIN_LEN := 5
  const USERNAME_MAX_LEN := 32

  datatype UsernameError = BadLength | BadRules | EmptyUsername | InvariantViolated

  // ---------------------------------------------------------------- validation

  const LETTERS: set<char> := set c: char | IsLetter(c)
  const WORD_CHARS: set<char> := set c: char | IsWordChar(c)

  /** [bB][oO][tT] up to the end of the text. */
  function BotEnding(): Re {
    Cat(Class({'b', 'B'}), Cat(Class({'o', 'O'}), Cat(Class({'t', 'T'}), End)))
  }

  function UsernameBody(): Re {
    Cat(Class(LETTERS), Cat(Star(Class(WORD_CHARS)), BotEnding()))
  }

  function UsernameRe(): Re {
    Cat(Begin, UsernameBody())
  }

  function ValidateUsername(username: string): Option<UsernameError> {
    if !(USERNAME_MIN_LEN <= ByteLen(username) <= USERNAME_MAX_LEN) then Some(BadLength)
    else if Find(UsernameRe(), username).None? then Some(BadRules)
    else None
  }

  predicate EndsInBot(t: string) {
    |t| >= 3 && t[|t| - 3] in {'b', 'B'} && t[|t| - 2] in {'o', 'O'} && t[|t| - 1] in {'t', 'T'}
  }

  /** A letter, any word characters, then "bot" in any letter case; the two parts do not overlap. */
  ghost predicate InUsernameLanguage(t: string) {
    |t| >= 4 && IsLetter(t[0]) && All(t, IsWordChar) && EndsInBot(t)
  }

  ghost predicate IsUsername(t: string) {
    USERNAME_MIN_LEN <= |t| <= USERNAME_MAX_LEN && InUsernameLanguage(t)
  }

  lemma EndingDenotes(t: string, i: nat, c: Option<Span>, m: Match)
    requires i <= |t|
    ensures Denotes(BotEnding(), t, i, c, m) <==> i + 3 == |t| && EndsInBot(t) && m == Match(|t|, c)
  {
    ClassFirst({'b', 'B'}, Cat(Class({'o', 'O'}), Cat(Class({'t', 'T'}), End)), t, i, c, m);
    if i < |t| {
      ClassFirst({'o', 'O'}, Cat(Class({'t', 'T'}), End), t, i + 1, c, m);
      if i + 1 < |t| {
        ClassFirst({'t', 'T'}, End, t, i + 2, c, m);
      }
    }
  }

  lemma StarThenEnding(t: string, i: nat, m: Match)
    requires i <= |t|
    ensures Denotes(Cat(Star(Class(WORD_CHARS)), BotEnding()), t, i, None, m)
       <==> i + 3 <= |t| && AllIn(t[i..|t| - 3], WORD_CHARS) && EndsInBot(t) && m == Match(|t|, None)
  {
    StarFirst(WORD_CHARS, BotEnding(), t, i, None, m);
    if k: nat :| StarUpTo(WORD_CHARS, BotEnding(), t, i, None, m, k) {
      EndingDenotes(t, k, None, m);
    }
    if i + 3 <= |t| {
      EndingDenotes(t, |t| - 3, None, m);
      assert StarUpTo(WORD_CHARS, BotEnding(), t, i, None, m, |t| - 3)
        <==> AllIn(t[i..|t| - 3], WORD_CHARS) && EndsInBot(t) && m == Match(|t|, None);
    }
  }

  /** The expression matches exactly the closed form, although its star could also run over the
      final "bot". */
  lemma RegexIsExact(t: string)
    ensures Find(UsernameRe(), t).Some? <==> InUsernameLanguage(t)
  {
    AnchoredFind(UsernameBody(), t, 0);
    var rest := Cat(Star(Class(WORD_CHARS)), BotEnding());
    forall m
      ensures Denotes(UsernameBody(), t, 0, None, m) <==> InUsernameLanguage(t) && m == Match(|t|, None)
    {
      ClassFirst(LETTERS, rest, t, 0, None, m);
      if t != [] {
        StarThenEnding(t, 1, m);
        LanguagePieces(t);
      }
    }
    assert InUsernameLanguage(t) ==> Denotes(UsernameBody(), t, 0, None, Match(|t|, None));
  }

  lemma LanguagePieces(t: string)
    requires t != []
    ensures InUsernameLanguage(t)
       <==> t[0] in LETTERS && 4 <= |t| && AllIn(t[1..|t| - 3], WORD_CHARS) && EndsInBot(t)
  {
    if t[0] in LETTERS && 4 <= |t| && AllIn(t[1..|t| - 3], WORD_CHARS) && EndsInBot(t) {
      forall i | 0 <= i < |t|
        ensures IsWordChar(t[i])
      {
        assert 1 <= i < |t| - 3 ==> t[1..|t| - 3][i - 1] == t[i];
      }
    }
  }

  /** Validation accepts exactly the usernames. */
  lemma ValidateIsExact(t: string)
    ensures ValidateUsername(t).None? <==> IsUsername(t)
    ensures ValidateUsername(t) == Some(BadLength) <==> !(USERNAME_MIN_LEN <= ByteLen(t) <= USERNAME_MAX_LEN)
  {
    RegexIsExact(t);
    if InUsernameLanguage(t) {
      ByteLenOfAscii(t);
    }
  }

  // ---------------------------------------------------------------- coercion

  function CleanChar(c: char): char {
    if IsLowerWordChar(c) then c else '_'
  }

  function Clean(s: string): (r: string)
    ensures |r| == |s| && forall i | 0 <= i < |s| :: r[i] == CleanChar(s[i])
  {
    seq(|s|, i requires 0 <= i < |s| => CleanChar(s[i]))
  }

  function WithLetter(s: string): string {
    if s == "" || !IsLowerLetter(s[0]) then "a" + s else s
  }

  predicate HasSuffix(s: string, suffix: string) {
    |suffix| <= |s| && s[|s| - |suffix|..] == suffix
  }

  function WithBot(s: string): string {
    if HasSuffix(s, "bot") then s else if HasSuffix(s, "_") then s + "bot" else s + "_bot"
  }

  function Cut(s: string, suffix: string): string
    requires |suffix| <= |s| && |suffix| <= USERNAME_MAX_LEN
  {
    var head, keep := s[..|s| - |suffix|], USERNAME_MAX_LEN - |suffix|;
    (if |head| > keep then head[..keep] else head) + suffix
  }

  function Truncate(s: string): Result<string, UsernameError> {
    if |s| <= USERNAME_MAX_LEN then Ok(s)
    else if HasSuffix(s, "_bot") then Ok(Cut(s, "_bot"))
    else if HasSuffix(s, "bot") then Ok(Cut(s, "bot"))
    else Err(InvariantViolated)
  }

  function Normalized(u: Unicode, raw: string): string {
    ToLower(u, TrimSpace(u, raw))
  }

  function Sanitize(u: Unicode, raw: string): Result<string, UsernameError> {
    var s := Normalized(u, raw);
    if s == "" then Err(EmptyUsername)
    else
      match Truncate(WithBot(WithLetter(Clean(s))))
      case Err(e) => Err(e)
      case Ok(t) => if ValidateUsername(t).Some? then Err(ValidateUsername(t).value) else Ok(t)
  }

  /** The loop that rewrites the text character by character. */
  method CleanText(s: string) returns (b: string)
    ensures b == Clean(s)
  {
    b := "";
    var i := 0;
    while i < |s|
      invariant 0 <= i <= |s| && |b| == i
      invariant forall k | 0 <= k < i :: b[k] == CleanChar(s[k])
    {
      var c := s[i];
      if 'a' <= c <= 'z' {
        b := b + [c];
      } else if '0' <= c <= '9' {
        b := b + [c];
      } else if c == '_' {
        b := b + [c];
      } else {
        b := b + ['_'];
      }
      i := i + 1;
    }
    assert b == Clean(s);
  }

  /** The cut that preserves the trailing "bot" or "_bot". */
  method CutToLength(name: string) returns (r: Result<string, UsernameError>)
    ensures r == Truncate(name)
  {
    if |name| <= USERNAME_MAX_LEN {
      return Ok(name);
    }
    var suffix;
    if HasSuffix(name, "_bot") {
      suffix := "_bot";
    } else if HasSuffix(name, "bot") {
      suffix := "bot";
    } else {
      return Err(InvariantViolated);
    }
    var head := name[..|name| - |suffix|];
    var keep := USERNAME_MAX_LEN - |suffix|;
    if |head| > keep {
      head := head[..keep];
    }
    return Ok(head + suffix);
  }

  method SanitizeUsername(u: Unicode, raw: string) returns (r: Result<string, UsernameError>)
    ensures r == Sanitize(u, raw)
  {
    var s := ToLower(u, TrimSpace(u, raw));
    if s == "" {
      return Err(EmptyUsername);
    }
    s := CleanText(s);
    ghost var cleaned := s;
    if s == "" || s[0] < 'a' || s[0] > 'z' {
      s := "a" + s;
    }
    UnderscoreBot(s);
    if !HasSuffix(s, "bot") {
      if !HasSuffix(s, "_") {
        s := s + "_";
      }
      s := s + "bot";
    }
    assert s == WithBot(WithLetter(cleaned));
    var cut := CutToLength(s);
    if cut.Err? {
      return cut;
    }
    var err := ValidateUsername(cut.value);
    if err.Some? {
      return Err(err.value);
    }
    return cut;
  }

  lemma UnderscoreBot(s: string)
    ensures (s + "_") + "bot" == s + "_bot"
  {
  }

  /** A lowercase username: what sanitizing produces. */
  ghost predicate IsClean(s: string) {
    s != "" && IsLowerLetter(s[0]) && All(s, IsLowerWordChar) && HasSuffix(s, "bot")
  }

  lemma BotSuffix(s: string)
    ensures HasSuffix(s, "bot") <==> |s| >= 3 && s[|s| - 3] == 'b' && s[|s| - 2] == 'o' && s[|s| - 1] == 't'
  {
  }

  lemma WithBotEndsInBot(s: string)
    ensures HasSuffix(WithBot(s), "bot") && s <= WithBot(s)
  {
  }

  lemma BeforeTruncation(s: string)
    requires s != ""
    ensures IsClean(WithBot(WithLetter(Clean(s))))
  {
    WithBotEndsInBot(WithLetter(Clean(s)));
  }

  /** Truncation keeps a clean name clean, brings it down to 32 characters, and cuts only in front
      of its suffix. */
  lemma TruncateKeepsClean(s: string)
    requires IsClean(s)
    ensures Truncate(s).Ok? && IsClean(Truncate(s).value)
    ensures |Truncate(s).value| == if |s| <= USERNAME_MAX_LEN then |s| else USERNAME_MAX_LEN
    ensures |s| > USERNAME_MAX_LEN ==> Truncate(s).value[..28] <= s
  {
  }

  lemma CleanIsInLanguage(s: string)
    requires IsClean(s) && |s| >= 4
    ensures InUsernameLanguage(s)
  {
  }

  /** Too short to be a username once cleaned: "bot" itself, or one letter and "bot". */
  predicate TooShortOnceCleaned(c: string) {
    c == "bot" || (|c| == 4 && IsLowerLetter(c[0]) && c[1..] == "bot")
  }

  lemma ShortAfterCompletion(c: string)
    requires c != ""
    ensures |WithBot(WithLetter(c))| < USERNAME_MIN_LEN <==> TooShortOnceCleaned(c)
  {
  }

  /** Sanitizing fails exactly on text that is empty once trimmed, or too short once cleaned; never
      for any other reason, and its defensive branch is dead. */
  lemma SanitizeIsExact(u: Unicode, raw: string)
    ensures var s := Normalized(u, raw);
            if s == "" then Sanitize(u, raw) == Err(EmptyUsername)
            else if TooShortOnceCleaned(Clean(s)) then Sanitize(u, raw) == Err(BadLength)
            else Sanitize(u, raw).Ok? && IsClean(Sanitize(u, raw).value) && IsUsername(Sanitize(u, raw).value)
  {
    var s := Normalized(u, raw);
    if s != "" {
      var full := WithBot(WithLetter(Clean(s)));
      BeforeTruncation(s);
      TruncateKeepsClean(full);
      ShortAfterCompletion(Clean(s));
      var t := Truncate(full).value;
      ValidateIsExact(t);
      ByteLenOfAscii(t);
      if |t| >= 4 {
        CleanIsInLanguage(t);
      }
    }
  }

  /** The result continues the cleaned text, or is a 32-character name that agrees with it up to
      the suffix. */
  lemma SanitizeKeepsText(u: Unicode, raw: string)
    requires Sanitize(u, raw).Ok?
    ensures var r, l := Sanitize(u, raw).value, WithLetter(Clean(Normalized(u, raw)));
            l <= r || (|r| == USERNAME_MAX_LEN && (r[..28] <= l || l <= r[..28]))
  {
    var l := WithLetter(Clean(Normalized(u, raw)));
    BeforeTruncation(Normalized(u, raw));
    WithBotEndsInBot(l);
    TruncateKeepsClean(WithBot(l));
  }

  /** Padding makes no difference, and only blank text counts as empty. */
  lemma SanitizeIgnoresPadding(u: Unicode, a: string, raw: string, b: string)
    requires AllSpace(u, a) && AllSpace(u, b)
    ensures Sanitize(u, a + raw + b) == Sanitize(u, raw)
    ensures Sanitize(u, raw) == Err(EmptyUsername) <==> AllSpace(u, raw)
  {
    TrimIgnoresPadding(u, a, raw, b);
    TrimOfBlank(u, raw);
    SanitizeIsExact(u, raw);
    assert TrimSpace(u, raw) == "" <==> Normalized(u, raw) == "";
  }

  /** The character a lowered character becomes. */
  ghost predicate CleansTo(l: char, c: char) {
    c == if 'a' <= l <= 'z' || '0' <= l <= '9' || l == '_' then l else '_'
  }

  /** `full` is `start`, ended by "bot" with an underscore in front of it unless there is one. */
  ghost predicate Completes(start: string, full: string) {
    if |start| >= 3 && start[|start| - 3..] == "bot" then full == start
    else if start != "" && start[|start| - 1] == '_' then full == start + "bot"
    else full == start + "_bot"
  }

  /** `r` is `full`, cut to 32 characters in front of its ending. */
  ghost predicate CutTo32(full: string, r: string) {
    if |full| <= 32 then r == full
    else if full[|full| - 4..] == "_bot" then r == full[..28] + "_bot"
    else full[|full| - 3..] == "bot" && r == full[..29] + "bot"
  }

  /** What becomes of a text, from the padding to the cut: its characters, an "a" in front if they do not
      start with a letter, the ending, and the cut. */
  lemma SanitizeIsSpelledOut(u: Unicode, raw: string)
      returns (a: string, text: string, b: string, c: string, full: string)
    requires Sanitize(u, raw).Ok?
    ensures raw == a + text + b && AllSpace(u, a) && AllSpace(u, b) && IsTight(u, text) && text != ""
    ensures |c| == |text| && forall i | 0 <= i < |text| :: CleansTo(u.lower(text[i]), c[i])
    ensures Completes(if 'a' <= c[0] <= 'z' then c else "a" + c, full)
    ensures CutTo32(full, Sanitize(u, raw).value)
  {
    a, b := TrimSplits(u, raw);
    text := TrimSpace(u, raw);
    c := Clean(Normalized(u, raw));
    full := WithBot(WithLetter(c));
    CompletionIsSpelledOut(c);
    CutIsSpelledOut(full);
    TruncatedIsSanitized(u, raw);
  }

  lemma TruncatedIsSanitized(u: Unicode, raw: string)
    requires Sanitize(u, raw).Ok?
    ensures Normalized(u, raw) != ""
    ensures Truncate(WithBot(WithLetter(Clean(Normalized(u, raw))))) == Sanitize(u, raw)
  {
  }

  lemma CompletionIsSpelledOut(c: string)
    requires c != ""
    ensures Completes(if 'a' <= c[0] <= 'z' then c else "a" + c, WithBot(WithLetter(c)))
  {
    var start := WithLetter(c);
    assert start[|start| - 1..] == [start[|start| - 1]];
  }

  lemma CutIsSpelledOut(full: string)
    requires Truncate(full).Ok?
    ensures CutTo32(full, Truncate(full).value)
  {
  }

  /** Every valid username is mapped to its lowercase form. */
  lemma SanitizeLowersUsernames(u: Unicode, name: string)
    requires WellFormed(u) && IsUsername(name)
    ensures Sanitize(u, name) == Ok(ToLower(u, name))
  {
    TrimOfTight(u, name);
    var s := ToLower(u, name);
    assert Normalized(u, name) == s;
    assert All(s, IsLowerWordChar);
    assert Clean(s) == s;
    BotSuffix(s);
    assert Truncate(WithBot(WithLetter(s))) == Ok(s);
    CleanIsInLanguage(s);
    ValidateIsExact(s);
  }

  /** Sanitizing twice is sanitizing once. */
  lemma SanitizeIsIdempotent(u: Unicode, raw: string)
    requires WellFormed(u) && Sanitize(u, raw).Ok?
    ensures Sanitize(u, Sanitize(u, raw).value) == Sanitize(u, raw)
  {
    SanitizeIsExact(u, raw);
    var name := Sanitize(u, raw).value;
    SanitizeLowersUsernames(u, name);
    LowerOfLowerWord(u, name);
  }

  /** The doc comment promises an error only for input that is empty after cleaning; these are not. */
  lemma NonEmptyInputsThatFail(u: Unicode, letter: char)
    requires WellFormed(u) && IsLowerLetter(letter)
    ensures Sanitize(u, "bot") == Err(BadLength) && Sanitize(u, [letter] + "bot") == Err(BadLength)
  {
    CleanInput(u, "bot");
    SanitizeIsExact(u, "bot");
    CleanInput(u, [letter] + "bot");
    assert ([letter] + "bot")[1..] == "bot";
    SanitizeIsExact(u, [letter] + "bot");
  }

  lemma CleanInput(u: Unicode, s: string)
    requires WellFormed(u) && All(s, IsLowerWordChar)
    ensures Normalized(u, s) == s && Clean(s) == s
  {
  }
}
