/** The deep link that opens Telegram's bot-creation dialog, and how its reader takes it apart. */
module DeepLink {
  import opened Wrappers
  import opened Text
  import opened Username
  import opened Utf8
  import opened Nonce

  const NAME_MAX_LEN := 64

  datatype Options = Options(managerBotUsername: string, suggestedUsername: string, suggestedName: string)

  datatype LinkError =
    | ManagerRequired
    | InvalidManager(cause: UsernameError)
    | InvalidSuggested(cause: UsernameError)
    | NameTooLong

  const BASE := "https://t.me/newbot/"

  /** What a path keeps unescaped. */
  predicate IsPathChar(c: char) {
    IsUnreserved(c) || c in "$&+,/:;=@"
  }

  function EscapePath(bs: seq<Byte>): string {
    if bs == [] then ""
    else
      (if bs[0] < 0x80 && IsPathChar(bs[0] as char) then [bs[0] as char]
       else ['%', HexDigit(bs[0] / 16), HexDigit(bs[0] % 16)])
      + EscapePath(bs[1..])
  }

  function BuildNewBot(u: Unicode, opts: Options): Result<string, LinkError> {
    if TrimSpace(u, opts.managerBotUsername) == "" then Err(ManagerRequired)
    else if ValidateUsername(opts.managerBotUsername).Some? then
      Err(InvalidManager(ValidateUsername(opts.managerBotUsername).value))
    else if ValidateUsername(opts.suggestedUsername).Some? then
      Err(InvalidSuggested(ValidateUsername(opts.suggestedUsername).value))
    else
      var path := "/newbot/" + opts.managerBotUsername + "/" + opts.suggestedUsername;
      var base := "https://t.me" + EscapePath(Encode(path));
      if opts.suggestedName == "" then Ok(base)
      else
        var name := TrimSpace(u, opts.suggestedName);
        if |name| > NAME_MAX_LEN then Err(NameTooLong)
        else Ok(base + "?name=" + QueryEscape(Encode(name)))
  }

  // ---------------------------------------------------------------- reading a link

  datatype Parts = Parts(manager: string, suggested: string, name: Option<string>)

  /** Splits at the first `sep`; nothing if there is none. */
  function SplitFirst(s: string, sep: char): Option<(string, string)> {
    if s == "" then None
    else if s[0] == sep then Some(("", s[1..]))
    else match SplitFirst(s[1..], sep)
      case None => None
      case Some((before, after)) => Some(([s[0]] + before, after))
  }

  function DecodeComponent(s: string, plusIsSpace: bool): Option<string> {
    match Unescape(s, plusIsSpace)
    case None => None
    case Some(bs) => Decode(bs)
  }

  function ReadPath(path: string, name: Option<string>): Option<Parts> {
    match SplitFirst(path, '/')
    case None => None
    case Some((manager, suggested)) =>
      match (DecodeComponent(manager, false), DecodeComponent(suggested, false))
      case (Some(m), Some(s)) => Some(Parts(m, s, name))
      case _ => None
  }

  /** Takes a link apart: percent-decoding per section 2.1 of RFC 3986, and a plus sign in the query
      is a space. */
  function ReadLink(link: string): Option<Parts> {
    if !(BASE <= link) then None
    else
      var rest := link[|BASE|..];
      match SplitFirst(rest, '?')
      case None => ReadPath(rest, None)
      case Some((path, query)) =>
        if !("name=" <= query) then None
        else match DecodeComponent(query[5..], true)
          case None => None
          case Some(name) => ReadPath(path, Some(name))
  }

  // ---------------------------------------------------------------- the round trip

  predicate IsPlain(s: string) {
    forall i | 0 <= i < |s| :: IsWordChar(s[i]) || s[i] == '/'
  }

  lemma {:induction false} EscapePathOfPlain(s: string)
    requires IsPlain(s)
    ensures EscapePath(Encode(s)) == s
  {
    if s != "" {
      assert IsWordChar(s[0]) || s[0] == '/';
      assert '/' == "$&+,/:;=@"[4];
      assert Encode(s) == [s[0] as int] + Encode(s[1..]);
      EscapePathOfPlain(s[1..]);
    }
  }

  lemma {:induction false} SplitAtSeparator(before: string, sep: char, after: string)
    requires sep !in before
    ensures SplitFirst(before + [sep] + after, sep) == Some((before, after))
  {
    var s := before + [sep] + after;
    if before == "" {
      assert s[1..] == after;
    } else {
      assert s[1..] == before[1..] + [sep] + after;
      SplitAtSeparator(before[1..], sep, after);
      assert [before[0]] + before[1..] == before;
    }
  }

  lemma {:induction false} NoSeparator(s: string, sep: char)
    requires sep !in s
    ensures SplitFirst(s, sep).None?
  {
    if s != "" {
      NoSeparator(s[1..], sep);
    }
  }

  lemma WordDecodes(s: string)
    requires All(s, IsWordChar)
    ensures DecodeComponent(s, false) == Some(s)
  {
    UnescapeOfPlain(s);
    DecodeUndoesEncode(s);
  }

  lemma ReadPathOf(manager: string, suggested: string, name: Option<string>)
    requires All(manager, IsWordChar) && All(suggested, IsWordChar)
    ensures ReadPath(manager + "/" + suggested, name) == Some(Parts(manager, suggested, name))
  {
    SplitAtSeparator(manager, '/', suggested);
    WordDecodes(manager);
    WordDecodes(suggested);
  }

  lemma ReadLinkOf(manager: string, suggested: string, query: Option<string>)
    requires All(manager, IsWordChar) && All(suggested, IsWordChar)
    ensures var path := manager + "/" + suggested;
            query.None? ==> ReadLink(BASE + path) == Some(Parts(manager, suggested, None))
    ensures var path := manager + "/" + suggested;
            query.Some? && DecodeComponent(query.value, true).Some? ==>
              ReadLink(BASE + path + "?name=" + query.value)
              == Some(Parts(manager, suggested, DecodeComponent(query.value, true)))
  {
    var path := manager + "/" + suggested;
    assert '?' !in path;
    if query.None? {
      assert (BASE + path)[|BASE|..] == path;
      NoSeparator(path, '?');
      ReadPathOf(manager, suggested, None);
    } else {
      var link := BASE + path + "?name=" + query.value;
      var q := "name=" + query.value;
      assert link[|BASE|..] == path + ['?'] + q;
      SplitAtSeparator(path, '?', q);
      assert q[5..] == query.value;
      ReadPathOf(manager, suggested, DecodeComponent(query.value, true));
    }
  }

  function LinkName(u: Unicode, opts: Options): Option<string> {
    if opts.suggestedName == "" then None else Some(TrimSpace(u, opts.suggestedName))
  }

  lemma PlainSum(a: string, b: string)
    requires IsPlain(a) && IsPlain(b)
    ensures IsPlain(a + b)
  {
  }

  lemma BaseAndPath(path: string)
    ensures "https://t.me" + ("/newbot/" + path) == BASE + path
  {
  }

  lemma PathIsPlain(manager: string, suggested: string)
    requires All(manager, IsWordChar) && All(suggested, IsWordChar)
    ensures "https://t.me" + EscapePath(Encode("/newbot/" + manager + "/" + suggested)) == BASE + (manager + "/" + suggested)
  {
    var rest := manager + "/" + suggested;
    AssembledPath("/newbot/", manager, suggested);
    assert IsPlain("/newbot/" + rest) by {
      assert IsPlain("/newbot/") && IsPlain(rest);
      PlainSum("/newbot/", rest);
    }
    EscapePathOfPlain("/newbot/" + rest);
    BaseAndPath(rest);
  }

  lemma AssembledPath(root: string, manager: string, suggested: string)
    ensures root + manager + "/" + suggested == root + (manager + "/" + suggested)
  {
  }

  /** Reading a link gives back what it was built from: both usernames and the trimmed name. */
  lemma ReadUndoesBuild(u: Unicode, opts: Options)
    requires BuildNewBot(u, opts).Ok?
    ensures ReadLink(BuildNewBot(u, opts).value)
         == Some(Parts(opts.managerBotUsername, opts.suggestedUsername, LinkName(u, opts)))
  {
    ValidateIsExact(opts.managerBotUsername);
    ValidateIsExact(opts.suggestedUsername);
    var m, s := opts.managerBotUsername, opts.suggestedUsername;
    PathIsPlain(m, s);
    if opts.suggestedName == "" {
      ReadLinkOf(m, s, None);
    } else {
      var name := TrimSpace(u, opts.suggestedName);
      UnescapeUndoesEscape(Encode(name));
      DecodeUndoesEncode(name);
      ReadLinkOf(m, s, Some(QueryEscape(Encode(name))));
    }
  }

  /** The name in a link is the suggested one without the spaces around it. */
  lemma LinkNameIsTight(u: Unicode, opts: Options) returns (a: string, b: string)
    requires opts.suggestedName != ""
    ensures var name := LinkName(u, opts);
            name.Some? && opts.suggestedName == a + name.value + b
            && AllSpace(u, a) && AllSpace(u, b) && IsTight(u, name.value)
  {
    a, b := TrimSplits(u, opts.suggestedName);
  }

  /** Padding a name makes no difference to the link. */
  lemma BuildIgnoresPadding(u: Unicode, opts: Options, a: string, b: string)
    requires AllSpace(u, a) && AllSpace(u, b) && opts.suggestedName != ""
    ensures BuildNewBot(u, opts.(suggestedName := a + opts.suggestedName + b)) == BuildNewBot(u, opts)
  {
    TrimIgnoresPadding(u, a, opts.suggestedName, b);
  }

  /** The link, letter for letter. */
  lemma BuildIsSpelledOut(u: Unicode, opts: Options)
    requires BuildNewBot(u, opts).Ok?
    ensures BuildNewBot(u, opts).value
         == "https://t.me/newbot/" + (opts.managerBotUsername + "/" + opts.suggestedUsername)
            + (if opts.suggestedName == "" then "" else "?name=" + QueryEscape(Encode(LinkName(u, opts).value)))
  {
    ValidateIsExact(opts.managerBotUsername);
    ValidateIsExact(opts.suggestedUsername);
    PathIsPlain(opts.managerBotUsername, opts.suggestedUsername);
  }

  /** Different parts give different links. */
  lemma BuildIsInjective(u: Unicode, a: Options, b: Options)
    requires BuildNewBot(u, a).Ok? && BuildNewBot(u, a) == BuildNewBot(u, b)
    ensures a.managerBotUsername == b.managerBotUsername && a.suggestedUsername == b.suggestedUsername
    ensures LinkName(u, a) == LinkName(u, b)
  {
    ReadUndoesBuild(u, a);
    ReadUndoesBuild(u, b);
  }

  /** A link is built exactly for two valid usernames and a name of at most 64 characters. */
  lemma BuildIsExact(u: Unicode, opts: Options)
    requires WellFormed(u)
    ensures BuildNewBot(u, opts).Ok? <==>
            && IsUsername(opts.managerBotUsername) && IsUsername(opts.suggestedUsername)
            && (opts.suggestedName == "" || |TrimSpace(u, opts.suggestedName)| <= NAME_MAX_LEN)
  {
    ValidateIsExact(opts.managerBotUsername);
    ValidateIsExact(opts.suggestedUsername);
    if IsUsername(opts.managerBotUsername) {
      TrimOfTight(u, opts.managerBotUsername);
    }
  }

  /** Why no link is built: the first of its parts that is not acceptable. */
  lemma BuildErrorIsExact(u: Unicode, opts: Options)
    requires BuildNewBot(u, opts).Err?
    ensures var e := BuildNewBot(u, opts).error;
            if AllSpace(u, opts.managerBotUsername) then e == ManagerRequired
            else if !IsUsername(opts.managerBotUsername) then e.InvalidManager?
            else if !IsUsername(opts.suggestedUsername) then e.InvalidSuggested?
            else e == NameTooLong && |TrimSpace(u, opts.suggestedName)| > 64
  {
    TrimOfBlank(u, opts.managerBotUsername);
    ValidateIsExact(opts.managerBotUsername);
    ValidateIsExact(opts.suggestedUsername);
  }

  /** A username made by packing a nonce is always acceptable as a suggestion. */
  lemma PackedIsUsername(u: Unicode, prefix: string, n: string)
    requires WellFormed(u) && Pack(u, prefix, n).Ok?
    ensures IsUsername(Pack(u, prefix, n).value)
  {
    PackIsExact(u, prefix, n);
    var name := Pack(u, prefix, n).value;
    PackedIsLowerWord(ToLower(u, prefix), n);
    assert All(name, IsWordChar);
    PackedPieces(ToLower(u, prefix), n);
    assert name[|name| - 4..] == "_bot";
    assert name[|name| - 3] == "_bot"[1] && name[|name| - 2] == "_bot"[2] && name[|name| - 1] == "_bot"[3];
  }
}
