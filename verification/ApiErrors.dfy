/** Bot API failures: which sentinel a failure is classified as, and how it is found again under any
    amount of wrapping. */
module ApiErrors {
  import opened Wrappers

  /** The package's sentinel errors; each is compared by identity. */
  datatype Sentinel = ErrUnauthorized | ErrBotDeactivated | ErrTooManyRequests

  /** Go errors as far as errors.Is and errors.As can see: leaves, single wraps, multiple wraps. */
  datatype GoError =
    | Known(sentinel: Sentinel)
    | ApiError(code: int, description: string)
    | Plain(message: string)
    | Wrap(message: string, inner: GoError)
    | WrapAll(inners: seq<GoError>)

  const DEACTIVATED_MARKER := "user is deactivated"

  predicate Contains(s: string, sub: string) {
    exists i | 0 <= i <= |s| - |sub| :: OccursAt(s, sub, i)
  }

  predicate OccursAt(s: string, sub: string, i: nat) {
    i + |sub| <= |s| && s[i..i + |sub|] == sub
  }

  /** A text contains another if it is some text, that one, and some more. */
  lemma ContainsIsInfix(s: string, sub: string)
    ensures Contains(s, sub) <==> exists before, after :: s == before + sub + after
  {
    if Contains(s, sub) {
      var i :| 0 <= i <= |s| - |sub| && OccursAt(s, sub, i);
      assert s == s[..i] + sub + s[i + |sub|..];
    }
    if before, after :| s == before + sub + after {
      assert OccursAt(s, sub, |before|);
    }
  }

  function Classify(code: int, description: string): Option<Sentinel> {
    if code == 401 then Some(ErrUnauthorized)
    else if code == 403 then (if Contains(description, DEACTIVATED_MARKER) then Some(ErrBotDeactivated) else None)
    else if code == 429 then Some(ErrTooManyRequests)
    else None
  }

  /** errors.Is: a depth-first search of the error tree. */
  predicate Is(e: GoError, target: Sentinel) {
    match e
    case Known(s) => s == target
    case ApiError(_, _) => false
    case Plain(_) => false
    case Wrap(_, inner) => Is(inner, target)
    case WrapAll(inners) => exists i | 0 <= i < |inners| :: Is(inners[i], target)
  }

  /** errors.As for *APIError: the first one the same search meets. */
  function AsApiError(e: GoError): Option<GoError>
    decreases e, 0
  {
    match e
    case Known(_) => None
    case ApiError(_, _) => Some(e)
    case Plain(_) => None
    case Wrap(_, inner) => AsApiError(inner)
    case WrapAll(inners) => FirstApiError(inners)
  }

  function FirstApiError(es: seq<GoError>): Option<GoError>
    decreases es, 1
  {
    if es == [] then None
    else if AsApiError(es[0]).Some? then AsApiError(es[0])
    else FirstApiError(es[1..])
  }

  predicate IsUnauthorized(e: GoError) { Is(e, ErrUnauthorized) }

  predicate IsBotDeactivated(e: GoError) { Is(e, ErrBotDeactivated) }

  predicate IsTooManyRequests(e: GoError) { Is(e, ErrTooManyRequests) }

  /** The error of a non-OK envelope: sentinel and API error both, or the bare API error. */
  function EnvelopeError(code: int, description: string): GoError {
    match Classify(code, description)
    case Some(s) => WrapAll([Known(s), ApiError(code, description)])
    case None => ApiError(code, description)
  }

  /** `e` under any number of single wraps, innermost message first. */
  function Wrapped(e: GoError, messages: seq<string>): GoError
    decreases |messages|
  {
    if messages == [] then e else Wrapped(Wrap(messages[0], e), messages[1..])
  }

  lemma {:induction false} WrappingKeepsIdentity(e: GoError, messages: seq<string>, target: Sentinel)
    ensures Is(Wrapped(e, messages), target) <==> Is(e, target)
    ensures AsApiError(Wrapped(e, messages)) == AsApiError(e)
    decreases |messages|
  {
    if messages != [] {
      WrappingKeepsIdentity(Wrap(messages[0], e), messages[1..], target);
    }
  }

  lemma EnvelopeIdentity(code: int, description: string, target: Sentinel)
    ensures Is(EnvelopeError(code, description), target) <==> Classify(code, description) == Some(target)
    ensures AsApiError(EnvelopeError(code, description)) == Some(ApiError(code, description))
  {
    var e := EnvelopeError(code, description);
    if e.WrapAll? {
      var inners := [Known(Classify(code, description).value), ApiError(code, description)];
      assert e == WrapAll(inners);
      assert Is(e, target) <==> Is(inners[0], target) || Is(inners[1], target);
      assert AsApiError(inners[0]).None? && AsApiError(inners[1]) == Some(inners[1]);
      assert FirstApiError(inners[1..]) == AsApiError(inners[1]);
      assert AsApiError(e) == FirstApiError(inners) == FirstApiError(inners[1..]);
    }
  }

  /** Under any wrapping, the search finds exactly the sentinel that was chosen, or none, and the
      original code and description can still be recovered. */
  lemma ClassSurvivesWrapping(code: int, description: string, messages: seq<string>, target: Sentinel)
    ensures var e := Wrapped(EnvelopeError(code, description), messages);
            && (Is(e, target) <==> Classify(code, description) == Some(target))
            && AsApiError(e) == Some(ApiError(code, description))
  {
    WrappingKeepsIdentity(EnvelopeError(code, description), messages, target);
    EnvelopeIdentity(code, description, target);
  }

  /** At most one of the three predicates holds, each exactly on its own code; a 403 counts as
      deactivation only with the marker. */
  lemma PredicatesAreExact(code: int, description: string, messages: seq<string>)
    ensures var e := Wrapped(EnvelopeError(code, description), messages);
            && (IsUnauthorized(e) <==> code == 401)
            && (IsTooManyRequests(e) <==> code == 429)
            && (IsBotDeactivated(e) <==> code == 403 && Contains(description, DEACTIVATED_MARKER))
  {
    ClassSurvivesWrapping(code, description, messages, ErrUnauthorized);
    ClassSurvivesWrapping(code, description, messages, ErrTooManyRequests);
    ClassSurvivesWrapping(code, description, messages, ErrBotDeactivated);
  }
}
