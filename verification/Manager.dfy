/** The manager-bot side: one update in, at most one completion, and a fallback message when the new
    bot cannot be tied to a live registration. */
module Manager {
  import opened Wrappers
  import opened Pairing
  import opened History
  import opened Text
  import opened Nonce
  import opened ApiErrors
  import M = MemoryStore

  datatype User = User(id: int, username: string)

  /** Only a message about a managed bot carries `created`. */
  datatype Message = Message(from: Option<int>, created: Option<User>)

  datatype Update = Update(message: Option<Message>)

  datatype HandlerError =
    | TokenFailed(botId: int, cause: GoError)
    | CompleteFailed(storeCause: StoreError)
    | FallbackFailed(fallbackCause: GoError)

  /** What the handler asked of the outside world. */
  datatype Action =
    | GetManagedBotToken(botId: int)
    | OnFallback(creator: int, bot: User)
    | SendMessage(chat: int, aboutBot: string)

  /** How the outside world answers during one call. */
  datatype Environment = Environment(
    ctxErr: Option<CtxError>,
    token: Result<string, GoError>,
    fallback: Option<GoError>,
    now: int,
    stamp: int)

  /** What the handler makes of the store's answer to Complete. */
  datatype Verdict = Succeed | FallBack | GiveUp(cause: StoreError)

  function Judge(reply: Reply): Verdict {
    match reply
    case Failed(e) =>
      if e == ErrInvalidState then Succeed
      else if e == ErrNotFound then FallBack
      else GiveUp(e)
    case _ => Succeed
  }

  function Creator(m: Message): int {
    if m.from.Some? then m.from.value else 0
  }

  predicate IsManagedBotCreated(update: Update) {
    update.message.Some? && update.message.value.created.Some?
  }

  /** What handing over the token does to the registrations, a cancelled context included. */
  function HandOver(m: TtlMap, n: string, token: string, bot: User, env: Environment): (TtlMap, Reply) {
    if env.ctxErr.Some? then (m, Failed(ErrContext(env.ctxErr.value)))
    else Apply(Live(m, env.now), Complete(n, token, bot.username), env.now, env.stamp)
  }

  /** How one delivery of an update about a managed bot ends. */
  datatype Conclusion = Paired | RanFallback | Errored(error: HandlerError)

  function Conclude(verdict: Verdict): Conclusion {
    match verdict
    case Succeed => Paired
    case FallBack => RanFallback
    case GiveUp(cause) => Errored(CompleteFailed(cause))
  }

  /** What one delivery does to the registrations, and how it ends. */
  function Deliver(u: Unicode, prefix: string, m: TtlMap, bot: User, env: Environment): (TtlMap, Conclusion) {
    match Extract(u, bot.username, prefix)
    case None => (m, RanFallback)
    case Some(n) =>
      match env.token
      case Err(e) => (m, if IsBotDeactivated(e) then RanFallback else Errored(TokenFailed(bot.id, e)))
      case Ok(token) =>
        var (m', reply) := HandOver(m, n, token, bot, env);
        (m', Conclude(Judge(reply)))
  }

  class Handler {
    const u: Unicode
    const store: M.MemoryStore
    const prefix: string
    const customFallback: bool
    var actions: seq<Action>

    constructor (u: Unicode, store: M.MemoryStore, prefix: string, customFallback: bool)
      ensures this.u == u && this.store == store && this.prefix == prefix && this.customFallback == customFallback
      ensures actions == []
    {
      this.u := u;
      this.store := store;
      this.prefix := prefix;
      this.customFallback := customFallback;
      actions := [];
    }

    /** The fallback as an action; without a custom one, an unknown creator gets no message. */
    function FallbackActions(creator: int, bot: User): seq<Action> {
      if customFallback then [OnFallback(creator, bot)]
      else if creator == 0 then []
      else [SendMessage(creator, bot.username)]
    }

    function FallbackResult(creator: int, env: Environment): Option<HandlerError> {
      if !customFallback && creator == 0 then None
      else if env.fallback.Some? then Some(FallbackFailed(env.fallback.value))
      else None
    }

    method RunFallback(creator: int, bot: User, env: Environment) returns (err: Option<HandlerError>)
      modifies this
      ensures actions == old(actions) + FallbackActions(creator, bot)
      ensures err == FallbackResult(creator, env)
      ensures customFallback ==> actions == old(actions) + [OnFallback(creator, bot)]
      ensures !customFallback && creator != 0 ==> actions == old(actions) + [SendMessage(creator, bot.username)]
      ensures !customFallback && creator == 0 ==> actions == old(actions) && err == None
      ensures customFallback || creator != 0 ==>
          (err == None <==> env.fallback == None) && (err.Some? ==> err.value == FallbackFailed(env.fallback.value))
    {
      if customFallback {
        actions := actions + [OnFallback(creator, bot)];
      } else {
        if creator == 0 {
          return None;
        }
        actions := actions + [SendMessage(creator, bot.username)];
      }
      return if env.fallback.Some? then Some(FallbackFailed(env.fallback.value)) else None;
    }

    /** The last stage: hand the token over, and judge the store's answer. */
    method CompletePairing(n: string, token: string, bot: User, creator: int, env: Environment)
      returns (err: Option<HandlerError>)
      requires store.Valid()
      modifies this, store, store.entries.Values
      ensures store.Valid()
      ensures var (m, reply) := HandOver(old(store.Contents()), n, token, bot, env);
              && store.Contents() == m
              && actions == old(actions) + (if Judge(reply) == FallBack then FallbackActions(creator, bot) else [])
              && err == match Judge(reply)
                        case Succeed => None
                        case FallBack => FallbackResult(creator, env)
                        case GiveUp(cause) => Some(CompleteFailed(cause))
    {
      var completeErr := store.Complete(env.ctxErr, n, token, bot.username, env.now, env.stamp);
      if completeErr == None || completeErr == Some(ErrInvalidState) {
        return None;
      }
      if completeErr == Some(ErrNotFound) {
        err := RunFallback(creator, bot, env);
        return;
      }
      return Some(CompleteFailed(completeErr.value));
    }

    /** The stages in order: the registrations end up and the outside world is asked as Deliver says,
        and only a delivery that fell back runs the fallback. */
    method HandleUpdate(update: Update, env: Environment) returns (err: Option<HandlerError>)
      requires store.Valid()
      modifies this, store, store.entries.Values
      ensures store.Valid()
      ensures !IsManagedBotCreated(update) ==>
          err == None && actions == old(actions) && store.Contents() == old(store.Contents())
      ensures IsManagedBotCreated(update) ==>
          var bot, creator := update.message.value.created.value, Creator(update.message.value);
          var asked := if Extract(u, bot.username, prefix).Some? then [GetManagedBotToken(bot.id)] else [];
          var (m, end) := Deliver(u, prefix, old(store.Contents()), bot, env);
          && store.Contents() == m
          && actions == old(actions) + asked + (if end == RanFallback then FallbackActions(creator, bot) else [])
          && err == match end
                    case Paired => None
                    case RanFallback => FallbackResult(creator, env)
                    case Errored(e) => Some(e)
      ensures IsManagedBotCreated(update) ==>
          var bot, was := update.message.value.created.value, old(store.Contents());
          var n := Extract(u, bot.username, prefix);
          n.Some? && env.token.Ok? && env.ctxErr.None? && IsLive(was, n.value, env.now) && was[n.value].status == Waiting ==>
            && err == None && actions == old(actions) + [GetManagedBotToken(bot.id)]
            && store.Contents()
               == Live(was, env.now)[
                    n.value := Slot(Ready, env.token.value, bot.username, was[n.value].expiresAt, env.stamp)]
    {
      if !IsManagedBotCreated(update) {
        return None;
      }
      DeliveryIsExact(u, prefix, old(store.Contents()), update.message.value.created.value, env);
      var bot := update.message.value.created.value;
      var creator := Creator(update.message.value);
      var n := Extract(u, bot.username, prefix);
      if n.None? {
        err := RunFallback(creator, bot, env);
        return;
      }
      actions := actions + [GetManagedBotToken(bot.id)];
      if env.token.Err? {
        if IsBotDeactivated(env.token.error) {
          err := RunFallback(creator, bot, env);
          return;
        }
        return Some(TokenFailed(bot.id, env.token.error));
      }
      err := CompletePairing(n.value, env.token.value, bot, creator, env);
    }
  }

  /** The deactivated branch is taken exactly on a 403 that carries the marker, however the client
      wrapped it. */
  lemma DeactivatedBranchIsExact(code: int, description: string, messages: seq<string>)
    ensures IsBotDeactivated(Wrapped(EnvelopeError(code, description), messages))
       <==> code == 403 && Contains(description, DEACTIVATED_MARKER)
  {
    PredicatesAreExact(code, description, messages);
  }

  /** What one delivery does, exactly. It falls back on an edited username, a deactivated bot or a dead
      registration, leaves what is live alone then and on every error, and otherwise succeeds: a waiting
      registration becomes ready with the token and its deadline, and a ready one stays as it is. */
  lemma DeliveryIsExact(u: Unicode, prefix: string, m: TtlMap, bot: User, env: Environment)
    ensures var n, after := Extract(u, bot.username, prefix), Deliver(u, prefix, m, bot, env);
            if n.None? then after == (m, RanFallback)
            else if env.token.Err? then
              after == (m, if IsBotDeactivated(env.token.error) then RanFallback
                           else Errored(TokenFailed(bot.id, env.token.error)))
            else if env.ctxErr.Some? then after == (m, Errored(CompleteFailed(ErrContext(env.ctxErr.value))))
            else if !IsLive(m, n.value, env.now) then after == (Live(m, env.now), RanFallback)
            else if m[n.value].status == Ready then after == (Live(m, env.now), Paired)
            else
              after == (Live(m, env.now)[n.value := Slot(Ready, env.token.value, bot.username, m[n.value].expiresAt,
                                                         env.stamp)],
                        Paired)
  {
    var n := Extract(u, bot.username, prefix);
    if n.Some? {
      SweptIsLive(m, n.value, env.now);
    }
  }

  /** Who hears of a fallback: the callback if there is one, else the creator, once, if the update says who
      that is. */
  lemma FallbackReachesCreator(h: Handler, message: Message, bot: User, env: Environment)
    ensures var actions, result := h.FallbackActions(Creator(message), bot), h.FallbackResult(Creator(message), env);
            if h.customFallback then
              && |actions| == 1 && actions[0].OnFallback? && actions[0].bot == bot
              && actions[0].creator == (if message.from.Some? then message.from.value else 0)
              && (result == None <==> env.fallback == None)
            else if message.from == None || message.from == Some(0) then actions == [] && result == None
            else
              && |actions| == 1 && actions[0] == SendMessage(message.from.value, bot.username)
              && (result == None <==> env.fallback == None)
  {
  }

  /** The handler's claim that repeating an update is safe, exactly: on a registration that is ready and
      live nothing changes, and the repetition succeeds whenever it gets an answer; but it does fall
      back if the bot has been deleted in the meantime. */
  lemma DeliveryIsIdempotentWhileLive(u: Unicode, prefix: string, m: TtlMap, bot: User, env: Environment, n: string)
    requires Extract(u, bot.username, prefix) == Some(n) && IsLive(m, n, env.now) && m[n].status == Ready
    ensures var (m', end) := Deliver(u, prefix, m, bot, env);
            && Live(m', env.now) == Live(m, env.now)
            && (end == RanFallback <==> env.token.Err? && IsBotDeactivated(env.token.error))
            && (end == Paired <==> env.token.Ok? && env.ctxErr.None?)
  {
    DeliveryIsExact(u, prefix, m, bot, env);
  }

  /** Around a fetch: the repetition that would have succeeded just before it falls back ever after,
      until the nonce is registered again. */
  lemma DuplicateAfterFetchFallsBack(u: Unicode, prefix: string, m: TtlMap, bot: User, env: Environment, n: string, t: int)
    requires Extract(u, bot.username, prefix) == Some(n) && env.token.Ok? && env.ctxErr.None?
    requires IsLive(m, n, t) && m[n].status == Ready && t <= env.now
    ensures var fetched := Apply(m, FetchAndDelete(n), t, t).0;
            && Deliver(u, prefix, m, bot, env.(now := t)).1 == Paired
            && Deliver(u, prefix, fetched, bot, env).1 == RanFallback
  {
    DeliveryIsExact(u, prefix, m, bot, env.(now := t));
    DeliveryIsExact(u, prefix, Apply(m, FetchAndDelete(n), t, t).0, bot, env);
  }
}
