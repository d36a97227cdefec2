/** The three HTTP handlers as protocol steps on a store: checks, one store call, a status. */
module Server {
  import opened Wrappers
  import opened Pairing
  import opened Text
  import opened Nonce
  import opened Username
  import opened DeepLink
  import M = MemoryStore

  const NANOS_PER_SECOND := 1_000_000_000

  const DEFAULT_PAIRING_TTL := 15 * 60 * NANOS_PER_SECOND

  datatype Config = Config(managerBotUsername: string, noncePrefix: string, suggestedName: string, pairingTtl: int)

  function EffectiveTtl(cfg: Config): int {
    if cfg.pairingTtl > 0 then cfg.pairingTtl else DEFAULT_PAIRING_TTL
  }

  datatype Response =
    | Registered(nonce: string, deepLink: string, expiresIn: int)  // 201
    | Completed                                                    // 200
    | Delivered(token: string, botUsername: string, completedAt: int)  // 200
    | StillWaiting                                                 // 404, status "waiting"
    | Missing                                                      // 404, status "not_found"
    | Error(status: int)

  /** The link options of a registration. */
  function LinkOptions(cfg: Config, username: string): Options {
    Options(cfg.managerBotUsername, username, cfg.suggestedName)
  }

  /** Everything PostPair needs before it touches the store. */
  ghost predicate CanPresentLink(u: Unicode, cfg: Config, n: string) {
    && Pack(u, cfg.noncePrefix, n).Ok?
    && BuildNewBot(u, LinkOptions(cfg, Pack(u, cfg.noncePrefix, n).value)).Ok?
  }

  /** What a 201 promises its reader: the link takes apart into the manager's name, the username that
      packs this very nonce, and the trimmed suggested name. */
  ghost predicate LinkReadsBack(u: Unicode, cfg: Config, n: string, link: string) {
    var packed := Pack(u, cfg.noncePrefix, n);
    var name := if cfg.suggestedName == "" then None else Some(TrimSpace(u, cfg.suggestedName));
    packed.Ok? && ReadLink(link) == Some(Parts(cfg.managerBotUsername, packed.value, name))
  }

  /** Whoever reads the link and confirms its username, in whatever letter case, gives back the nonce. */
  lemma LinkCarriesNonce(u: Unicode, cfg: Config, n: string, link: string, confirmed: string)
    requires WellFormed(u) && LinkReadsBack(u, cfg, n, link) && |n| == DEFAULT_LENGTH
    requires ToLower(u, confirmed) == ReadLink(link).value.suggested
    ensures Extract(u, confirmed, cfg.noncePrefix) == Some(n)
  {
    ExtractUndoesPack(u, cfg.noncePrefix, n, confirmed, DEFAULT_LENGTH);
  }

  /** What a configuration and a fresh nonce allow: a prefix of lowercase word characters that starts with a
      letter and leaves room for the nonce, a valid manager username, and a name that is not too long. */
  lemma CanPresentLinkIsExact(u: Unicode, cfg: Config, n: string)
    requires WellFormed(u) && IsNonce(n) && |n| == DEFAULT_LENGTH
    ensures CanPresentLink(u, cfg, n) <==>
            && IsPrefix(ToLower(u, cfg.noncePrefix)) && |cfg.noncePrefix| <= 15
            && IsUsername(cfg.managerBotUsername)
            && (cfg.suggestedName == "" || |TrimSpace(u, cfg.suggestedName)| <= 64)
  {
    PackIsExact(u, cfg.noncePrefix, n);
    PackedPieces(ToLower(u, cfg.noncePrefix), n);
    var packed := Pack(u, cfg.noncePrefix, n);
    if packed.Ok? {
      PackedIsUsername(u, cfg.noncePrefix, n);
      BuildIsExact(u, LinkOptions(cfg, packed.value));
    }
  }

  /** The nonce the random buffer makes, if it could be read. */
  ghost predicate Drawn(random: Option<seq<bv8>>, n: string) {
    random.Some? && n == Symbols(random.value)
  }

  /** The half of PostPair that comes before the store: a fresh nonce and a link that carries it. */
  method PresentLink(u: Unicode, cfg: Config, random: Option<seq<bv8>>) returns (r: Option<(string, string)>)
    requires WellFormed(u) && (random.Some? ==> |random.value| == DEFAULT_LENGTH)
    ensures r.Some? <==> exists n :: Drawn(random, n) && CanPresentLink(u, cfg, n)
    ensures r.Some? ==>
        Drawn(random, r.value.0) && CanPresentLink(u, cfg, r.value.0) && LinkReadsBack(u, cfg, r.value.0, r.value.1)
  {
    var n := NewN(DEFAULT_LENGTH, random);
    if n.Err? {
      return None;
    }
    assert Drawn(random, n.value);
    var username := PackIntoUsername(u, cfg.noncePrefix, n.value);
    if username.Err? {
      return None;
    }
    var link := BuildNewBot(u, LinkOptions(cfg, username.value));
    if link.Err? {
      return None;
    }
    ReadUndoesBuild(u, LinkOptions(cfg, username.value));
    return Some((n.value, link.value));
  }

  /** What is live at `now`, and a new waiting registration. */
  function WithRegistration(m: TtlMap, n: string, ttl: int, now: int, stamp: int): TtlMap {
    Live(m, now)[n := NewSlot(stamp + ttl)]
  }

  /** POST /pair. Answers 201 exactly when a link can be presented and the fresh nonce is free; then
      the nonce is registered and the link carries it. On any other outcome the live registrations
      are what they were. */
  method PostPair(u: Unicode, cfg: Config, store: M.MemoryStore, random: Option<seq<bv8>>,
      ctxErr: Option<CtxError>, now: int, stamp: int)
    returns (resp: Response)
    requires WellFormed(u) && store.Valid() && (random.Some? ==> |random.value| == DEFAULT_LENGTH)
    modifies store, store.entries.Values
    ensures store.Valid()
    ensures resp.Registered? || resp == Error(500)
    ensures resp.Registered? <==>
            ctxErr.None? && exists n :: Drawn(random, n) && CanPresentLink(u, cfg, n) && !IsLive(old(store.Contents()), n, now)
    ensures resp.Registered? ==>
        var ttl := if cfg.pairingTtl > 0 then cfg.pairingTtl else 900 * NANOS_PER_SECOND;
        && Drawn(random, resp.nonce) && LinkReadsBack(u, cfg, resp.nonce, resp.deepLink)
        && resp.expiresIn == ttl / NANOS_PER_SECOND
        && store.Contents() == WithRegistration(old(store.Contents()), resp.nonce, ttl, now, stamp)
    ensures !resp.Registered? ==> Live(store.Contents(), now) == Live(old(store.Contents()), now)
  {
    var link := PresentLink(u, cfg, random);
    resp := Register(store, link, EffectiveTtl(cfg), ctxErr, now, stamp);
  }

  /** The other half: the store call, and the answer. */
  method Register(store: M.MemoryStore, link: Option<(string, string)>, ttl: int, ctxErr: Option<CtxError>, now: int, stamp: int)
    returns (resp: Response)
    requires store.Valid()
    modifies store, store.entries.Values
    ensures store.Valid()
    ensures link.Some? && ctxErr.None? && !IsLive(old(store.Contents()), link.value.0, now) ==>
        && resp == Registered(link.value.0, link.value.1, ttl / NANOS_PER_SECOND)
        && store.Contents() == WithRegistration(old(store.Contents()), link.value.0, ttl, now, stamp)
    ensures !(link.Some? && ctxErr.None? && !IsLive(old(store.Contents()), link.value.0, now)) ==>
        resp == Error(500) && Live(store.Contents(), now) == Live(old(store.Contents()), now)
  {
    if link.None? {
      return Error(500);
    }
    var (n, url) := link.value;
    PutOutcome(store.Contents(), n, ttl, now, stamp);
    var err := store.Put(ctxErr, n, ttl, now, stamp);
    return if err.None? then Registered(n, url, ttl / NANOS_PER_SECOND) else Error(500);
  }

  lemma PutOutcome(m: TtlMap, n: string, ttl: int, now: int, stamp: int)
    ensures var (m', reply) := Apply(Live(m, now), Put(n, ttl), now, stamp);
            && (reply == Done <==> !IsLive(m, n, now))
            && (reply == Done ==> m' == WithRegistration(m, n, ttl, now, stamp))
            && (reply != Done ==> Live(m', now) == Live(m, now))
  {
  }

  /** The JSON body of PUT, if it could be decoded. */
  datatype Body = Body(token: string, botUsername: string)

  /** PUT /pair/{nonce}. Only an authenticated, well-formed request reaches the store, and the status
      tells which of its answers came back. */
  method PutPair(store: M.MemoryStore, authenticated: bool, n: string, body: Option<Body>,
      ctxErr: Option<CtxError>, now: int, stamp: int)
    returns (resp: Response)
    requires store.Valid()
    modifies store, store.entries.Values
    ensures store.Valid()
    ensures !authenticated ==> resp == Error(401) && store.Contents() == old(store.Contents())
    ensures authenticated && (!IsNonce(n) || body.None? || body.value.token == "" || body.value.botUsername == "") ==>
        resp == Error(400) && store.Contents() == old(store.Contents())
    ensures authenticated && !AcceptablePut(n, body) ==> resp == Error(400) && store.Contents() == old(store.Contents())
    ensures authenticated && AcceptablePut(n, body) && ctxErr.Some? ==>
        resp == Error(500) && store.Contents() == old(store.Contents())
    ensures authenticated && AcceptablePut(n, body) && ctxErr.None? ==>
        var m := Live(old(store.Contents()), now);
        if n !in m then resp == Error(404) && store.Contents() == m
        else if m[n].status == Ready then resp == Error(409) && store.Contents() == m
        else
          && resp == Completed
          && store.Contents()
             == m[n := Slot(Ready, body.value.token, body.value.botUsername, m[n].expiresAt, stamp)]
  {
    if !authenticated {
      return Error(401);
    }
    var invalid := Validate(n);
    if invalid.Some? {
      return Error(400);
    }
    if body.None? {
      return Error(400);
    }
    if body.value.token == "" || body.value.botUsername == "" {
      return Error(400);
    }
    resp := CompleteWith(store, n, body.value, ctxErr, now, stamp);
  }

  /** The store call of PUT, and the status for each of its answers. */
  method CompleteWith(store: M.MemoryStore, n: string, body: Body, ctxErr: Option<CtxError>, now: int, stamp: int)
    returns (resp: Response)
    requires store.Valid()
    modifies store, store.entries.Values
    ensures store.Valid()
    ensures ctxErr.Some? ==> resp == Error(500) && store.Contents() == old(store.Contents())
    ensures ctxErr.None? ==>
        var m := Live(old(store.Contents()), now);
        if n !in m then resp == Error(404) && store.Contents() == m
        else if m[n].status == Ready then resp == Error(409) && store.Contents() == m
        else
          && resp == Completed
          && store.Contents() == m[n := Slot(Ready, body.token, body.botUsername, m[n].expiresAt, stamp)]
  {
    SweptIsLive(old(store.Contents()), n, now);
    var err := store.Complete(ctxErr, n, body.token, body.botUsername, now, stamp);
    if err.None? {
      return Completed;
    }
    if err.value == ErrNotFound {
      return Error(404);
    }
    if err.value == ErrInvalidState {
      return Error(409);
    }
    return Error(500);
  }

  predicate AcceptablePut(n: string, body: Option<Body>) {
    IsNonce(n) && body.Some? && body.value.token != "" && body.value.botUsername != ""
  }

  /** DELETE /pair/{nonce}. A token leaves the store in the same step that deletes it; a client that
      comes too early or too late learns which. */
  method DeletePair(store: M.MemoryStore, n: string, ctxErr: Option<CtxError>, now: int) returns (resp: Response)
    requires store.Valid()
    modifies store, store.entries.Values
    ensures store.Valid()
    ensures !IsNonce(n) ==> resp == Error(400) && store.Contents() == old(store.Contents())
    ensures IsNonce(n) && ctxErr.Some? ==> resp == Error(500) && store.Contents() == old(store.Contents())
    ensures IsNonce(n) && ctxErr.None? ==>
        var m := Live(old(store.Contents()), now);
        if n !in m then resp == Missing && store.Contents() == m
        else if m[n].status == Waiting then resp == StillWaiting && store.Contents() == m
        else
          && resp == Delivered(m[n].token, m[n].botUsername, m[n].completedAt)
          && store.Contents() == m - {n}
  {
    var invalid := Validate(n);
    if invalid.Some? {
      return Error(400);
    }
    resp := FetchWith(store, n, ctxErr, now);
  }

  /** The store call of DELETE, and the status for each of its answers. */
  method FetchWith(store: M.MemoryStore, n: string, ctxErr: Option<CtxError>, now: int) returns (resp: Response)
    requires store.Valid()
    modifies store, store.entries.Values
    ensures store.Valid()
    ensures ctxErr.Some? ==> resp == Error(500) && store.Contents() == old(store.Contents())
    ensures ctxErr.None? ==>
        var m := Live(old(store.Contents()), now);
        if n !in m then resp == Missing && store.Contents() == m
        else if m[n].status == Waiting then resp == StillWaiting && store.Contents() == m
        else
          && resp == Delivered(m[n].token, m[n].botUsername, m[n].completedAt)
          && store.Contents() == m - {n}
  {
    SweptIsLive(old(store.Contents()), n, now);
    var r := store.FetchAndDelete(ctxErr, n, now);
    match r
    case Ok(entry) => return Delivered(entry.token, entry.botUsername, entry.completedAt);
    case Err(e) =>
      if e == ErrNotReady {
        return StillWaiting;
      }
      if e == ErrNotFound {
        return Missing;
      }
      return Error(500);
  }
}
