/** The whole handoff: clients that register and poll, workers that complete over HTTP, and any
    number of manager replicas that each handle any number of deliveries of any update, one stage at
    a time. A call to the store is in flight from the moment it is sent; some time later it takes
    effect, or never does; and its caller hears the answer, or an error that says nothing about the
    effect. All that is assumed of the store is that the effects form one sequential history; module
    Handoff shows that of the in-process store, statement by statement. */
module Protocol {
  import opened Wrappers
  import opened Pairing
  import opened History
  import opened Ledger
  import opened Text
  import opened Nonce
  import opened ApiErrors
  import opened Manager

  /** What the deployment fixes: the Unicode tables and the username prefix. */
  datatype Setup = Setup(u: Unicode, prefix: string)

  /** Who made a call. */
  datatype Source =
    | Client
    | Worker
    | Delivery(id: nat, bot: User)

  datatype Reason = EditedUsername | Deactivated | NotLive

  datatype Outcome = Success | FellBack(why: Reason) | Retry

  /** Where one delivery of an update stands. */
  datatype Stage =
    | AtExtract
    | AtToken(nonce: string)
    | AtComplete(nonce: string, token: string)
    | AtAnswer(flight: nat)
    | Finished(outcome: Outcome)

  datatype Job = Job(bot: User, stage: Stage)

  /** A token the Bot API handed out. */
  datatype Grant = Grant(botId: int, token: string, at: int)

  /** A call that was sent. */
  datatype Flight = Flight(source: Source, call: Call, at: int)

  /** A PUT request as it arrived, and whether it carried the shared secret. */
  datatype PutRequest = PutRequest(authenticated: bool, nonce: string, token: string, botUsername: string)

  /** An entry a client received, and the call it was the answer to. */
  datatype Receipt = Receipt(entry: Entry, flight: nat)

  /** Everybody but the store. `puts` records every PUT request that arrived, `tokens` what the Bot API
      answered to which delivery, and `heard` what a delivery was told about its Complete. */
  datatype Callers = Callers(
    flights: map<nat, Flight>,
    answered: set<nat>,
    jobs: map<nat, Job>,
    puts: map<nat, PutRequest>,
    granted: set<Grant>,
    tokens: map<nat, Result<string, GoError>>,
    heard: map<nat, Reply>,
    receipts: seq<Receipt>)

  /** The calls that took effect are recorded in `log`, each under the number of its flight. */
  datatype State = State(clock: int, log: seq<Effect>, callers: Callers)

  const NOBODY := Callers(map[], {}, map[], map[], {}, map[], map[], [])

  ghost predicate Initial(s: State) {
    s.log == [] && s.callers == NOBODY
  }

  // ---------------------------------------------------------------- what callers do

  ghost predicate Sends(c: Callers, c': Callers, clock: int, id: nat, source: Source, call: Call) {
    id !in c.flights && c' == c.(flights := c.flights[id := Flight(source, call, clock)])
  }

  /** A client registers a nonce; nothing keeps two clients from drawing the same one. */
  ghost predicate Post(c: Callers, c': Callers, clock: int, id: nat, n: string, ttl: int) {
    IsNonce(n) && Sends(c, c', clock, id, Client, Put(n, ttl))
  }

  /** A client polls. */
  ghost predicate Poll(c: Callers, c': Callers, clock: int, id: nat, n: string) {
    IsNonce(n) && Sends(c, c', clock, id, Client, FetchAndDelete(n))
  }

  /** A PUT request arrives; only an authenticated, acceptable one leads to a call, which then goes by the
      same number. */
  ghost predicate WorkerPut(c: Callers, c': Callers, clock: int, id: nat, put: PutRequest) {
    && id !in c.flights && id !in c.puts
    && var seen := c.(puts := c.puts[id := put]);
    if put.authenticated && IsNonce(put.nonce) && put.token != "" && put.botUsername != "" then
      Sends(seen, c', clock, id, Worker, Complete(put.nonce, put.token, put.botUsername))
    else c' == seen
  }

  function Advance(c: Callers, j: nat, stage: Stage): Callers
    requires j in c.jobs
  {
    c.(jobs := c.jobs[j := c.jobs[j].(stage := stage)])
  }

  /** A delivery sends its Complete. */
  ghost predicate CompleteStage(c: Callers, c': Callers, clock: int, id: nat, j: nat) {
    && j in c.jobs && c.jobs[j].stage.AtComplete?
    && var Job(bot, stage) := c.jobs[j];
    Sends(Advance(c, j, AtAnswer(id)), c', clock, id, Delivery(j, bot), Complete(stage.nonce, stage.token, bot.username))
  }

  /** Telegram delivers an update, for the first time or again. */
  ghost predicate DeliverUpdate(c: Callers, c': Callers, j: nat, bot: User) {
    j !in c.jobs && c' == c.(jobs := c.jobs[j := Job(bot, AtExtract)])
  }

  ghost predicate ExtractStage(setup: Setup, c: Callers, c': Callers, j: nat) {
    && j in c.jobs && c.jobs[j].stage == AtExtract
    && var n := Extract(setup.u, c.jobs[j].bot.username, setup.prefix);
    && c' == Advance(c, j, if n.Some? then AtToken(n.value) else Finished(FellBack(EditedUsername)))
  }

  function AfterToken(nonce: string, answer: Result<string, GoError>): Stage {
    match answer
    case Ok(token) => AtComplete(nonce, token)
    case Err(e) => Finished(if IsBotDeactivated(e) then FellBack(Deactivated) else Retry)
  }

  ghost predicate TokenStage(c: Callers, c': Callers, clock: int, j: nat, answer: Result<string, GoError>) {
    && j in c.jobs && c.jobs[j].stage.AtToken?
    && var Job(bot, stage) := c.jobs[j];
    c' == Advance(c, j, AfterToken(stage.nonce, answer)).(
            tokens := c.tokens[j := answer],
            granted := c.granted + if answer.Ok? then {Grant(bot.id, answer.value, clock)} else {})
  }

  function OutcomeOf(reply: Reply): Outcome {
    match Judge(reply)
    case Succeed => Success
    case FallBack => FellBack(NotLive)
    case GiveUp(_) => Retry
  }

  /** Where the stages of a delivery lead, given what it is answered on the way. */
  function Staged(setup: Setup, bot: User, answer: Result<string, GoError>, reply: Reply): Outcome {
    match Extract(setup.u, bot.username, setup.prefix)
    case None => FellBack(EditedUsername)
    case Some(n) => if AfterToken(n, answer).Finished? then AfterToken(n, answer).outcome else OutcomeOf(reply)
  }

  /** The stages are those of the handler: given the same answers they end as Manager.Deliver does. */
  lemma StagesFollowHandler(setup: Setup, m: TtlMap, bot: User, env: Environment)
    ensures var n, end := Extract(setup.u, bot.username, setup.prefix), Deliver(setup.u, setup.prefix, m, bot, env).1;
            var reply := if n.Some? && env.token.Ok? then HandOver(m, n.value, env.token.value, bot, env).1 else Done;
            match Staged(setup, bot, env.token, reply)
            case Success => end == Paired
            case FellBack(_) => end == RanFallback
            case Retry => end.Errored?
  {
  }

  ghost predicate InFlight(c: Callers, id: nat) {
    id in c.flights && id !in c.answered
  }

  /** What the caller of flight `id` makes of a reply. */
  function Hears(c: Callers, id: nat, reply: Reply): Callers
    requires id in c.flights
  {
    var c' := c.(answered := c.answered + {id});
    match c.flights[id].source
    case Client => if reply.Fetched? then c'.(receipts := c.receipts + [Receipt(reply.entry, id)]) else c'
    case Worker => c'
    case Delivery(j, _) =>
      if j in c.jobs then Advance(c', j, Finished(OutcomeOf(reply))).(heard := c.heard[j := reply]) else c'
  }

  /** Steps that concern one delivery and no store. */
  ghost predicate QuietStep(setup: Setup, c: Callers, c': Callers, clock: int, j: nat) {
    || (exists bot :: DeliverUpdate(c, c', j, bot))
    || ExtractStage(setup, c, c', j)
    || (exists answer :: TokenStage(c, c', clock, j, answer))
  }

  /** A client, a worker or a delivery sends flight `id`, or a PUT request is refused. */
  ghost predicate SendStep(c: Callers, c': Callers, clock: int, id: nat) {
    || (exists n, ttl :: Post(c, c', clock, id, n, ttl))
    || (exists n :: Poll(c, c', clock, id, n))
    || (exists put :: WorkerPut(c, c', clock, id, put))
    || (exists j: nat :: CompleteStage(c, c', clock, id, j))
  }

  // ---------------------------------------------------------------- the steps

  ghost predicate Tick(s: State, s': State) {
    s' == s.(clock := s'.clock) && s.clock <= s'.clock
  }

  /** A call takes effect, once, at a reading `now` of its own interval. A Put counts its lifetime from
      a later reading; the instant a Complete writes down is its caller's own and may be any. */
  ghost predicate TakesEffect(s: State, s': State, id: nat, now: int, stamp: int) {
    && id in s.callers.flights && Absent(s.log, id)
    && var Flight(_, call, at) := s.callers.flights[id];
    && at <= now <= s.clock && (s.log != [] ==> Last(s.log).now <= now) && (call.Put? ==> now <= stamp <= s.clock)
    && s' == s.(log := s.log + [Effect(id, call, now, stamp, Apply(After(s.log), call, now, stamp).1)])
  }

  ghost predicate Absent(log: seq<Effect>, id: nat) {
    forall i | 0 <= i < |log| :: log[i].id != id
  }

  /** The caller hears what its call answered. */
  ghost predicate Answers(s: State, s': State, i: nat) {
    && i < |s.log| && InFlight(s.callers, s.log[i].id)
    && s' == s.(callers := Hears(s.callers, s.log[i].id, s.log[i].reply))
  }

  /** A cancelled context, or a reply or request that got lost. */
  predicate IsBreak(reply: Reply) {
    reply.Failed? && (reply.error.ErrContext? || reply.error.ErrBackend?)
  }

  /** The caller hears an error instead. Its call may have taken effect, may yet do so, or never. */
  ghost predicate Breaks(s: State, s': State, id: nat, reply: Reply) {
    InFlight(s.callers, id) && IsBreak(reply) && s' == s.(callers := Hears(s.callers, id, reply))
  }

  /** What callers do of their own accord. */
  ghost predicate CallersStep(setup: Setup, s: State, s': State) {
    && s' == s.(callers := s'.callers)
    && ((exists id: nat :: SendStep(s.callers, s'.callers, s.clock, id))
        || (exists j: nat :: QuietStep(setup, s.callers, s'.callers, s.clock, j)))
  }

  ghost predicate Step(setup: Setup, s: State, s': State) {
    || Tick(s, s')
    || CallersStep(setup, s, s')
    || (exists id: nat, now, stamp :: TakesEffect(s, s', id, now, stamp))
    || (exists i: nat :: Answers(s, s', i))
    || (exists id: nat, reply :: Breaks(s, s', id, reply))
  }

  ghost predicate IsRun(setup: Setup, run: seq<State>) {
    && |run| > 0 && Initial(run[0])
    && forall i | 0 <= i < |run| - 1 :: Step(setup, run[i], run[i + 1])
  }

  // ---------------------------------------------------------------- the invariant

  /** The Bot API had granted the token by `at`. */
  ghost predicate WasGranted(granted: set<Grant>, botId: int, token: string, at: int) {
    exists g | g in granted :: g.botId == botId && g.token == token && g.at <= at
  }

  /** Where the token of a completion may come from: a PUT request that was authenticated, or the Bot API,
      before the call was sent, for a bot whose username carries the nonce. */
  ghost predicate Authorized(setup: Setup, c: Callers, id: nat)
    requires id in c.flights
  {
    var f := c.flights[id];
    match f.source
    case Client => !f.call.Complete?
    case Worker =>
      && f.call.Complete? && IsNonce(f.call.nonce) && f.call.token != "" && f.call.botUsername != ""
      && id in c.puts && c.puts[id] == PutRequest(true, f.call.nonce, f.call.token, f.call.botUsername)
    case Delivery(_, bot) =>
      && f.call.Complete?
      && Extract(setup.u, bot.username, setup.prefix) == Some(f.call.nonce)
      && WasGranted(c.granted, bot.id, f.call.token, f.at)
      && f.call.botUsername == bot.username
  }

  ghost predicate LogInv(s: State) {
    && Legal(s.log)
    && (s.log != [] ==> Last(s.log).now <= s.clock)
    && (forall i | 0 <= i < |s.log| :: IsFlown(s.callers.flights, s.log[i]))
    && forall i, j | 0 <= i < j < |s.log| :: s.log[i].id != s.log[j].id
  }

  ghost predicate IsFlown(flights: map<nat, Flight>, e: Effect) {
    e.id in flights && flights[e.id].call == e.call && flights[e.id].at <= e.now
  }

  ghost predicate FlightInv(setup: Setup, c: Callers) {
    forall id | id in c.flights :: Authorized(setup, c, id)
  }

  /** The log answered flight `id` with `reply`. */
  ghost predicate AnsweredWith(log: seq<Effect>, id: nat, reply: Reply) {
    exists i :: 0 <= i < |log| && log[i].id == id && log[i].reply == reply
  }

  ghost predicate ReceiptInv(log: seq<Effect>, c: Callers) {
    && (forall r | r in c.receipts :: r.flight in c.answered && AnsweredWith(log, r.flight, Fetched(r.entry)))
    && forall d, d' | 0 <= d < d' < |c.receipts| :: c.receipts[d].flight != c.receipts[d'].flight
  }

  ghost predicate WasDeactivated(c: Callers, j: nat) {
    j in c.tokens && c.tokens[j].Err? && IsBotDeactivated(c.tokens[j].error)
  }

  /** How a delivery that is through must have ended, told from its username and what it was answered. */
  ghost function Ended(n: Option<string>, c: Callers, j: nat): Outcome {
    if n.None? then FellBack(EditedUsername)
    else if j in c.heard then OutcomeOf(c.heard[j])
    else if WasDeactivated(c, j) then FellBack(Deactivated)
    else Retry
  }

  /** What a delivery was told about its Complete is what its Complete answered, or an error. */
  ghost predicate HeardTruth(log: seq<Effect>, c: Callers, j: nat, bot: User) {
    j in c.heard ==>
      && j in c.tokens && c.tokens[j].Ok?
      && (IsBreak(c.heard[j])
          || exists id :: id in c.flights && c.flights[id].source == Delivery(j, bot)
                          && AnsweredWith(log, id, c.heard[j]))
  }

  ghost predicate JobInv(setup: Setup, s: State, j: nat)
    requires j in s.callers.jobs
  {
    var c := s.callers;
    var Job(bot, stage) := c.jobs[j];
    var n := Extract(setup.u, bot.username, setup.prefix);
    && (n.None? ==> j !in c.tokens)
    && HeardTruth(s.log, c, j, bot)
    && match stage
       case AtExtract => j !in c.tokens && j !in c.heard
       case AtToken(nonce) => n == Some(nonce) && j !in c.tokens && j !in c.heard
       case AtComplete(nonce, token) =>
         && n == Some(nonce) && WasGranted(c.granted, bot.id, token, s.clock)
         && j in c.tokens && c.tokens[j] == Ok(token) && j !in c.heard
       case AtAnswer(id) => n.Some? && j in c.tokens && c.tokens[j].Ok? && j !in c.heard
       case Finished(outcome) => outcome == Ended(n, c, j)
  }

  ghost predicate JobsInv(setup: Setup, s: State) {
    forall j | j in s.callers.jobs :: JobInv(setup, s, j)
  }

  /** Each delivery sends at most one Complete, and waits for it. */
  ghost predicate CallsInv(c: Callers) {
    && (forall j | j in c.tokens || j in c.heard :: j in c.jobs)
    && (forall id | id in c.answered :: id in c.flights)
    && (forall id | id in c.flights && c.flights[id].source.Delivery? :: OwnsFlight(c, id))
    && forall id, id' | id in c.flights && id' in c.flights
                        && c.flights[id].source.Delivery? && c.flights[id'].source.Delivery?
                        && c.flights[id].source.id == c.flights[id'].source.id :: id == id'
  }

  ghost predicate OwnsFlight(c: Callers, id: nat)
    requires id in c.flights && c.flights[id].source.Delivery?
  {
    var Delivery(j, bot) := c.flights[id].source;
    && j in c.jobs && c.jobs[j].bot == bot
    && if id in c.answered then c.jobs[j].stage.Finished? else c.jobs[j].stage == AtAnswer(id)
  }

  ghost predicate Inv(setup: Setup, s: State) {
    && LogInv(s) && FlightInv(setup, s.callers) && ReceiptInv(s.log, s.callers)
    && JobsInv(setup, s) && CallsInv(s.callers)
  }

  // ---------------------------------------------------------------- preservation

  /** Nothing ever shrinks, so a step has to answer only for the job it moved. */
  lemma GrowthKeepsJob(setup: Setup, s: State, s': State, j: nat)
    requires j in s.callers.jobs && JobInv(setup, s, j)
    requires j in s'.callers.jobs && s'.callers.jobs[j] == s.callers.jobs[j]
    requires j in s.callers.tokens <==> j in s'.callers.tokens
    requires j in s.callers.tokens ==> s'.callers.tokens[j] == s.callers.tokens[j]
    requires j in s.callers.heard <==> j in s'.callers.heard
    requires j in s.callers.heard ==> s'.callers.heard[j] == s.callers.heard[j]
    requires s.log <= s'.log && s.clock <= s'.clock && s.callers.granted <= s'.callers.granted
    requires forall id | id in s.callers.flights ::
               id in s'.callers.flights && s'.callers.flights[id] == s.callers.flights[id]
    ensures JobInv(setup, s', j)
  {
    var c, bot := s.callers, s.callers.jobs[j].bot;
    if j in c.heard && !IsBreak(c.heard[j]) {
      var id :| id in c.flights && c.flights[id].source == Delivery(j, bot) && AnsweredWith(s.log, id, c.heard[j]);
      LongerLogAnswers(s.log, s'.log, id, c.heard[j]);
    }
  }

  lemma LongerLogAnswers(log: seq<Effect>, log': seq<Effect>, id: nat, reply: Reply)
    requires AnsweredWith(log, id, reply) && log <= log'
    ensures AnsweredWith(log', id, reply)
  {
    var i :| 0 <= i < |log| && log[i].id == id && log[i].reply == reply;
    assert log'[i] == log[i];
  }

  lemma TickKeepsInv(setup: Setup, s: State, s': State)
    requires Inv(setup, s) && Tick(s, s')
    ensures Inv(setup, s')
  {
    forall j | j in s'.callers.jobs
      ensures JobInv(setup, s', j)
    {
      GrowthKeepsJob(setup, s, s', j);
    }
  }

  lemma EffectKeepsLog(s: State, s': State, id: nat, now: int, stamp: int)
    requires LogInv(s) && TakesEffect(s, s', id, now, stamp)
    ensures LogInv(s')
  {
    LegalExtend(s.log, Last(s'.log));
  }

  lemma EffectKeepsInv(setup: Setup, s: State, s': State, id: nat, now: int, stamp: int)
    requires Inv(setup, s) && TakesEffect(s, s', id, now, stamp)
    ensures Inv(setup, s')
  {
    EffectKeepsLog(s, s', id, now, stamp);
    forall r | r in s.callers.receipts
      ensures AnsweredWith(s'.log, r.flight, Fetched(r.entry))
    {
      LongerLogAnswers(s.log, s'.log, r.flight, Fetched(r.entry));
    }
    forall j | j in s'.callers.jobs
      ensures JobInv(setup, s', j)
    {
      GrowthKeepsJob(setup, s, s', j);
    }
  }

  /** PUT requests are recorded for good. */
  ghost predicate MorePuts(c: Callers, c': Callers) {
    forall k | k in c.puts :: k in c'.puts && c'.puts[k] == c.puts[k]
  }

  /** One flight is new, and if a delivery sent it, it now waits for the answer. */
  ghost predicate OneMoreFlight(c: Callers, c': Callers, id: nat) {
    && id !in c.flights && id in c'.flights && c'.flights == c.flights[id := c'.flights[id]]
    && c' == c.(flights := c'.flights, jobs := c'.jobs, puts := c'.puts) && MorePuts(c, c')
    && match c'.flights[id].source
       case Delivery(j, bot) =>
         && j in c.jobs && c.jobs[j].stage.AtComplete? && c.jobs[j].bot == bot
         && c'.jobs == c.jobs[j := c.jobs[j].(stage := AtAnswer(id))]
       case _ => c'.jobs == c.jobs
  }

  /** Nothing but the record of a PUT request is new. */
  ghost predicate Refused(c: Callers, c': Callers) {
    c' == c.(puts := c'.puts) && MorePuts(c, c')
  }

  lemma PostSends(c: Callers, c': Callers, clock: int, id: nat, n: string, ttl: int)
    requires Post(c, c', clock, id, n, ttl)
    ensures OneMoreFlight(c, c', id) && c'.flights[id].at == clock
  {
  }

  lemma PollSends(c: Callers, c': Callers, clock: int, id: nat, n: string)
    requires Poll(c, c', clock, id, n)
    ensures OneMoreFlight(c, c', id) && c'.flights[id].at == clock
  {
  }

  lemma PutSends(c: Callers, c': Callers, clock: int, id: nat, put: PutRequest)
    requires WorkerPut(c, c', clock, id, put)
    ensures id in c'.flights ==> OneMoreFlight(c, c', id) && c'.flights[id].at == clock
    ensures id !in c'.flights ==> Refused(c, c')
  {
  }

  lemma DeliverySends(c: Callers, c': Callers, clock: int, id: nat, j: nat)
    requires CompleteStage(c, c', clock, id, j)
    ensures OneMoreFlight(c, c', id) && c'.flights[id].at == clock
  {
  }

  lemma WhatIsSent(c: Callers, c': Callers, clock: int, id: nat)
    requires SendStep(c, c', clock, id)
    ensures id in c'.flights ==> OneMoreFlight(c, c', id) && c'.flights[id].at == clock
    ensures id !in c'.flights ==> Refused(c, c')
  {
    if n, ttl :| Post(c, c', clock, id, n, ttl) {
      PostSends(c, c', clock, id, n, ttl);
    } else if n :| Poll(c, c', clock, id, n) {
      PollSends(c, c', clock, id, n);
    } else if put :| WorkerPut(c, c', clock, id, put) {
      PutSends(c, c', clock, id, put);
    } else {
      var j: nat :| CompleteStage(c, c', clock, id, j);
      DeliverySends(c, c', clock, id, j);
    }
  }

  /** What is sent is sent with authority. */
  lemma SentIsAuthorized(setup: Setup, s: State, c': Callers, id: nat)
    requires Inv(setup, s) && SendStep(s.callers, c', s.clock, id) && id in c'.flights
    ensures Authorized(setup, c', id)
  {
    if j: nat :| CompleteStage(s.callers, c', s.clock, id, j) {
      assert JobInv(setup, s, j);
    }
  }

  lemma SendKeepsInv(setup: Setup, s: State, s': State, id: nat)
    requires Inv(setup, s) && s' == s.(callers := s'.callers) && SendStep(s.callers, s'.callers, s.clock, id)
    ensures Inv(setup, s')
  {
    WhatIsSent(s.callers, s'.callers, s.clock, id);
    if id in s'.callers.flights {
      SentIsAuthorized(setup, s, s'.callers, id);
      SentKeepsFlights(setup, s.callers, s'.callers, id);
      SentKeepsLog(s, s', id);
      SentKeepsCalls(s.callers, s'.callers, id);
      SentKeepsJobs(setup, s, s', id);
    } else {
      RefusedPutKeepsInv(setup, s, s');
    }
  }

  lemma SentKeepsLog(s: State, s': State, id: nat)
    requires LogInv(s) && ReceiptInv(s.log, s.callers)
    requires s' == s.(callers := s'.callers) && OneMoreFlight(s.callers, s'.callers, id)
    ensures LogInv(s') && ReceiptInv(s'.log, s'.callers)
  {
    forall i | 0 <= i < |s'.log|
      ensures IsFlown(s'.callers.flights, s'.log[i])
    {
      assert IsFlown(s.callers.flights, s.log[i]);
    }
  }

  lemma SentKeepsFlights(setup: Setup, c: Callers, c': Callers, id: nat)
    requires FlightInv(setup, c) && OneMoreFlight(c, c', id) && Authorized(setup, c', id)
    ensures FlightInv(setup, c')
  {
    forall k | k in c'.flights
      ensures Authorized(setup, c', k)
    {
      assert k != id ==> Authorized(setup, c, k);
    }
  }

  lemma RefusedPutKeepsInv(setup: Setup, s: State, s': State)
    requires Inv(setup, s) && s' == s.(callers := s'.callers) && Refused(s.callers, s'.callers)
    ensures Inv(setup, s')
  {
    forall id | id in s'.callers.flights
      ensures Authorized(setup, s'.callers, id)
      ensures s'.callers.flights[id].source.Delivery? ==> OwnsFlight(s'.callers, id)
    {
      assert Authorized(setup, s.callers, id);
      assert s.callers.flights[id].source.Delivery? ==> OwnsFlight(s.callers, id);
    }
    forall j | j in s'.callers.jobs
      ensures JobInv(setup, s', j)
    {
      GrowthKeepsJob(setup, s, s', j);
    }
  }

  lemma SentKeepsJobs(setup: Setup, s: State, s': State, id: nat)
    requires JobsInv(setup, s) && s' == s.(callers := s'.callers) && OneMoreFlight(s.callers, s'.callers, id)
    ensures JobsInv(setup, s')
  {
    forall j | j in s'.callers.jobs
      ensures JobInv(setup, s', j)
    {
      assert JobInv(setup, s, j);
      if s'.callers.jobs[j] == s.callers.jobs[j] {
        GrowthKeepsJob(setup, s, s', j);
      }
    }
  }

  lemma SentKeepsCalls(c: Callers, c': Callers, id: nat)
    requires CallsInv(c) && OneMoreFlight(c, c', id)
    ensures CallsInv(c')
  {
    forall k | k in c'.flights && c'.flights[k].source.Delivery?
      ensures OwnsFlight(c', k)
    {
      if k != id {
        assert OwnsFlight(c, k);
      }
    }
    forall k | k in c.flights && c.flights[k].source.Delivery?
      ensures c'.flights[id].source.Delivery? ==> c.flights[k].source.id != c'.flights[id].source.id
    {
      assert OwnsFlight(c, k);
    }
  }

  /** A caller that hears something settles its flight, and if it is a delivery its job. */
  lemma HearsKeepsCalls(c: Callers, id: nat, reply: Reply)
    requires CallsInv(c) && InFlight(c, id)
    ensures CallsInv(Hears(c, id, reply))
  {
    var c' := Hears(c, id, reply);
    forall k | k in c'.flights && c'.flights[k].source.Delivery?
      ensures OwnsFlight(c', k)
    {
      assert OwnsFlight(c, k);
    }
  }

  lemma HearsKeepsReceipts(log: seq<Effect>, c: Callers, id: nat, reply: Reply)
    requires ReceiptInv(log, c) && InFlight(c, id) && (IsBreak(reply) || AnsweredWith(log, id, reply))
    ensures ReceiptInv(log, Hears(c, id, reply))
  {
    assert forall d | 0 <= d < |c.receipts| :: c.receipts[d] in c.receipts;
  }

  lemma HearsKeepsInv(setup: Setup, s: State, s': State, id: nat, reply: Reply)
    requires Inv(setup, s) && InFlight(s.callers, id) && (IsBreak(reply) || AnsweredWith(s.log, id, reply))
    requires s' == s.(callers := Hears(s.callers, id, reply))
    ensures Inv(setup, s')
  {
    var c, c' := s.callers, s'.callers;
    HearsKeepsCalls(c, id, reply);
    HearsKeepsReceipts(s.log, c, id, reply);
    forall j | j in c'.jobs
      ensures JobInv(setup, s', j)
    {
      assert JobInv(setup, s, j);
      if c.flights[id].source.Delivery? && c.flights[id].source.id == j {
        assert OwnsFlight(c, id);
      } else {
        GrowthKeepsJob(setup, s, s', j);
      }
    }
  }

  /** A quiet step moves one delivery, which has sent nothing yet, and what was said to it. */
  ghost predicate OneJobMoves(c: Callers, c': Callers, j: nat) {
    && c' == c.(jobs := c'.jobs, tokens := c'.tokens, granted := c'.granted) && c.granted <= c'.granted
    && j in c'.jobs && c'.jobs == c.jobs[j := c'.jobs[j]]
    && (c'.tokens == c.tokens || (j in c'.tokens && c'.tokens == c.tokens[j := c'.tokens[j]]))
    && (j in c.jobs ==> c.jobs[j].stage.AtExtract? || c.jobs[j].stage.AtToken?)
  }

  lemma QuietStepMovesOne(setup: Setup, c: Callers, c': Callers, clock: int, j: nat)
    requires QuietStep(setup, c, c', clock, j)
    ensures OneJobMoves(c, c', j)
  {
    if answer :| TokenStage(c, c', clock, j, answer) {
      assert c'.tokens == c.tokens[j := answer];
    }
  }

  lemma QuietStepKeepsCalls(c: Callers, c': Callers, j: nat)
    requires CallsInv(c) && OneJobMoves(c, c', j)
    ensures CallsInv(c')
  {
    forall id | id in c'.flights && c'.flights[id].source.Delivery?
      ensures OwnsFlight(c', id)
    {
      assert OwnsFlight(c, id);
    }
  }

  lemma QuietStepKeepsJob(setup: Setup, s: State, s': State, j: nat)
    requires Inv(setup, s) && s' == s.(callers := s'.callers) && QuietStep(setup, s.callers, s'.callers, s.clock, j)
    ensures j in s'.callers.jobs && JobInv(setup, s', j)
  {
    assert j in s.callers.jobs ==> JobInv(setup, s, j);
    if answer :| TokenStage(s.callers, s'.callers, s.clock, j, answer) {
      if answer.Ok? {
        assert Grant(s.callers.jobs[j].bot.id, answer.value, s.clock) in s'.callers.granted;
      }
    }
  }

  lemma QuietStepKeepsFlights(setup: Setup, c: Callers, c': Callers, j: nat)
    requires FlightInv(setup, c) && OneJobMoves(c, c', j)
    ensures FlightInv(setup, c')
  {
    forall id | id in c'.flights
      ensures Authorized(setup, c', id)
    {
      assert Authorized(setup, c, id);
    }
  }

  lemma QuietStepKeepsInv(setup: Setup, s: State, s': State, j: nat)
    requires Inv(setup, s) && s' == s.(callers := s'.callers) && QuietStep(setup, s.callers, s'.callers, s.clock, j)
    ensures Inv(setup, s')
  {
    QuietStepMovesOne(setup, s.callers, s'.callers, s.clock, j);
    QuietStepKeepsCalls(s.callers, s'.callers, j);
    QuietStepKeepsFlights(setup, s.callers, s'.callers, j);
    QuietStepKeepsJob(setup, s, s', j);
    forall k | k in s'.callers.jobs && k != j
      ensures JobInv(setup, s', k)
    {
      GrowthKeepsJob(setup, s, s', k);
    }
  }

  lemma StepKeepsInv(setup: Setup, s: State, s': State)
    requires Inv(setup, s) && Step(setup, s, s')
    ensures Inv(setup, s')
  {
    if Tick(s, s') {
      TickKeepsInv(setup, s, s');
    } else if CallersStep(setup, s, s') {
      CallersStepKeepsInv(setup, s, s');
    } else if id: nat, now, stamp :| TakesEffect(s, s', id, now, stamp) {
      EffectKeepsInv(setup, s, s', id, now, stamp);
    } else if i: nat :| Answers(s, s', i) {
      HearsKeepsInv(setup, s, s', s.log[i].id, s.log[i].reply);
    } else {
      var id: nat, reply :| Breaks(s, s', id, reply);
      HearsKeepsInv(setup, s, s', id, reply);
    }
  }

  lemma CallersStepKeepsInv(setup: Setup, s: State, s': State)
    requires Inv(setup, s) && CallersStep(setup, s, s')
    ensures Inv(setup, s')
  {
    if id: nat :| SendStep(s.callers, s'.callers, s.clock, id) {
      SendKeepsInv(setup, s, s', id);
    } else {
      var j: nat :| QuietStep(setup, s.callers, s'.callers, s.clock, j);
      QuietStepKeepsInv(setup, s, s', j);
    }
  }

  lemma {:induction false} RunKeepsInv(setup: Setup, run: seq<State>, i: nat)
    requires IsRun(setup, run) && i < |run|
    ensures Inv(setup, run[i])
  {
    if i > 0 {
      RunKeepsInv(setup, run, i - 1);
      assert Step(setup, run[i - 1], run[i - 1 + 1]);
      StepKeepsInv(setup, run[i - 1], run[i]);
    }
  }

  // ---------------------------------------------------------------- what every run guarantees

  /** Provenance: a token a client received for a nonce was put there by the one completion of the
      registration it was fetched from, before that registration's deadline, and either by a PUT request
      that was authenticated or by the manager with a token the Bot API had granted, before the call was
      sent, for a bot whose username carries that nonce. */
  lemma ReceivedTokenIsAuthorized(setup: Setup, run: seq<State>, d: nat) returns (z: nat, x: nat, y: nat)
    requires IsRun(setup, run) && d < |Last(run).callers.receipts|
    ensures var log, c, r := Last(run).log, Last(run).callers, Last(run).callers.receipts[d];
            && y < |log| && log[y].id == r.flight && log[y].reply == Fetched(r.entry)
            && Registration(log, r.entry.nonce, z, y) && Completion(log, r.entry.nonce, z, x, y)
            && log[x].now <= Deadline(log[z]) && log[y].now <= Deadline(log[z])
            && r.entry.token == log[x].call.token && r.entry.botUsername == log[x].call.botUsername
            && IsFlown(c.flights, log[x]) && c.flights[log[x].id].source != Client
            && Authorized(setup, c, log[x].id)
            && (c.flights[log[x].id].source == Worker ==>
                  c.puts[log[x].id] == PutRequest(true, r.entry.nonce, r.entry.token, r.entry.botUsername))
  {
    RunKeepsInv(setup, run, |run| - 1);
    var s := Last(run);
    var r := s.callers.receipts[d];
    assert r in s.callers.receipts;
    y :| y < |s.log| && s.log[y].id == r.flight && s.log[y].reply == Fetched(r.entry);
    FetchedIsOwn(s.log, y);
    z, x := FetchedIsFirstWrite(s.log, y, r.entry.nonce);
    assert IsFlown(s.callers.flights, s.log[x]);
    assert Authorized(setup, s.callers, s.log[x].id);
  }

  /** One-time delivery: between the effects behind two receipts for one nonce lie a new registration and
      its completion, whatever was retried, duplicated, cancelled or lost. */
  lemma ReceivedAtMostOnce(setup: Setup, run: seq<State>, d: nat, d': nat) returns (a: nat, b: nat, z: nat, x: nat)
    requires IsRun(setup, run) && d < d' < |Last(run).callers.receipts|
    requires Last(run).callers.receipts[d].entry.nonce == Last(run).callers.receipts[d'].entry.nonce
    ensures var log, rs := Last(run).log, Last(run).callers.receipts;
            && a < z < x < b < |log| && {log[a].id, log[b].id} == {rs[d].flight, rs[d'].flight}
            && IsPut(log[z], rs[d].entry.nonce) && IsComplete(log[x], rs[d].entry.nonce)
  {
    RunKeepsInv(setup, run, |run| - 1);
    var log, rs := Last(run).log, Last(run).callers.receipts;
    a := EffectBehind(setup, Last(run), d);
    b := EffectBehind(setup, Last(run), d');
    if b < a {
      a, b := b, a;
    }
    z, x := FetchedAtMostOnce(log, a, b, rs[d].entry.nonce);
  }

  lemma EffectBehind(setup: Setup, s: State, d: nat) returns (y: nat)
    requires Inv(setup, s) && d < |s.callers.receipts|
    ensures var r := s.callers.receipts[d];
            y < |s.log| && s.log[y].id == r.flight && IsFetch(s.log[y], r.entry.nonce)
  {
    var r := s.callers.receipts[d];
    assert r in s.callers.receipts;
    y :| y < |s.log| && s.log[y].id == r.flight && s.log[y].reply == Fetched(r.entry);
    FetchedIsOwn(s.log, y);
  }

  /** However often updates are delivered and Completes retried, a registration becomes ready at most
      once. */
  lemma ReadyAtMostOnce(setup: Setup, run: seq<State>, n: string, a: nat, b: nat) returns (z: nat)
    requires IsRun(setup, run)
    requires a < b < |Last(run).log| && IsComplete(Last(run).log[a], n) && IsComplete(Last(run).log[b], n)
    ensures a < z < b && IsPut(Last(run).log[z], n)
  {
    RunKeepsInv(setup, run, |run| - 1);
    z := CompletedAtMostOnce(Last(run).log, a, b, n);
  }

  // ---------------------------------------------------------------- how deliveries end

  /** Call number `i` was sent by delivery `j`. */
  ghost predicate SentBy(s: State, j: nat, i: nat) {
    && i < |s.log| && s.log[i].id in s.callers.flights
    && s.callers.flights[s.log[i].id].source.Delivery? && s.callers.flights[s.log[i].id].source.id == j
  }

  /** Delivery `j` heard what its call, number `i`, answered. */
  ghost predicate Heard(s: State, j: nat, i: nat) {
    SentBy(s, j, i) && j in s.callers.heard && s.callers.heard[j] == s.log[i].reply
  }

  /** Call number `i` met a live registration of its nonce. */
  ghost predicate MetLive(s: State, i: nat)
    requires i < |s.log|
  {
    IsLive(After(s.log[..i]), s.log[i].call.nonce, s.log[i].now)
  }

  /** No delivery has more than one Complete take effect. */
  lemma OneCompletePerDelivery(setup: Setup, run: seq<State>, j: nat, i: nat, i': nat)
    requires IsRun(setup, run) && SentBy(Last(run), j, i) && SentBy(Last(run), j, i')
    ensures i == i'
  {
    RunKeepsInv(setup, run, |run| - 1);
  }

  /** What the Complete of a delivery did and answered: for the nonce its username carries, it found the
      registration live and left it ready, or found none and changed nothing. */
  lemma CompleteOfDelivery(setup: Setup, s: State, j: nat, i: nat)
    requires Inv(setup, s) && SentBy(s, j, i)
    ensures j in s.callers.jobs
    ensures var e, before, after := s.log[i], After(s.log[..i]), After(s.log[..i + 1]);
            && e.call.Complete?
            && Extract(setup.u, s.callers.jobs[j].bot.username, setup.prefix) == Some(e.call.nonce)
            && !IsBreak(e.reply)
            && (MetLive(s, i) ==>
                  && OutcomeOf(e.reply) == Success
                  && IsLive(after, e.call.nonce, e.now) && after[e.call.nonce].status == Ready
                  && (before[e.call.nonce].status == Ready ==> after == before))
            && (!MetLive(s, i) ==> OutcomeOf(e.reply) == FellBack(NotLive) && after == before)
  {
    var c, id := s.callers, s.log[i].id;
    assert IsFlown(c.flights, s.log[i]);
    assert OwnsFlight(c, id) && Authorized(setup, c, id);
    NextCall(s.log, i);
  }

  /** A delivery heard an error, or what its own Complete answered. */
  lemma HeardAnswerIsOwn(setup: Setup, s: State, j: nat) returns (i: nat)
    requires Inv(setup, s) && j in s.callers.jobs && j in s.callers.heard
    ensures IsBreak(s.callers.heard[j]) || Heard(s, j, i)
  {
    var c := s.callers;
    assert JobInv(setup, s, j);
    i := 0;
    if !IsBreak(c.heard[j]) {
      var id :| id in c.flights && c.flights[id].source == Delivery(j, c.jobs[j].bot) && AnsweredWith(s.log, id, c.heard[j]);
      i :| i < |s.log| && s.log[i].id == id && s.log[i].reply == c.heard[j];
    }
  }

  ghost predicate IsThrough(s: State, j: nat) {
    j in s.callers.jobs && s.callers.jobs[j].stage.Finished?
  }

  /** The fallback, exactly: a delivery that is through fell back if and only if its username carries no
      nonce, or it was told that the bot is deactivated, or it heard from its Complete, which met no live
      registration. */
  lemma FallbackIsExact(setup: Setup, run: seq<State>, j: nat)
    requires IsRun(setup, run) && IsThrough(Last(run), j)
    ensures var s, job := Last(run), Last(run).callers.jobs[j];
            job.stage.outcome.FellBack? <==>
              || Extract(setup.u, job.bot.username, setup.prefix).None?
              || WasDeactivated(s.callers, j)
              || exists i: nat :: Heard(s, j, i) && !MetLive(s, i)
  {
    RunKeepsInv(setup, run, |run| - 1);
    EndIsExact(setup, Last(run), j);
  }

  /** Success, exactly: a delivery that is through succeeded if and only if it heard from its Complete,
      which met a live registration of the nonce in its username. */
  lemma SuccessIsExact(setup: Setup, run: seq<State>, j: nat)
    requires IsRun(setup, run) && IsThrough(Last(run), j)
    ensures var s := Last(run);
            s.callers.jobs[j].stage.outcome == Success <==> exists i: nat :: Heard(s, j, i) && MetLive(s, i)
  {
    RunKeepsInv(setup, run, |run| - 1);
    EndIsExact(setup, Last(run), j);
  }

  lemma EndIsExact(setup: Setup, s: State, j: nat)
    requires Inv(setup, s) && IsThrough(s, j)
    ensures var job := s.callers.jobs[j];
            job.stage.outcome.FellBack? <==>
              || Extract(setup.u, job.bot.username, setup.prefix).None?
              || WasDeactivated(s.callers, j)
              || exists i: nat :: Heard(s, j, i) && !MetLive(s, i)
    ensures s.callers.jobs[j].stage.outcome == Success <==> exists i: nat :: Heard(s, j, i) && MetLive(s, i)
  {
    assert JobInv(setup, s, j);
    forall i: nat | Heard(s, j, i)
      ensures OutcomeOf(s.callers.heard[j]) == if MetLive(s, i) then Success else FellBack(NotLive)
    {
      CompleteOfDelivery(setup, s, j, i);
    }
    if j in s.callers.heard {
      var i := HeardAnswerIsOwn(setup, s, j);
    }
  }

  /** Repeating an update, exactly. After one delivery succeeded, a later one for the same bot that does
      not end in an error falls back if and only if it was told that the bot is deactivated, or the
      nonce's last registration was consumed or has run out by its Complete. Unless somebody registered
      the nonce again in between, that is the registration the first delivery found live. */
  lemma RepetitionIsExact(setup: Setup, run: seq<State>, first: nat, again: nat, i: nat) returns (z: nat)
    requires IsRun(setup, run) && Heard(Last(run), first, i) && MetLive(Last(run), i)
    requires IsThrough(Last(run), again) && Last(run).callers.jobs[again].stage.outcome != Retry
    requires first in Last(run).callers.jobs
    requires Last(run).callers.jobs[again].bot.username == Last(run).callers.jobs[first].bot.username
    requires forall k: nat | Heard(Last(run), again, k) :: i < k
    ensures var s, n := Last(run), Last(run).log[i].call.nonce;
            && z < |s.log| && IsPut(s.log[z], n)
            && (forall k: nat | Heard(s, again, k) :: Latest(s.log, n, z, k))
            && (z < i ==> Registration(s.log, n, z, i) && s.log[i].now <= Deadline(s.log[z]))
            && (s.callers.jobs[again].stage.outcome.FellBack? <==>
                  || WasDeactivated(s.callers, again)
                  || exists k: nat :: Heard(s, again, k) && Latest(s.log, n, z, k)
                                      && IsOver(s.log, n, z, k, s.log[k].now))
  {
    RunKeepsInv(setup, run, |run| - 1);
    var s, n := Last(run), Last(run).log[i].call.nonce;
    EndIsExact(setup, s, again);
    CompleteOfDelivery(setup, s, first, i);
    z := FoundRegistration(s.log, n, i);
    if k: nat :| Heard(s, again, k) {
      z := LatestBefore(s.log, n, z, k);
      LiveUnlessOver(s.log, n, z, k, s.log[k].now);
      CompleteOfDelivery(setup, s, again, k);
      if z < i {
        LiveUnlessOver(s.log, n, z, i, s.log[i].now);
      }
      forall k': nat | Heard(s, again, k')
        ensures k' == k
      {
        OneCompletePerDelivery(setup, run, again, k, k');
      }
    }
  }

  /** A live nonce goes back to its last registration. */
  lemma FoundRegistration(log: seq<Effect>, n: string, i: nat) returns (z: nat)
    requires Legal(log) && i < |log| && IsLive(After(log[..i]), n, log[i].now)
    ensures Registration(log, n, z, i) && log[i].now <= Deadline(log[z])
  {
    LegalPrefix(log, i);
    var x;
    z, x := SlotOrigin(log[..i], n);
    assert forall y | 0 <= y < i :: log[..i][y] == log[y];
  }

  // ---------------------------------------------------------------- a repetition that falls back on a live registration

  lemma Extend(setup: Setup, run: seq<State>, next: State) returns (longer: seq<State>)
    requires IsRun(setup, run) && Step(setup, Last(run), next)
    ensures IsRun(setup, longer) && Last(longer) == next
  {
    longer := run + [next];
    forall i | 0 <= i < |longer| - 1
      ensures Step(setup, longer[i], longer[i + 1])
    {
      if i < |run| - 1 {
        assert Step(setup, run[i], run[i + 1]);
      } else {
        assert run[i] == Last(run);
      }
    }
  }

  /** A delivery that has extracted its nonce and was answered about its token. */
  function Started(c: Callers, clock: int, j: nat, bot: User, n: string, answer: Result<string, GoError>): Callers {
    c.(jobs := c.jobs[j := Job(bot, AfterToken(n, answer))],
       tokens := c.tokens[j := answer],
       granted := c.granted + if answer.Ok? then {Grant(bot.id, answer.value, clock)} else {})
  }

  /** The steps that lead there. */
  lemma StartingSteps(setup: Setup, c: Callers, clock: int, j: nat, bot: User, n: string, answer: Result<string, GoError>)
      returns (c1: Callers, c2: Callers)
    requires j !in c.jobs && Extract(setup.u, bot.username, setup.prefix) == Some(n)
    ensures QuietStep(setup, c, c1, clock, j) && QuietStep(setup, c1, c2, clock, j)
    ensures QuietStep(setup, c2, Started(c, clock, j, bot, n, answer), clock, j)
  {
    c1 := c.(jobs := c.jobs[j := Job(bot, AtExtract)]);
    assert DeliverUpdate(c, c1, j, bot);
    c2 := Advance(c1, j, AtToken(n));
    var c3 := Started(c, clock, j, bot, n, answer);
    assert c3.jobs == c2.jobs[j := Job(bot, AfterToken(n, answer))];
    assert TokenStage(c2, c3, clock, j, answer);
  }

  lemma StartDelivery(setup: Setup, run: seq<State>, j: nat, bot: User, n: string, answer: Result<string, GoError>)
      returns (longer: seq<State>)
    requires IsRun(setup, run) && j !in Last(run).callers.jobs
    requires Extract(setup.u, bot.username, setup.prefix) == Some(n)
    ensures IsRun(setup, longer)
    ensures var s := Last(run); Last(longer) == s.(callers := Started(s.callers, s.clock, j, bot, n, answer))
  {
    var s := Last(run);
    var c1, c2 := StartingSteps(setup, s.callers, s.clock, j, bot, n, answer);
    longer := Extend(setup, run, s.(callers := c1));
    longer := Extend(setup, longer, s.(callers := c2));
    longer := Extend(setup, longer, s.(callers := Started(s.callers, s.clock, j, bot, n, answer)));
  }

  /** A sent call takes effect at once. */
  lemma TakeEffect(setup: Setup, run: seq<State>, id: nat) returns (longer: seq<State>)
    requires IsRun(setup, run)
    requires var s := Last(run);
             && id in s.callers.flights && s.callers.flights[id].at == s.clock && Absent(s.log, id)
             && (s.log != [] ==> Last(s.log).now <= s.clock)
    ensures IsRun(setup, longer)
    ensures var s, call := Last(run), Last(run).callers.flights[id].call;
            var reply := Apply(After(s.log), call, s.clock, s.clock).1;
            Last(longer) == s.(log := s.log + [Effect(id, call, s.clock, s.clock, reply)])
  {
    var s, call := Last(run), Last(run).callers.flights[id].call;
    var next := s.(log := s.log + [Effect(id, call, s.clock, s.clock, Apply(After(s.log), call, s.clock, s.clock).1)]);
    assert TakesEffect(s, next, id, s.clock, s.clock);
    longer := Extend(setup, run, next);
  }

  /** A nonce is registered at `t`, and nothing else has happened. */
  lemma RegisterOnly(setup: Setup, n: string, ttl: int, t: int) returns (run: seq<State>)
    requires IsNonce(n)
    ensures IsRun(setup, run)
    ensures Last(run) == State(t, [Effect(0, Put(n, ttl), t, t, Done)],
                               NOBODY.(flights := map[0 := Flight(Client, Put(n, ttl), t)]))
  {
    var s := State(t, [], NOBODY);
    var c := NOBODY.(flights := map[0 := Flight(Client, Put(n, ttl), t)]);
    assert Post(NOBODY, c, t, 0, n, ttl);
    assert SendStep(NOBODY, c, t, 0);
    run := Extend(setup, [s], s.(callers := c));
    run := TakeEffect(setup, run, 0);
  }

  /** Delivery 0 completes that registration and hears so. */
  lemma FirstDeliverySucceeds(setup: Setup, bot: User, n: string, token: string, ttl: int, t: int)
      returns (run: seq<State>)
    requires Extract(setup.u, bot.username, setup.prefix) == Some(n) && IsNonce(n) && ttl >= 0
    ensures IsRun(setup, run)
    ensures var s := Last(run);
            && s.clock == t && s.callers.jobs == map[0 := Job(bot, Finished(Success))]
            && s.log == [Effect(0, Put(n, ttl), t, t, Done), Effect(1, Complete(n, token, bot.username), t, t, Done)]
  {
    run := RegisterOnly(setup, n, ttl, t);
    run := StartDelivery(setup, run, 0, bot, n, Ok(token));
    var s := Last(run);
    var call := Complete(n, token, bot.username);
    var c := Advance(s.callers, 0, AtAnswer(1)).(flights := s.callers.flights[1 := Flight(Delivery(0, bot), call, t)]);
    assert CompleteStage(s.callers, c, t, 1, 0);
    assert SendStep(s.callers, c, t, 1);
    run := Extend(setup, run, s.(callers := c));
    assert Init(s.log) == [];
    run := TakeEffect(setup, run, 1);
    s := Last(run);
    assert Answers(s, s.(callers := Hears(s.callers, 1, Done)), 1);
    run := Extend(setup, run, s.(callers := Hears(s.callers, 1, Done)));
  }

  /** The bot is deleted after the first delivery succeeded: repeating the update falls back although the
      registration is live and ready, and the client still finds its token. */
  lemma DeletedBotFallsBack(setup: Setup, bot: User, n: string, token: string, e: GoError, ttl: int, t: int)
      returns (run: seq<State>)
    requires Extract(setup.u, bot.username, setup.prefix) == Some(n) && IsNonce(n) && ttl >= 0
    requires IsBotDeactivated(e)
    ensures IsRun(setup, run)
    ensures var s, m := Last(run), After(Last(run).log);
            && s.callers.jobs == map[0 := Job(bot, Finished(Success)), 1 := Job(bot, Finished(FellBack(Deactivated)))]
            && IsLive(m, n, s.clock) && m[n].status == Ready && m[n].token == token
  {
    run := FirstDeliverySucceeds(setup, bot, n, token, ttl, t);
    var log := Last(run).log;
    assert Init(log) == [log[0]] && Init([log[0]]) == [];
    assert After([log[0]]) == map[n := NewSlot(t + ttl)];
    assert After(log)[n] == Slot(Ready, token, bot.username, t + ttl, t);
    run := StartDelivery(setup, run, 1, bot, n, Err(e));
  }
}
