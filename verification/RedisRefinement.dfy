/** The Redis store, run against the scripts, gives its callers the answers of the in-process one. */
module RedisRefinement {
  import opened Wrappers
  import opened Pairing
  import opened History
  import opened Decimal
  import opened RedisServer
  import opened RedisStore

  /** A call: `now` is the clock that decides liveness, in milliseconds, and `unix` the caller's own, in
      seconds, which a Complete sends along. Just before the call the server may get rid of any expired
      keys it likes. */
  datatype Request = Request(call: Call, now: int, unix: int, reaped: set<string>)

  function Reap(ks: Keyspace, reaped: set<string>, now: int): Keyspace {
    map k | k in ks && !(k in reaped && IsDead(ks[k], now)) :: ks[k]
  }

  function Unix(now: int): int {
    now / 1000
  }

  function RedisStep(ks: Keyspace, prefix: string, r: Request): (Keyspace, Reply) {
    StoreEffect(Reap(ks, r.reaped, r.now), prefix, r.call, r.now, r.unix)
  }

  function RedisAfter(prefix: string, rs: seq<Request>): Keyspace {
    if rs == [] then map[] else RedisStep(RedisAfter(prefix, Init(rs)), prefix, Last(rs)).0
  }

  /** What the callers of the Redis store are told. */
  function RedisReplies(prefix: string, rs: seq<Request>): (replies: seq<Reply>)
    ensures |replies| == |rs|
  {
    if rs == [] then []
    else RedisReplies(prefix, Init(rs)) + [RedisStep(RedisAfter(prefix, Init(rs)), prefix, Last(rs)).1]
  }

  /** The in-process store given the same requests: sweep, then the call (see MemoryStore). */
  function MemoryEffect(m: TtlMap, r: Request, id: nat): Effect {
    var t := r.now * NANOS_PER_MILLI;
    Effect(id, r.call, t, t, Apply(Live(m, t), r.call, t, t).1)
  }

  function MemoryHistory(rs: seq<Request>): (lin: seq<Effect>)
    ensures |lin| == |rs|
  {
    if rs == [] then []
    else
      var before := MemoryHistory(Init(rs));
      before + [MemoryEffect(SweptAfter(before), Last(rs), |rs| - 1)]
  }

  /** Redis remembers the completion instant only to the second. */
  function Rounded(reply: Reply): Reply {
    match reply
    case Fetched(e) => Fetched(e.(completedAt := e.completedAt / NANOS_PER_SECOND * NANOS_PER_SECOND))
    case _ => reply
  }

  /** Lifetimes for which the two stores agree: everything but a lifetime under one millisecond
      that is not negative. */
  predicate GoodTtl(ttl: int) {
    IsInt64(ttl) && !(0 <= ttl < NANOS_PER_MILLI)
  }

  /** Both readings come from one clock. */
  predicate GoodRequest(r: Request) {
    r.unix == Unix(r.now) && IsInt64(r.unix) && (r.call.Put? ==> GoodTtl(r.call.ttl))
  }

  /** One clock, read in order. */
  ghost predicate InOrder(rs: seq<Request>) {
    forall i, j | 0 <= i < j < |rs| :: rs[i].now <= rs[j].now
  }

  ghost predicate GoodRequests(rs: seq<Request>) {
    InOrder(rs) && forall i | 0 <= i < |rs| :: GoodRequest(rs[i])
  }

  // ---------------------------------------------------------------- the shape of the hashes

  /** A waiting hash has no token fields; a ready one has all three, and its completion instant is
      a printed 64-bit integer. Both have a deadline. */
  ghost predicate WellShaped(h: Hash) {
    && h.deadline.Some?
    && (h.fields == WAITING_FIELDS || IsReadyHash(h))
  }

  ghost predicate IsReadyHash(h: Hash) {
    exists token, user, unix :: IsInt64(unix) && h.fields == ReadyFields(token, user, FormatInt(unix))
  }

  ghost predicate AllWellShaped(ks: Keyspace) {
    forall k | k in ks :: WellShaped(ks[k])
  }

  lemma MillisecondsFit(ttl: int)
    requires IsInt64(ttl)
    ensures IsInt64(Milliseconds(ttl))
  {
  }

  lemma ReadyFetchDecodes(h: Hash, nonce: string)
    requires IsReadyHash(h)
    ensures DecodeFetch(nonce, Array([AsBulk(Field(Some(h), "token")), AsBulk(Field(Some(h), "bot_username")),
                                      AsBulk(Field(Some(h), "completed_at"))])).Fetched?
  {
    var token, user, unix :| IsInt64(unix) && h.fields == ReadyFields(token, user, FormatInt(unix));
    ParseUndoesFormat(unix);
  }

  predicate IsBackendError(reply: Reply) {
    reply.Failed? && reply.error.ErrBackend?
  }

  /** On hashes the scripts wrote, no reply is ever undecodable, and the scripts keep it so. */
  lemma ScriptsKeepShape(ks: Keyspace, prefix: string, r: Request)
    requires AllWellShaped(ks) && IsInt64(r.unix) && (r.call.Put? ==> IsInt64(r.call.ttl))
    ensures AllWellShaped(RedisStep(ks, prefix, r).0)
    ensures !IsBackendError(RedisStep(ks, prefix, r).1)
  {
    var key := prefix + r.call.nonce;
    var live := Reap(ks, r.reaped, r.now);
    match r.call
    case Put(_, ttl) =>
      MillisecondsFit(ttl);
      ParseUndoesFormat(Milliseconds(ttl));
    case Complete(_, token, user) =>
      var h := Seen(live, key, r.now);
      if h.Some? && Field(h, "status") == Some("waiting") {
        WaitingIsWaiting(h.value);
        assert WAITING_FIELDS + ReadyFields(token, user, FormatInt(r.unix)) == ReadyFields(token, user, FormatInt(r.unix));
      }
    case FetchAndDelete(n) =>
      var h := Seen(live, key, r.now);
      if h.Some? && Field(h, "status") == Some("ready") {
        assert IsReadyHash(h.value);
        ReadyFetchDecodes(h.value, n);
      }
  }

  lemma WaitingIsWaiting(h: Hash)
    requires WellShaped(h) && Field(Some(h), "status") == Some("waiting")
    ensures h.fields == WAITING_FIELDS
  {
  }

  /** In every reachable state the hashes are well-shaped, and the unexpected-result,
      unexpected-shape and parse-error branches are dead. */
  lemma {:induction false} DecodingNeverFails(prefix: string, rs: seq<Request>)
    requires forall i | 0 <= i < |rs| ::
               IsInt64(rs[i].unix) && (rs[i].call.Put? ==> IsInt64(rs[i].call.ttl))
    ensures AllWellShaped(RedisAfter(prefix, rs))
    ensures forall i | 0 <= i < |rs| :: !IsBackendError(RedisReplies(prefix, rs)[i])
  {
    if rs != [] {
      DecodingNeverFails(prefix, Init(rs));
      ScriptsKeepShape(RedisAfter(prefix, Init(rs)), prefix, Last(rs));
    }
  }

  // ---------------------------------------------------------------- refinement

  /** One hash stands for one entry. */
  ghost predicate Stands(h: Hash, s: Slot) {
    && h.deadline == Some(s.expiresAt / NANOS_PER_MILLI)
    && (if s.status == Waiting then h.fields == WAITING_FIELDS
        else
          && IsInt64(s.completedAt / NANOS_PER_SECOND)
          && h.fields == ReadyFields(s.token, s.botUsername, FormatInt(s.completedAt / NANOS_PER_SECOND)))
  }

  ghost predicate Related(ks: Keyspace, m: TtlMap, prefix: string, n: string, now: int) {
    var h := Seen(ks, prefix + n, now);
    && (h.Some? <==> IsLive(m, n, now * NANOS_PER_MILLI))
    && (h.Some? ==> Stands(h.value, m[n]))
  }

  /** The two stores hold the same live registrations at `now`. */
  ghost predicate Refines(ks: Keyspace, m: TtlMap, prefix: string, now: int) {
    forall n :: Related(ks, m, prefix, n, now)
  }

  lemma DeadlineOnTheClock(expiresAt: int, now: int)
    ensures now * NANOS_PER_MILLI > expiresAt <==> now > expiresAt / NANOS_PER_MILLI
  {
  }

  lemma RelatedLater(ks: Keyspace, m: TtlMap, prefix: string, n: string, now: int, later: int)
    requires Related(ks, m, prefix, n, now) && now <= later
    ensures Related(ks, m, prefix, n, later)
  {
  }

  /** Reaping on one side and sweeping on the other hide nothing that is live. */
  lemma RelatedAfterCleaning(ks: Keyspace, m: TtlMap, prefix: string, n: string, r: Request)
    requires Related(ks, m, prefix, n, r.now)
    ensures Related(Reap(ks, r.reaped, r.now), Live(m, r.now * NANOS_PER_MILLI), prefix, n, r.now)
  {
  }

  lemma KeysOfOnePrefixDiffer(prefix: string, n: string, n': string)
    ensures prefix + n == prefix + n' <==> n == n'
  {
    if prefix + n == prefix + n' {
      assert (prefix + n)[|prefix|..] == n;
      assert (prefix + n')[|prefix|..] == n';
    }
  }

  lemma OtherNoncesStayRelated(ks: Keyspace, m: TtlMap, prefix: string, n: string, r: Request)
    requires Related(ks, m, prefix, n, r.now) && n != r.call.nonce
    ensures var t := r.now * NANOS_PER_MILLI;
            Related(StoreEffect(ks, prefix, r.call, r.now, r.unix).0, Apply(m, r.call, t, t).0, prefix, n, r.now)
  {
    KeysOfOnePrefixDiffer(prefix, n, r.call.nonce);
    ApplyFrame(m, r.call, r.now * NANOS_PER_MILLI, r.now * NANOS_PER_MILLI, n);
  }

  lemma PutAgrees(ks: Keyspace, m: TtlMap, prefix: string, r: Request)
    requires r.call.Put? && GoodRequest(r) && Related(ks, m, prefix, r.call.nonce, r.now)
    ensures Agrees(ks, m, prefix, r)
  {
    var ttl, t := r.call.ttl, r.now * NANOS_PER_MILLI;
    MillisecondsFit(ttl);
    ParseUndoesFormat(Milliseconds(ttl));
    DeadlineOnTheClock(t + ttl, r.now);
    if ttl >= NANOS_PER_MILLI {
      assert (t + ttl) / NANOS_PER_MILLI == r.now + ttl / NANOS_PER_MILLI;
    }
  }

  /** The call's own nonce: same answer up to rounding, and related again afterwards. */
  ghost predicate Agrees(ks: Keyspace, m: TtlMap, prefix: string, r: Request) {
    var t := r.now * NANOS_PER_MILLI;
    var (ks', reply) := StoreEffect(ks, prefix, r.call, r.now, r.unix);
    var (m', reply') := Apply(m, r.call, t, t);
    reply == Rounded(reply') && Related(ks', m', prefix, r.call.nonce, r.now)
  }

  lemma SecondOfMilli(now: int)
    ensures now * NANOS_PER_MILLI / NANOS_PER_SECOND == Unix(now)
  {
  }

  lemma CompleteAgrees(ks: Keyspace, m: TtlMap, prefix: string, r: Request)
    requires r.call.Complete? && GoodRequest(r) && Related(ks, m, prefix, r.call.nonce, r.now)
    ensures Agrees(ks, m, prefix, r)
  {
    SecondOfMilli(r.now);
    var ready := ReadyFields(r.call.token, r.call.botUsername, FormatInt(r.unix));
    assert WAITING_FIELDS + ready == ready;
  }

  lemma FetchAgrees(ks: Keyspace, m: TtlMap, prefix: string, r: Request)
    requires r.call.FetchAndDelete? && GoodRequest(r) && Related(ks, m, prefix, r.call.nonce, r.now)
    ensures Agrees(ks, m, prefix, r)
  {
    var n := r.call.nonce;
    if Seen(ks, prefix + n, r.now).Some? && m[n].status == Ready {
      ParseUndoesFormat(m[n].completedAt / NANOS_PER_SECOND);
    }
  }

  lemma StepRefines(ks: Keyspace, m: TtlMap, prefix: string, r: Request, from: int)
    requires Refines(ks, m, prefix, from) && from <= r.now && GoodRequest(r)
    ensures var t := r.now * NANOS_PER_MILLI;
            && RedisStep(ks, prefix, r).1 == Rounded(Apply(Live(m, t), r.call, t, t).1)
            && Refines(RedisStep(ks, prefix, r).0, Apply(Live(m, t), r.call, t, t).0, prefix, r.now)
  {
    var t := r.now * NANOS_PER_MILLI;
    var ks1, m1 := Reap(ks, r.reaped, r.now), Live(m, t);
    forall n
      ensures Related(ks1, m1, prefix, n, r.now)
    {
      RelatedLater(ks, m, prefix, n, from, r.now);
      RelatedAfterCleaning(ks, m, prefix, n, r);
    }
    assert Agrees(ks1, m1, prefix, r) by {
      match r.call
      case Put(_, _) => PutAgrees(ks1, m1, prefix, r);
      case Complete(_, _, _) => CompleteAgrees(ks1, m1, prefix, r);
      case FetchAndDelete(_) => FetchAgrees(ks1, m1, prefix, r);
    }
    forall n | n != r.call.nonce
      ensures Related(RedisStep(ks, prefix, r).0, Apply(m1, r.call, t, t).0, prefix, n, r.now)
    {
      OtherNoncesStayRelated(ks1, m1, prefix, n, r);
    }
  }

  /** The same answers up to rounding. */
  ghost predicate AnswersAgree(replies: seq<Reply>, lin: seq<Effect>) {
    |replies| == |lin| && forall i | 0 <= i < |lin| :: replies[i] == Rounded(lin[i].reply)
  }

  lemma {:induction false} RunRefines(prefix: string, rs: seq<Request>)
    requires GoodRequests(rs)
    ensures AnswersAgree(RedisReplies(prefix, rs), MemoryHistory(rs))
    ensures rs != [] ==> Refines(RedisAfter(prefix, rs), SweptAfter(MemoryHistory(rs)), prefix, Last(rs).now)
  {
    if rs != [] {
      var init, r := Init(rs), Last(rs);
      FewerRequests(rs);
      RunRefines(prefix, init);
      var from := if init == [] then r.now else Last(init).now;
      StepRefines(RedisAfter(prefix, init), SweptAfter(MemoryHistory(init)), prefix, r, from);
      OneMoreRequest(prefix, rs);
    }
  }

  lemma FewerRequests(rs: seq<Request>)
    requires GoodRequests(rs) && rs != []
    ensures GoodRequests(Init(rs)) && GoodRequest(Last(rs))
    ensures Init(rs) != [] ==> Last(Init(rs)).now <= Last(rs).now
  {
  }

  /** What one more request adds on either side. */
  lemma OneMoreRequest(prefix: string, rs: seq<Request>)
    requires rs != []
    ensures var init, r, lin := Init(rs), Last(rs), MemoryHistory(rs);
            && RedisReplies(prefix, rs)
               == RedisReplies(prefix, init) + [RedisStep(RedisAfter(prefix, init), prefix, r).1]
            && RedisAfter(prefix, rs) == RedisStep(RedisAfter(prefix, init), prefix, r).0
            && lin == MemoryHistory(init) + [MemoryEffect(SweptAfter(MemoryHistory(init)), r, |init|)]
            && var t := r.now * NANOS_PER_MILLI;
               SweptAfter(lin) == Apply(Live(SweptAfter(MemoryHistory(init)), t), r.call, t, t).0
  {
    assert Init(MemoryHistory(rs)) == MemoryHistory(Init(rs));
  }

  /** Any sequence of calls gets from the scripts and their decoding the answers of the in-process
      store, except that the completion instant is rounded down to the second. */
  lemma {:induction false} RedisRefinesMemory(prefix: string, rs: seq<Request>)
    requires GoodRequests(rs)
    ensures AnswersAgree(RedisReplies(prefix, rs), MemoryHistory(rs))
  {
    RunRefines(prefix, rs);
  }

  /** What the in-process store answers to requests in clock order is a sequential history, so
      everything module Ledger says of those holds of the Redis store, lost replies or not. */
  lemma {:induction false} MemoryHistoryIsLegal(rs: seq<Request>)
    requires InOrder(rs)
    ensures forall i | 0 <= i < |rs| ::
              MemoryHistory(rs)[i].call == rs[i].call && MemoryHistory(rs)[i].now == rs[i].now * NANOS_PER_MILLI
    ensures Legal(MemoryHistory(rs))
  {
    if rs != [] {
      var init := Init(rs);
      MemoryHistoryIsLegal(init);
      var before := MemoryHistory(init);
      var e := MemoryEffect(SweptAfter(before), Last(rs), |rs| - 1);
      LegalIsMonotone(before);
      SweptAnswer(before, e.call, e.now, e.stamp);
      LegalExtend(before, e);
    }
  }

  // ---------------------------------------------------------------- an unreliable connection

  datatype Sent = Sent(request: Request, wire: Wire)

  /** The requests the server executed, whether or not anybody heard of it. */
  function Executed(ws: seq<Sent>): seq<Request> {
    if ws == [] then []
    else Executed(Init(ws)) + if Last(ws).wire == RequestLost then [] else [Last(ws).request]
  }

  function SentStep(ks: Keyspace, prefix: string, w: Sent): (Keyspace, Reply) {
    var r := w.request;
    WireEffect(Reap(ks, r.reaped, r.now), prefix, r.call, r.now, r.unix, w.wire)
  }

  function SentAfter(prefix: string, ws: seq<Sent>): Keyspace {
    if ws == [] then map[] else SentStep(SentAfter(prefix, Init(ws)), prefix, Last(ws)).0
  }

  /** The same keyspace up to dead keys, from `now` on. */
  ghost predicate SameSeen(a: Keyspace, b: Keyspace, now: int) {
    forall key :: Seen(a, key, now) == Seen(b, key, now)
  }

  lemma StepSeesTheSame(a: Keyspace, b: Keyspace, prefix: string, r: Request, from: int)
    requires SameSeen(a, b, from) && from <= r.now
    ensures RedisStep(a, prefix, r).1 == RedisStep(b, prefix, r).1
    ensures SameSeen(RedisStep(a, prefix, r).0, RedisStep(b, prefix, r).0, r.now)
  {
    var a1, b1 := Reap(a, r.reaped, r.now), Reap(b, r.reaped, r.now);
    forall key
      ensures Seen(a1, key, r.now) == Seen(b1, key, r.now)
    {
      assert Seen(a, key, from) == Seen(b, key, from);
    }
    EffectSeesTheSame(a1, b1, prefix, r);
  }

  lemma EffectSeesTheSame(a: Keyspace, b: Keyspace, prefix: string, r: Request)
    requires SameSeen(a, b, r.now)
    ensures var (a', reply) := StoreEffect(a, prefix, r.call, r.now, r.unix);
            var (b', reply') := StoreEffect(b, prefix, r.call, r.now, r.unix);
            reply == reply' && SameSeen(a', b', r.now)
  {
    var own := prefix + r.call.nonce;
    assert Seen(a, own, r.now) == Seen(b, own, r.now);
    var a', b' := StoreEffect(a, prefix, r.call, r.now, r.unix).0, StoreEffect(b, prefix, r.call, r.now, r.unix).0;
    forall key
      ensures Seen(a', key, r.now) == Seen(b', key, r.now)
    {
      assert Seen(a, key, r.now) == Seen(b, key, r.now);
    }
  }

  /** Lost requests are as if never sent and lost replies as if sent: the server is where the
      executed requests lead, and whoever does get a reply gets the one they lead to. */
  lemma {:induction false} LossesHideNothing(prefix: string, ws: seq<Sent>)
    requires forall i, j | 0 <= i < j < |ws| :: ws[i].request.now <= ws[j].request.now
    ensures ws == [] ==> Executed(ws) == []
    ensures ws != [] ==> SameSeen(SentAfter(prefix, ws), RedisAfter(prefix, Executed(ws)), Last(ws).request.now)
    ensures ws != [] && Last(ws).wire == Delivered ==>
              SentStep(SentAfter(prefix, Init(ws)), prefix, Last(ws)).1 == Last(RedisReplies(prefix, Executed(ws)))
  {
    if ws != [] {
      var init, w := Init(ws), Last(ws);
      LossesHideNothing(prefix, init);
      var from := if init == [] then w.request.now else Last(init).request.now;
      var a, b := SentAfter(prefix, init), RedisAfter(prefix, Executed(init));
      assert SameSeen(a, b, from);
      SentSeesTheSame(a, b, prefix, w, from);
      ExecutedLast(ws);
    }
  }

  /** A caller that lost the server is told so, and nothing else. */
  lemma LostMeansError(ks: Keyspace, prefix: string, w: Sent)
    requires w.wire != Delivered
    ensures IsBackendError(SentStep(ks, prefix, w).1)
  {
  }

  /** Whoever is told that a call was carried out, is given an entry or is told one of the store's own
      errors, made a call that the server executed, and is told what the executed requests lead to. */
  lemma ToldMeansExecuted(prefix: string, ws: seq<Sent>, i: nat)
    requires forall j, k | 0 <= j < k < |ws| :: ws[j].request.now <= ws[k].request.now
    requires i < |ws| && !IsBackendError(SentStep(SentAfter(prefix, ws[..i]), prefix, ws[i]).1)
    ensures ws[i].wire == Delivered
    ensures var done := Executed(ws[..i + 1]);
            && done != [] && Last(done) == ws[i].request
            && SentStep(SentAfter(prefix, ws[..i]), prefix, ws[i]).1 == Last(RedisReplies(prefix, done))
  {
    var upTo := ws[..i + 1];
    assert Init(upTo) == ws[..i] && Last(upTo) == ws[i];
    if ws[i].wire != Delivered {
      LostMeansError(SentAfter(prefix, ws[..i]), prefix, ws[i]);
    }
    LossesHideNothing(prefix, upTo);
    ExecutedLast(upTo);
  }

  lemma ExecutedLast(ws: seq<Sent>)
    requires ws != []
    ensures Last(ws).wire == RequestLost ==> Executed(ws) == Executed(Init(ws))
    ensures Last(ws).wire != RequestLost ==>
              Executed(ws) != [] && Init(Executed(ws)) == Executed(Init(ws)) && Last(Executed(ws)) == Last(ws).request
  {
  }

  lemma SentSeesTheSame(a: Keyspace, b: Keyspace, prefix: string, w: Sent, from: int)
    requires SameSeen(a, b, from) && from <= w.request.now
    ensures w.wire == RequestLost ==> SameSeen(SentStep(a, prefix, w).0, b, w.request.now)
    ensures w.wire != RequestLost ==>
              SameSeen(SentStep(a, prefix, w).0, RedisStep(b, prefix, w.request).0, w.request.now)
    ensures w.wire == Delivered ==> SentStep(a, prefix, w).1 == RedisStep(b, prefix, w.request).1
  {
    StepSeesTheSame(a, b, prefix, w.request, from);
    ReapedLooksTheSame(a, b, w.request, from);
  }

  lemma ReapedLooksTheSame(a: Keyspace, b: Keyspace, r: Request, from: int)
    requires SameSeen(a, b, from) && from <= r.now
    ensures SameSeen(Reap(a, r.reaped, r.now), b, r.now)
  {
    forall key
      ensures Seen(Reap(a, r.reaped, r.now), key, r.now) == Seen(b, key, r.now)
    {
      assert Seen(a, key, from) == Seen(b, key, from);
    }
  }

  // ---------------------------------------------------------------- where the two stores differ

  /** The restriction on lifetimes is exact: poll at the very millisecond of a registration, and
      the two stores answer alike if and only if its lifetime is a good one. */
  lemma ShortTtlIsTheOnlyDifference(prefix: string, n: string, ttl: int, now: int)
    requires IsInt64(ttl) && IsInt64(Unix(now))
    ensures var rs := [Request(Put(n, ttl), now, Unix(now), {}), Request(FetchAndDelete(n), now, Unix(now), {})];
            RedisReplies(prefix, rs)[1] == Rounded(MemoryHistory(rs)[1].reply) <==> GoodTtl(ttl)
  {
    var put, poll := Request(Put(n, ttl), now, Unix(now), {}), Request(FetchAndDelete(n), now, Unix(now), {});
    var rs := [put, poll];
    if GoodTtl(ttl) {
      RedisRefinesMemory(prefix, rs);
    } else {
      assert Init(rs) == [put] && Init([put]) == [];
      OneMoreRequest(prefix, [put]);
      OneMoreRequest(prefix, rs);
      ShortTtlIsLost(prefix, put);
    }
  }

  /** On empty stores, a registration under a millisecond is gone at once from one and live in the other. */
  lemma ShortTtlIsLost(prefix: string, put: Request)
    requires put.call.Put? && 0 <= put.call.ttl < NANOS_PER_MILLI
    ensures prefix + put.call.nonce !in RedisStep(map[], prefix, put).0
    ensures var t := put.now * NANOS_PER_MILLI;
            Live(Apply(map[], put.call, t, t).0, t) == map[put.call.nonce := NewSlot(t + put.call.ttl)]
  {
    MillisecondsFit(put.call.ttl);
    ParseUndoesFormat(Milliseconds(put.call.ttl));
  }
}
