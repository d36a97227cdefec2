/** Sequential histories of store calls, the reference every implementation is compared with. */
module History {
  import opened Pairing

  /** A call that took effect: the clock reading that decided liveness, the instant it wrote
      down, and what it answered. `id` names the caller's invocation. */
  datatype Effect = Effect(id: nat, call: Call, now: int, stamp: int, reply: Reply)

  predicate IsPut(e: Effect, n: string) {
    e.call.Put? && e.call.nonce == n && e.reply == Done
  }

  predicate IsComplete(e: Effect, n: string) {
    e.call.Complete? && e.call.nonce == n && e.reply == Done
  }

  predicate IsFetch(e: Effect, n: string) {
    e.call.FetchAndDelete? && e.call.nonce == n && e.reply.Fetched?
  }

  function Init<T>(s: seq<T>): seq<T>
    requires |s| > 0
  {
    s[..|s| - 1]
  }

  function Last<T>(s: seq<T>): T
    requires |s| > 0
  {
    s[|s| - 1]
  }

  /** The map after the calls in `lin`, with dead entries left lying around. */
  function After(lin: seq<Effect>): TtlMap {
    if lin == [] then map[]
    else Apply(After(Init(lin)), Last(lin).call, Last(lin).now, Last(lin).stamp).0
  }

  /** The map after the calls in `lin` when every call first drops all dead entries. */
  function SweptAfter(lin: seq<Effect>): TtlMap {
    if lin == [] then map[]
    else Apply(Live(SweptAfter(Init(lin)), Last(lin).now), Last(lin).call, Last(lin).now, Last(lin).stamp).0
  }

  /** The clock never runs backwards. */
  ghost predicate Monotone(lin: seq<Effect>) {
    forall i, j | 0 <= i <= j < |lin| :: lin[i].now <= lin[j].now
  }

  /** The clock never ran backwards, and every call answered as the sequential store does. */
  ghost predicate Legal(lin: seq<Effect>) {
    lin == [] ||
    (var init, e := Init(lin), Last(lin);
     && Legal(init)
     && (init != [] ==> Last(init).now <= e.now)
     && e.reply == Apply(After(init), e.call, e.now, e.stamp).1)
  }

  lemma {:induction false} LegalPrefix(lin: seq<Effect>, k: nat)
    requires Legal(lin) && k <= |lin|
    ensures Legal(lin[..k])
  {
    if k == |lin| {
      assert lin[..k] == lin;
    } else {
      LegalPrefix(Init(lin), k);
      assert Init(lin)[..k] == lin[..k];
    }
  }

  lemma {:induction false} LegalIsMonotone(lin: seq<Effect>)
    requires Legal(lin)
    ensures Monotone(lin)
  {
    if lin != [] {
      LegalIsMonotone(Init(lin));
      MonotoneExtend(Init(lin), Last(lin));
      assert lin == Init(lin) + [Last(lin)];
    }
  }

  lemma LegalExtend(lin: seq<Effect>, e: Effect)
    requires Legal(lin)
    requires lin != [] ==> Last(lin).now <= e.now
    requires e.reply == Apply(After(lin), e.call, e.now, e.stamp).1
    ensures Legal(lin + [e])
    ensures After(lin + [e]) == Apply(After(lin), e.call, e.now, e.stamp).0
  {
  }

  /** A history of one call. */
  lemma OneCall(e: Effect)
    ensures After([e]) == SweptAfter([e]) == Apply(map[], e.call, e.now, e.stamp).0
    ensures Legal([e]) <==> e.reply == Apply(map[], e.call, e.now, e.stamp).1
  {
    assert Init([e]) == [];
    assert Live(map[], e.now) == map[];
  }

  /** One call read off the middle of a history. */
  lemma NextCall(lin: seq<Effect>, i: nat)
    requires Legal(lin) && i < |lin|
    ensures (After(lin[..i + 1]), lin[i].reply) == Apply(After(lin[..i]), lin[i].call, lin[i].now, lin[i].stamp)
  {
    LegalPrefix(lin, i + 1);
    assert Init(lin[..i + 1]) == lin[..i];
  }

  /** Whoever is handed an entry asked for its nonce. */
  lemma {:induction false} FetchedIsOwn(lin: seq<Effect>, i: nat)
    requires Legal(lin) && i < |lin|
    ensures lin[i].reply.Fetched? ==> IsFetch(lin[i], lin[i].reply.entry.nonce)
  {
    NextCall(lin, i);
  }

  lemma MonotoneExtend(lin: seq<Effect>, e: Effect)
    requires Monotone(lin) && (|lin| > 0 ==> Last(lin).now <= e.now)
    ensures Monotone(lin + [e])
  {
  }

  /** Sweeping on every call is unobservable: from the last reading on, the swept map and the
      unswept one have the same live entries. */
  lemma {:induction false} SweepKeepsLive(lin: seq<Effect>, t: int)
    requires Monotone(lin)
    requires |lin| > 0 ==> Last(lin).now <= t
    ensures Live(SweptAfter(lin), t) == Live(After(lin), t)
  {
    if lin != [] {
      var init, e := Init(lin), Last(lin);
      assert |init| > 0 ==> Last(init) == lin[|lin| - 2];
      SweepKeepsLive(init, e.now);
      var swept := Live(SweptAfter(init), e.now);
      assert Live(swept, e.now) == swept;
      ApplyIgnoresDead(swept, After(init), e.call, e.now, e.stamp);
    }
  }

  lemma SweptAnswer(lin: seq<Effect>, call: Call, now: int, stamp: int)
    requires Monotone(lin) && (|lin| > 0 ==> Last(lin).now <= now)
    ensures Apply(Live(SweptAfter(lin), now), call, now, stamp).1 == Apply(After(lin), call, now, stamp).1
  {
    SweepKeepsLive(lin, now);
    var swept := Live(SweptAfter(lin), now);
    assert Live(swept, now) == swept;
    ApplyIgnoresDead(swept, After(lin), call, now, stamp);
  }

  /** A store that sweeps before every call answers every call exactly as one that only tests
      the deadline of the nonce it looks up. */
  lemma SweepIsUnobservable(lin: seq<Effect>, i: nat)
    requires Monotone(lin) && i < |lin|
    ensures Apply(Live(SweptAfter(lin[..i]), lin[i].now), lin[i].call, lin[i].now, lin[i].stamp).1
         == Apply(After(lin[..i]), lin[i].call, lin[i].now, lin[i].stamp).1
  {
    SweptAnswer(lin[..i], lin[i].call, lin[i].now, lin[i].stamp);
  }
}
