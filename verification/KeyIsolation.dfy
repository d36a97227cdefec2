/** Several stores on one Redis server: when their keys can meet, and that a store cannot tell whether
    the others are there exactly when they cannot. */
module KeyIsolation {
  import opened Pairing
  import opened Decimal
  import opened History
  import opened RedisServer
  import opened RedisStore
  import opened RedisRefinement
  import opened Nonce

  predicate EndsWithColon(p: string) {
    p != [] && p[|p| - 1] == ':'
  }

  predicate AllSymbols(s: string) {
    forall i | 0 <= i < |s| :: InAlphabet(s[i])
  }

  /** One prefix is the other and some characters of the nonce alphabet. */
  predicate Clash(p: string, q: string) {
    (p <= q && AllSymbols(q[|p|..])) || (q <= p && AllSymbols(p[|q|..]))
  }

  /** If the shorter prefix meets the longer one's key, the difference is the start of its nonce. */
  lemma MeetingPrefixesClash(p: string, n: string, q: string, m: string)
    requires IsNonce(n) && p + n == q + m && |p| <= |q|
    ensures Clash(p, q) && (p == q ==> n == m)
  {
    var key := p + n;
    assert key[..|p|] == p && key[|p|..] == n && key[..|q|] == q && key[|q|..] == m;
    forall i | 0 <= i < |q| - |p|
      ensures InAlphabet(q[|p|..][i])
    {
      assert q[|p|..][i] == key[|p| + i] == n[i];
    }
    assert p == q[..|p|];
  }

  /** Prefixes that do not clash keep the stores apart: the key determines the prefix and the nonce. */
  lemma KeyIsInjective(p: string, n: string, q: string, m: string)
    requires IsNonce(n) && IsNonce(m) && (p == q || !Clash(p, q))
    ensures p + n == q + m <==> p == q && n == m
  {
    if p + n == q + m {
      if |p| <= |q| {
        MeetingPrefixesClash(p, n, q, m);
      } else {
        MeetingPrefixesClash(q, m, p, n);
      }
    }
  }

  const ZEROS := "00000000"

  /** Prefixes that clash share a key. */
  lemma ClashingPrefixesMeet(p: string, q: string) returns (n: string, m: string)
    requires Clash(p, q)
    ensures IsNonce(n) && IsNonce(m) && p + n == q + m
  {
    assert InAlphabet('0') by {
      AlphabetIsCrockford('0');
    }
    if p <= q && AllSymbols(q[|p|..]) {
      n, m := q[|p|..] + ZEROS, ZEROS;
      assert q == p + q[|p|..];
    } else {
      n, m := ZEROS, p[|q|..] + ZEROS;
      assert p == q + p[|q|..];
    }
  }

  /** The exact condition under which two stores can share a key. */
  lemma KeysMeetIffPrefixesClash(p: string, q: string)
    ensures (exists n, m :: IsNonce(n) && IsNonce(m) && p + n == q + m) <==> Clash(p, q)
  {
    if n, m :| IsNonce(n) && IsNonce(m) && p + n == q + m {
      if |p| <= |q| {
        MeetingPrefixesClash(p, n, q, m);
      } else {
        MeetingPrefixesClash(q, m, p, n);
      }
    }
    if Clash(p, q) {
      var n, m := ClashingPrefixesMeet(p, q);
    }
  }

  /** Distinct prefixes that end in a colon, as recommended, never clash. */
  lemma ColonsKeepApart(p: string, q: string)
    requires EndsWithColon(p) && EndsWithColon(q) && p != q
    ensures !Clash(p, q)
  {
    if p <= q {
      ColonIsNoSymbol(q, |p|);
    }
    if q <= p {
      ColonIsNoSymbol(p, |q|);
    }
  }

  lemma ColonIsNoSymbol(q: string, from: nat)
    requires EndsWithColon(q) && from <= |q|
    ensures from < |q| ==> !AllSymbols(q[from..])
  {
    AlphabetIsCrockford(':');
    if from < |q| {
      assert q[from..][|q| - from - 1] == ':';
    }
  }

  /** A request to the store with the given prefix. */
  datatype Tagged = Tagged(prefix: string, request: Request)

  /** Traffic of stores with prefixes in `ps`, on valid nonces, in the order of the server's clock. */
  ghost predicate Traffic(ts: seq<Tagged>, ps: set<string>) {
    && (forall i | 0 <= i < |ts| :: ts[i].prefix in ps && IsNonce(ts[i].request.call.nonce))
    && forall i, j | 0 <= i < j < |ts| :: ts[i].request.now <= ts[j].request.now
  }

  function SharedAfter(ts: seq<Tagged>): Keyspace {
    if ts == [] then map[] else RedisStep(SharedAfter(Init(ts)), Last(ts).prefix, Last(ts).request).0
  }

  /** The requests of one store. */
  function Mine(ts: seq<Tagged>, p: string): seq<Request> {
    if ts == [] then [] else Mine(Init(ts), p) + if Last(ts).prefix == p then [Last(ts).request] else []
  }

  /** What the callers of one store are told when everybody uses the server. */
  function MyReplies(ts: seq<Tagged>, p: string): seq<Reply> {
    if ts == [] then []
    else
      MyReplies(Init(ts), p) +
      if Last(ts).prefix == p then [RedisStep(SharedAfter(Init(ts)), p, Last(ts).request).1] else []
  }

  /** The two keyspaces look the same to the store with prefix `p` at `now`. */
  ghost predicate LooksLike(a: Keyspace, b: Keyspace, p: string, now: int) {
    forall n | IsNonce(n) :: Seen(a, p + n, now) == Seen(b, p + n, now)
  }

  lemma SeenLater(a: Keyspace, b: Keyspace, key: string, now: int, later: int)
    requires Seen(a, key, now) == Seen(b, key, now) && now <= later
    ensures Seen(a, key, later) == Seen(b, key, later)
  {
  }

  /** A step depends on, and leaves behind, only what its key looks like. */
  lemma OwnStep(a: Keyspace, b: Keyspace, p: string, r: Request)
    requires Seen(a, p + r.call.nonce, r.now) == Seen(b, p + r.call.nonce, r.now)
    ensures RedisStep(a, p, r).1 == RedisStep(b, p, r).1
    ensures Seen(RedisStep(a, p, r).0, p + r.call.nonce, r.now) == Seen(RedisStep(b, p, r).0, p + r.call.nonce, r.now)
  {
    var key := p + r.call.nonce;
    ReapingIsUnseen(a, r, key);
    ReapingIsUnseen(b, r, key);
  }

  lemma ReapingIsUnseen(ks: Keyspace, r: Request, key: string)
    ensures Seen(Reap(ks, r.reaped, r.now), key, r.now) == Seen(ks, key, r.now)
  {
  }

  lemma OtherKeysLookTheSame(ks: Keyspace, p: string, r: Request, key: string)
    requires key != p + r.call.nonce
    ensures Seen(RedisStep(ks, p, r).0, key, r.now) == Seen(ks, key, r.now)
  {
    ReapingIsUnseen(ks, r, key);
  }

  lemma ForeignStep(shared: Keyspace, solo: Keyspace, p: string, q: string, r: Request, from: int)
    requires p != q && !Clash(p, q) && IsNonce(r.call.nonce)
    requires LooksLike(shared, solo, p, from) && from <= r.now
    ensures LooksLike(RedisStep(shared, q, r).0, solo, p, r.now)
  {
    forall n | IsNonce(n)
      ensures Seen(RedisStep(shared, q, r).0, p + n, r.now) == Seen(solo, p + n, r.now)
    {
      SeenLater(shared, solo, p + n, from, r.now);
      KeyIsInjective(p, n, q, r.call.nonce);
      OtherKeysLookTheSame(shared, q, r, p + n);
    }
  }

  lemma HomeStep(shared: Keyspace, solo: Keyspace, p: string, r: Request, from: int)
    requires IsNonce(r.call.nonce) && LooksLike(shared, solo, p, from) && from <= r.now
    ensures RedisStep(shared, p, r).1 == RedisStep(solo, p, r).1
    ensures LooksLike(RedisStep(shared, p, r).0, RedisStep(solo, p, r).0, p, r.now)
  {
    forall n | IsNonce(n)
      ensures Seen(shared, p + n, r.now) == Seen(solo, p + n, r.now)
    {
      SeenLater(shared, solo, p + n, from, r.now);
    }
    OwnStep(shared, solo, p, r);
    forall n | IsNonce(n)
      ensures Seen(RedisStep(shared, p, r).0, p + n, r.now) == Seen(RedisStep(solo, p, r).0, p + n, r.now)
    {
      if n != r.call.nonce {
        KeysOfOnePrefixDiffer(p, n, r.call.nonce);
        OtherKeysLookTheSame(shared, p, r, p + n);
        OtherKeysLookTheSame(solo, p, r, p + n);
      }
    }
  }

  /** No other prefix in `ps` clashes with `p`. */
  ghost predicate Apart(p: string, ps: set<string>) {
    forall q | q in ps && q != p :: !Clash(p, q)
  }

  /** Isolation: in any traffic of any number of stores, a store whose prefix clashes with no other
      gets exactly the answers it would get from a server of its own. */
  lemma {:induction false} StoresAreIsolated(ts: seq<Tagged>, p: string, ps: set<string>)
    requires Traffic(ts, ps) && Apart(p, ps)
    ensures MyReplies(ts, p) == RedisReplies(p, Mine(ts, p))
    ensures ts != [] ==> LooksLike(SharedAfter(ts), RedisAfter(p, Mine(ts, p)), p, Last(ts).request.now)
  {
    if ts != [] {
      var init, q, r := Init(ts), Last(ts).prefix, Last(ts).request;
      StoresAreIsolated(init, p, ps);
      var from := if init == [] then r.now else Last(init).request.now;
      var shared, solo := SharedAfter(init), RedisAfter(p, Mine(init, p));
      if q == p {
        HomeStep(shared, solo, p, r, from);
        assert Init(Mine(ts, p)) == Mine(init, p);
      } else {
        ForeignStep(shared, solo, p, q, r, from);
        assert Mine(ts, p) == Mine(init, p);
      }
    }
  }

  /** With the recommended prefixes every store is isolated. */
  lemma ColonsIsolate(ts: seq<Tagged>, p: string, ps: set<string>)
    requires Traffic(ts, ps) && EndsWithColon(p) && forall q | q in ps :: EndsWithColon(q)
    ensures MyReplies(ts, p) == RedisReplies(p, Mine(ts, p))
  {
    forall q | q in ps && q != p
      ensures !Clash(p, q)
    {
      ColonsKeepApart(p, q);
    }
    StoresAreIsolated(ts, p, ps);
  }

  /** A prefix that clashes gives the other store away: somebody registers over there, and here a nonce
      never used before is already taken. */
  lemma ClashIsSeen(p: string, q: string) returns (ts: seq<Tagged>)
    requires p != q && Clash(p, q)
    ensures Traffic(ts, {p, q})
    ensures MyReplies(ts, p) == [Failed(ErrAlreadyExists)] && RedisReplies(p, Mine(ts, p)) == [Done]
  {
    var n, m := ClashingPrefixesMeet(p, q);
    var there := Tagged(q, Request(Put(m, NANOS_PER_SECOND), 0, 0, {}));
    var here := Tagged(p, Request(Put(n, NANOS_PER_SECOND), 0, 0, {}));
    ts := [there] + [here];
    SomebodyElse(there, p);
    OneMoreOfMine([there], here);
    Alone(p, here.request);
    TakenOrFree(there, here);
  }

  lemma SomebodyElse(t: Tagged, p: string)
    requires t.prefix != p
    ensures MyReplies([t], p) == [] && Mine([t], p) == []
    ensures SharedAfter([t]) == RedisStep(map[], t.prefix, t.request).0
  {
    assert Init([t]) == [];
  }

  lemma {:induction false} OneMoreOfMine(ts: seq<Tagged>, t: Tagged)
    ensures MyReplies(ts + [t], t.prefix)
         == MyReplies(ts, t.prefix) + [RedisStep(SharedAfter(ts), t.prefix, t.request).1]
    ensures Mine(ts + [t], t.prefix) == Mine(ts, t.prefix) + [t.request]
  {
    assert Init(ts + [t]) == ts;
  }

  lemma Alone(p: string, r: Request)
    ensures RedisReplies(p, [r]) == [RedisStep(map[], p, r).1]
  {
    assert Init([r]) == [];
  }

  /** A registration under a shared key takes it; on a server of its own the key is free. */
  lemma TakenOrFree(there: Tagged, here: Tagged)
    requires there.request.call.Put? && there.request.call.ttl == NANOS_PER_SECOND
    requires here.request.call.Put? && here.request.call.ttl == NANOS_PER_SECOND
    requires there.prefix + there.request.call.nonce == here.prefix + here.request.call.nonce
    requires there.request.now == here.request.now && here.request.reaped == {}
    ensures RedisStep(RedisStep(map[], there.prefix, there.request).0, here.prefix, here.request).1
         == Failed(ErrAlreadyExists)
    ensures RedisStep(map[], here.prefix, here.request).1 == Done
  {
    MillisecondsFit(NANOS_PER_SECOND);
    ParseUndoesFormat(Milliseconds(NANOS_PER_SECOND));
  }

  /** Whatever the others do, a store answers as if it were alone. */
  ghost predicate Isolated(p: string, ps: set<string>) {
    forall ts | Traffic(ts, ps) :: MyReplies(ts, p) == RedisReplies(p, Mine(ts, p))
  }

  /** The exact condition for isolation, which whoever chooses the prefixes can check. */
  lemma IsolationIsExact(p: string, ps: set<string>)
    requires p in ps
    ensures Isolated(p, ps) <==> Apart(p, ps)
  {
    if Apart(p, ps) {
      forall ts | Traffic(ts, ps)
        ensures MyReplies(ts, p) == RedisReplies(p, Mine(ts, p))
      {
        StoresAreIsolated(ts, p, ps);
      }
    } else {
      var q :| q in ps && q != p && Clash(p, q);
      var ts := ClashIsSeen(p, q);
      assert Traffic(ts, ps);
    }
  }
}
