/** The store contract: statuses, entries, sentinel errors, and the three operations
    as transitions of a map whose entries carry a deadline.

    The map is never swept here. An entry past its deadline simply reads as absent, which is
    the behaviour every implementation has to show to its callers. */
module Pairing {
  import opened Wrappers

  datatype Status = Waiting | Ready

  datatype Entry = Entry(nonce: string, token: string, botUsername: string, completedAt: int)

  datatype CtxError = Canceled | DeadlineExceeded

  datatype StoreError =
    | ErrNotFound
    | ErrNotReady
    | ErrAlreadyExists
    | ErrInvalidState
    | ErrContext(cause: CtxError)
    | ErrBackend(detail: string)

  datatype Call =
    | Put(nonce: string, ttl: int)
    | Complete(nonce: string, token: string, botUsername: string)
    | FetchAndDelete(nonce: string)

  datatype Reply = Done | Fetched(entry: Entry) | Failed(error: StoreError)

  /** What a registration holds. Instants and durations are counted in nanoseconds. */
  datatype Slot = Slot(status: Status, token: string, botUsername: string, expiresAt: int, completedAt: int)

  type TtlMap = map<string, Slot>

  /** The zero instant of an entry that has not been completed. */
  const ZERO_TIME := -62135596800_000_000_000

  function NewSlot(deadline: int): Slot {
    Slot(Waiting, "", "", deadline, ZERO_TIME)
  }

  /** Expiry is strict: an entry is still live at its very deadline. */
  predicate Expired(s: Slot, now: int) {
    now > s.expiresAt
  }

  predicate IsLive(m: TtlMap, nonce: string, now: int) {
    nonce in m && !Expired(m[nonce], now)
  }

  /** The part of `m` that survives a sweep at `now`. */
  function Live(m: TtlMap, now: int): TtlMap {
    map k | k in m && !Expired(m[k], now) :: m[k]
  }

  /** One call: `now` decides which entries are live, `stamp` is the instant the call writes down. */
  function Apply(m: TtlMap, call: Call, now: int, stamp: int): (TtlMap, Reply) {
    var n := call.nonce;
    match call
    case Put(_, ttl) =>
      if IsLive(m, n, now) then (m, Failed(ErrAlreadyExists))
      else (m[n := NewSlot(stamp + ttl)], Done)
    case Complete(_, token, botUsername) =>
      if !IsLive(m, n, now) then (m, Failed(ErrNotFound))
      else if m[n].status != Waiting then (m, Failed(ErrInvalidState))
      else (m[n := m[n].(status := Ready, token := token, botUsername := botUsername, completedAt := stamp)], Done)
    case FetchAndDelete(_) =>
      if !IsLive(m, n, now) then (m, Failed(ErrNotFound))
      else if m[n].status != Ready then (m, Failed(ErrNotReady))
      else (m - {n}, Fetched(Entry(n, m[n].token, m[n].botUsername, m[n].completedAt)))
  }

  /** A call touches no nonce but its own. */
  lemma ApplyFrame(m: TtlMap, call: Call, now: int, stamp: int, other: string)
    requires other != call.nonce
    ensures var after := Apply(m, call, now, stamp).0;
            (other in after <==> other in m) && (other in m ==> after[other] == m[other])
  {
  }

  /** Dead entries can be dropped at any time: the reply is the same, and so is what is live afterwards. */
  lemma ApplyIgnoresDead(m: TtlMap, m': TtlMap, call: Call, now: int, stamp: int)
    requires Live(m, now) == Live(m', now)
    ensures Apply(m, call, now, stamp).1 == Apply(m', call, now, stamp).1
    ensures forall t | now <= t :: Live(Apply(m, call, now, stamp).0, t) == Live(Apply(m', call, now, stamp).0, t)
  {
    LiveAgree(m, m', call.nonce, now);
    var a, b := Apply(m, call, now, stamp).0, Apply(m', call, now, stamp).0;
    forall t | now <= t
      ensures Live(a, t) == Live(b, t)
    {
      forall k
        ensures k in Live(a, t) <==> k in Live(b, t)
        ensures k in Live(a, t) ==> Live(a, t)[k] == Live(b, t)[k]
      {
        LiveAgree(m, m', k, now);
      }
    }
  }

  /** A swept map holds live entries only. */
  lemma SweptIsLive(m: TtlMap, k: string, now: int)
    ensures k in Live(m, now) <==> IsLive(Live(m, now), k, now)
  {
  }

  /** Two maps with the same live part agree on every nonce. */
  lemma LiveAgree(m: TtlMap, m': TtlMap, k: string, now: int)
    requires Live(m, now) == Live(m', now)
    ensures IsLive(m, k, now) <==> IsLive(m', k, now)
    ensures IsLive(m, k, now) ==> m[k] == m'[k]
  {
    assert IsLive(m, k, now) <==> k in Live(m, now);
    assert IsLive(m', k, now) <==> k in Live(m', now);
    if k in Live(m, now) {
      assert Live(m, now)[k] == m[k] && Live(m', now)[k] == m'[k];
    }
  }
}
