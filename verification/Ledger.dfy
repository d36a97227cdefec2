/** What the sequential histories of module History keep: where a fetched token came from, how
    often it can be handed out, and where every registration ended up. Linearizability makes
    each of these a statement about any concurrent run as well. */
module Ledger {
  import opened Wrappers
  import opened Pairing
  import opened History
  import L = Linearizability

  // ---------------------------------------------------------------- provenance

  /** `lin[z]` registered `n`, and nothing before `k` registered it again or consumed it. */
  ghost predicate Registration(lin: seq<Effect>, n: string, z: nat, k: nat) {
    && z < k <= |lin| && IsPut(lin[z], n)
    && forall y | z < y < k :: !IsPut(lin[y], n) && !IsFetch(lin[y], n)
  }

  /** `lin[x]` is the one completion of the registration made by `lin[z]`. */
  ghost predicate Completion(lin: seq<Effect>, n: string, z: nat, x: nat, k: nat) {
    && z < x < k <= |lin| && IsComplete(lin[x], n)
    && forall y | z < y < k && IsComplete(lin[y], n) :: y == x
  }

  function Deadline(put: Effect): int
    requires put.call.Put?
  {
    put.stamp + put.call.ttl
  }

  /** The history explains the entry: its registration, its deadline, and its completion if any. */
  ghost predicate Explains(lin: seq<Effect>, n: string, slot: Slot, z: nat, x: nat) {
    && Registration(lin, n, z, |lin|)
    && slot.expiresAt == Deadline(lin[z])
    && if slot.status == Waiting then
         slot == NewSlot(Deadline(lin[z])) && forall y | z < y < |lin| :: !IsComplete(lin[y], n)
       else
         && Completion(lin, n, z, x, |lin|)
         && lin[x].now <= slot.expiresAt
         && slot.token == lin[x].call.token && slot.botUsername == lin[x].call.botUsername
         && slot.completedAt == lin[x].stamp
  }

  /** What a call that took effect does to the entry of `n`, told from its answer. */
  lemma SlotStep(lin: seq<Effect>, n: string)
    requires Legal(lin) && lin != []
    ensures var e, m, m' := Last(lin), After(Init(lin)), After(lin);
            if IsPut(e, n) then n in m' && m'[n] == NewSlot(Deadline(e)) && (n in m ==> Expired(m[n], e.now))
            else if IsFetch(e, n) then n !in m'
            else if IsComplete(e, n) then
              && n in m && n in m' && m[n].status == Waiting && e.now <= m[n].expiresAt
              && m'[n] == Slot(Ready, e.call.token, e.call.botUsername, m[n].expiresAt, e.stamp)
            else (n in m <==> n in m') && (n in m ==> m'[n] == m[n])
  {
  }

  /** A call that leaves `n` alone leaves its explanation alone. */
  lemma ExplanationLasts(lin: seq<Effect>, e: Effect, n: string, slot: Slot, z: nat, x: nat)
    requires Explains(lin, n, slot, z, x)
    requires !IsPut(e, n) && !IsFetch(e, n) && !IsComplete(e, n)
    ensures Explains(lin + [e], n, slot, z, x)
  {
  }

  lemma CompletionExplains(lin: seq<Effect>, e: Effect, n: string, slot: Slot, z: nat, x: nat)
    requires Explains(lin, n, slot, z, x) && slot.status == Waiting
    requires IsComplete(e, n) && e.now <= slot.expiresAt
    ensures Explains(lin + [e], n, Slot(Ready, e.call.token, e.call.botUsername, slot.expiresAt, e.stamp), z, |lin|)
  {
  }

  /** Every entry goes back to one Put and, when Ready, to one Complete. */
  lemma {:induction false} SlotOrigin(lin: seq<Effect>, n: string) returns (z: nat, x: nat)
    requires Legal(lin) && n in After(lin)
    ensures Explains(lin, n, After(lin)[n], z, x)
  {
    var init, e := Init(lin), Last(lin);
    assert lin == init + [e];
    SlotStep(lin, n);
    if IsPut(e, n) {
      z, x := |init|, 0;
    } else {
      z, x := SlotOrigin(init, n);
      if IsComplete(e, n) {
        CompletionExplains(init, e, n, After(init)[n], z, x);
        x := |init|;
      } else {
        ExplanationLasts(init, e, n, After(init)[n], z, x);
      }
    }
  }

  /** The explanation of what is left of a registration points back at that registration. */
  lemma RegistrationIsOrigin(lin: seq<Effect>, n: string, z: nat, k: nat) returns (x: nat)
    requires Legal(lin) && Registration(lin, n, z, k)
    ensures n in After(lin[..k]) && Explains(lin[..k], n, After(lin[..k])[n], z, x)
  {
    StillThere(lin, n, z, k);
    LegalPrefix(lin, k);
    var z';
    z', x := SlotOrigin(lin[..k], n);
    OneRegistration(lin[..k], n, z, z');
  }

  lemma OneRegistration(lin: seq<Effect>, n: string, z: nat, z': nat)
    requires Registration(lin, n, z, |lin|) && Registration(lin, n, z', |lin|)
    ensures z == z'
  {
  }

  /** First write wins: a fetched entry carries the token, username and completion instant of the
      only Complete of its registration, and was fetched before that registration's deadline. */
  lemma FetchedIsFirstWrite(lin: seq<Effect>, y: nat, n: string) returns (z: nat, x: nat)
    requires Legal(lin) && y < |lin| && IsFetch(lin[y], n)
    ensures Registration(lin, n, z, y) && Completion(lin, n, z, x, y)
    ensures lin[y].reply.entry == Entry(n, lin[x].call.token, lin[x].call.botUsername, lin[x].stamp)
    ensures lin[x].now <= Deadline(lin[z]) && lin[y].now <= Deadline(lin[z])
  {
    var pre := lin[..y];
    LegalPrefix(lin, y);
    NextCall(lin, y);
    z, x := SlotOrigin(pre, n);
    assert forall i | 0 <= i < y :: lin[i] == pre[i];
  }

  /** A completion is decided by the reading its sweep took and written down with a later one, so the
      recorded instant can lie past the deadline: in any history, it does exactly when the later
      reading does (module ClockReadings says what a caller can tell of that). */
  lemma CompletionCanBeLate(lin: seq<Effect>, n: string) returns (z: nat, x: nat)
    requires Legal(lin) && IsReady(After(lin), n)
    ensures Registration(lin, n, z, |lin|) && Completion(lin, n, z, x, |lin|)
    ensures lin[x].now <= Deadline(lin[z]) == After(lin)[n].expiresAt
    ensures After(lin)[n].completedAt <= After(lin)[n].expiresAt <==> lin[x].stamp <= Deadline(lin[z])
  {
    z, x := SlotOrigin(lin, n);
  }

  /** After the completion, every further Complete of the same registration changes nothing: it is
      refused as invalid while the registration is live and as unknown once it is not. */
  lemma LaterCompletesAreRefused(lin: seq<Effect>, n: string, z: nat, x: nat, w: nat)
    requires Legal(lin) && w < |lin| && lin[w].call.Complete? && lin[w].call.nonce == n
    requires Registration(lin, n, z, w) && z < x < w && IsComplete(lin[x], n)
    ensures lin[w].reply == Failed(if lin[w].now <= Deadline(lin[z]) then ErrInvalidState else ErrNotFound)
    ensures After(lin[..w + 1]) == After(lin[..w])
  {
    CompletedSlot(lin, n, z, x, w);
    NextCall(lin, w);
  }

  lemma CompletedSlot(lin: seq<Effect>, n: string, z: nat, x: nat, k: nat)
    requires Legal(lin) && Registration(lin, n, z, k) && z < x < k && IsComplete(lin[x], n)
    ensures n in After(lin[..k])
    ensures After(lin[..k])[n].status == Ready && After(lin[..k])[n].expiresAt == Deadline(lin[z])
  {
    var x' := RegistrationIsOrigin(lin, n, z, k);
    assert lin[..k][x] == lin[x] && lin[..k][z] == lin[z];
  }

  /** A registration stays in the map until it is consumed or replaced. */
  lemma {:induction false} StillThere(lin: seq<Effect>, n: string, z: nat, k: nat)
    requires Legal(lin) && Registration(lin, n, z, k)
    ensures n in After(lin[..k])
    decreases k
  {
    var pre := lin[..k];
    LegalPrefix(lin, k);
    assert Init(pre) == lin[..k - 1] && Last(pre) == lin[k - 1];
    SlotStep(pre, n);
    if k - 1 > z {
      StillThere(lin, n, z, k - 1);
    }
  }

  /** One-time delivery: between two fetches of a nonce lie a new registration and its completion. */
  lemma FetchedAtMostOnce(lin: seq<Effect>, a: nat, b: nat, n: string) returns (z: nat, x: nat)
    requires Legal(lin) && a < b < |lin| && IsFetch(lin[a], n) && IsFetch(lin[b], n)
    ensures a < z < x < b && IsPut(lin[z], n) && IsComplete(lin[x], n)
  {
    z, x := FetchedIsFirstWrite(lin, b, n);
  }

  lemma {:induction false} GoneUntilRegistered(lin: seq<Effect>, n: string, a: nat, k: nat)
    requires Legal(lin) && a < k <= |lin| && IsFetch(lin[a], n) && forall y | a < y < k :: !IsPut(lin[y], n)
    ensures n !in After(lin[..k])
    decreases k
  {
    var pre := lin[..k];
    LegalPrefix(lin, k);
    assert Init(pre) == lin[..k - 1] && Last(pre) == lin[k - 1];
    SlotStep(pre, n);
    if k - 1 > a {
      GoneUntilRegistered(lin, n, a, k - 1);
    }
  }

  /** One success, and the rest not found: after a fetch, every other call for the nonce is told that
      there is no such registration, until somebody registers the nonce again, which succeeds. */
  lemma TheRestAreNotFound(lin: seq<Effect>, n: string, a: nat, b: nat)
    requires Legal(lin) && a < b < |lin| && IsFetch(lin[a], n) && forall y | a < y < b :: !IsPut(lin[y], n)
    requires lin[b].call.nonce == n
    ensures lin[b].reply == if lin[b].call.Put? then Done else Failed(ErrNotFound)
  {
    GoneUntilRegistered(lin, n, a, b);
    NextCall(lin, b);
  }

  /** A registration becomes ready at most once: between two completions lies a new registration. */
  lemma CompletedAtMostOnce(lin: seq<Effect>, a: nat, b: nat, n: string) returns (z: nat)
    requires Legal(lin) && a < b < |lin| && IsComplete(lin[a], n) && IsComplete(lin[b], n)
    ensures a < z < b && IsPut(lin[z], n)
  {
    LegalPrefix(lin, b + 1);
    assert Init(lin[..b + 1]) == lin[..b] && Last(lin[..b + 1]) == lin[b];
    SlotStep(lin[..b + 1], n);
    LegalPrefix(lin, b);
    var x;
    z, x := SlotOrigin(lin[..b], n);
    assert lin[..b][z] == lin[z] && lin[..b][a] == lin[a];
    NoCompletionSince(lin[..b], n, z, x, a);
  }

  lemma NoCompletionSince(lin: seq<Effect>, n: string, z: nat, x: nat, a: nat)
    requires Legal(lin) && n in After(lin) && After(lin)[n].status == Waiting
    requires Explains(lin, n, After(lin)[n], z, x) && a < |lin| && IsComplete(lin[a], n)
    ensures a < z
  {
  }

  /** A nonce is registered again only once its last registration was consumed or ran out. */
  lemma ReregistrationNeedsAnEnd(lin: seq<Effect>, z: nat, z': nat, n: string)
    requires Legal(lin) && z' < |lin| && Registration(lin, n, z, z') && IsPut(lin[z'], n)
    ensures lin[z'].now > Deadline(lin[z])
  {
    var x := RegistrationIsOrigin(lin, n, z, z');
    LegalPrefix(lin, z' + 1);
    assert Init(lin[..z' + 1]) == lin[..z'] && Last(lin[..z' + 1]) == lin[z'];
    SlotStep(lin[..z' + 1], n);
  }

  // ---------------------------------------------------------------- what is live, told from the history

  /** `lin[z]` is the last registration of `n` before `k`. */
  ghost predicate Latest(lin: seq<Effect>, n: string, z: nat, k: nat) {
    && z < k <= |lin| && IsPut(lin[z], n)
    && forall y | z < y < k :: !IsPut(lin[y], n)
  }

  /** The registration made by `lin[z]` was consumed before `k`, or has run out at `now`. */
  ghost predicate IsOver(lin: seq<Effect>, n: string, z: nat, k: nat, now: int)
    requires z < k <= |lin| && lin[z].call.Put?
  {
    (exists y :: z < y < k && IsFetch(lin[y], n)) || now > Deadline(lin[z])
  }

  lemma {:induction false} LatestBefore(lin: seq<Effect>, n: string, p: nat, k: nat) returns (z: nat)
    requires p < k <= |lin| && IsPut(lin[p], n)
    ensures p <= z && Latest(lin, n, z, k)
    decreases k
  {
    if IsPut(lin[k - 1], n) {
      z := k - 1;
    } else {
      z := LatestBefore(lin, n, p, k - 1);
    }
  }

  /** A nonce is live if and only if its last registration was not consumed and has not run out. */
  lemma LiveUnlessOver(lin: seq<Effect>, n: string, z: nat, k: nat, now: int)
    requires Legal(lin) && Latest(lin, n, z, k)
    ensures IsLive(After(lin[..k]), n, now) <==> !IsOver(lin, n, z, k, now)
  {
    if y: nat :| z < y < k && IsFetch(lin[y], n) {
      GoneUntilRegistered(lin, n, y, k);
    } else {
      var x := RegistrationIsOrigin(lin, n, z, k);
      assert lin[..k][z] == lin[z];
    }
  }

  // ---------------------------------------------------------------- conservation

  ghost function Count(lin: seq<Effect>, p: Effect -> bool): nat {
    if lin == [] then 0 else Count(Init(lin), p) + if p(Last(lin)) then 1 else 0
  }

  ghost function Puts(lin: seq<Effect>, n: string): nat { Count(lin, e => IsPut(e, n)) }

  ghost function Completes(lin: seq<Effect>, n: string): nat { Count(lin, e => IsComplete(e, n)) }

  ghost function Fetches(lin: seq<Effect>, n: string): nat { Count(lin, e => IsFetch(e, n)) }

  function One(b: bool): nat { if b then 1 else 0 }

  predicate IsDead(m: TtlMap, n: string, now: int) {
    n in m && Expired(m[n], now)
  }

  predicate IsReady(m: TtlMap, n: string) {
    n in m && m[n].status == Ready
  }

  /** How many registrations of `n` the sweeps of `lin` deleted. */
  ghost function Expirations(lin: seq<Effect>, n: string): nat {
    if lin == [] then 0
    else Expirations(Init(lin), n) + One(IsDead(SweptAfter(Init(lin)), n, Last(lin).now))
  }

  ghost function ReadyExpirations(lin: seq<Effect>, n: string): nat {
    if lin == [] then 0
    else
      var m := SweptAfter(Init(lin));
      ReadyExpirations(Init(lin), n) + One(IsDead(m, n, Last(lin).now) && IsReady(m, n))
  }

  lemma {:induction false} Balance(lin: seq<Effect>, n: string)
    requires Legal(lin)
    ensures Puts(lin, n) == Fetches(lin, n) + Expirations(lin, n) + One(n in SweptAfter(lin))
    ensures Completes(lin, n) == Fetches(lin, n) + ReadyExpirations(lin, n) + One(IsReady(SweptAfter(lin), n))
  {
    if lin != [] {
      Balance(Init(lin), n);
      SweptStep(SweptAfter(Init(lin)), lin, n);
    }
  }

  /** What one call, sweep included, does to the entry of `n`. */
  lemma SweptStep(m: TtlMap, lin: seq<Effect>, n: string)
    requires Legal(lin) && lin != [] && m == SweptAfter(Init(lin))
    ensures var e, m' := Last(lin), SweptAfter(lin);
            && One(n in m') + One(IsFetch(e, n)) + One(IsDead(m, n, e.now)) == One(n in m) + One(IsPut(e, n))
            && One(IsReady(m', n)) + One(IsFetch(e, n)) + One(IsDead(m, n, e.now) && IsReady(m, n))
               == One(IsReady(m, n)) + One(IsComplete(e, n))
  {
    var e := Last(lin);
    var live := Live(m, e.now);
    SweptReply(lin);
    assert n in live <==> n in m && !IsDead(m, n, e.now);
    if e.call.nonce != n {
      ApplyFrame(live, e.call, e.now, e.stamp, n);
    }
  }

  lemma SweptReply(lin: seq<Effect>)
    requires Legal(lin) && lin != []
    ensures var e := Last(lin); e.reply == Apply(Live(SweptAfter(Init(lin)), e.now), e.call, e.now, e.stamp).1
  {
    LegalIsMonotone(Init(lin));
    SweptAnswer(Init(lin), Last(lin).call, Last(lin).now, Last(lin).stamp);
  }

  /** The registrations of `n` that have run out by `end`, swept or not. */
  ghost function RanOut(lin: seq<Effect>, n: string, end: int): nat {
    Expirations(lin, n) + One(IsDead(SweptAfter(lin), n, end))
  }

  ghost function ReadyRanOut(lin: seq<Effect>, n: string, end: int): nat {
    ReadyExpirations(lin, n) + One(IsDead(SweptAfter(lin), n, end) && IsReady(SweptAfter(lin), n))
  }

  /** Conservation: at any instant, each registration of `n` was fetched, has run out, or is still
      live; and likewise for each completion. */
  lemma Conservation(lin: seq<Effect>, n: string, end: int)
    requires Legal(lin)
    ensures Balanced(lin, n, end, Live(SweptAfter(lin), end))
    ensures Fetches(lin, n) <= Completes(lin, n) <= Puts(lin, n)
  {
    Balance(lin, n);
    ReadyAreFewer(lin, n);
  }

  /** The two balance equations, with what is live at `end` in the last place. */
  ghost predicate Balanced(lin: seq<Effect>, n: string, end: int, live: TtlMap) {
    && Puts(lin, n) == Fetches(lin, n) + RanOut(lin, n, end) + One(n in live)
    && Completes(lin, n) == Fetches(lin, n) + ReadyRanOut(lin, n, end) + One(IsReady(live, n))
  }

  lemma {:induction false} ReadyAreFewer(lin: seq<Effect>, n: string)
    ensures ReadyExpirations(lin, n) <= Expirations(lin, n)
  {
    if lin != [] {
      ReadyAreFewer(Init(lin), n);
    }
  }

  // ---------------------------------------------------------------- all nonces together

  /** The registrations of `n` that were neither fetched nor have run out. */
  ghost function Left(lin: seq<Effect>, n: string, end: int): int {
    Puts(lin, n) - Fetches(lin, n) - RanOut(lin, n, end)
  }

  ghost function Nonces(lin: seq<Effect>): set<string> {
    set i | 0 <= i < |lin| :: lin[i].call.nonce
  }

  ghost function Pick(s: set<string>): string
    requires s != {}
    ensures Pick(s) in s
  {
    var x :| x in s; x
  }

  ghost function Sum(s: set<string>, f: string -> int): int {
    if s == {} then 0 else f(Pick(s)) + Sum(s - {Pick(s)}, f)
  }

  lemma {:induction false} SumCountsMembers(s: set<string>, f: string -> int, members: set<string>)
    requires members <= s && forall n | n in s :: f(n) == One(n in members)
    ensures Sum(s, f) == |members|
  {
    if s == {} {
      assert members == {};
    } else {
      var x := Pick(s);
      SumCountsMembers(s - {x}, f, members - {x});
    }
  }

  /** Len counts exactly the registrations that were neither fetched nor have run out: at any instant
      the number of live entries is their sum over all nonces. */
  lemma LenIsWhatIsLeft(lin: seq<Effect>, end: int)
    requires Legal(lin)
    ensures |Live(SweptAfter(lin), end)| == Sum(Nonces(lin), n => Left(lin, n, end))
  {
    var live := Live(SweptAfter(lin), end);
    forall n
      ensures Left(lin, n, end) == One(n in live.Keys)
    {
      Conservation(lin, n, end);
    }
    forall n | n in live
      ensures n in Nonces(lin)
    {
      Conservation(lin, n, end);
      CountedIsThere(lin, n);
    }
    SumCountsMembers(Nonces(lin), n => Left(lin, n, end), live.Keys);
    assert |live| == |live.Keys|;
  }

  lemma {:induction false} CountedIsThere(lin: seq<Effect>, n: string)
    requires Puts(lin, n) > 0
    ensures n in Nonces(lin)
  {
    if Puts(Init(lin), n) > 0 {
      CountedIsThere(Init(lin), n);
      assert Nonces(Init(lin)) <= Nonces(lin);
    }
  }

  // ---------------------------------------------------------------- concurrent runs

  /** In any concurrent run, two different calls that were both handed an entry for `n` are
      separated by a registration and a completion of `n` that took effect in between. */
  lemma ConcurrentFetchersShareNothing(run: seq<L.State>, p: nat, q: nat, n: string)
      returns (a: nat, b: nat, z: nat, x: nat)
    requires L.IsRun(run)
    requires var h := Last(run).history;
             && p < |h| && q < |h| && h[p].id != h[q].id
             && h[p].Returned? && h[p].reply.Fetched? && h[p].reply.entry.nonce == n
             && h[q].Returned? && h[q].reply.Fetched? && h[q].reply.entry.nonce == n
    ensures var lin, h := Last(run).lin, Last(run).history;
            && a < |lin| && b < |lin| && {lin[a].id, lin[b].id} == {h[p].id, h[q].id}
            && a < z < x < b && IsPut(lin[z], n) && IsComplete(lin[x], n)
  {
    L.RunIsLinearizable(run);
    var lin, h := Last(run).lin, Last(run).history;
    a := FetchEffect(lin, h[p].id, h[p].reply, h[p].at, n);
    b := FetchEffect(lin, h[q].id, h[q].reply, h[q].at, n);
    if b < a {
      a, b := b, a;
    }
    z, x := FetchedAtMostOnce(lin, a, b, n);
  }

  lemma FetchEffect(lin: seq<Effect>, id: nat, reply: Reply, until: int, n: string) returns (a: nat)
    requires Legal(lin) && L.Accounted(lin, id, reply, until)
    requires reply.Fetched? && reply.entry.nonce == n
    ensures a < |lin| && lin[a].id == id && IsFetch(lin[a], n)
  {
    a :| a < |lin| && lin[a].id == id && lin[a].reply == reply;
    NextCall(lin, a);
  }

  /** In any concurrent run, at any instant, no more fetches than completions and no more
      completions than registrations have taken effect, and the difference is accounted for; and while
      nobody holds the mutex, by the very entries of the store. */
  lemma ConcurrentConservation(run: seq<L.State>, n: string, end: int)
    requires L.IsRun(run)
    ensures Fetches(Last(run).lin, n) <= Completes(Last(run).lin, n) <= Puts(Last(run).lin, n)
    ensures Balanced(Last(run).lin, n, end, Live(SweptAfter(Last(run).lin), end))
    ensures var s := Last(run);
            s.holder == None ==>
              && Balanced(s.lin, n, s.clock, Live(s.entries, s.clock))
              && |Live(s.entries, s.clock)| == Sum(Nonces(s.lin), k => Left(s.lin, k, s.clock))
  {
    L.RunKeepsInv(run, |run| - 1);
    var s := Last(run);
    Conservation(s.lin, n, end);
    if s.holder == None {
      EntriesAreTheHistory(s);
      Conservation(s.lin, n, s.clock);
      LenIsWhatIsLeft(s.lin, s.clock);
    }
  }

  /** Between two critical sections the store holds what the history left. */
  lemma EntriesAreTheHistory(s: L.State)
    requires L.Inv(s) && s.holder == None
    ensures Live(s.entries, s.clock) == Live(SweptAfter(s.lin), s.clock)
  {
    LegalIsMonotone(s.lin);
    SweepKeepsLive(s.lin, s.clock);
  }
}
