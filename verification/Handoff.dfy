/** The handoff on the in-process store, with every statement of every store call a step of its own:
    the callers of module Protocol over the goroutines of module Linearizability. Every run of it is a
    run of Protocol, so all that holds there holds of calls caught half-way. */
module Handoff {
  import opened Wrappers
  import opened Pairing
  import opened History
  import opened Ledger
  import L = Linearizability
  import opened Text
  import opened Nonce
  import opened Manager
  import opened SequentialRuns
  import P = Protocol

  datatype State = State(store: L.State, callers: P.Callers)

  ghost predicate Initial(s: State) {
    L.Initial(s.store) && s.callers == P.NOBODY
  }

  // ---------------------------------------------------------------- the steps

  ghost predicate StoreStep(s: State, s': State) {
    s'.callers == s.callers && L.Statement(s.store, s'.store)
  }

  /** Somebody calls the store: a goroutine starts. */
  ghost predicate SendStep(s: State, s': State, id: nat) {
    && P.SendStep(s.callers, s'.callers, s.store.clock, id)
    && id !in s.callers.flights && id in s'.callers.flights
    && L.Invoke(s.store, s'.store, id, s'.callers.flights[id].call)
  }

  /** A PUT request is refused, and the store hears nothing of it. */
  ghost predicate RefuseStep(s: State, s': State, id: nat) {
    s'.store == s.store && P.SendStep(s.callers, s'.callers, s.store.clock, id) && id !in s'.callers.flights
  }

  /** A store call returns, and its caller hears the reply, or an error if the two have lost each other. */
  ghost predicate ReturnStep(s: State, s': State, id: nat, reply: Reply) {
    && L.Return(s.store, s'.store, id)
    && (reply == s.store.threads[id].pc.reply || P.IsBreak(reply))
    && id in s.callers.flights && s'.callers == P.Hears(s.callers, id, reply)
  }

  ghost predicate QuietStep(setup: P.Setup, s: State, s': State, j: nat) {
    s'.store == s.store && P.QuietStep(setup, s.callers, s'.callers, s.store.clock, j)
  }

  ghost predicate Step(setup: P.Setup, s: State, s': State) {
    || StoreStep(s, s')
    || (exists id: nat :: SendStep(s, s', id))
    || (exists id: nat :: RefuseStep(s, s', id))
    || (exists id: nat, reply :: ReturnStep(s, s', id, reply))
    || (exists j: nat :: QuietStep(setup, s, s', j))
  }

  ghost predicate IsRun(setup: P.Setup, run: seq<State>) {
    && |run| > 0 && Initial(run[0])
    && forall i | 0 <= i < |run| - 1 :: Step(setup, run[i], run[i + 1])
  }

  // ---------------------------------------------------------------- the two halves

  function Stores(run: seq<State>): (ts: seq<L.State>)
    ensures |ts| == |run| && forall i | 0 <= i < |run| :: ts[i] == run[i].store
  {
    seq(|run|, i requires 0 <= i < |run| => run[i].store)
  }

  /** What Protocol sees of a state: of the store, only the clock and the calls that took effect. */
  function Seen(s: State): P.State {
    P.State(s.store.clock, s.store.lin, s.callers)
  }

  function SeenRun(run: seq<State>): (ps: seq<P.State>)
    ensures |ps| == |run| && forall i | 0 <= i < |run| :: ps[i] == Seen(run[i])
  {
    seq(|run|, i requires 0 <= i < |run| => Seen(run[i]))
  }

  /** Goroutines are flights nobody has heard from, and the history tells when they were sent. */
  ghost predicate Linked(s: State) {
    && (forall id | id in s.store.threads ::
          P.InFlight(s.callers, id) && s.callers.flights[id].call == s.store.threads[id].call)
    && (forall e | e in s.store.history :: e.id in s.callers.flights)
    && (forall e | e in s.store.history && e.Invoked? :: s.callers.flights[e.id].at == e.at)
    && forall id | id in s.callers.answered :: id in s.callers.flights
  }

  ghost predicate Inv(s: State) {
    L.Inv(s.store) && Linked(s)
  }

  lemma StepIsStoreStep(setup: P.Setup, s: State, s': State)
    requires Step(setup, s, s')
    ensures L.Step(s.store, s'.store)
  {
    if s'.store == s.store {
      assert L.Tick(s.store, s'.store);
    }
  }

  /** The same goroutines with the same calls, and nobody started or returned. */
  ghost predicate SameCalls(t: L.State, t': L.State) {
    && t'.threads.Keys == t.threads.Keys && t'.history == t.history
    && forall id | id in t.threads :: t'.threads[id].call == t.threads[id].call
  }

  /** A statement other than a release commits nothing. */
  lemma StatementCommitsNothing(t: L.State, t': L.State)
    requires L.Tick(t, t')
      || (exists id: nat, ctxErr :: L.CheckContext(t, t', id, ctxErr))
      || (exists id: nat, k :: L.SweepVisit(t, t', id, k))
      || (exists id: nat :: L.LockedStep(t, t', id))
    ensures SameCalls(t, t') && t'.lin == t.lin && t.clock <= t'.clock
  {
    if id: nat :| L.LockedStep(t, t', id) {
      L.LockedStepIsQuiet(t, t', id);
    }
  }

  lemma StoreMovesKeepLinks(s: State, s': State)
    requires Linked(s) && StoreStep(s, s')
    ensures Linked(s')
  {
    if id: nat :| L.Unlock(s.store, s'.store, id) {
      assert SameCalls(s.store, s'.store);
    } else {
      StatementCommitsNothing(s.store, s'.store);
    }
    SameCallsKeepLinks(s, s');
  }

  lemma SameCallsKeepLinks(s: State, s': State)
    requires Linked(s) && s'.callers == s.callers && SameCalls(s.store, s'.store)
    ensures Linked(s')
  {
  }

  lemma SendKeepsLinks(s: State, s': State, id: nat)
    requires Linked(s) && SendStep(s, s', id)
    ensures Linked(s')
  {
    P.WhatIsSent(s.callers, s'.callers, s.store.clock, id);
  }

  lemma ReturnKeepsLinks(s: State, s': State, id: nat, reply: Reply)
    requires Linked(s) && ReturnStep(s, s', id, reply)
    ensures Linked(s')
  {
  }

  lemma StepKeepsLinks(setup: P.Setup, s: State, s': State)
    requires Linked(s) && Step(setup, s, s')
    ensures Linked(s')
  {
    if StoreStep(s, s') {
      StoreMovesKeepLinks(s, s');
    } else if id: nat :| SendStep(s, s', id) {
      SendKeepsLinks(s, s', id);
    } else if id: nat :| RefuseStep(s, s', id) {
      P.WhatIsSent(s.callers, s'.callers, s.store.clock, id);
    } else if id: nat, reply :| ReturnStep(s, s', id, reply) {
      ReturnKeepsLinks(s, s', id, reply);
    }
  }

  // ---------------------------------------------------------------- refinement

  /** Releasing the mutex is when a call takes effect. */
  lemma UnlockIsEffect(s: State, s': State, id: nat)
    requires Inv(s) && s'.callers == s.callers && L.Unlock(s.store, s'.store, id)
    ensures var pc := s.store.threads[id].pc; P.TakesEffect(Seen(s), Seen(s'), id, pc.now, pc.stamp)
  {
    var t := s.store;
    var call, pc := t.threads[id].call, t.threads[id].pc;
    assert t.holder == Some(id);
    assert L.ThreadInv(t, id);
    assert L.WasInvoked(t.history, id, call, pc.now);
    L.LiveTwice(After(t.lin), pc.now);
    ApplyIgnoresDead(Live(After(t.lin), pc.now), After(t.lin), call, pc.now, pc.stamp);
  }

  lemma StoreStepRefines(setup: P.Setup, s: State, s': State)
    requires Inv(s) && StoreStep(s, s')
    ensures P.Step(setup, Seen(s), Seen(s'))
  {
    if id: nat :| L.Unlock(s.store, s'.store, id) {
      UnlockIsEffect(s, s', id);
    } else {
      StatementCommitsNothing(s.store, s'.store);
      assert P.Tick(Seen(s), Seen(s'));
    }
  }

  lemma ReturnRefines(setup: P.Setup, s: State, s': State, id: nat, reply: Reply)
    requires Inv(s) && ReturnStep(s, s', id, reply)
    ensures P.Step(setup, Seen(s), Seen(s'))
  {
    var t := s.store;
    assert L.ThreadInv(t, id);
    if !P.IsBreak(reply) {
      assert L.TookEffect(t.lin, id, reply, t.clock);
      var i: nat :| i < |t.lin| && t.lin[i].id == id && t.lin[i].reply == reply;
      assert P.Answers(Seen(s), Seen(s'), i);
    } else {
      assert P.Breaks(Seen(s), Seen(s'), id, reply);
    }
  }

  lemma StepRefines(setup: P.Setup, s: State, s': State)
    requires Inv(s) && Step(setup, s, s')
    ensures P.Step(setup, Seen(s), Seen(s'))
  {
    if StoreStep(s, s') {
      StoreStepRefines(setup, s, s');
    } else if id: nat, reply :| ReturnStep(s, s', id, reply) {
      ReturnRefines(setup, s, s', id, reply);
    } else {
      assert P.CallersStep(setup, Seen(s), Seen(s'));
    }
  }

  lemma StoresRun(setup: P.Setup, run: seq<State>)
    requires IsRun(setup, run)
    ensures L.IsRun(Stores(run))
  {
    var ts := Stores(run);
    forall i | 0 <= i < |ts| - 1
      ensures L.Step(ts[i], ts[i + 1])
    {
      assert Step(setup, run[i], run[i + 1]);
      StepIsStoreStep(setup, run[i], run[i + 1]);
    }
  }

  lemma {:induction false} RunKeepsInv(setup: P.Setup, run: seq<State>, i: nat)
    requires IsRun(setup, run) && i < |run|
    ensures Inv(run[i])
  {
    StoresRun(setup, run);
    L.RunKeepsInv(Stores(run), i);
    if i > 0 {
      RunKeepsInv(setup, run, i - 1);
      assert Step(setup, run[i - 1], run[i - 1 + 1]);
      StepKeepsLinks(setup, run[i - 1], run[i]);
    }
  }

  /** Every run, statement by statement, is a run of Protocol. */
  lemma RunIsProtocolRun(setup: P.Setup, run: seq<State>)
    requires IsRun(setup, run)
    ensures P.IsRun(setup, SeenRun(run)) && Last(SeenRun(run)) == Seen(Last(run))
  {
    var ps := SeenRun(run);
    forall i | 0 <= i < |ps| - 1
      ensures P.Step(setup, ps[i], ps[i + 1])
    {
      RunKeepsInv(setup, run, i);
      assert Step(setup, run[i], run[i + 1]);
      StepRefines(setup, run[i], run[i + 1]);
    }
  }

  // ---------------------------------------------------------------- calls caught half-way

  /** Provenance, with calls in flight: whatever statements the goroutines are at, a token a client has
      received goes back to the one completion of the registration it was fetched from, in time and with
      authority. */
  lemma ReceivedTokenIsAuthorized(setup: P.Setup, run: seq<State>, d: nat) returns (z: nat, x: nat, y: nat)
    requires IsRun(setup, run) && d < |Last(run).callers.receipts|
    ensures var log, c, r := Last(run).store.lin, Last(run).callers, Last(run).callers.receipts[d];
            && y < |log| && log[y].id == r.flight && log[y].reply == Fetched(r.entry)
            && Registration(log, r.entry.nonce, z, y) && Completion(log, r.entry.nonce, z, x, y)
            && log[x].now <= Deadline(log[z]) && log[y].now <= Deadline(log[z])
            && r.entry.token == log[x].call.token && r.entry.botUsername == log[x].call.botUsername
            && P.IsFlown(c.flights, log[x]) && c.flights[log[x].id].source != P.Client
            && P.Authorized(setup, c, log[x].id)
            && (c.flights[log[x].id].source == P.Worker ==>
                  c.puts[log[x].id] == P.PutRequest(true, r.entry.nonce, r.entry.token, r.entry.botUsername))
  {
    RunIsProtocolRun(setup, run);
    z, x, y := P.ReceivedTokenIsAuthorized(setup, SeenRun(run), d);
  }

  /** One-time delivery, with calls in flight. */
  lemma ReceivedAtMostOnce(setup: P.Setup, run: seq<State>, d: nat, d': nat) returns (a: nat, b: nat, z: nat, x: nat)
    requires IsRun(setup, run) && d < d' < |Last(run).callers.receipts|
    requires Last(run).callers.receipts[d].entry.nonce == Last(run).callers.receipts[d'].entry.nonce
    ensures var log, rs := Last(run).store.lin, Last(run).callers.receipts;
            && a < z < x < b < |log| && {log[a].id, log[b].id} == {rs[d].flight, rs[d'].flight}
            && IsPut(log[z], rs[d].entry.nonce) && IsComplete(log[x], rs[d].entry.nonce)
  {
    RunIsProtocolRun(setup, run);
    a, b, z, x := P.ReceivedAtMostOnce(setup, SeenRun(run), d, d');
  }

  // ---------------------------------------------------------------- what can happen

  lemma Append(setup: P.Setup, run: seq<State>, next: State) returns (longer: seq<State>)
    requires IsRun(setup, run) && Step(setup, Last(run), next)
    ensures IsRun(setup, longer) && Last(longer) == next
  {
    longer := run + [next];
    forall i | 0 <= i < |longer| - 1
      ensures Step(setup, longer[i], longer[i + 1])
    {
      if i < |run| - 1 {
        assert Step(setup, run[i], run[i + 1]);
      } else {
        assert run[i] == Last(run);
      }
    }
  }

  /** While callers wait, the store can go down any path of statements. */
  lemma {:induction false} FollowPath(setup: P.Setup, run: seq<State>, ts: seq<L.State>) returns (longer: seq<State>)
    requires IsRun(setup, run) && Path(ts) && ts[0] == Last(run).store
    ensures IsRun(setup, longer) && Last(longer) == State(Last(ts), Last(run).callers)
    decreases |ts|
  {
    if |ts| == 1 {
      longer := run;
    } else {
      assert L.Statement(ts[0], ts[0 + 1]);
      longer := Append(setup, run, State(ts[1], Last(run).callers));
      forall i | 0 <= i < |ts[1..]| - 1
        ensures L.Statement(ts[1..][i], ts[1..][i + 1])
      {
        assert L.Statement(ts[i + 1], ts[i + 1 + 1]);
      }
      longer := FollowPath(setup, longer, ts[1..]);
    }
  }

  /** Calls overlap: whatever calls are in progress, one more can be sent. */
  lemma CallsOverlap(setup: P.Setup, run: seq<State>, id: nat, n: string) returns (longer: seq<State>)
    requires IsRun(setup, run) && id !in Last(run).callers.flights && IsNonce(n)
    ensures IsRun(setup, longer)
    ensures var s, s' := Last(run), Last(longer);
            && s'.store.threads == s.store.threads[id := L.Thread(FetchAndDelete(n), L.AtContext)]
            && s'.store.holder == s.store.holder && s'.store.entries == s.store.entries && s'.store.lin == s.store.lin
            && P.InFlight(s'.callers, id)
  {
    var s := Last(run);
    RunKeepsInv(setup, run, |run| - 1);
    var call := FetchAndDelete(n);
    var c := s.callers.(flights := s.callers.flights[id := P.Flight(P.Client, call, s.store.clock)]);
    assert P.Poll(s.callers, c, s.store.clock, id, n);
    var t := s.store.(threads := s.store.threads[id := L.Thread(call, L.AtContext)],
                      history := s.store.history + [L.Invoked(id, call, s.store.clock)]);
    assert L.Invoke(s.store, t, id, call);
    assert SendStep(s, State(t, c), id);
    longer := Append(setup, run, State(t, c));
  }

  ghost predicate Idle(s: State) {
    s.store.holder == None && s.store.threads == map[]
  }

  /** The store after one more call, which took both its readings at the present instant. */
  function Served(t: L.State, e: Effect): L.State {
    t.(entries := AfterCall(Live(t.entries, t.clock), e), lin := t.lin + [e],
       history := t.history + [L.Invoked(e.id, e.call, t.clock), L.Returned(e.id, e.reply, t.clock)])
  }

  /** On an idle store whatever callers send is served at once, and its sender hears the answer or loses it. */
  lemma CallIsServed(setup: P.Setup, run: seq<State>, c: P.Callers, e: Effect, heard: Reply) returns (longer: seq<State>)
    requires IsRun(setup, run) && Idle(Last(run))
    requires P.SendStep(Last(run).callers, c, Last(run).store.clock, e.id)
    requires e.id !in Last(run).callers.flights && e.id in c.flights && e.call == c.flights[e.id].call
    requires e.now == e.stamp == Last(run).store.clock && IsAnswer(Live(Last(run).store.entries, e.now), e)
    requires heard == e.reply || P.IsBreak(heard)
    ensures IsRun(setup, longer)
    ensures Last(longer) == State(Served(Last(run).store, e), P.Hears(c, e.id, heard))
  {
    var s := Last(run);
    RunKeepsInv(setup, run, |run| - 1);
    var started := s.store.(history := s.store.history + [L.Invoked(e.id, e.call, e.now)]);
    var sent := State(Outside(started, e.id, e.call, L.AtContext), c);
    assert L.Invoke(s.store, sent.store, e.id, e.call);
    assert SendStep(s, sent, e.id);
    longer := Append(setup, run, sent);
    UndisturbedCall(started, e);
    var ts :| Path(ts) && ts[0] == sent.store && Last(ts) == Ended(started, e);
    longer := FollowPath(setup, longer, ts);
    var ended := Last(longer);
    var next := State(Served(s.store, e), P.Hears(c, e.id, heard));
    ReturnsFrom(s.store, started, e);
    assert ReturnStep(ended, next, e.id, heard);
    longer := Append(setup, longer, next);
  }

  lemma ReturnsFrom(t: L.State, started: L.State, e: Effect)
    requires t.holder == None && t.threads == map[] && e.now == e.stamp == t.clock
    requires started == t.(history := t.history + [L.Invoked(e.id, e.call, e.now)])
    ensures L.Return(Ended(started, e), Served(t, e), e.id)
  {
    var ended := Ended(started, e);
    assert ended.threads - {e.id} == map[];
    assert ended.history + [L.Returned(e.id, e.reply, e.now)] == Served(t, e).history;
  }

  /** A client can register any free nonce. */
  lemma PostIsServed(setup: P.Setup, run: seq<State>, id: nat, n: string, ttl: int) returns (longer: seq<State>)
    requires IsRun(setup, run) && Idle(Last(run)) && id !in Last(run).callers.flights && IsNonce(n)
    requires !IsLive(Last(run).store.entries, n, Last(run).store.clock)
    ensures IsRun(setup, longer) && Idle(Last(longer)) && Last(longer).store.clock == Last(run).store.clock
    ensures var s, s' := Last(run), Last(longer);
            && s'.store.entries == Live(s.store.entries, s.store.clock)[n := NewSlot(s.store.clock + ttl)]
            && s'.callers.flights.Keys == s.callers.flights.Keys + {id} && s'.callers.puts == s.callers.puts
            && s'.callers.jobs == s.callers.jobs && s'.callers.receipts == s.callers.receipts
  {
    var s, t := Last(run), Last(run).store.clock;
    var c := s.callers.(flights := s.callers.flights[id := P.Flight(P.Client, Put(n, ttl), t)]);
    assert P.Post(s.callers, c, t, id, n, ttl);
    SweptIsLive(s.store.entries, n, t);
    longer := CallIsServed(setup, run, c, Effect(id, Put(n, ttl), t, t, Done), Done);
  }

  /** An authenticated PUT request completes a waiting registration. */
  lemma PutIsServed(setup: P.Setup, run: seq<State>, id: nat, n: string, token: string, user: string)
      returns (longer: seq<State>)
    requires IsRun(setup, run) && Idle(Last(run)) && id !in Last(run).callers.flights && id !in Last(run).callers.puts
    requires IsNonce(n) && token != "" && user != ""
    requires var t := Last(run).store; IsLive(t.entries, n, t.clock) && t.entries[n].status == Waiting
    ensures IsRun(setup, longer) && Idle(Last(longer)) && Last(longer).store.clock == Last(run).store.clock
    ensures var t := Last(run).store;
            Last(longer).store.entries
            == Live(t.entries, t.clock)[n := Slot(Ready, token, user, t.entries[n].expiresAt, t.clock)]
  {
    var s, t := Last(run), Last(run).store.clock;
    var put, call := P.PutRequest(true, n, token, user), Complete(n, token, user);
    var c := s.callers.(puts := s.callers.puts[id := put], flights := s.callers.flights[id := P.Flight(P.Worker, call, t)]);
    assert P.WorkerPut(s.callers, c, t, id, put);
    SweptIsLive(s.store.entries, n, t);
    longer := CallIsServed(setup, run, c, Effect(id, call, t, t, Done), Done);
  }

  /** A first delivery of an update completes the waiting registration of the nonce in its username, and
      succeeds. */
  lemma DeliveryIsServed(setup: P.Setup, run: seq<State>, id: nat, j: nat, bot: User, n: string, token: string)
      returns (longer: seq<State>)
    requires IsRun(setup, run) && Idle(Last(run)) && id !in Last(run).callers.flights && j !in Last(run).callers.jobs
    requires Extract(setup.u, bot.username, setup.prefix) == Some(n)
    requires var t := Last(run).store; IsLive(t.entries, n, t.clock) && t.entries[n].status == Waiting
    ensures IsRun(setup, longer) && Idle(Last(longer)) && Last(longer).store.clock == Last(run).store.clock
    ensures var s, s' := Last(run), Last(longer);
            && s'.store.entries
               == Live(s.store.entries, s.store.clock)[
                    n := Slot(Ready, token, bot.username, s.store.entries[n].expiresAt, s.store.clock)]
            && s'.callers.jobs == s.callers.jobs[j := P.Job(bot, P.Finished(P.Success))]
            && s'.callers.flights.Keys == s.callers.flights.Keys + {id} && s'.callers.receipts == s.callers.receipts
  {
    var s, t := Last(run), Last(run).store.clock;
    longer := StartDelivery(setup, run, j, bot, n, token);
    var c := Last(longer).callers;
    var call := Complete(n, token, bot.username);
    var sent := P.Advance(c, j, P.AtAnswer(id)).(flights := c.flights[id := P.Flight(P.Delivery(j, bot), call, t)]);
    assert P.CompleteStage(c, sent, t, id, j);
    SweptIsLive(s.store.entries, n, t);
    longer := CallIsServed(setup, longer, sent, Effect(id, call, t, t, Done), Done);
    assert Last(longer).callers.jobs == s.callers.jobs[j := P.Job(bot, P.Finished(P.Success))];
  }

  lemma StartDelivery(setup: P.Setup, run: seq<State>, j: nat, bot: User, n: string, token: string)
      returns (longer: seq<State>)
    requires IsRun(setup, run) && j !in Last(run).callers.jobs
    requires Extract(setup.u, bot.username, setup.prefix) == Some(n)
    ensures IsRun(setup, longer)
    ensures var s := Last(run);
            Last(longer) == s.(callers := P.Started(s.callers, s.store.clock, j, bot, n, Ok(token)))
  {
    var s := Last(run);
    var c1, c2 := P.StartingSteps(setup, s.callers, s.store.clock, j, bot, n, Ok(token));
    assert QuietStep(setup, s, s.(callers := c1), j);
    longer := Append(setup, run, s.(callers := c1));
    assert QuietStep(setup, s.(callers := c1), s.(callers := c2), j);
    longer := Append(setup, longer, s.(callers := c2));
    var c3 := P.Started(s.callers, s.store.clock, j, bot, n, Ok(token));
    assert QuietStep(setup, s.(callers := c2), s.(callers := c3), j);
    longer := Append(setup, longer, s.(callers := c3));
  }

  /** A poll for a ready registration: it is gone in any case, and unless the reply gets lost the client
      has the token. */
  lemma PollIsServed(setup: P.Setup, run: seq<State>, id: nat, n: string, lost: bool) returns (longer: seq<State>)
    requires IsRun(setup, run) && Idle(Last(run)) && id !in Last(run).callers.flights && IsNonce(n)
    requires var t := Last(run).store; IsLive(t.entries, n, t.clock) && t.entries[n].status == Ready
    ensures IsRun(setup, longer) && Idle(Last(longer)) && Last(longer).store.clock == Last(run).store.clock
    ensures var s, s' := Last(run), Last(longer);
            var slot := s.store.entries[n];
            && s'.store.entries == Live(s.store.entries, s.store.clock) - {n}
            && s'.callers.receipts
               == s.callers.receipts
                  + (if lost then [] else [P.Receipt(Entry(n, slot.token, slot.botUsername, slot.completedAt), id)])
            && s'.callers.jobs == s.callers.jobs
  {
    var s, t := Last(run), Last(run).store.clock;
    var slot := s.store.entries[n];
    var c := s.callers.(flights := s.callers.flights[id := P.Flight(P.Client, FetchAndDelete(n), t)]);
    assert P.Poll(s.callers, c, t, id, n);
    SweptIsLive(s.store.entries, n, t);
    var reply := Fetched(Entry(n, slot.token, slot.botUsername, slot.completedAt));
    longer := CallIsServed(setup, run, c, Effect(id, FetchAndDelete(n), t, t, reply),
                           if lost then Failed(ErrBackend("connection reset")) else reply);
  }

  /** The whole handoff happens, statement by statement: a client registers a nonce, the manager completes it
      on the first delivery with the token it was granted, and the client receives that token. */
  lemma TokenIsHandedOver(setup: P.Setup, bot: User, n: string, token: string, ttl: int, t: int)
      returns (run: seq<State>)
    requires Extract(setup.u, bot.username, setup.prefix) == Some(n) && IsNonce(n) && ttl >= 0
    ensures IsRun(setup, run)
    ensures var s := Last(run);
            && s.callers.receipts == [P.Receipt(Entry(n, token, bot.username, t), 2)]
            && s.callers.jobs == map[0 := P.Job(bot, P.Finished(P.Success))]
            && s.store.entries == map[]
  {
    run := [State(L.State(t, None, map[], map[], [], []), P.NOBODY)];
    run := PostIsServed(setup, run, 0, n, ttl);
    run := DeliveryIsServed(setup, run, 1, 0, bot, n, token);
    run := PollIsServed(setup, run, 2, n, false);
    assert Last(run).store.entries == map[];
  }
}
