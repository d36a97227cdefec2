/** The converse of linearizability: every sequential history there is happens, statement by statement,
    with every call sweeping and writing at the very readings the history says. So the goroutines of
    module Linearizability allow neither less nor more than the store contract. */
module SequentialRuns {
  import opened Wrappers
  import opened Pairing
  import opened History
  import opened Linearizability

  // ---------------------------------------------------------------- paths of statements

  ghost predicate Path(ts: seq<State>) {
    |ts| > 0 && forall i | 0 <= i < |ts| - 1 :: Statement(ts[i], ts[i + 1])
  }

  /** Statements lead from `s` to `s'`, with nobody starting or returning. */
  ghost predicate Leads(s: State, s': State) {
    exists ts :: Path(ts) && ts[0] == s && Last(ts) == s'
  }

  lemma OneStatement(s: State, s': State)
    requires Statement(s, s')
    ensures Leads(s, s')
  {
    var ts := [s, s'];
    assert Path(ts) && ts[0] == s && Last(ts) == s';
  }

  lemma Then(s: State, m: State, s': State)
    requires Leads(s, m) && Leads(m, s')
    ensures Leads(s, s')
  {
    var p :| Path(p) && p[0] == s && Last(p) == m;
    var q :| Path(q) && q[0] == m && Last(q) == s';
    var ts := p + q[1..];
    forall i | 0 <= i < |ts| - 1
      ensures Statement(ts[i], ts[i + 1])
    {
      if i < |p| - 1 {
        assert Statement(p[i], p[i + 1]);
      } else {
        assert Statement(q[i - |p| + 1], q[i - |p| + 1 + 1]);
      }
    }
    assert Path(ts) && ts[0] == s && Last(ts) == s';
  }

  lemma Extend(run: seq<State>, next: State) returns (longer: seq<State>)
    requires IsRun(run) && Step(Last(run), next)
    ensures IsRun(longer) && Last(longer) == next
  {
    longer := run + [next];
    forall i | 0 <= i < |longer| - 1
      ensures Step(longer[i], longer[i + 1])
    {
      if i < |run| - 1 {
        assert Step(run[i], run[i + 1]);
      } else {
        assert run[i] == Last(run);
      }
    }
  }

  lemma {:induction false} Follow(run: seq<State>, ts: seq<State>) returns (longer: seq<State>)
    requires IsRun(run) && Path(ts) && ts[0] == Last(run)
    ensures IsRun(longer) && Last(longer) == Last(ts)
    decreases |ts|
  {
    if |ts| == 1 {
      longer := run;
    } else {
      assert Statement(ts[0], ts[0 + 1]);
      longer := Extend(run, ts[1]);
      forall i | 0 <= i < |ts[1..]| - 1
        ensures Statement(ts[1..][i], ts[1..][i + 1])
      {
        assert Statement(ts[i + 1], ts[i + 1 + 1]);
      }
      longer := Follow(longer, ts[1..]);
    }
  }

  // ---------------------------------------------------------------- one undisturbed call

  /** `s` with one goroutine, inside its critical section. */
  function Solo(s: State, id: nat, call: Call, pc: Pc): State {
    s.(holder := Some(id), threads := map[id := Thread(call, pc)])
  }

  /** `s` with one goroutine, outside. */
  function Outside(s: State, id: nat, call: Call, pc: Pc): State {
    s.(holder := None, threads := map[id := Thread(call, pc)])
  }

  lemma SoloStatement(s: State, id: nat, call: Call, pc: Pc, next: State)
    requires LockedStep(Solo(s, id, call, pc), next, id)
    ensures Leads(Solo(s, id, call, pc), next)
  {
    OneStatement(Solo(s, id, call, pc), next);
  }

  lemma ClockAdvances(s: State, id: nat, call: Call, pc: Pc, now: int)
    requires s.clock <= now
    ensures Leads(Solo(s, id, call, pc), Solo(s.(clock := now), id, call, pc))
  {
    assert Tick(Solo(s, id, call, pc), Solo(s.(clock := now), id, call, pc));
    OneStatement(Solo(s, id, call, pc), Solo(s.(clock := now), id, call, pc));
  }

  /** From its start to its sweep, which reads the clock at `now`. */
  lemma Enter(s: State, id: nat, call: Call, now: int)
    requires s.clock <= now
    ensures Leads(Outside(s, id, call, AtContext), Solo(s.(clock := now), id, call, Sweeping(now, s.entries.Keys)))
  {
    var s0, s1 := Outside(s, id, call, AtContext), Outside(s, id, call, AtLock);
    assert CheckContext(s0, s1, id, None);
    OneStatement(s0, s1);
    var s2 := Solo(s, id, call, AtSweepClock);
    assert s2 == Goto(s1, id, AtSweepClock).(holder := Some(id));
    assert LockedStep(s1, s2, id);
    OneStatement(s1, s2);
    Then(s0, s1, s2);
    ClockAdvances(s, id, call, AtSweepClock, now);
    var s3 := Solo(s.(clock := now), id, call, AtSweepClock);
    Then(s0, s2, s3);
    var s4 := Solo(s.(clock := now), id, call, Sweeping(now, s.entries.Keys));
    assert SweepStart(s3, s4, id);
    SoloStatement(s.(clock := now), id, call, AtSweepClock, s4);
    Then(s0, s3, s4);
  }

  /** What is left when the sweep has visited `k`. */
  function Visited(m: TtlMap, k: string, now: int): TtlMap {
    if k in m && Expired(m[k], now) then m - {k} else m
  }

  /** The sweep, in some order. */
  lemma {:induction false} Sweep(s: State, id: nat, call: Call, now: int, pending: set<string>)
    requires forall k | k in s.entries && k !in pending :: !Expired(s.entries[k], now)
    ensures Leads(Solo(s, id, call, Sweeping(now, pending)),
                  Solo(s.(entries := Live(s.entries, now)), id, call, AtLookup(now)))
    decreases |pending|
  {
    var s0 := Solo(s, id, call, Sweeping(now, pending));
    if pending == {} {
      assert Live(s.entries, now) == s.entries;
      SoloStatement(s, id, call, Sweeping(now, pending), Solo(s, id, call, AtLookup(now)));
    } else {
      var k :| k in pending;
      var visited := s.(entries := Visited(s.entries, k, now));
      var s1 := Solo(visited, id, call, Sweeping(now, pending - {k}));
      assert SweepVisit(s0, s1, id, k);
      OneStatement(s0, s1);
      Sweep(visited, id, call, now, pending - {k});
      assert Live(visited.entries, now) == Live(s.entries, now);
      Then(s0, s1, Solo(s.(entries := Live(s.entries, now)), id, call, AtLookup(now)));
    }
  }

  /** The effect is what the store contract says of swept entries, and a call that writes nothing down
      has no second reading. */
  ghost predicate IsAnswer(entries: TtlMap, e: Effect) {
    && e.reply == Apply(entries, e.call, e.now, e.stamp).1
    && e.now <= e.stamp && (e.reply != Done ==> e.stamp == e.now)
  }

  function AfterCall(entries: TtlMap, e: Effect): TtlMap {
    Apply(entries, e.call, e.now, e.stamp).0
  }

  /** From the lookup to the release, with the second reading at `e.stamp`. */
  lemma Work(s: State, id: nat, e: Effect)
    requires s.clock == e.now && Live(s.entries, e.now) == s.entries && IsAnswer(s.entries, e)
    ensures Leads(Solo(s, id, e.call, AtLookup(e.now)),
                  Solo(s.(clock := e.stamp, entries := AfterCall(s.entries, e)), id, e.call,
                       AtUnlock(e.now, e.stamp, e.reply)))
  {
    var n, pc := e.call.nonce, AfterLookup(e.call, s.entries, e.now);
    SweptIsLive(s.entries, n, e.now);
    var s0, s1 := Solo(s, id, e.call, AtLookup(e.now)), Solo(s, id, e.call, pc);
    assert Lookup(s0, s1, id);
    SoloStatement(s, id, e.call, AtLookup(e.now), s1);
    if e.reply == Done && e.call.Put? {
      Insert(s, id, e);
      Then(s0, s1, Solo(s.(clock := e.stamp, entries := AfterCall(s.entries, e)), id, e.call, AtUnlock(e.now, e.stamp, Done)));
    } else if e.reply == Done {
      Fill(s, id, e);
      Then(s0, s1, Solo(s.(clock := e.stamp, entries := AfterCall(s.entries, e)), id, e.call, AtUnlock(e.now, e.stamp, Done)));
    } else if e.reply.Fetched? {
      var s2 := Solo(s.(entries := s.entries - {n}), id, e.call, AtUnlock(e.now, e.now, e.reply));
      assert Write(s1, s2, id);
      SoloStatement(s, id, e.call, pc, s2);
      Then(s0, s1, s2);
    }
  }

  /** Put reads the clock again and inserts. */
  lemma Insert(s: State, id: nat, e: Effect)
    requires s.clock == e.now <= e.stamp && e.call.Put?
    ensures Leads(Solo(s, id, e.call, AtPutClock(e.now)),
                  Solo(s.(clock := e.stamp, entries := s.entries[e.call.nonce := NewSlot(e.stamp + e.call.ttl)]), id, e.call,
                       AtUnlock(e.now, e.stamp, Done)))
  {
    var late := s.(clock := e.stamp);
    var s0, s1 := Solo(s, id, e.call, AtPutClock(e.now)), Solo(late, id, e.call, AtPutClock(e.now));
    ClockAdvances(s, id, e.call, AtPutClock(e.now), e.stamp);
    var s2 := Solo(late, id, e.call, AtInsert(e.now, e.stamp));
    assert ReadClock(s1, s2, id);
    SoloStatement(late, id, e.call, AtPutClock(e.now), s2);
    Then(s0, s1, s2);
    var s3 := Solo(late.(entries := s.entries[e.call.nonce := NewSlot(e.stamp + e.call.ttl)]), id, e.call,
                   AtUnlock(e.now, e.stamp, Done));
    assert Write(s2, s3, id);
    SoloStatement(late, id, e.call, AtInsert(e.now, e.stamp), s3);
    Then(s0, s2, s3);
  }

  function With(s: State, n: string, slot: Slot): State {
    s.(entries := s.entries[n := slot])
  }

  /** Complete fills three fields, reads the clock again, and fills the fourth. */
  lemma Fill(s: State, id: nat, e: Effect)
    requires s.clock == e.now <= e.stamp && e.call.Complete? && e.call.nonce in s.entries
    ensures var n := e.call.nonce;
            var ready := s.entries[n].(status := Ready, token := e.call.token, botUsername := e.call.botUsername,
                                       completedAt := e.stamp);
            Leads(Solo(s, id, e.call, AtSetStatus(e.now)),
                  Solo(With(s.(clock := e.stamp), n, ready), id, e.call, AtUnlock(e.now, e.stamp, Done)))
  {
    var n, slot := e.call.nonce, s.entries[e.call.nonce];
    var s0 := Solo(s, id, e.call, AtSetStatus(e.now));
    FillThree(s, id, e);
    var full := With(s, n, slot.(status := Ready, token := e.call.token, botUsername := e.call.botUsername));
    var s1 := Solo(full, id, e.call, AtCompleteClock(e.now));
    var late := full.(clock := e.stamp);
    ClockAdvances(full, id, e.call, AtCompleteClock(e.now), e.stamp);
    var s2 := Solo(late, id, e.call, AtCompleteClock(e.now));
    Then(s0, s1, s2);
    var s3 := Solo(late, id, e.call, AtSetCompleted(e.now, e.stamp));
    assert ReadClock(s2, s3, id);
    SoloStatement(late, id, e.call, AtCompleteClock(e.now), s3);
    Then(s0, s2, s3);
    var done := With(late, n, late.entries[n].(completedAt := e.stamp));
    var s4 := Solo(done, id, e.call, AtUnlock(e.now, e.stamp, Done));
    assert Write(s3, s4, id);
    SoloStatement(late, id, e.call, AtSetCompleted(e.now, e.stamp), s4);
    Then(s0, s3, s4);
    assert done.entries == s.entries[n := late.entries[n].(completedAt := e.stamp)];
  }

  lemma FillThree(s: State, id: nat, e: Effect)
    requires e.call.Complete? && e.call.nonce in s.entries
    ensures var n := e.call.nonce;
            var full := s.entries[n].(status := Ready, token := e.call.token, botUsername := e.call.botUsername);
            Leads(Solo(s, id, e.call, AtSetStatus(e.now)), Solo(With(s, n, full), id, e.call, AtCompleteClock(e.now)))
  {
    var n, slot := e.call.nonce, s.entries[e.call.nonce];
    var s0 := Solo(s, id, e.call, AtSetStatus(e.now));
    var a := With(s, n, slot.(status := Ready));
    var s1 := Solo(a, id, e.call, AtSetToken(e.now));
    SoloStatement(s, id, e.call, AtSetStatus(e.now), s1);
    var b := With(s, n, slot.(status := Ready, token := e.call.token));
    var s2 := Solo(b, id, e.call, AtSetUsername(e.now));
    assert b.entries == a.entries[n := a.entries[n].(token := e.call.token)];
    SoloStatement(a, id, e.call, AtSetToken(e.now), s2);
    Then(s0, s1, s2);
    var c := With(s, n, slot.(status := Ready, token := e.call.token, botUsername := e.call.botUsername));
    var s3 := Solo(c, id, e.call, AtCompleteClock(e.now));
    assert c.entries == b.entries[n := b.entries[n].(botUsername := e.call.botUsername)];
    SoloStatement(b, id, e.call, AtSetUsername(e.now), s3);
    Then(s0, s2, s3);
  }

  /** `s` after the call of effect `e`, about to return. */
  function Ended(s: State, e: Effect): State {
    Outside(s.(clock := e.stamp, entries := AfterCall(Live(s.entries, e.now), e), lin := s.lin + [e]),
            e.id, e.call, AtReturn(e.reply))
  }

  /** An undisturbed call runs through, at any two readings of the clock, and does exactly what the
      contract says. */
  lemma UndisturbedCall(s: State, e: Effect)
    requires s.clock <= e.now && IsAnswer(Live(s.entries, e.now), e)
    ensures Leads(Outside(s, e.id, e.call, AtContext), Ended(s, e))
  {
    var s0 := Outside(s, e.id, e.call, AtContext);
    var at := s.(clock := e.now);
    Enter(s, e.id, e.call, e.now);
    Sweep(at, e.id, e.call, e.now, s.entries.Keys);
    var swept := at.(entries := Live(s.entries, e.now));
    var s2 := Solo(swept, e.id, e.call, AtLookup(e.now));
    Then(s0, Solo(at, e.id, e.call, Sweeping(e.now, s.entries.Keys)), s2);
    LiveTwice(s.entries, e.now);
    Work(swept, e.id, e);
    var done := swept.(clock := e.stamp, entries := AfterCall(swept.entries, e));
    var s3 := Solo(done, e.id, e.call, AtUnlock(e.now, e.stamp, e.reply));
    Then(s0, s2, s3);
    assert Ended(s, e).threads == s3.threads[e.id := Thread(e.call, AtReturn(e.reply))];
    assert Unlock(s3, Ended(s, e), e.id);
    OneStatement(s3, Ended(s, e));
    Then(s0, s3, Ended(s, e));
  }

  // ---------------------------------------------------------------- whole histories

  /** One call after the other, each between its two readings. */
  ghost predicate Sequential(lin: seq<Effect>) {
    && Legal(lin) && Distinct(lin)
    && (forall i | 0 <= i < |lin| :: lin[i].now <= lin[i].stamp && (lin[i].reply != Done ==> lin[i].stamp == lin[i].now))
    && forall i | 0 <= i < |lin| - 1 :: lin[i].stamp <= lin[i + 1].now
  }

  /** What the callers of such a history see. */
  function Events(lin: seq<Effect>): seq<Event> {
    if lin == [] then []
    else
      var e := Last(lin);
      Events(Init(lin)) + [Invoked(e.id, e.call, e.now), Returned(e.id, e.reply, e.stamp)]
  }

  /** A call from an idle store, from its invocation to its return. */
  lemma Perform(run: seq<State>, e: Effect) returns (longer: seq<State>)
    requires IsRun(run)
    requires var s := Last(run);
             && s.holder == None && s.threads == map[] && (forall v | v in s.history :: v.id != e.id)
             && s.clock <= e.now && IsAnswer(Live(s.entries, e.now), e)
    ensures IsRun(longer)
    ensures var s := Last(run);
            Last(longer) == s.(clock := e.stamp, entries := AfterCall(Live(s.entries, e.now), e), lin := s.lin + [e],
                               history := s.history + [Invoked(e.id, e.call, e.now), Returned(e.id, e.reply, e.stamp)])
  {
    var s := Last(run);
    var later := s.(clock := e.now);
    assert Tick(s, later);
    longer := Extend(run, later);
    var started := later.(history := s.history + [Invoked(e.id, e.call, e.now)]);
    assert Invoke(later, Outside(started, e.id, e.call, AtContext), e.id, e.call);
    longer := Extend(longer, Outside(started, e.id, e.call, AtContext));
    UndisturbedCall(started, e);
    var ts :| Path(ts) && ts[0] == Outside(started, e.id, e.call, AtContext) && Last(ts) == Ended(started, e);
    longer := Follow(longer, ts);
    var end := Ended(started, e);
    var next := end.(threads := end.threads - {e.id}, history := end.history + [Returned(e.id, e.reply, e.stamp)]);
    assert Return(end, next, e.id);
    longer := Extend(longer, next);
    assert next.threads == map[];
    assert next.history == s.history + [Invoked(e.id, e.call, e.now), Returned(e.id, e.reply, e.stamp)];
  }

  lemma {:induction false} EventIds(lin: seq<Effect>, v: Event)
    requires v in Events(lin)
    ensures exists i :: 0 <= i < |lin| && lin[i].id == v.id
  {
    if v in Events(Init(lin)) {
      EventIds(Init(lin), v);
      var i :| 0 <= i < |Init(lin)| && Init(lin)[i].id == v.id;
      assert lin[i].id == v.id;
    } else {
      assert lin[|lin| - 1].id == v.id;
    }
  }

  /** Every sequential history is that of a run: the mutex is released in its order, the callers see its
      events, and the entries are what it leaves. */
  lemma {:induction false} SequentialHistoriesHappen(lin: seq<Effect>, t: int) returns (run: seq<State>)
    requires Sequential(lin) && (lin != [] ==> t <= lin[0].now)
    ensures IsRun(run)
    ensures Last(run) == State(if lin == [] then t else Last(lin).stamp, None, SweptAfter(lin), map[], Events(lin), lin)
  {
    if lin == [] {
      run := [State(t, None, map[], map[], [], [])];
    } else {
      var init, e := Init(lin), Last(lin);
      run := SequentialHistoriesHappen(init, t);
      forall v | v in Events(init)
        ensures v.id != e.id
      {
        EventIds(init, v);
      }
      LegalIsMonotone(init);
      SweptAnswer(init, e.call, e.now, e.stamp);
      run := Perform(run, e);
      assert init + [e] == lin;
    }
  }

  /** A cancelled context is reported, and the call has no effect. */
  lemma CancelledCallHappens(run: seq<State>, id: nat, call: Call, cause: CtxError) returns (longer: seq<State>)
    requires IsRun(run)
    requires id !in Last(run).threads && forall v | v in Last(run).history :: v.id != id
    ensures IsRun(longer)
    ensures var s := Last(run);
            Last(longer) == s.(history := s.history + [Invoked(id, call, s.clock),
                                                       Returned(id, Failed(ErrContext(cause)), s.clock)])
  {
    var s := Last(run);
    var s1 := s.(threads := s.threads[id := Thread(call, AtContext)], history := s.history + [Invoked(id, call, s.clock)]);
    assert Invoke(s, s1, id, call);
    longer := Extend(run, s1);
    var s2 := Goto(s1, id, AtReturn(Failed(ErrContext(cause))));
    assert CheckContext(s1, s2, id, Some(cause));
    longer := Extend(longer, s2);
    var s3 := s2.(threads := s2.threads - {id}, history := s2.history + [Returned(id, Failed(ErrContext(cause)), s.clock)]);
    assert Return(s2, s3, id);
    longer := Extend(longer, s3);
    assert s3.threads == s.threads;
    assert s3.history == s.history + [Invoked(id, call, s.clock), Returned(id, Failed(ErrContext(cause)), s.clock)];
  }
}
