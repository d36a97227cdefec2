/** The two clock readings of a call, as its caller can tell them. A Put counts the lifetime from its
    second reading, and a Complete writes its second reading down, so passing the sweep bounds neither;
    having returned does. */
module ClockReadings {
  import opened Wrappers
  import opened Pairing
  import opened History
  import opened Ledger
  import opened Linearizability
  import opened SequentialRuns

  /** The call behind an invocation. */
  ghost predicate Invokes(h: seq<Event>, id: nat, call: Call) {
    forall q | 0 <= q < |h| && h[q].Invoked? && h[q].id == id :: h[q].call == call
  }

  /** Event `p` reports that the call was carried out. */
  ghost predicate Succeeded(run: seq<State>, p: nat, call: Call)
    requires |run| > 0
  {
    var h := Last(run).history;
    p < |h| && h[p].Returned? && h[p].reply == Done && Invokes(h, h[p].id, call)
  }

  /** The effect behind such a report lies between the call's own invocation and its return. */
  lemma EffectWithinCall(run: seq<State>, p: nat, call: Call) returns (q: nat, x: nat)
    requires IsRun(run) && Succeeded(run, p, call)
    ensures var h, lin := Last(run).history, Last(run).lin;
            && x < |lin| && lin[x].id == h[p].id && lin[x].call == call && lin[x].reply == Done
            && q < |h| && h[q].Invoked? && h[q].id == h[p].id
            && h[q].at <= lin[x].now <= lin[x].stamp <= h[p].at
  {
    RunIsLinearizable(run);
    q, x := AnswerWithinCall(Last(run).history, Last(run).lin, p, call);
  }

  lemma AnswerWithinCall(h: seq<Event>, lin: seq<Effect>, p: nat, call: Call) returns (q: nat, x: nat)
    requires Stamped(lin) && AllInvoked(h, lin) && Answered(h, lin)
    requires p < |h| && h[p].Returned? && h[p].reply == Done && Invokes(h, h[p].id, call)
    ensures x < |lin| && lin[x].id == h[p].id && lin[x].call == call && lin[x].reply == Done
    ensures q < |h| && h[q].Invoked? && h[q].id == h[p].id
    ensures h[q].at <= lin[x].now <= lin[x].stamp <= h[p].at
  {
    assert Accounted(lin, h[p].id, h[p].reply, h[p].at);
    x :| x < |lin| && lin[x].id == h[p].id && lin[x].reply == h[p].reply && lin[x].stamp <= h[p].at;
    assert WasInvoked(h, lin[x].id, lin[x].call, lin[x].now);
    q :| q < |h| && h[q].Invoked? && h[q].id == lin[x].id && h[q].call == lin[x].call && h[q].at <= lin[x].now;
  }

  // ---------------------------------------------------------------- the deadline of a registration

  /** In any concurrent run, a registration lasts for its lifetime counted from some instant between the
      invocation of its Put and the return. */
  lemma DeadlineIsCountedWithinPut(run: seq<State>, p: nat, n: string, ttl: int) returns (q: nat, x: nat)
    requires IsRun(run) && Succeeded(run, p, Put(n, ttl))
    ensures var h, lin := Last(run).history, Last(run).lin;
            && q < |h| && h[q].Invoked? && h[q].id == h[p].id
            && x < |lin| && lin[x].id == h[p].id
            && var after := After(lin[..x + 1]);
               && n in after && after[n].status == Waiting
               && h[q].at + ttl <= after[n].expiresAt <= h[p].at + ttl
  {
    q, x := EffectWithinCall(run, p, Put(n, ttl));
    RunIsLinearizable(run);
    NextCall(Last(run).lin, x);
  }

  /** And that instant is its second reading, not the one its sweep took: for any two readings there is a
      run in which a Put sweeps at the first, returns at the second and leaves a registration that lasts
      for its lifetime from then on. */
  lemma DeadlineIsCountedFromSecondReading(n: string, ttl: int, swept: int, at: int) returns (run: seq<State>)
    requires swept <= at
    ensures IsRun(run)
    ensures var s := Last(run);
            && s.history == [Invoked(0, Put(n, ttl), swept), Returned(0, Done, at)]
            && |s.lin| == 1 && s.lin[0].now == swept
            && s.entries.Keys == {n} && s.entries[n].status == Waiting && s.entries[n].expiresAt == at + ttl
  {
    var lin := [Effect(0, Put(n, ttl), swept, at, Done)];
    OneCall(lin[0]);
    assert Init(lin) == [];
    run := SequentialHistoriesHappen(lin, swept);
    assert Events([]) == [];
  }

  // ---------------------------------------------------------------- the instant of a completion

  /** The completion instant lies within the deadline. */
  predicate RecordedInTime(slot: Slot) {
    slot.completedAt <= slot.expiresAt
  }

  /** What a caller can check: in any concurrent run, a Complete that had returned by the deadline of
      its registration recorded an instant within it. */
  lemma ReturnedInTimeIsRecordedInTime(run: seq<State>, p: nat, n: string, token: string, user: string)
      returns (z: nat, x: nat)
    requires IsRun(run) && Succeeded(run, p, Complete(n, token, user))
    ensures var lin, h := Last(run).lin, Last(run).history;
            && x < |lin| && lin[x].id == h[p].id && lin[x].call == Complete(n, token, user)
            && Registration(lin, n, z, x)
            && var after := After(lin[..x + 1]);
               && n in after && after[n] == Slot(Ready, token, user, Deadline(lin[z]), lin[x].stamp)
               && (h[p].at <= Deadline(lin[z]) ==> RecordedInTime(after[n]))
  {
    var q;
    q, x := EffectWithinCall(run, p, Complete(n, token, user));
    RunIsLinearizable(run);
    z := CompletionFoundWaiting(Last(run).lin, x, n);
  }

  lemma CompletionFoundWaiting(lin: seq<Effect>, x: nat, n: string) returns (z: nat)
    requires Legal(lin) && x < |lin| && IsComplete(lin[x], n)
    ensures Registration(lin, n, z, x)
    ensures var after, e := After(lin[..x + 1]), lin[x];
            n in after && after[n] == Slot(Ready, e.call.token, e.call.botUsername, Deadline(lin[z]), e.stamp)
  {
    LegalPrefix(lin, x);
    NextCall(lin, x);
    var y;
    z, y := SlotOrigin(lin[..x], n);
    assert forall i | 0 <= i < x :: lin[..x][i] == lin[i];
  }

  /** Returning by the deadline cannot be relaxed: however little later a Complete returns, there is a run
      in which it returns just then and has recorded an instant past the deadline. */
  lemma ReturnedLateCanBeRecordedLate(n: string, token: string, user: string, ttl: int, t: int, at: int)
      returns (run: seq<State>)
    requires ttl >= 0 && at > t + ttl
    ensures IsRun(run)
    ensures var s := Last(run);
            && s.history == [Invoked(0, Put(n, ttl), t), Returned(0, Done, t),
                             Invoked(1, Complete(n, token, user), t), Returned(1, Done, at)]
            && s.entries == map[n := Slot(Ready, token, user, t + ttl, at)]
            && !RecordedInTime(s.entries[n])
  {
    var put, complete := Effect(0, Put(n, ttl), t, t, Done), Effect(1, Complete(n, token, user), t, at, Done);
    OneCall(put);
    assert Init([put]) == [] && Init([put, complete]) == [put];
    assert Legal([put, complete]);
    run := SequentialHistoriesHappen([put, complete], t);
    assert Events([put]) == [Invoked(0, Put(n, ttl), t), Returned(0, Done, t)];
    assert Last(run).entries[n] == Slot(Ready, token, user, t + ttl, at);
  }
}
