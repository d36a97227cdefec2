/** Any number of goroutines calling the in-process store at once, one statement at a time.

    The mutex, the sweep loop, each lookup, each field assignment and each clock reading is a
    step of its own, and the clock may advance between any two of them. The main result,
    RunIsLinearizable, says that whatever the interleaving the callers cannot tell the store
    from the sequential one of module History. */
module Linearizability {
  import opened Wrappers
  import opened Pairing
  import opened History

  /** What a caller can observe: when a call started and what it answered when. */
  datatype Event =
    | Invoked(id: nat, call: Call, at: int)
    | Returned(id: nat, reply: Reply, at: int)

  /** The statement a goroutine executes next. */
  datatype Pc =
    | AtContext
    | AtLock
    | AtSweepClock
    | Sweeping(now: int, pending: set<string>)
    | AtLookup(now: int)
    | AtPutClock(now: int)
    | AtInsert(now: int, stamp: int)
    | AtSetStatus(now: int)
    | AtSetToken(now: int)
    | AtSetUsername(now: int)
    | AtCompleteClock(now: int)
    | AtSetCompleted(now: int, stamp: int)
    | AtDelete(now: int, entry: Entry)
    | AtUnlock(now: int, stamp: int, reply: Reply)
    | AtReturn(reply: Reply)

  datatype Thread = Thread(call: Call, pc: Pc)

  /** `lin` records, for the proof only, the calls in the order they released the mutex. */
  datatype State = State(
    clock: int,
    holder: Option<nat>,
    entries: TtlMap,
    threads: map<nat, Thread>,
    history: seq<Event>,
    lin: seq<Effect>)

  predicate InsideLock(pc: Pc) {
    !pc.AtContext? && !pc.AtLock? && !pc.AtReturn?
  }

  // ---------------------------------------------------------------- the steps

  ghost predicate Initial(s: State) {
    s.holder == None && s.entries == map[] && s.threads == map[] && s.history == [] && s.lin == []
  }

  ghost predicate Tick(s: State, s': State) {
    s' == s.(clock := s'.clock) && s.clock <= s'.clock
  }

  /** A fresh invocation; a goroutine's later calls are further invocations. */
  ghost predicate Invoke(s: State, s': State, id: nat, call: Call) {
    && (forall e | e in s.history :: e.id != id)
    && s' == s.(threads := s.threads[id := Thread(call, AtContext)],
                history := s.history + [Invoked(id, call, s.clock)])
  }

  ghost predicate At(s: State, id: nat, pc: Pc) {
    id in s.threads && s.threads[id].pc == pc
  }

  function Goto(s: State, id: nat, pc: Pc): State
    requires id in s.threads
  {
    s.(threads := s.threads[id := s.threads[id].(pc := pc)])
  }

  ghost predicate CheckContext(s: State, s': State, id: nat, ctxErr: Option<CtxError>) {
    && At(s, id, AtContext)
    && s' == Goto(s, id, if ctxErr.Some? then AtReturn(Failed(ErrContext(ctxErr.value))) else AtLock)
  }

  ghost predicate Lock(s: State, s': State, id: nat) {
    At(s, id, AtLock) && s.holder == None && s' == Goto(s, id, AtSweepClock).(holder := Some(id))
  }

  ghost predicate SweepStart(s: State, s': State, id: nat) {
    At(s, id, AtSweepClock) && s' == Goto(s, id, Sweeping(s.clock, s.entries.Keys))
  }

  ghost predicate SweepVisit(s: State, s': State, id: nat, k: string) {
    && id in s.threads && s.threads[id].pc.Sweeping?
    && var pc := s.threads[id].pc;
    && k in pc.pending
    && s' == Goto(s, id, Sweeping(pc.now, pc.pending - {k})).(
               entries := if k in s.entries && Expired(s.entries[k], pc.now) then s.entries - {k} else s.entries)
  }

  ghost predicate SweepEnd(s: State, s': State, id: nat) {
    && id in s.threads && s.threads[id].pc.Sweeping? && s.threads[id].pc.pending == {}
    && s' == Goto(s, id, AtLookup(s.threads[id].pc.now))
  }

  /** The lookup and the tests that follow it, up to the first write or the return. */
  function AfterLookup(call: Call, entries: TtlMap, now: int): Pc {
    var n := call.nonce;
    match call
    case Put(_, _) =>
      if n in entries then AtUnlock(now, now, Failed(ErrAlreadyExists)) else AtPutClock(now)
    case Complete(_, _, _) =>
      if n !in entries then AtUnlock(now, now, Failed(ErrNotFound))
      else if entries[n].status != Waiting then AtUnlock(now, now, Failed(ErrInvalidState))
      else AtSetStatus(now)
    case FetchAndDelete(_) =>
      if n !in entries then AtUnlock(now, now, Failed(ErrNotFound))
      else if entries[n].status != Ready then AtUnlock(now, now, Failed(ErrNotReady))
      else AtDelete(now, Entry(n, entries[n].token, entries[n].botUsername, entries[n].completedAt))
  }

  ghost predicate Lookup(s: State, s': State, id: nat) {
    && id in s.threads && s.threads[id].pc.AtLookup?
    && s' == Goto(s, id, AfterLookup(s.threads[id].call, s.entries, s.threads[id].pc.now))
  }

  ghost predicate ReadClock(s: State, s': State, id: nat) {
    && id in s.threads
    && var pc := s.threads[id].pc;
    && (pc.AtPutClock? || pc.AtCompleteClock?)
    && s' == Goto(s, id, if pc.AtPutClock? then AtInsert(pc.now, s.clock) else AtSetCompleted(pc.now, s.clock))
  }

  /** One assignment to the map or to one field of an entry. */
  ghost predicate Write(s: State, s': State, id: nat) {
    && id in s.threads
    && var Thread(call, pc) := s.threads[id];
    && var n := call.nonce;
    match pc
    case AtInsert(now, stamp) =>
      && call.Put?
      && s' == Goto(s, id, AtUnlock(now, stamp, Done)).(entries := s.entries[n := NewSlot(stamp + call.ttl)])
    case AtSetStatus(now) =>
      && n in s.entries
      && s' == Goto(s, id, AtSetToken(now)).(entries := s.entries[n := s.entries[n].(status := Ready)])
    case AtSetToken(now) =>
      && n in s.entries && call.Complete?
      && s' == Goto(s, id, AtSetUsername(now)).(entries := s.entries[n := s.entries[n].(token := call.token)])
    case AtSetUsername(now) =>
      && n in s.entries && call.Complete?
      && s' == Goto(s, id, AtCompleteClock(now)).(
                 entries := s.entries[n := s.entries[n].(botUsername := call.botUsername)])
    case AtSetCompleted(now, stamp) =>
      && n in s.entries
      && s' == Goto(s, id, AtUnlock(now, stamp, Done)).(
                 entries := s.entries[n := s.entries[n].(completedAt := stamp)])
    case AtDelete(now, entry) =>
      s' == Goto(s, id, AtUnlock(now, now, Fetched(entry))).(entries := s.entries - {n})
    case _ => false
  }

  ghost predicate Unlock(s: State, s': State, id: nat) {
    && id in s.threads && s.threads[id].pc.AtUnlock?
    && var Thread(call, pc) := s.threads[id];
    && s' == Goto(s, id, AtReturn(pc.reply)).(
               holder := None,
               lin := s.lin + [Effect(id, call, pc.now, pc.stamp, pc.reply)])
  }

  ghost predicate Return(s: State, s': State, id: nat) {
    && id in s.threads && s.threads[id].pc.AtReturn?
    && s' == s.(threads := s.threads - {id},
                history := s.history + [Returned(id, s.threads[id].pc.reply, s.clock)])
  }

  /** A statement executed around or inside the critical section, other than its release. */
  ghost predicate LockedStep(s: State, s': State, id: nat) {
    || Lock(s, s', id) || SweepStart(s, s', id) || SweepEnd(s, s', id)
    || Lookup(s, s', id) || ReadClock(s, s', id) || Write(s, s', id)
  }

  /** The clock advances, or one goroutine executes one statement of its call. */
  ghost predicate Statement(s: State, s': State) {
    || Tick(s, s')
    || (exists id: nat, ctxErr :: CheckContext(s, s', id, ctxErr))
    || (exists id: nat, k :: SweepVisit(s, s', id, k))
    || (exists id: nat :: LockedStep(s, s', id))
    || (exists id: nat :: Unlock(s, s', id))
  }

  ghost predicate Step(s: State, s': State) {
    || Statement(s, s')
    || (exists id: nat, call :: Invoke(s, s', id, call))
    || (exists id: nat :: Return(s, s', id))
  }

  ghost predicate IsRun(run: seq<State>) {
    && |run| > 0 && Initial(run[0])
    && forall i | 0 <= i < |run| - 1 :: Step(run[i], run[i + 1])
  }

  // ---------------------------------------------------------------- linearizability

  ghost predicate WasInvoked(h: seq<Event>, id: nat, call: Call, until: int) {
    exists p :: 0 <= p < |h| && h[p].Invoked? && h[p].id == id && h[p].call == call && h[p].at <= until
  }

  ghost predicate TookEffect(lin: seq<Effect>, id: nat, reply: Reply, until: int) {
    exists x :: 0 <= x < |lin| && lin[x].id == id && lin[x].reply == reply && lin[x].stamp <= until
  }

  /** A call writes down an instant it read after the one its sweep used. */
  ghost predicate Stamped(lin: seq<Effect>) {
    forall x | 0 <= x < |lin| :: lin[x].now <= lin[x].stamp
  }

  ghost predicate Absent(lin: seq<Effect>, id: nat) {
    forall x | 0 <= x < |lin| :: lin[x].id != id
  }

  predicate IsContextError(reply: Reply) {
    reply.Failed? && reply.error.ErrContext?
  }

  /** The answer was given by the effect in `lin`, or by a cancelled context with no effect at all. */
  ghost predicate Accounted(lin: seq<Effect>, id: nat, reply: Reply, until: int) {
    TookEffect(lin, id, reply, until) || (IsContextError(reply) && Absent(lin, id))
  }

  /** A call that returned before another started also took effect before it. */
  ghost predicate RealTime(h: seq<Event>, lin: seq<Effect>) {
    forall p, q, x, y |
      && 0 <= p < q < |h| && h[p].Returned? && h[q].Invoked?
      && 0 <= x < |lin| && 0 <= y < |lin| && lin[y].id == h[p].id && lin[x].id == h[q].id
      :: y < x
  }

  ghost predicate Distinct(lin: seq<Effect>) {
    forall x, y | 0 <= x < y < |lin| :: lin[x].id != lin[y].id
  }

  ghost predicate AllInvoked(h: seq<Event>, lin: seq<Effect>) {
    forall x | 0 <= x < |lin| :: WasInvoked(h, lin[x].id, lin[x].call, lin[x].now)
  }

  ghost predicate Answered(h: seq<Event>, lin: seq<Effect>) {
    forall p | 0 <= p < |h| && h[p].Returned? :: Accounted(lin, h[p].id, h[p].reply, h[p].at)
  }

  /** `lin` explains `h`: it is a sequential history, made of calls that were really invoked, each
      once and with both clock readings, in order, inside the call's own interval; it gives every
      answer the callers saw; and it respects their order in real time. */
  ghost predicate Linearizes(h: seq<Event>, lin: seq<Effect>) {
    && Legal(lin)
    && Stamped(lin)
    && Distinct(lin)
    && AllInvoked(h, lin)
    && Answered(h, lin)
    && RealTime(h, lin)
  }

  // ---------------------------------------------------------------- the invariant

  /** Mutual exclusion. */
  ghost predicate LockInv(s: State) {
    && (s.holder.Some? ==> s.holder.value in s.threads && InsideLock(s.threads[s.holder.value].pc))
    && (forall id | id in s.threads && InsideLock(s.threads[id].pc) :: s.holder == Some(id))
  }

  /** How the entries relate to the sequential store while the holder is at `pc`. */
  ghost predicate Progress(abs: TtlMap, call: Call, pc: Pc, entries: TtlMap, clock: int)
    requires InsideLock(pc)
  {
    var n := call.nonce;
    if pc.AtSweepClock? then Live(entries, clock) == Live(abs, clock) else
    && pc.now <= clock
    && (pc.AtInsert? || pc.AtSetCompleted? || pc.AtUnlock? ==> pc.now <= pc.stamp <= clock)
    && var base := Live(abs, pc.now);
    if pc.Sweeping? then
      && Live(entries, pc.now) == base
      && forall k | k in entries && k !in pc.pending :: !Expired(entries[k], pc.now)
    else if pc.AtLookup? then entries == base
    else if pc.AtPutClock? || pc.AtInsert? then entries == base && call.Put? && n !in base
    else if pc.AtUnlock? then (entries, pc.reply) == Apply(base, call, pc.now, pc.stamp)
    else if pc.AtDelete? then
      && entries == base && call.FetchAndDelete? && n in base && base[n].status == Ready
      && pc.entry == Entry(n, base[n].token, base[n].botUsername, base[n].completedAt)
    else
      && call.Complete? && n in base && base[n].status == Waiting
      && entries == base[n := PartlyCompleted(base[n], call, pc)]
  }

  /** The entry half-way through the four assignments of Complete. */
  ghost function PartlyCompleted(slot: Slot, call: Call, pc: Pc): Slot
    requires call.Complete?
  {
    match pc
    case AtSetToken(_) => slot.(status := Ready)
    case AtSetUsername(_) => slot.(status := Ready, token := call.token)
    case AtCompleteClock(_) => slot.(status := Ready, token := call.token, botUsername := call.botUsername)
    case AtSetCompleted(_, _) => slot.(status := Ready, token := call.token, botUsername := call.botUsername)
    case _ => slot
  }

  ghost function LastNow(lin: seq<Effect>, otherwise: int): int {
    if lin == [] then otherwise else Last(lin).now
  }

  ghost predicate StoreInv(s: State) {
    && LockInv(s)
    && Legal(s.lin)
    && LastNow(s.lin, s.clock) <= s.clock
    && (s.holder == None ==> Live(s.entries, s.clock) == Live(After(s.lin), s.clock))
    && (s.holder.Some? ==>
          var Thread(call, pc) := s.threads[s.holder.value];
          && Progress(After(s.lin), call, pc, s.entries, s.clock)
          && (!pc.AtSweepClock? ==> LastNow(s.lin, pc.now) <= pc.now))
  }

  ghost predicate Returning(h: seq<Event>, id: nat) {
    exists p :: 0 <= p < |h| && h[p].Returned? && h[p].id == id
  }

  ghost predicate ThreadInv(s: State, id: nat)
    requires id in s.threads
  {
    var Thread(call, pc) := s.threads[id];
    && WasInvoked(s.history, id, call, s.clock)
    && !Returning(s.history, id)
    && (if pc.AtReturn? then Accounted(s.lin, id, pc.reply, s.clock) else Absent(s.lin, id))
    && (InsideLock(pc) && !pc.AtSweepClock? ==> WasInvoked(s.history, id, call, pc.now))
  }

  ghost predicate OrderInv(s: State) {
    && Linearizes(s.history, s.lin)
    && forall id | id in s.threads :: ThreadInv(s, id)
  }

  ghost predicate Inv(s: State) {
    StoreInv(s) && OrderInv(s)
  }

  // ---------------------------------------------------------------- preservation

  lemma LiveLater(m: TtlMap, m': TtlMap, t: int, u: int)
    requires Live(m, t) == Live(m', t) && t <= u
    ensures Live(m, u) == Live(m', u)
  {
    forall k
      ensures k in Live(m, u) <==> k in Live(m', u)
      ensures k in Live(m, u) ==> m[k] == m'[k]
    {
      LiveAgree(m, m', k, t);
    }
  }

  lemma LiveTwice(m: TtlMap, now: int)
    ensures Live(Live(m, now), now) == Live(m, now)
  {
  }

  lemma TickKeepsStore(s: State, s': State)
    requires StoreInv(s) && Tick(s, s')
    ensures StoreInv(s')
  {
    if s.holder == None || s.threads[s.holder.value].pc.AtSweepClock? {
      LiveLater(s.entries, After(s.lin), s.clock, s'.clock);
    }
  }

  lemma OutsideKeepsStore(s: State, s': State, id: nat)
    requires StoreInv(s)
    requires s'.clock == s.clock && s'.holder == s.holder && s'.entries == s.entries && s'.lin == s.lin
    requires id in s.threads ==> !InsideLock(s.threads[id].pc)
    requires id in s'.threads ==> !InsideLock(s'.threads[id].pc)
    requires forall j | j != id :: (j in s.threads <==> j in s'.threads)
    requires forall j | j != id && j in s.threads :: s.threads[j] == s'.threads[j]
    ensures StoreInv(s')
  {
  }

  lemma LockKeepsStore(s: State, s': State, id: nat)
    requires StoreInv(s) && Lock(s, s', id)
    ensures StoreInv(s')
  {
  }

  lemma SweepKeepsStore(s: State, s': State, id: nat)
    requires StoreInv(s)
    requires SweepStart(s, s', id) || SweepEnd(s, s', id)
    ensures StoreInv(s')
  {
  }

  lemma VisitKeepsStore(s: State, s': State, id: nat, k: string)
    requires StoreInv(s) && SweepVisit(s, s', id, k)
    ensures StoreInv(s')
  {
    var now := s.threads[id].pc.now;
    assert Live(s'.entries, now) == Live(s.entries, now);
  }

  lemma LookupKeepsStore(s: State, s': State, id: nat)
    requires StoreInv(s) && Lookup(s, s', id)
    ensures StoreInv(s')
  {
    var Thread(call, pc) := s.threads[id];
    LiveTwice(After(s.lin), pc.now);
    assert call.nonce in s.entries <==> IsLive(s.entries, call.nonce, pc.now);
  }

  lemma ClockKeepsStore(s: State, s': State, id: nat)
    requires StoreInv(s) && ReadClock(s, s', id)
    ensures StoreInv(s')
  {
  }

  lemma WriteKeepsStore(s: State, s': State, id: nat)
    requires StoreInv(s) && Write(s, s', id)
    ensures StoreInv(s')
  {
    var Thread(call, pc) := s.threads[id];
    var base := Live(After(s.lin), pc.now);
    assert Progress(After(s.lin), call, pc, s.entries, s.clock);
    assert Progress(After(s'.lin), call, s'.threads[id].pc, s'.entries, s'.clock) by {
      WriteProgress(base, s, s', id);
    }
  }

  /** What each assignment turns the entries into, whatever they started from. */
  lemma WriteProgress(base: TtlMap, s: State, s': State, id: nat)
    requires id in s.threads && InsideLock(s.threads[id].pc) && Write(s, s', id)
    requires base == Live(base, s.threads[id].pc.now)
    requires Progress(base, s.threads[id].call, s.threads[id].pc, s.entries, s.clock)
    ensures var pc := s'.threads[id].pc;
            if pc.AtUnlock? then (s'.entries, pc.reply) == Apply(base, s.threads[id].call, pc.now, pc.stamp)
            else s'.entries == base[s.threads[id].call.nonce := PartlyCompleted(base[s.threads[id].call.nonce], s.threads[id].call, pc)]
  {
    var Thread(call, pc) := s.threads[id];
    var n := call.nonce;
    assert n in base <==> IsLive(base, n, pc.now);
    if pc.AtSetCompleted? {
      var slot := base[n].(status := Ready, token := call.token, botUsername := call.botUsername, completedAt := pc.stamp);
      assert s'.entries == base[n := slot];
    }
  }

  lemma UnlockKeepsStore(s: State, s': State, id: nat)
    requires StoreInv(s) && Unlock(s, s', id)
    ensures StoreInv(s')
  {
    var Thread(call, pc) := s.threads[id];
    var abs, e := After(s.lin), Effect(id, call, pc.now, pc.stamp, pc.reply);
    assert Progress(abs, call, pc, s.entries, s.clock);
    CommitIsLegal(s.lin, e, s.entries, s.clock);
    assert LockInv(s');
  }

  /** Releasing the mutex appends a legal effect whose map has the same live entries. */
  lemma CommitIsLegal(lin: seq<Effect>, e: Effect, entries: TtlMap, clock: int)
    requires Legal(lin) && LastNow(lin, e.now) <= e.now <= clock
    requires (entries, e.reply) == Apply(Live(After(lin), e.now), e.call, e.now, e.stamp)
    ensures Legal(lin + [e]) && Live(entries, clock) == Live(After(lin + [e]), clock)
  {
    LiveTwice(After(lin), e.now);
    ApplyIgnoresDead(Live(After(lin), e.now), After(lin), e.call, e.now, e.stamp);
    LegalExtend(lin, e);
  }

  lemma WasInvokedExtend(h: seq<Event>, e: Event, id: nat, call: Call, until: int, until': int)
    requires WasInvoked(h, id, call, until) && until <= until'
    ensures WasInvoked(h + [e], id, call, until') && WasInvoked(h, id, call, until')
  {
    var p :| 0 <= p < |h| && h[p].Invoked? && h[p].id == id && h[p].call == call && h[p].at <= until;
    assert (h + [e])[p] == h[p];
  }

  /** A step of one goroutine that neither starts, commits nor ends its call. */
  ghost predicate Quiet(s: State, s': State, id: nat, pc': Pc) {
    && id in s.threads
    && var pc := s.threads[id].pc;
    && s'.clock == s.clock && s'.history == s.history && s'.lin == s.lin
    && s'.threads == s.threads[id := s.threads[id].(pc := pc')]
    && !pc.AtReturn?
    && (pc'.AtReturn? ==> IsContextError(pc'.reply))
    && (InsideLock(pc') && !pc'.AtSweepClock? ==>
          pc'.now == s.clock || (InsideLock(pc) && !pc.AtSweepClock? && pc'.now == pc.now))
  }

  lemma QuietKeepsOrder(s: State, s': State, id: nat, pc': Pc)
    requires OrderInv(s) && Quiet(s, s', id, pc')
    ensures OrderInv(s')
  {
  }

  lemma TickKeepsOrder(s: State, s': State)
    requires OrderInv(s) && Tick(s, s')
    ensures OrderInv(s')
  {
  }

  lemma HistoryExtend(h: seq<Event>, e: Event, lin: seq<Effect>)
    requires Linearizes(h, lin)
    requires e.Invoked? ==> Absent(lin, e.id)
    requires e.Returned? ==> Accounted(lin, e.id, e.reply, e.at)
    ensures Linearizes(h + [e], lin)
  {
    var h' := h + [e];
    forall x | 0 <= x < |lin|
      ensures WasInvoked(h', lin[x].id, lin[x].call, lin[x].now)
    {
      WasInvokedExtend(h, e, lin[x].id, lin[x].call, lin[x].now, lin[x].now);
    }
    forall p | 0 <= p < |h'| && h'[p].Returned?
      ensures Accounted(lin, h'[p].id, h'[p].reply, h'[p].at)
    {
      assert p < |h| ==> h'[p] == h[p];
    }
    RealTimeExtend(h, e, lin);
  }

  lemma RealTimeExtend(h: seq<Event>, e: Event, lin: seq<Effect>)
    requires RealTime(h, lin) && (e.Invoked? ==> Absent(lin, e.id))
    ensures RealTime(h + [e], lin)
  {
  }

  lemma InvokeKeepsOrder(s: State, s': State, id: nat, call: Call)
    requires OrderInv(s) && Invoke(s, s', id, call)
    ensures OrderInv(s')
  {
    var e := Invoked(id, call, s.clock);
    assert Absent(s.lin, id) by {
      forall x | 0 <= x < |s.lin|
        ensures s.lin[x].id != id
      {
        assert WasInvoked(s.history, s.lin[x].id, s.lin[x].call, s.lin[x].now);
      }
    }
    HistoryExtend(s.history, e, s.lin);
    forall j | j in s'.threads
      ensures ThreadInv(s', j)
    {
      if j == id {
        assert s'.history[|s.history|] == e;
      } else {
        assert ThreadInv(s, j);
        ThreadHistoryExtend(s, s', j, e);
      }
    }
  }

  lemma ThreadHistoryExtend(s: State, s': State, id: nat, e: Event)
    requires id in s.threads && id in s'.threads && s'.threads[id] == s.threads[id]
    requires s'.clock == s.clock && s'.lin == s.lin && s'.history == s.history + [e]
    requires ThreadInv(s, id) && (e.Returned? ==> e.id != id)
    ensures ThreadInv(s', id)
  {
    var Thread(call, pc) := s.threads[id];
    WasInvokedExtend(s.history, e, id, call, s.clock, s.clock);
    if InsideLock(pc) && !pc.AtSweepClock? {
      WasInvokedExtend(s.history, e, id, call, pc.now, pc.now);
    }
  }

  lemma ReturnKeepsOrder(s: State, s': State, id: nat)
    requires OrderInv(s) && Return(s, s', id)
    ensures OrderInv(s')
  {
    var e := Returned(id, s.threads[id].pc.reply, s.clock);
    assert ThreadInv(s, id);
    HistoryExtend(s.history, e, s.lin);
    forall j | j in s'.threads
      ensures ThreadInv(s', j)
    {
      assert ThreadInv(s, j);
      ThreadHistoryExtend(s, s', j, e);
    }
  }

  lemma AccountedExtend(lin: seq<Effect>, e: Effect, id: nat, reply: Reply, until: int)
    requires Accounted(lin, id, reply, until) && e.id != id
    ensures Accounted(lin + [e], id, reply, until)
  {
    if TookEffect(lin, id, reply, until) {
      var x :| 0 <= x < |lin| && lin[x].id == id && lin[x].reply == reply && lin[x].stamp <= until;
      assert (lin + [e])[x] == lin[x];
    }
  }

  lemma UnlockKeepsOrder(s: State, s': State, id: nat)
    requires StoreInv(s) && OrderInv(s) && Unlock(s, s', id) && StoreInv(s')
    ensures OrderInv(s')
  {
    var Thread(call, pc) := s.threads[id];
    var e := Effect(id, call, pc.now, pc.stamp, pc.reply);
    assert ThreadInv(s, id);
    CommitKeepsOrder(s.history, s.lin, e);
    CommitterIsAccounted(s, s', id, e);
    forall j | j in s'.threads
      ensures ThreadInv(s', j)
    {
      assert ThreadInv(s, j);
      if j != id {
        BystanderKeepsInv(s, s', j, e);
      }
    }
  }

  lemma CommitterIsAccounted(s: State, s': State, id: nat, e: Effect)
    requires StoreInv(s) && Unlock(s, s', id) && ThreadInv(s, id)
    requires s'.lin == s.lin + [e] && e.id == id
    ensures ThreadInv(s', id)
  {
    assert s'.lin[|s.lin|] == e;
    assert e.stamp <= s.clock;
  }

  lemma BystanderKeepsInv(s: State, s': State, j: nat, e: Effect)
    requires j in s.threads && j in s'.threads && s'.threads[j] == s.threads[j] && e.id != j
    requires s'.clock == s.clock && s'.history == s.history && s'.lin == s.lin + [e]
    requires ThreadInv(s, j)
    ensures ThreadInv(s', j)
  {
    if s.threads[j].pc.AtReturn? {
      AccountedExtend(s.lin, e, j, s.threads[j].pc.reply, s.clock);
    }
  }

  lemma CommitKeepsOrder(h: seq<Event>, lin: seq<Effect>, e: Effect)
    requires Linearizes(h, lin) && Legal(lin + [e]) && e.now <= e.stamp
    requires Absent(lin, e.id) && !Returning(h, e.id) && WasInvoked(h, e.id, e.call, e.now)
    ensures Linearizes(h, lin + [e])
  {
    AnswersCommit(h, lin, e);
    InvokedCommit(h, lin, e);
    RealTimeCommit(h, lin, e);
    EffectsCommit(lin, e);
  }

  lemma EffectsCommit(lin: seq<Effect>, e: Effect)
    requires Stamped(lin) && Distinct(lin) && e.now <= e.stamp && Absent(lin, e.id)
    ensures Stamped(lin + [e]) && Distinct(lin + [e])
  {
  }

  lemma AnswersCommit(h: seq<Event>, lin: seq<Effect>, e: Effect)
    requires Answered(h, lin) && !Returning(h, e.id)
    ensures Answered(h, lin + [e])
  {
    forall p | 0 <= p < |h| && h[p].Returned?
      ensures Accounted(lin + [e], h[p].id, h[p].reply, h[p].at)
    {
      AccountedExtend(lin, e, h[p].id, h[p].reply, h[p].at);
    }
  }

  lemma InvokedCommit(h: seq<Event>, lin: seq<Effect>, e: Effect)
    requires AllInvoked(h, lin) && WasInvoked(h, e.id, e.call, e.now)
    ensures AllInvoked(h, lin + [e])
  {
  }

  /** The call that commits has not returned, so nothing has to come after it. */
  lemma RealTimeCommit(h: seq<Event>, lin: seq<Effect>, e: Effect)
    requires RealTime(h, lin) && !Returning(h, e.id)
    ensures RealTime(h, lin + [e])
  {
  }

  lemma LockedStepIsQuiet(s: State, s': State, id: nat)
    requires LockedStep(s, s', id)
    ensures id in s'.threads && Quiet(s, s', id, s'.threads[id].pc)
  {
    if Lock(s, s', id) {
    } else if SweepStart(s, s', id) || SweepEnd(s, s', id) {
    } else if Lookup(s, s', id) {
    } else if ReadClock(s, s', id) {
    } else {
      assert s'.threads == s.threads[id := s.threads[id].(pc := s'.threads[id].pc)];
    }
  }

  lemma LockedStepKeepsStore(s: State, s': State, id: nat)
    requires StoreInv(s) && LockedStep(s, s', id)
    ensures StoreInv(s')
  {
    if Lock(s, s', id) {
      LockKeepsStore(s, s', id);
    } else if SweepStart(s, s', id) || SweepEnd(s, s', id) {
      SweepKeepsStore(s, s', id);
    } else if Lookup(s, s', id) {
      LookupKeepsStore(s, s', id);
    } else if ReadClock(s, s', id) {
      ClockKeepsStore(s, s', id);
    } else {
      WriteKeepsStore(s, s', id);
    }
  }

  lemma LockedStepKeepsInv(s: State, s': State, id: nat)
    requires Inv(s) && LockedStep(s, s', id)
    ensures Inv(s')
  {
    LockedStepIsQuiet(s, s', id);
    LockedStepKeepsStore(s, s', id);
    QuietKeepsOrder(s, s', id, s'.threads[id].pc);
  }

  lemma VisitKeepsInv(s: State, s': State, id: nat, k: string)
    requires Inv(s) && SweepVisit(s, s', id, k)
    ensures Inv(s')
  {
    VisitKeepsStore(s, s', id, k);
    QuietKeepsOrder(s, s', id, s'.threads[id].pc);
  }

  lemma ContextKeepsInv(s: State, s': State, id: nat, ctxErr: Option<CtxError>)
    requires Inv(s) && CheckContext(s, s', id, ctxErr)
    ensures Inv(s')
  {
    OutsideKeepsStore(s, s', id);
    QuietKeepsOrder(s, s', id, s'.threads[id].pc);
  }

  lemma InvokeKeepsInv(s: State, s': State, id: nat, call: Call)
    requires Inv(s) && Invoke(s, s', id, call)
    ensures Inv(s')
  {
    assert id in s.threads ==> ThreadInv(s, id);
    OutsideKeepsStore(s, s', id);
    InvokeKeepsOrder(s, s', id, call);
  }

  lemma UnlockKeepsInv(s: State, s': State, id: nat)
    requires Inv(s) && Unlock(s, s', id)
    ensures Inv(s')
  {
    UnlockKeepsStore(s, s', id);
    UnlockKeepsOrder(s, s', id);
  }

  lemma ReturnKeepsInv(s: State, s': State, id: nat)
    requires Inv(s) && Return(s, s', id)
    ensures Inv(s')
  {
    OutsideKeepsStore(s, s', id);
    ReturnKeepsOrder(s, s', id);
  }

  lemma TickKeepsInv(s: State, s': State)
    requires Inv(s) && Tick(s, s')
    ensures Inv(s')
  {
    TickKeepsStore(s, s');
    TickKeepsOrder(s, s');
  }

  lemma StatementKeepsInv(s: State, s': State)
    requires Inv(s) && Statement(s, s')
    ensures Inv(s')
  {
    if Tick(s, s') {
      TickKeepsInv(s, s');
    } else if id: nat, ctxErr :| CheckContext(s, s', id, ctxErr) {
      ContextKeepsInv(s, s', id, ctxErr);
    } else if id: nat, k :| SweepVisit(s, s', id, k) {
      VisitKeepsInv(s, s', id, k);
    } else if id: nat :| Unlock(s, s', id) {
      UnlockKeepsInv(s, s', id);
    } else {
      var id: nat :| LockedStep(s, s', id);
      LockedStepKeepsInv(s, s', id);
    }
  }

  lemma StepKeepsInv(s: State, s': State)
    requires Inv(s) && Step(s, s')
    ensures Inv(s')
  {
    if Statement(s, s') {
      StatementKeepsInv(s, s');
    } else if id: nat, call :| Invoke(s, s', id, call) {
      InvokeKeepsInv(s, s', id, call);
    } else {
      var id: nat :| Return(s, s', id);
      ReturnKeepsInv(s, s', id);
    }
  }

  /** Every state of every run satisfies the invariant. */
  lemma {:induction false} RunKeepsInv(run: seq<State>, i: nat)
    requires IsRun(run) && i < |run|
    ensures Inv(run[i])
  {
    if i > 0 {
      RunKeepsInv(run, i - 1);
      assert Step(run[i - 1], run[i - 1 + 1]);
      StepKeepsInv(run[i - 1], run[i]);
    }
  }

  /** For any number of goroutines, any interleaving of their statements and any advance of the
      clock in between, the order in which the mutex was released explains every answer. */
  lemma RunIsLinearizable(run: seq<State>)
    requires IsRun(run)
    ensures Linearizes(Last(run).history, Last(run).lin)
  {
    RunKeepsInv(run, |run| - 1);
  }

  /** A move of one goroutine, as opposed to the clock or a new invocation. */
  ghost predicate Moves(s: State, s': State, id: nat) {
    || (exists ctxErr :: CheckContext(s, s', id, ctxErr))
    || (exists k :: SweepVisit(s, s', id, k))
    || LockedStep(s, s', id) || Unlock(s, s', id) || Return(s, s', id)
  }

  /** Nobody waits for anything but the mutex: a goroutine that is not at the lock, or finds it free, can
      execute its statement, and meets no entry it does not expect. */
  lemma EveryoneMoves(run: seq<State>, i: nat, id: nat) returns (next: State)
    requires IsRun(run) && i < |run| && id in run[i].threads
    requires run[i].threads[id].pc == AtLock ==> run[i].holder == None
    ensures Moves(run[i], next, id)
  {
    RunKeepsInv(run, i);
    var s := run[i];
    var pc := s.threads[id].pc;
    if InsideLock(pc) {
      next := HolderMoves(s);
    } else if pc.AtContext? {
      next := Goto(s, id, AtLock);
      assert CheckContext(s, next, id, None);
    } else if pc.AtLock? {
      next := Goto(s, id, AtSweepClock).(holder := Some(id));
    } else {
      next := s.(threads := s.threads - {id}, history := s.history + [Returned(id, pc.reply, s.clock)]);
    }
  }

  /** Nothing ever gets stuck: while calls are in progress, one of them can execute a statement. */
  lemma NoDeadlock(run: seq<State>, i: nat) returns (id: nat, next: State)
    requires IsRun(run) && i < |run| && run[i].threads != map[]
    ensures Moves(run[i], next, id)
  {
    RunKeepsInv(run, i);
    if run[i].holder.Some? {
      id := run[i].holder.value;
    } else {
      id :| id in run[i].threads;
    }
    next := EveryoneMoves(run, i, id);
  }

  lemma HolderMoves(s: State) returns (next: State)
    requires StoreInv(s) && s.holder.Some?
    ensures Moves(s, next, s.holder.value)
  {
    var id := s.holder.value;
    var Thread(call, pc) := s.threads[id];
    if pc.AtSweepClock? {
      next := Goto(s, id, Sweeping(s.clock, s.entries.Keys));
    } else if pc.Sweeping? {
      if pc.pending == {} {
        next := Goto(s, id, AtLookup(pc.now));
      } else {
        var k :| k in pc.pending;
        next := Goto(s, id, Sweeping(pc.now, pc.pending - {k})).(
          entries := if k in s.entries && Expired(s.entries[k], pc.now) then s.entries - {k} else s.entries);
        assert SweepVisit(s, next, id, k);
      }
    } else if pc.AtLookup? {
      next := Goto(s, id, AfterLookup(call, s.entries, pc.now));
    } else if pc.AtPutClock? || pc.AtCompleteClock? {
      next := Goto(s, id, if pc.AtPutClock? then AtInsert(pc.now, s.clock) else AtSetCompleted(pc.now, s.clock));
    } else if pc.AtUnlock? {
      next := Goto(s, id, AtReturn(pc.reply)).(
        holder := None, lin := s.lin + [Effect(id, call, pc.now, pc.stamp, pc.reply)]);
    } else {
      next := WriterMoves(s);
    }
  }

  lemma WriterMoves(s: State) returns (next: State)
    requires StoreInv(s) && s.holder.Some?
    requires var pc := s.threads[s.holder.value].pc;
             || pc.AtInsert? || pc.AtSetStatus? || pc.AtSetToken? || pc.AtSetUsername?
             || pc.AtSetCompleted? || pc.AtDelete?
    ensures Write(s, next, s.holder.value)
  {
    var id := s.holder.value;
    var Thread(call, pc) := s.threads[id];
    var n := call.nonce;
    if pc.AtInsert? {
      next := Goto(s, id, AtUnlock(pc.now, pc.stamp, Done)).(entries := s.entries[n := NewSlot(pc.stamp + call.ttl)]);
    } else if pc.AtSetStatus? {
      next := Goto(s, id, AtSetToken(pc.now)).(entries := s.entries[n := s.entries[n].(status := Ready)]);
    } else if pc.AtSetToken? {
      next := Goto(s, id, AtSetUsername(pc.now)).(entries := s.entries[n := s.entries[n].(token := call.token)]);
    } else if pc.AtSetUsername? {
      next := Goto(s, id, AtCompleteClock(pc.now)).(
        entries := s.entries[n := s.entries[n].(botUsername := call.botUsername)]);
    } else if pc.AtSetCompleted? {
      next := Goto(s, id, AtUnlock(pc.now, pc.stamp, Done)).(
        entries := s.entries[n := s.entries[n].(completedAt := pc.stamp)]);
    } else {
      next := Goto(s, id, AtUnlock(pc.now, pc.now, Fetched(pc.entry))).(entries := s.entries - {n});
    }
  }

  /** At most one goroutine is ever inside the critical section. */
  lemma MutualExclusion(run: seq<State>, i: nat, a: nat, b: nat)
    requires IsRun(run) && i < |run|
    requires a in run[i].threads && b in run[i].threads
    requires InsideLock(run[i].threads[a].pc) && InsideLock(run[i].threads[b].pc)
    ensures a == b
  {
    RunKeepsInv(run, i);
  }
}
