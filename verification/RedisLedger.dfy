/** What the scripts alone guarantee of any traffic on one prefix: requests and replies lost, clocks
    that step back, any lifetime. Where a fetched entry came from, and that it is handed out once. */
module RedisLedger {
  import opened Wrappers
  import opened Pairing
  import opened History
  import opened Ledger
  import opened Decimal
  import opened RedisServer
  import opened RedisStore
  import opened RedisRefinement

  /** The ranges of Go's types, and no other condition. */
  predicate FitsGo(r: Request) {
    IsInt64(r.unix) && (r.call.Put? ==> IsInt64(r.call.ttl))
  }

  ghost predicate InRange(ws: seq<Sent>) {
    forall w | w in ws :: FitsGo(w.request)
  }

  /** What became of one message: the script's answer, whether or not anybody heard it, and the
      instant a completion carries. A lost request has no effect. */
  function ScriptEffect(ks: Keyspace, prefix: string, w: Sent, id: nat): Effect {
    var r := w.request;
    Effect(id, r.call, r.now, r.unix * NANOS_PER_SECOND,
           if w.wire == RequestLost then SentStep(ks, prefix, w).1 else RedisStep(ks, prefix, r).1)
  }

  /** Effect number i is that of message number i. */
  function ScriptEffects(prefix: string, ws: seq<Sent>): (lin: seq<Effect>)
    ensures |lin| == |ws|
  {
    if ws == [] then []
    else
      ScriptEffects(prefix, Init(ws)) + [ScriptEffect(SentAfter(prefix, Init(ws)), prefix, Last(ws), |ws| - 1)]
  }

  /** The fields a completion writes. */
  function CompletedFields(e: Effect): map<string, string>
    requires e.call.Complete?
  {
    ReadyFields(e.call.token, e.call.botUsername, FormatInt(e.stamp / NANOS_PER_SECOND))
  }

  ghost predicate IsHashOf(fields: map<string, string>) {
    || fields == WAITING_FIELDS
    || exists e: Effect :: e.call.Complete? && fields == CompletedFields(e)
  }

  /** The effects explain the fields of a hash. */
  ghost predicate ExplainsHash(lin: seq<Effect>, n: string, fields: map<string, string>, z: nat, x: nat) {
    && Registration(lin, n, z, |lin|)
    && if fields == WAITING_FIELDS then forall y | z < y < |lin| :: !IsComplete(lin[y], n)
       else Completion(lin, n, z, x, |lin|) && fields == CompletedFields(lin[x])
  }

  lemma ReadyIsNotWaiting(e: Effect)
    requires e.call.Complete?
    ensures CompletedFields(e) != WAITING_FIELDS && CompletedFields(e)["status"] == "ready"
    ensures WAITING_FIELDS + CompletedFields(e) == CompletedFields(e)
  {
    assert "token" in CompletedFields(e) && "token" !in WAITING_FIELDS;
  }

  lemma ExplainedIsHash(lin: seq<Effect>, n: string, fields: map<string, string>, z: nat, x: nat)
    requires ExplainsHash(lin, n, fields, z, x)
    ensures IsHashOf(fields)
  {
  }

  /** The hash under `key` is new, newly completed, or what it was, told from the effect. */
  ghost predicate Stepped(ks: Keyspace, ks': Keyspace, key: string, e: Effect, n: string) {
    key in ks' ==>
      if IsPut(e, n) then ks'[key].fields == WAITING_FIELDS
      else if IsComplete(e, n) then
        key in ks && ks[key].fields == WAITING_FIELDS && ks'[key].fields == CompletedFields(e)
      else key in ks && ks'[key].fields == ks[key].fields && !IsFetch(e, n)
  }

  lemma HashStep(ks: Keyspace, prefix: string, w: Sent, id: nat, n: string)
    requires FitsGo(w.request) && (prefix + n in ks ==> IsHashOf(ks[prefix + n].fields))
    ensures Stepped(ks, SentStep(ks, prefix, w).0, prefix + n, ScriptEffect(ks, prefix, w, id), n)
  {
    var r, e := w.request, ScriptEffect(ks, prefix, w, id);
    KeysOfOnePrefixDiffer(prefix, n, r.call.nonce);
    if r.call.nonce == n && w.wire != RequestLost {
      match r.call
      case Put(_, _) => PutHashStep(ks, prefix, r, e);
      case Complete(_, _, _) => CompleteHashStep(ks, prefix, r, e);
      case FetchAndDelete(_) =>
    }
  }

  lemma PutHashStep(ks: Keyspace, prefix: string, r: Request, e: Effect)
    requires FitsGo(r) && r.call.Put? && e.call == r.call && e.reply == RedisStep(ks, prefix, r).1
    ensures Stepped(ks, RedisStep(ks, prefix, r).0, prefix + r.call.nonce, e, r.call.nonce)
  {
    MillisecondsFit(r.call.ttl);
    ParseUndoesFormat(Milliseconds(r.call.ttl));
  }

  lemma CompleteHashStep(ks: Keyspace, prefix: string, r: Request, e: Effect)
    requires r.call.Complete? && e.call == r.call && e.reply == RedisStep(ks, prefix, r).1
    requires e.stamp == r.unix * NANOS_PER_SECOND
    requires var key := prefix + r.call.nonce; key in ks ==> IsHashOf(ks[key].fields)
    ensures Stepped(ks, RedisStep(ks, prefix, r).0, prefix + r.call.nonce, e, r.call.nonce)
  {
    var key := prefix + r.call.nonce;
    WholeSeconds(r.unix);
    ReadyIsNotWaiting(e);
    if key in ks && ks[key].fields != WAITING_FIELDS {
      var e': Effect :| e'.call.Complete? && ks[key].fields == CompletedFields(e');
      ReadyIsNotWaiting(e');
    }
  }

  lemma HashExplanationLasts(lin: seq<Effect>, e: Effect, n: string, fields: map<string, string>, z: nat, x: nat)
    requires ExplainsHash(lin, n, fields, z, x)
    requires !IsPut(e, n) && !IsFetch(e, n) && !IsComplete(e, n)
    ensures ExplainsHash(lin + [e], n, fields, z, x)
  {
  }

  lemma CompletionExplainsHash(lin: seq<Effect>, e: Effect, n: string, z: nat, x: nat)
    requires ExplainsHash(lin, n, WAITING_FIELDS, z, x) && IsComplete(e, n)
    ensures ExplainsHash(lin + [e], n, CompletedFields(e), z, |lin|)
  {
    ReadyIsNotWaiting(e);
  }

  /** Every hash goes back to one Put and, when ready, to one Complete. */
  lemma {:induction false} HashOrigin(prefix: string, ws: seq<Sent>, n: string) returns (z: nat, x: nat)
    requires InRange(ws) && prefix + n in SentAfter(prefix, ws)
    ensures ExplainsHash(ScriptEffects(prefix, ws), n, SentAfter(prefix, ws)[prefix + n].fields, z, x)
  {
    var init, w := Init(ws), Last(ws);
    var ks, before := SentAfter(prefix, init), ScriptEffects(prefix, init);
    var e := ScriptEffect(ks, prefix, w, |init|);
    z, x := |before|, 0;
    if prefix + n in ks {
      z, x := HashOrigin(prefix, init, n);
      ExplainedIsHash(before, n, ks[prefix + n].fields, z, x);
    }
    HashStep(ks, prefix, w, |init|, n);
    if IsPut(e, n) {
      z := |before|;
    } else if IsComplete(e, n) {
      CompletionExplainsHash(before, e, n, z, x);
      x := |before|;
    } else {
      HashExplanationLasts(before, e, n, ks[prefix + n].fields, z, x);
    }
  }

  /** The effects of the first messages are the first effects. */
  lemma {:induction false} FirstEffects(prefix: string, ws: seq<Sent>, k: nat)
    requires k <= |ws|
    ensures ScriptEffects(prefix, ws)[..k] == ScriptEffects(prefix, ws[..k])
    ensures k < |ws| ==> ScriptEffects(prefix, ws)[k] == ScriptEffect(SentAfter(prefix, ws[..k]), prefix, ws[k], k)
  {
    if k == |ws| {
      assert ws[..k] == ws;
    } else {
      FirstEffects(prefix, Init(ws), k);
      assert Init(ws)[..k] == ws[..k];
    }
  }

  function Contents(h: Hash): Value {
    Array([AsBulk(Field(Some(h), "token")), AsBulk(Field(Some(h), "bot_username")), AsBulk(Field(Some(h), "completed_at"))])
  }

  lemma CompletedHashDecodes(h: Hash, e: Effect, n: string)
    requires e.call.Complete? && IsInt64(e.stamp / NANOS_PER_SECOND) && h.fields == CompletedFields(e)
    ensures DecodeFetch(n, Contents(h))
         == Fetched(Entry(n, e.call.token, e.call.botUsername, e.stamp / NANOS_PER_SECOND * NANOS_PER_SECOND))
  {
    ParseUndoesFormat(e.stamp / NANOS_PER_SECOND);
  }

  lemma FetchDecodesHash(ks: Keyspace, prefix: string, w: Sent, id: nat, n: string)
    requires IsFetch(ScriptEffect(ks, prefix, w, id), n)
    ensures prefix + n in ks && ks[prefix + n].fields != WAITING_FIELDS
    ensures ScriptEffect(ks, prefix, w, id).reply == DecodeFetch(n, Contents(ks[prefix + n]))
  {
  }

  /** A script that hands out an entry read it from a ready hash. */
  lemma FetchReadsHash(ks: Keyspace, prefix: string, w: Sent, id: nat, n: string, z: nat, x: nat, lin: seq<Effect>)
    requires FitsGo(w.request) && IsFetch(ScriptEffect(ks, prefix, w, id), n)
    requires prefix + n in ks ==> ExplainsHash(lin, n, ks[prefix + n].fields, z, x)
    requires forall e | e in lin :: IsInt64(e.stamp / NANOS_PER_SECOND)
    ensures prefix + n in ks && Completion(lin, n, z, x, |lin|)
    ensures ScriptEffect(ks, prefix, w, id).reply
         == Fetched(Entry(n, lin[x].call.token, lin[x].call.botUsername,
                          lin[x].stamp / NANOS_PER_SECOND * NANOS_PER_SECOND))
  {
    FetchDecodesHash(ks, prefix, w, id, n);
    CompletedHashDecodes(ks[prefix + n], lin[x], n);
  }

  lemma {:induction false} EffectOfMessage(prefix: string, ws: seq<Sent>, i: nat)
    requires i < |ws|
    ensures ScriptEffects(prefix, ws)[i].call == ws[i].request.call
    ensures ScriptEffects(prefix, ws)[i].stamp == ws[i].request.unix * NANOS_PER_SECOND
  {
    FirstEffects(prefix, ws, i);
  }

  lemma {:induction false} StampsInRange(prefix: string, ws: seq<Sent>)
    requires InRange(ws)
    ensures forall e | e in ScriptEffects(prefix, ws) :: IsInt64(e.stamp / NANOS_PER_SECOND)
  {
    forall i | 0 <= i < |ws|
      ensures IsInt64(ScriptEffects(prefix, ws)[i].stamp / NANOS_PER_SECOND)
    {
      EffectOfMessage(prefix, ws, i);
      assert ws[i] in ws;
    }
  }

  lemma FullLog(lin: seq<Effect>, n: string, z: nat, x: nat, y: nat)
    requires y <= |lin| && Registration(lin[..y], n, z, y) && Completion(lin[..y], n, z, x, y)
    ensures Registration(lin, n, z, y) && Completion(lin, n, z, x, y)
  {
    assert forall i | 0 <= i < y :: lin[i] == lin[..y][i];
  }

  /** The hash as message `k` found it, and what wrote it. */
  lemma {:induction false} HashOriginAt(prefix: string, ws: seq<Sent>, k: nat, n: string) returns (z: nat, x: nat)
    requires InRange(ws) && k < |ws|
    ensures var lin, ks := ScriptEffects(prefix, ws), SentAfter(prefix, ws[..k]);
            && lin[k] == ScriptEffect(ks, prefix, ws[k], k) && FitsGo(ws[k].request)
            && (prefix + n in ks ==>
                  ExplainsHash(lin[..k], n, ks[prefix + n].fields, z, x) && IsHashOf(ks[prefix + n].fields))
  {
    var ks := SentAfter(prefix, ws[..k]);
    FirstEffects(prefix, ws, k);
    assert ws[k] in ws;
    z, x := 0, 0;
    if prefix + n in ks {
      z, x := HashOrigin(prefix, ws[..k], n);
      ExplainedIsHash(ScriptEffects(prefix, ws[..k]), n, ks[prefix + n].fields, z, x);
    }
  }

  lemma WholeSeconds(unix: int)
    ensures unix * NANOS_PER_SECOND / NANOS_PER_SECOND == unix
  {
  }

  lemma FetchStory(ks: Keyspace, prefix: string, w: Sent, lin: seq<Effect>, y: nat, n: string, z: nat, x: nat)
    requires y < |lin| && lin[y] == ScriptEffect(ks, prefix, w, y) && FitsGo(w.request) && IsFetch(lin[y], n)
    requires prefix + n in ks ==> ExplainsHash(lin[..y], n, ks[prefix + n].fields, z, x)
    requires forall e | e in lin :: IsInt64(e.stamp / NANOS_PER_SECOND)
    ensures Registration(lin, n, z, y) && Completion(lin, n, z, x, y)
    ensures lin[y].reply
         == Fetched(Entry(n, lin[x].call.token, lin[x].call.botUsername,
                          lin[x].stamp / NANOS_PER_SECOND * NANOS_PER_SECOND))
  {
    FetchReadsHash(ks, prefix, w, y, n, z, x, lin[..y]);
    FullLog(lin, n, z, x, y);
  }

  /** First write wins, told by the scripts alone: a fetched entry carries the token, the username and
      the very second of the only Complete since the last Put of its nonce. */
  lemma {:induction false} RedisFetchedIsFirstWrite(prefix: string, ws: seq<Sent>, y: nat, n: string)
      returns (z: nat, x: nat)
    requires InRange(ws) && y < |ws| && IsFetch(ScriptEffects(prefix, ws)[y], n)
    ensures var lin := ScriptEffects(prefix, ws);
            && Registration(lin, n, z, y) && Completion(lin, n, z, x, y)
            && lin[y].reply
               == Fetched(Entry(n, lin[x].call.token, lin[x].call.botUsername, ws[x].request.unix * NANOS_PER_SECOND))
  {
    z, x := HashOriginAt(prefix, ws, y, n);
    StampsInRange(prefix, ws);
    FetchStory(SentAfter(prefix, ws[..y]), prefix, ws[y], ScriptEffects(prefix, ws), y, n, z, x);
    EffectOfMessage(prefix, ws, x);
    WholeSeconds(ws[x].request.unix);
  }

  /** One-time delivery on Redis: between two executed fetches that answered with an entry of one
      nonce, heard or not, a registration and a completion of it were executed. */
  lemma {:induction false} RedisFetchesAtMostOnce(prefix: string, ws: seq<Sent>, a: nat, b: nat, n: string)
      returns (z: nat, x: nat)
    requires InRange(ws) && a < b < |ws|
    requires IsFetch(ScriptEffects(prefix, ws)[a], n) && IsFetch(ScriptEffects(prefix, ws)[b], n)
    ensures var lin := ScriptEffects(prefix, ws);
            a < z < x < b && IsPut(lin[z], n) && IsComplete(lin[x], n)
  {
    z, x := RedisFetchedIsFirstWrite(prefix, ws, b, n);
  }

  /** First write wins on the other side: between two executed completions of one nonce a registration
      of it was executed. */
  lemma {:induction false} RedisCompletesAtMostOnce(prefix: string, ws: seq<Sent>, a: nat, b: nat, n: string)
      returns (z: nat)
    requires InRange(ws) && a < b < |ws|
    requires IsComplete(ScriptEffects(prefix, ws)[a], n) && IsComplete(ScriptEffects(prefix, ws)[b], n)
    ensures a < z < b && IsPut(ScriptEffects(prefix, ws)[z], n)
  {
    var x;
    z, x := HashOriginAt(prefix, ws, b, n);
    CompletionStory(SentAfter(prefix, ws[..b]), prefix, ws[b], ScriptEffects(prefix, ws), a, b, n, z, x);
  }

  lemma CompletionStory(ks: Keyspace, prefix: string, w: Sent, lin: seq<Effect>, a: nat, b: nat, n: string, z: nat, x: nat)
    requires a < b < |lin| && IsComplete(lin[a], n)
    requires lin[b] == ScriptEffect(ks, prefix, w, b) && FitsGo(w.request) && IsComplete(lin[b], n)
    requires prefix + n in ks ==>
               ExplainsHash(lin[..b], n, ks[prefix + n].fields, z, x) && IsHashOf(ks[prefix + n].fields)
    ensures a < z < b && IsPut(lin[z], n)
  {
    HashStep(ks, prefix, w, b, n);
    CompletedWasWaiting(ks, prefix, w, b, n);
    assert lin[..b][a] == lin[a];
  }

  lemma CompletedWasWaiting(ks: Keyspace, prefix: string, w: Sent, id: nat, n: string)
    requires IsComplete(ScriptEffect(ks, prefix, w, id), n)
    ensures prefix + n in ks && prefix + n in SentStep(ks, prefix, w).0
  {
  }

  /** Whoever hears a reply hears the script's, so the effects above are also what callers are told. */
  lemma HeardIsAnswered(prefix: string, ws: seq<Sent>, i: nat)
    requires i < |ws| && ws[i].wire == Delivered
    ensures SentStep(SentAfter(prefix, ws[..i]), prefix, ws[i]).1 == ScriptEffects(prefix, ws)[i].reply
  {
    FirstEffects(prefix, ws, i);
  }
}
