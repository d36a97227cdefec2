/** The Redis-backed store: key layout, script calls over an unreliable connection, and the
    decoding of script replies. */
module RedisStore {
  import opened Wrappers
  import opened Pairing
  import opened Decimal
  import opened RedisServer

  const DEFAULT_KEY_PREFIX := "pairing:"

  const NANOS_PER_MILLI := 1_000_000
  const NANOS_PER_SECOND := 1_000_000_000

  /** Duration.Milliseconds truncates toward zero. */
  function Milliseconds(d: int): int {
    if d >= 0 then d / NANOS_PER_MILLI else -(-d / NANOS_PER_MILLI)
  }

  function Unexpected(what: string): Reply {
    Failed(ErrBackend(what))
  }

  function DecodePut(v: Value): Reply {
    match v
    case Int(i) =>
      if i == 1 then Done else if i == 0 then Failed(ErrAlreadyExists) else Unexpected("unexpected script result")
    case _ => Unexpected("Put")
  }

  function DecodeComplete(v: Value): Reply {
    match v
    case Int(i) =>
      if i == 1 then Done
      else if i == -1 then Failed(ErrNotFound)
      else if i == -2 then Failed(ErrInvalidState)
      else Unexpected("unexpected script result")
    case _ => Unexpected("Complete")
  }

  function DecodeFetch(nonce: string, v: Value): Reply {
    match v
    case Nil => Failed(ErrNotFound)
    case ScriptError => Unexpected("FetchAndDelete")
    case Int(i) => if i == -1 then Failed(ErrNotReady) else Unexpected("unexpected script shape")
    case Bulk(_) => Unexpected("unexpected script shape")
    case Array(items) =>
      if |items| != 3 then Unexpected("unexpected script shape")
      else if !(items[0].Bulk? && items[1].Bulk? && items[2].Bulk?) then Unexpected("unexpected field types")
      else match ParseInt(items[2].s)
        case None => Unexpected("parse completed_at")
        case Some(unix) => Fetched(Entry(nonce, items[0].s, items[1].s, unix * NANOS_PER_SECOND))
  }

  /** One call that reached the server and came back. `now` is the server's clock in milliseconds
      and `unix` the caller's in seconds, which Complete sends along. */
  function StoreEffect(ks: Keyspace, prefix: string, call: Call, now: int, unix: int): (Keyspace, Reply) {
    var key := prefix + call.nonce;
    match call
    case Put(_, ttl) =>
      var (ks', v) := PutEffect(ks, key, FormatInt(Milliseconds(ttl)), now);
      (ks', DecodePut(v))
    case Complete(_, token, botUsername) =>
      var (ks', v) := CompleteEffect(ks, key, token, botUsername, FormatInt(unix), now);
      (ks', DecodeComplete(v))
    case FetchAndDelete(n) =>
      var (ks', v) := FetchEffect(ks, key, now);
      (ks', DecodeFetch(n, v))
  }

  /** What became of a script call on the wire. */
  datatype Wire = Delivered | RequestLost | ReplyLost

  /** The same call over the wire: a lost reply hides an effect that did happen. */
  function WireEffect(ks: Keyspace, prefix: string, call: Call, now: int, unix: int, wire: Wire): (Keyspace, Reply) {
    match wire
    case Delivered => StoreEffect(ks, prefix, call, now, unix)
    case RequestLost => (ks, Unexpected("transport"))
    case ReplyLost => (StoreEffect(ks, prefix, call, now, unix).0, Unexpected("transport"))
  }

  class Store {
    const server: Server
    const prefix: string

    constructor (server: Server, prefix: Option<string>)
      ensures this.server == server
      ensures this.prefix == if prefix.Some? then prefix.value else DEFAULT_KEY_PREFIX
    {
      this.server := server;
      this.prefix := if prefix.Some? then prefix.value else DEFAULT_KEY_PREFIX;
    }

    method Put(ctxErr: Option<CtxError>, nonce: string, ttl: int, now: int, wire: Wire) returns (reply: Reply)
      modifies server
      ensures ctxErr.Some? ==> reply == Failed(ErrContext(ctxErr.value)) && server.keys == old(server.keys)
      ensures ctxErr.None? ==>
          (server.keys, reply) == WireEffect(old(server.keys), prefix, Call.Put(nonce, ttl), now, 0, wire)
      ensures ctxErr.None? && wire != Delivered ==> reply.Failed? && reply.error.ErrBackend?
      ensures ctxErr.None? && wire == RequestLost ==> server.keys == old(server.keys)
    {
      if ctxErr.Some? {
        return Failed(ErrContext(ctxErr.value));
      }
      if wire == RequestLost {
        return Unexpected("transport");
      }
      var v := server.PutScript(prefix + nonce, FormatInt(Milliseconds(ttl)), now);
      return if wire == ReplyLost then Unexpected("transport") else DecodePut(v);
    }

    method Complete(ctxErr: Option<CtxError>, nonce: string, token: string, botUsername: string,
        now: int, unix: int, wire: Wire)
      returns (reply: Reply)
      modifies server
      ensures ctxErr.Some? ==> reply == Failed(ErrContext(ctxErr.value)) && server.keys == old(server.keys)
      ensures ctxErr.None? ==>
          (server.keys, reply) ==
          WireEffect(old(server.keys), prefix, Call.Complete(nonce, token, botUsername), now, unix, wire)
      ensures ctxErr.None? && wire != Delivered ==> reply.Failed? && reply.error.ErrBackend?
      ensures ctxErr.None? && wire == RequestLost ==> server.keys == old(server.keys)
    {
      if ctxErr.Some? {
        return Failed(ErrContext(ctxErr.value));
      }
      if wire == RequestLost {
        return Unexpected("transport");
      }
      var v := server.CompleteScript(prefix + nonce, token, botUsername, FormatInt(unix), now);
      return if wire == ReplyLost then Unexpected("transport") else DecodeComplete(v);
    }

    method FetchAndDelete(ctxErr: Option<CtxError>, nonce: string, now: int, wire: Wire) returns (reply: Reply)
      modifies server
      ensures ctxErr.Some? ==> reply == Failed(ErrContext(ctxErr.value)) && server.keys == old(server.keys)
      ensures ctxErr.None? ==>
          (server.keys, reply) == WireEffect(old(server.keys), prefix, Call.FetchAndDelete(nonce), now, 0, wire)
      ensures ctxErr.None? && wire != Delivered ==> reply.Failed? && reply.error.ErrBackend?
      ensures ctxErr.None? && wire == RequestLost ==> server.keys == old(server.keys)
    {
      if ctxErr.Some? {
        return Failed(ErrContext(ctxErr.value));
      }
      if wire == RequestLost {
        return Unexpected("transport");
      }
      var v := server.FetchScript(prefix + nonce, now);
      return if wire == ReplyLost then Unexpected("transport") else DecodeFetch(nonce, v);
    }
  }
}
