/** The part of a Redis server the store's three Lua scripts use: hashes with a deadline, and the
    scripts themselves, each of them one atomic step at one instant of the server's clock.

    Assumed of the server: a key is expired once the clock is strictly past its deadline, an
    expired key reads as absent, and an expired key may be removed at any time. Instants are
    counted in milliseconds. */
module RedisServer {
  import opened Wrappers
  import opened Decimal

  /** A script's answer after Lua's conversion: a missing hash field becomes a nil element. */
  datatype Value = Nil | Int(i: int) | Bulk(s: string) | Array(items: seq<Value>) | ScriptError

  datatype Hash = Hash(fields: map<string, string>, deadline: Option<int>)

  type Keyspace = map<string, Hash>

  predicate IsDead(h: Hash, now: int) {
    h.deadline.Some? && now > h.deadline.value
  }

  function Seen(ks: Keyspace, key: string, now: int): Option<Hash> {
    if key in ks && !IsDead(ks[key], now) then Some(ks[key]) else None
  }

  function Field(h: Option<Hash>, field: string): Option<string> {
    if h.Some? && field in h.value.fields then Some(h.value.fields[field]) else None
  }

  function AsBulk(s: Option<string>): Value {
    if s.Some? then Bulk(s.value) else Nil
  }

  const WAITING_FIELDS: map<string, string> := map["status" := "waiting"]

  function ReadyFields(token: string, botUsername: string, completedAt: string): map<string, string> {
    map["status" := "ready", "token" := token, "bot_username" := botUsername, "completed_at" := completedAt]
  }

  /** The effect of put.lua. */
  function PutEffect(ks: Keyspace, key: string, ttl: string, now: int): (Keyspace, Value) {
    if Seen(ks, key, now).Some? then (ks, Int(0))
    else match ParseInt(ttl)
      case None => (ks[key := Hash(WAITING_FIELDS, None)], ScriptError)
      case Some(ms) =>
        if ms <= 0 then (ks - {key}, Int(1)) else (ks[key := Hash(WAITING_FIELDS, Some(now + ms))], Int(1))
  }

  /** The effect of complete.lua. */
  function CompleteEffect(ks: Keyspace, key: string, token: string, botUsername: string, completedAt: string, now: int)
    : (Keyspace, Value)
  {
    var h := Seen(ks, key, now);
    match Field(h, "status")
    case None => (ks, Int(-1))
    case Some(status) =>
      if status != "waiting" then (ks, Int(-2))
      else (ks[key := h.value.(fields := h.value.fields + ReadyFields(token, botUsername, completedAt))], Int(1))
  }

  /** The effect of fetch_and_delete.lua. */
  function FetchEffect(ks: Keyspace, key: string, now: int): (Keyspace, Value) {
    var h := Seen(ks, key, now);
    match Field(h, "status")
    case None => (ks, Nil)
    case Some(status) =>
      if status != "ready" then (ks, Int(-1))
      else
        (ks - {key},
         Array([AsBulk(Field(h, "token")), AsBulk(Field(h, "bot_username")), AsBulk(Field(h, "completed_at"))]))
  }

  class Server {
    var keys: Keyspace

    constructor ()
      ensures keys == map[]
    {
      keys := map[];
    }

    /** HGET. */
    method Hget(key: string, field: string, now: int) returns (v: Option<string>)
      ensures v == Field(Seen(keys, key, now), field)
    {
      if key !in keys || IsDead(keys[key], now) || field !in keys[key].fields {
        return None;
      }
      return Some(keys[key].fields[field]);
    }

    /** HSET: merges into a live hash, keeping its deadline; starts over on an absent or expired one. */
    method Hset(key: string, fields: map<string, string>, now: int)
      modifies this
      ensures var h := Seen(old(keys), key, now);
              keys == old(keys)[key := if h.Some? then h.value.(fields := h.value.fields + fields) else Hash(fields, None)]
    {
      if key in keys && !IsDead(keys[key], now) {
        keys := keys[key := keys[key].(fields := keys[key].fields + fields)];
      } else {
        keys := keys[key := Hash(fields, None)];
      }
    }

    /** PEXPIRE on an existing key: a deadline that is not in the future removes the key at once. */
    method Pexpire(key: string, ms: string, now: int) returns (ok: bool)
      requires key in keys
      modifies this
      ensures ok == ParseInt(ms).Some?
      ensures !ok ==> keys == old(keys)
      ensures ok ==> keys == if ParseInt(ms).value <= 0 then old(keys) - {key}
                             else old(keys)[key := old(keys)[key].(deadline := Some(now + ParseInt(ms).value))]
    {
      var n := ParseInt(ms);
      if n.None? {
        return false;
      }
      if n.value <= 0 {
        keys := keys - {key};
      } else {
        keys := keys[key := keys[key].(deadline := Some(now + n.value))];
      }
      return true;
    }

    /** DEL. */
    method Del(key: string)
      modifies this
      ensures keys == old(keys) - {key}
    {
      keys := keys - {key};
    }

    method PutScript(key: string, ttl: string, now: int) returns (r: Value)
      modifies this
      ensures (keys, r) == PutEffect(old(keys), key, ttl, now)
    {
      if key in keys && !IsDead(keys[key], now) {
        return Int(0);
      }
      Hset(key, WAITING_FIELDS, now);
      var ok := Pexpire(key, ttl, now);
      ghost var created := old(keys)[key := Hash(WAITING_FIELDS, None)];
      assert created - {key} == old(keys) - {key};
      assert ok ==> keys == created - {key} || (key in keys && created[key := keys[key]] == old(keys)[key := keys[key]]);
      return if ok then Int(1) else ScriptError;
    }

    method CompleteScript(key: string, token: string, botUsername: string, completedAt: string, now: int)
      returns (r: Value)
      modifies this
      ensures (keys, r) == CompleteEffect(old(keys), key, token, botUsername, completedAt, now)
    {
      var status := Hget(key, "status", now);
      if status.None? {
        return Int(-1);
      }
      if status.value != "waiting" {
        return Int(-2);
      }
      Hset(key, ReadyFields(token, botUsername, completedAt), now);
      return Int(1);
    }

    method FetchScript(key: string, now: int) returns (r: Value)
      modifies this
      ensures (keys, r) == FetchEffect(old(keys), key, now)
    {
      var status := Hget(key, "status", now);
      if status.None? {
        return Nil;
      }
      if status.value != "ready" {
        return Int(-1);
      }
      var token := Hget(key, "token", now);
      var botUsername := Hget(key, "bot_username", now);
      var completedAt := Hget(key, "completed_at", now);
      Del(key);
      return Array([AsBulk(token), AsBulk(botUsername), AsBulk(completedAt)]);
    }
  }
}
