/** The in-process store: a map from nonce to a mutable entry object, swept in full on every call.

    Every method is what one goroutine does while it holds the mutex; module Linearizability
    treats the interleaving of many. Clock readings are parameters: `now` is the one the sweep
    takes and `stamp` the later one, so nothing here relies on the two being equal. */
module MemoryStore {
  import opened Wrappers
  import opened Pairing

  class MemoryEntry {
    var status: Status
    var token: string
    var botUsername: string
    var expiresAt: int
    var completedAt: int

    constructor (deadline: int)
      ensures Value() == NewSlot(deadline)
    {
      status, token, botUsername := Waiting, "", "";
      expiresAt, completedAt := deadline, ZERO_TIME;
    }

    function Value(): Slot
      reads this
    {
      Slot(status, token, botUsername, expiresAt, completedAt)
    }
  }

  class MemoryStore {
    var entries: map<string, MemoryEntry>

    /** No two nonces share an entry object. */
    ghost predicate Valid()
      reads this
    {
      forall j, k | j in entries && k in entries && j != k :: entries[j] != entries[k]
    }

    /** The entries as values, ready for comparison with the store contract. */
    ghost function Contents(): TtlMap
      reads this, entries.Values
    {
      map k | k in entries :: entries[k].Value()
    }

    constructor ()
      ensures Valid() && entries == map[]
    {
      entries := map[];
    }

    /** Visits every nonce in an arbitrary order and deletes the dead ones. */
    method SweepLocked(now: int)
      requires Valid()
      modifies this
      ensures Valid() && entries.Values <= old(entries.Values)
      ensures Contents() == Live(old(Contents()), now)
      ensures forall k | k in entries :: k in old(entries) && entries[k] == old(entries)[k]
    {
      var pending := entries.Keys;
      while pending != {}
        invariant pending <= entries.Keys <= old(entries).Keys
        invariant forall k | k in entries :: entries[k] == old(entries)[k]
        invariant forall k | k in old(entries) ::
            k in entries <==> k in pending || !Expired(old(entries[k].Value()), now)
        decreases pending
      {
        var nonce :| nonce in pending;
        pending := pending - {nonce};
        if now > entries[nonce].expiresAt {
          entries := entries - {nonce};
        }
      }
    }

    method Put(ctxErr: Option<CtxError>, nonce: string, ttl: int, now: int, stamp: int) returns (err: Option<StoreError>)
      requires Valid()
      modifies this, entries.Values
      ensures Valid() && fresh(entries.Values - old(entries.Values))
      ensures ctxErr.Some? ==> err == Some(ErrContext(ctxErr.value)) && Contents() == old(Contents())
      ensures ctxErr.None? ==>
          (Contents(), AsReply(err)) == Apply(Live(old(Contents()), now), Call.Put(nonce, ttl), now, stamp)
    {
      if ctxErr.Some? {
        return Some(ErrContext(ctxErr.value));
      }
      SweepLocked(now);
      SweptIsLive(old(Contents()), nonce, now);
      if nonce in entries {
        return Some(ErrAlreadyExists);
      }
      ghost var swept := Contents();
      var e := new MemoryEntry(stamp + ttl);
      assert Contents() == swept;
      entries := entries[nonce := e];
      assert Contents() == swept[nonce := NewSlot(stamp + ttl)];
      return None;
    }

    method Complete(ctxErr: Option<CtxError>, nonce: string, token: string, botUsername: string, now: int, stamp: int)
      returns (err: Option<StoreError>)
      requires Valid()
      modifies this, entries.Values
      ensures Valid() && fresh(entries.Values - old(entries.Values))
      ensures ctxErr.Some? ==> err == Some(ErrContext(ctxErr.value)) && Contents() == old(Contents())
      ensures ctxErr.None? ==>
          (Contents(), AsReply(err)) ==
          Apply(Live(old(Contents()), now), Call.Complete(nonce, token, botUsername), now, stamp)
    {
      if ctxErr.Some? {
        return Some(ErrContext(ctxErr.value));
      }
      SweepLocked(now);
      SweptIsLive(old(Contents()), nonce, now);
      if nonce !in entries {
        return Some(ErrNotFound);
      }
      ghost var swept := Contents();
      var e := entries[nonce];
      assert swept[nonce] == e.Value();
      if e.status != Waiting {
        return Some(ErrInvalidState);
      }
      e.status := Ready;
      e.token := token;
      e.botUsername := botUsername;
      e.completedAt := stamp;
      assert Contents() == swept[nonce := Slot(Ready, token, botUsername, swept[nonce].expiresAt, stamp)];
      return None;
    }

    method FetchAndDelete(ctxErr: Option<CtxError>, nonce: string, now: int) returns (r: Result<Entry, StoreError>)
      requires Valid()
      modifies this, entries.Values
      ensures Valid() && entries.Values <= old(entries.Values)
      ensures ctxErr.Some? ==> r == Err(ErrContext(ctxErr.value)) && Contents() == old(Contents())
      ensures ctxErr.None? ==>
          (Contents(), FetchReply(r)) == Apply(Live(old(Contents()), now), Call.FetchAndDelete(nonce), now, now)
    {
      if ctxErr.Some? {
        return Err(ErrContext(ctxErr.value));
      }
      SweepLocked(now);
      SweptIsLive(old(Contents()), nonce, now);
      if nonce !in entries {
        return Err(ErrNotFound);
      }
      ghost var swept := Contents();
      var e := entries[nonce];
      assert swept[nonce] == e.Value();
      if e.status != Ready {
        return Err(ErrNotReady);
      }
      var out := Entry(nonce, e.token, e.botUsername, e.completedAt);
      entries := entries - {nonce};
      assert Contents() == swept - {nonce};
      return Ok(out);
    }

    /** The number of registrations live at `now`. */
    method Len(now: int) returns (n: nat)
      requires Valid()
      modifies this
      ensures Valid() && entries.Values <= old(entries.Values)
      ensures Contents() == Live(old(Contents()), now)
      ensures n == |Live(old(Contents()), now)|
    {
      SweepLocked(now);
      assert entries.Keys == Contents().Keys;
      n := |entries|;
    }
  }

  function AsReply(err: Option<StoreError>): Reply {
    if err.None? then Done else Failed(err.value)
  }

  function FetchReply(r: Result<Entry, StoreError>): Reply {
    if r.Ok? then Fetched(r.value) else Failed(r.error)
  }
}
