/** Cache<T>: a map from keys to (data, timestamp) entries with a single
    time-to-live. An entry older than the time-to-live is dropped when it
    is read. The clock (Date.now()) is an explicit `now` argument in
    milliseconds. */
module TtlCache {
  import opened Wrappers

  datatype Entry<T> = Entry(data: T, timestamp: int)

  /** An entry is stale once strictly more than ttl milliseconds have
      passed since it was stored. */
  predicate Expired<T>(e: Entry<T>, ttl: real, now: int) {
    (now - e.timestamp) as real > ttl
  }

  /** What get(key) answers at time now: nothing for a missing or stale
      entry, the stored data otherwise. */
  function Lookup<T>(entries: map<string, Entry<T>>, ttl: real, key: string, now: int): Option<T> {
    if key !in entries then None
    else if Expired(entries[key], ttl, now) then None
    else Some(entries[key].data)
  }

  /** The entries after get(key) at time now: a stale entry for key is
      deleted, nothing else changes. */
  function AfterGet<T>(entries: map<string, Entry<T>>, ttl: real, key: string, now: int): map<string, Entry<T>> {
    if key in entries && Expired(entries[key], ttl, now) then entries - {key} else entries
  }

  class Cache<T> {
    var entries: map<string, Entry<T>>
    const ttl: real

    /** new Cache(ttlMinutes): the time-to-live is kept in milliseconds. */
    constructor (ttlMinutes: real)
      ensures ttl == ttlMinutes * 60.0 * 1000.0
      ensures entries == map[]
    {
      ttl := ttlMinutes * 60.0 * 1000.0;
      entries := map[];
    }

    /** new Cache() with the default of 60 minutes. */
    constructor Default()
      ensures ttl == 3600000.0
      ensures entries == map[]
    {
      ttl := 60.0 * 60.0 * 1000.0;
      entries := map[];
    }

    /** set(key, data): stores data stamped with the current time,
      replacing any entry for key. */
    method Set(key: string, data: T, now: int)
      modifies this
      ensures entries == old(entries)[key := Entry(data, now)]
    {
      entries := entries[key := Entry(data, now)];
    }

    /** get(key): the stored data if it is fresh; a stale entry is
        deleted and nothing is returned. */
    method Get(key: string, now: int) returns (r: Option<T>)
      modifies this
      ensures r == Lookup(old(entries), ttl, key, now)
      ensures entries == AfterGet(old(entries), ttl, key, now)
    {
      if key !in entries {
        return None;
      }
      var entry := entries[key];
      if (now - entry.timestamp) as real > ttl {
        entries := entries - {key};
        return None;
      }
      return Some(entry.data);
    }

    /** clear(): every entry is dropped. */
    method Clear()
      modifies this
      ensures entries == map[]
    {
      entries := map[];
    }
  }

  // ---------------------------------------------------------------------
  // Properties of the entries
  // ---------------------------------------------------------------------

  /** Data stored at time t0 is what get answers at time t exactly while
      no more than ttl milliseconds have passed; with a negative ttl it is
      never answered. */
  lemma SetThenLookup<T>(entries: map<string, Entry<T>>, ttl: real, key: string, data: T, t0: int, t: int)
    ensures Lookup(entries[key := Entry(data, t0)], ttl, key, t)
         == (if (t - t0) as real <= ttl then Some(data) else None)
    ensures ttl >= 0.0 ==> Lookup(entries[key := Entry(data, t0)], ttl, key, t0) == Some(data)
  {
  }

  /** Storing under one key leaves the answers for every other key alone. */
  lemma SetOtherKey<T>(entries: map<string, Entry<T>>, ttl: real, key: string, e: Entry<T>, other: string, t: int)
    requires other != key
    ensures Lookup(entries[key := e], ttl, other, t) == Lookup(entries, ttl, other, t)
  {
  }

  /** Expiry is monotone in time: an entry answered at t2 was answered,
      with the same data, at every earlier time t1. */
  lemma LookupEarlier<T>(entries: map<string, Entry<T>>, ttl: real, key: string, t1: int, t2: int)
    requires t1 <= t2 && Lookup(entries, ttl, key, t2).Some?
    ensures Lookup(entries, ttl, key, t1) == Lookup(entries, ttl, key, t2)
  {
  }

  /** The deletion get performs is invisible: from its time on, every key
      gets the same answer from the entries before and after the get. */
  lemma AfterGetUnobservable<T>(entries: map<string, Entry<T>>, ttl: real, key: string, now: int, other: string, t: int)
    requires now <= t
    ensures Lookup(AfterGet(entries, ttl, key, now), ttl, other, t) == Lookup(entries, ttl, other, t)
  {
    if key in entries && Expired(entries[key], ttl, now) && other == key {
      assert (t - entries[key].timestamp) as real > ttl;
    }
  }

  /** get only ever removes the entry it was asked about, and only when
      that entry is stale; the entries kept are unchanged. */
  lemma AfterGetRemovesOnlyStale<T>(entries: map<string, Entry<T>>, ttl: real, key: string, now: int)
    ensures AfterGet(entries, ttl, key, now).Keys <= entries.Keys
    ensures forall k :: k in entries && k !in AfterGet(entries, ttl, key, now) ==>
              k == key && Expired(entries[k], ttl, now)
    ensures forall k :: k in AfterGet(entries, ttl, key, now) ==> AfterGet(entries, ttl, key, now)[k] == entries[k]
  {
  }

  /** A cleared cache answers nothing. */
  lemma ClearedLookup<T>(entries: map<string, Entry<T>>, ttl: real, key: string, t: int)
    requires entries == map[]
    ensures Lookup(entries, ttl, key, t) == None
  {
  }
}
