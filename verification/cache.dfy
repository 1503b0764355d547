/** An abstract keyed store with per-entry expiry, standing for the process-wide
    node-cache instance of `backend/src/utils/cache.js`. Times are milliseconds
    of the wall clock; a time-to-live is given in seconds, as node-cache takes it. */
module TtlCache {
  import opened Results

  /** The default time-to-live, in seconds, of an entry stored without one. */
  const DefaultTtl: nat := 300

  datatype Entry<V> = Entry(value: V, expires: int)

  type Cache<V> = map<string, Entry<V>>

  /** An entry is served while the clock has not passed its expiry time. */
  predicate Live<V>(e: Entry<V>, now: int)
  {
    now <= e.expires
  }

  /** What a read of `key` at time `now` returns: the value only while the
      entry is live. */
  function Get<V>(c: Cache<V>, key: string, now: int): (r: Option<V>)
    ensures r.Some? <==> key in c && now <= c[key].expires
    ensures r.Some? ==> r.value == c[key].value
  {
    if key in c && Live(c[key], now) then Some(c[key].value) else None
  }

  /** A read as the store performs it: a live entry is returned and kept; an
      entry found expired is deleted (the store's delete-on-expire default),
      so that a miss leaves the key absent. */
  function Read<V>(c: Cache<V>, key: string, now: int): (out: (Option<V>, Cache<V>))
    ensures out.0 == Get(c, key, now)
    ensures out.0.Some? ==> out.1 == c
    ensures out.0.None? ==> out.1 == c - {key} && key !in out.1
  {
    if key in c && Live(c[key], now) then (Some(c[key].value), c) else (None, c - {key})
  }

  /** A write of `value` under `key` at time `now`, live for `ttl` seconds:
      replaces the whole entry. */
  function Set<V>(c: Cache<V>, key: string, value: V, ttl: nat, now: int): (c': Cache<V>)
    ensures c'.Keys == c.Keys + {key}
    ensures c'[key] == Entry(value, now + ttl * 1000)
    ensures forall k :: k in c && k != key ==> c'[k] == c[k]
  {
    c[key := Entry(value, now + ttl * 1000)]
  }

  /** A read after a write returns the written value exactly as long as the
      time-to-live has not elapsed, and nothing at all afterwards. */
  lemma GetAfterSet<V>(c: Cache<V>, key: string, value: V, ttl: nat, setAt: int, now: int)
    ensures Get(Set(c, key, value, ttl, setAt), key, now) ==
            (if now <= setAt + ttl * 1000 then Some(value) else None)
  {
  }

  /** Writing one key never changes what a read of another key returns. */
  lemma SetLeavesOtherKeys<V>(c: Cache<V>, key: string, other: string, value: V, ttl: nat, setAt: int, now: int)
    requires other != key
    ensures Get(Set(c, key, value, ttl, setAt), other, now) == Get(c, other, now)
  {
  }

  /** A property of the lookup alone, before any deletion: without a write in
      between, a miss stays a miss as the clock moves forward, so an expired
      entry never becomes readable again even where it is not yet deleted. */
  lemma MissPersists<V>(c: Cache<V>, key: string, t0: int, t1: int)
    requires Get(c, key, t0).None?
    requires t0 <= t1
    ensures Get(c, key, t1).None?
  {
  }

  /** After a read that misses, every later read of the key misses too, at
      any clock reading, until the key is written again. */
  lemma MissIsForgotten<V>(c: Cache<V>, key: string, t0: int, t1: int)
    ensures Read(c, key, t0).0.None? ==> Read(Read(c, key, t0).1, key, t1).0.None?
  {
  }
}
