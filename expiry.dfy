/** Time-based expiry of cache entries, as the `moka` caches of the telemetry state apply
    it: an entry disappears once it has lived for the time-to-live, or once it has gone
    unread for the time-to-idle, whichever comes first. Clock readings are explicit
    parameters; expiry is evaluated when an entry is looked at, never by a sweep. */
module Expiry {
  import opened Wrappers

  /** A cached value with the instant it was written and the instant it was last read. */
  datatype Entry<V> = Entry(value: V, insertedAt: nat, lastAccess: nat)

  type Cache<K, V> = map<K, Entry<V>>

  /** An entry is visible at `now` while neither its absolute nor its idle lifetime has run out. */
  predicate Live<V>(e: Entry<V>, now: nat, ttl: nat, tti: nat)
  {
    now < e.insertedAt + ttl && now < e.lastAccess + tti
  }

  /** `insert`: a fresh entry whose two clocks start now, replacing any earlier one for `k`. */
  function Insert<K, V>(c: Cache<K, V>, k: K, v: V, now: nat): Cache<K, V>
  {
    c[k := Entry(v, now, now)]
  }

  /** `get`: the value of `k` if its entry is still live, nothing otherwise. */
  function Get<K, V>(c: Cache<K, V>, k: K, now: nat, ttl: nat, tti: nat): Option<V>
  {
    if k in c && Live(c[k], now, ttl, tti) then Some(c[k].value) else None
  }

  /** The cache after a `get`: reading a live entry restarts its idle clock. */
  function Touch<K, V>(c: Cache<K, V>, k: K, now: nat, ttl: nat, tti: nat): Cache<K, V>
  {
    if k in c && Live(c[k], now, ttl, tti) then c[k := c[k].(lastAccess := now)] else c
  }

  /** A value just inserted is returned until the shorter of its two lifetimes has elapsed,
      and inserting under `k` does not change what any other key returns. */
  lemma GetAfterInsert<K, V>(c: Cache<K, V>, k: K, v: V, t0: nat, t: nat, ttl: nat, tti: nat)
    requires t0 <= t
    ensures Get(Insert(c, k, v, t0), k, t, ttl, tti) == if t < t0 + ttl && t < t0 + tti then Some(v) else None
    ensures forall k' | k' != k :: Get(Insert(c, k, v, t0), k', t, ttl, tti) == Get(c, k', t, ttl, tti)
  {
  }

  /** Reading a live entry keeps it visible for another full idle period, but never past its
      absolute lifetime, however often it is read. */
  lemma TouchExtendsIdle<K, V>(c: Cache<K, V>, k: K, t1: nat, t2: nat, ttl: nat, tti: nat)
    requires Get(c, k, t1, ttl, tti).Some?
    requires t1 <= t2
    ensures Get(Touch(c, k, t1, ttl, tti), k, t2, ttl, tti).Some?
        <==> t2 < c[k].insertedAt + ttl && t2 < t1 + tti
    ensures Get(Touch(c, k, t1, ttl, tti), k, t2, ttl, tti).Some? ==>
              Get(Touch(c, k, t1, ttl, tti), k, t2, ttl, tti) == Get(c, k, t1, ttl, tti)
  {
  }

  /** When the idle limit equals the absolute limit, the idle clock never decides: an entry
      read at or after its insertion is live exactly while its absolute lifetime lasts. */
  lemma IdleNeverBinds<V>(e: Entry<V>, now: nat, lifetime: nat)
    requires e.insertedAt <= e.lastAccess
    ensures Live(e, now, lifetime, lifetime) <==> now < e.insertedAt + lifetime
  {
  }

  /** Once an entry is not live, it stays so at every later instant. */
  lemma ExpiryIsFinal<V>(e: Entry<V>, t1: nat, t2: nat, ttl: nat, tti: nat)
    requires t1 <= t2
    requires !Live(e, t1, ttl, tti)
    ensures !Live(e, t2, ttl, tti)
  {
  }
}
