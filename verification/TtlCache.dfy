/**
 The contract assumed of the go-cache library, as pure functions on a map from key to
 value and expiry. Reads hide expired entries; only the janitor and explicit deletion
 remove them.
 */
module TtlCache {

  datatype Option<+T> = None | Some(value: T)

  datatype Expiry = Never | At(time: int)

  datatype Entry<+V> = Entry(value: V, expiry: Expiry)

  type Cache<+V> = map<string, Entry<V>>

  predicate Expired(e: Expiry, now: int) {
    e.At? && e.time < now
  }

  /** What `Get` and `Items` see. */
  predicate Live<V>(m: Cache<V>, key: string, now: int) {
    key in m && !Expired(m[key].expiry, now)
  }

  /** A zero duration means the cache's default; any other non-positive one never expires. */
  function ExpiryFor(ttl: int, defaultTtl: int, now: int): (e: Expiry)
    ensures forall clock :: Expired(e, clock) <==>
      (ttl > 0 && clock > now + ttl) || (ttl == 0 && defaultTtl > 0 && clock > now + defaultTtl)
  {
    var d := if ttl == 0 then defaultTtl else ttl;
    if d > 0 then At(now + d) else Never
  }

  function Items<V>(m: Cache<V>, now: int): set<string> {
    set key | key in m && Live(m, key, now)
  }

  function ExpiredKeys<V>(m: Cache<V>, now: int): set<string> {
    set key | key in m && Expired(m[key].expiry, now)
  }
}
