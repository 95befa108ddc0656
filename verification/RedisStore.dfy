/** Redis as the server uses it: keys with an optional expiry on one clock, and
    commands that each take effect in a single instant. A key written at `t`
    with a time to live of `d` is there at every instant before `t + d`.
    Times are milliseconds; every stored value is a number (tokens, counters,
    flags and timestamps all are). */
module RedisStore {
  import opened Wrappers

  datatype Entry = Entry(value: int, expiry: Option<int>)

  type Store<K> = map<K, Entry>

  predicate Live<K(==)>(s: Store<K>, k: K, now: int) {
    k in s && (s[k].expiry.None? || now < s[k].expiry.value)
  }

  /** GET. */
  function Get<K(==)>(s: Store<K>, k: K, now: int): Option<int> {
    if Live(s, k, now) then Some(s[k].value) else None
  }

  /** SET with EX. */
  function SetEx<K(==)>(s: Store<K>, k: K, v: int, ttl: int, now: int): Store<K> {
    s[k := Entry(v, Some(now + ttl))]
  }

  /** DEL. */
  function Delete<K(==)>(s: Store<K>, k: K): Store<K> {
    map x | x in s && x != k :: s[x]
  }

  /** INCR: a missing or expired key counts from zero and has no expiry; a live
      one keeps its expiry. */
  function Incr<K(==)>(s: Store<K>, k: K, now: int): Store<K> {
    s[k := if Live(s, k, now) then Entry(s[k].value + 1, s[k].expiry) else Entry(1, None)]
  }

  /** EXPIRE: acts on a live key only. */
  function Expire<K(==)>(s: Store<K>, k: K, ttl: int, now: int): Store<K> {
    if Live(s, k, now) then s[k := Entry(s[k].value, Some(now + ttl))] else s
  }

  /** The release script of provider.py: delete the key only while it still
      carries the caller's token. */
  function CompareAndDelete<K(==)>(s: Store<K>, k: K, token: int, now: int): Store<K> {
    if Get(s, k, now) == Some(token) then Delete(s, k) else s
  }

  /** TTL, in seconds as Redis answers it: -2 without the key, -1 without an
      expiry, and otherwise the remaining time rounded to the nearest second. */
  function TtlSeconds<K(==)>(s: Store<K>, k: K, now: int): int {
    if !Live(s, k, now) then -2
    else if s[k].expiry.None? then -1
    else (s[k].expiry.value - now + 500) / 1000
  }

  /** A missing key, a key that stays, and one that goes: its seconds are within
      half a second of what remains. */
  lemma TtlTells<K>(s: Store<K>, k: K, now: int)
    ensures !Live(s, k, now) ==> TtlSeconds(s, k, now) == -2
    ensures k in s && s[k].expiry.None? ==> TtlSeconds(s, k, now) == -1
    ensures k in s && s[k].expiry.Some? && now < s[k].expiry.value ==>
      var rest := s[k].expiry.value - now;
      TtlSeconds(s, k, now) >= 0 && rest - 500 < 1000 * TtlSeconds(s, k, now) <= rest + 500
  {}

  /** One connection. The clock moves between calls, not inside one. */
  class Redis<K(==)> {
    var store: Store<K>
    var now: int

    constructor (now: int)
      ensures store == map[] && this.now == now
    {
      store := map[];
      this.now := now;
    }
  }
}
