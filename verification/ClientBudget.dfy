/** `spend`: a fixed window per caller that opens with its first charge. The
    INCR and the EXPIRE that follows it are two commands, so other charges may
    come in between. */
module ClientBudget {
  import opened Wrappers
  import opened RedisStore
  import SpendWindows

  type Key = (string, string, int)

  function Used(s: Store<Key>, k: Key, now: int): int {
    Get(s, k, now).UnwrapOr(0)
  }

  /** One key of the store. */
  function Only(s: Store<Key>, k: Key): Store<()> {
    if k in s then map[() := s[k]] else map[]
  }

  /** The trace machine stands where this key stands. */
  predicate Follows(st: SpendWindows.State, s: Store<Key>, k: Key, now: int) {
    st.store == Only(s, k) && st.now == now && !st.pending && (() in st.store ==> st.starts != [])
  }

  class ClientBudget {
    const redis: Redis<Key>

    constructor (redis: Redis<Key>)
      ensures this.redis == redis
    {
      this.redis := redis;
    }

    /** `client` is the caller's network: unknown callers are let through. A
        window of zero seconds is over as soon as it opens. */
    method Spend(bucket: string, client: Option<string>, limit: int, windowSeconds: nat) returns (granted: bool)
      modifies redis
      ensures redis.now == old(redis.now)
      ensures client.None? || client.value == "" ==> granted && redis.store == old(redis.store)
      ensures client.Some? && client.value != "" ==>
        var k := (bucket, client.value, windowSeconds);
        && (Used(redis.store, k, redis.now) ==
              if windowSeconds == 0 && old(Used(redis.store, k, redis.now)) == 0 then 0
              else old(Used(redis.store, k, redis.now)) + 1)
        && (granted <==> old(Used(redis.store, k, redis.now)) < limit)
        && k in redis.store
        && redis.store[k].expiry == (if old(Used(redis.store, k, redis.now)) == 0 then Some(redis.now + 1000 * windowSeconds)
                                     else old(redis.store)[k].expiry)
        && forall other | other != k :: (other in redis.store <==> other in old(redis.store))
             && (other in redis.store ==> redis.store[other] == old(redis.store)[other])
      // On its key the call is a charge of the trace machine.
      ensures client.Some? && client.value != "" && limit >= 0 ==>
        var k, a := (bucket, client.value, windowSeconds), SpendWindows.Allowance(limit, 1000 * windowSeconds);
        forall st | Follows(st, old(redis.store), k, redis.now) ::
          var t := SpendWindows.ChargedAlone(a, st);
          Follows(t, redis.store, k, redis.now) && |t.grants| == |st.grants| + if granted then 1 else 0
    {
      if client.None? || client.value == "" {
        return true;
      }
      var k := (bucket, client.value, windowSeconds);
      redis.store := Incr(redis.store, k, redis.now);
      var used := redis.store[k].value;
      if used == 1 {
        redis.store := Expire(redis.store, k, 1000 * windowSeconds, redis.now);
      }
      return used <= limit;
    }
  }
}
