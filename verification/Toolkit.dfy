/** The toolkit of provider.py as one process runs it: methods that read and
    write Redis step by step. `Fetch` is the whole pattern with nobody else
    writing in between; ProviderRuns has the interleavings. */
module Toolkit {
  import opened Wrappers
  import opened RedisStore
  import opened ProviderSpecs

  datatype SignalState = Nominal | Stale | Degraded | Unavailable

  datatype Fetched = Fetched(value: Option<string>, state: SignalState, status: Status, fetchedAt: Option<int>)

  function Spent(s: Store<Key>, day: int, now: int): int {
    Get(s, Budget(day), now).UnwrapOr(0)
  }

  function CoolingSeconds(s: Store<Key>, now: int): int {
    var ttl := TtlSeconds(s, Cooldown, now);
    if ttl > 0 then ttl else 0
  }

  function IntervalIn(s: Store<Key>, spec: Spec, now: int): int {
    Get(s, Quota, now).UnwrapOr(spec.interval)
  }

  /** The last answer `_fetch_with_retry` gets: the second only after a timeout. */
  function LastAnswer(first: Answer, second: Answer): Answer {
    if TimedOut(first) then second else first
  }

  function StaleState(spec: Spec, cached: Option<string>, cachedAt: Option<int>, now: int): SignalState {
    if cached.Some? && IsFresh(now, cachedAt, spec.staleFor) then Stale else Unavailable
  }

  /** What a caller that waited on another's refresh serves: what `reload` reads
      back, when that is newer than what it came with. */
  predicate Newer(reload: Option<(Option<string>, Option<int>)>, cachedAt: Option<int>) {
    && reload.Some? && reload.value.1.Some?
    && (cachedAt.Some? ==> reload.value.1.value > cachedAt.value)
  }

  /** The first check that stops a fetch decides what it reports; None when it
      goes on to the flight. */
  function StoppedBy(s: Store<Key>, spec: Spec, key: string, cachedAt: Option<int>, now: int, clock: int): Option<Status> {
    if IsFresh(now, cachedAt, IntervalIn(s, spec, clock)) then Some(Cached)
    else if Live(s, Negative(key), clock) then Some(NegativeHit)
    else if CoolingSeconds(s, clock) > 0 then Some(Cooling)
    else if !Affordable(spec, Spent(s, DayOf(now), clock)) then Some(OverBudget)
    else None
  }

  /** What a reader is told about a value, from the status it comes with. */
  predicate StateFits(f: Fetched, spec: Spec, cached: Option<string>, cachedAt: Option<int>, now: int) {
    match f.status
    case Fresh => f.state == Nominal
    case NegativeHit => f.state == if cached.Some? then Stale else Unavailable
    case Cooling => f.state == if cached.Some? then Degraded else Unavailable
    case Failed => f.state == if cached.Some? then Degraded else Unavailable
    case OverBudget => f.state == StaleState(spec, cached, cachedAt, now)
    case Cached => f.state == Nominal || f.state == StaleState(spec, cached, cachedAt, now)
  }

  // What the writes leave in Redis

  function ChargedStore(s: Store<Key>, day: int, clock: int): Store<Key> {
    var t := Incr(s, Budget(day), clock);
    if t[Budget(day)].value == 1 then Expire(t, Budget(day), 2 * DAY_MS, clock) else t
  }

  function AttemptedStore(spec: Spec, s: Store<Key>, key: string, now: int, clock: int, a: Answer): Store<Key> {
    var t := ChargedStore(s, DayOf(now), clock);
    if a.Nothing? then SetEx(t, Negative(key), 1, NEGATIVE_TTL_MS, clock)
    else if CoolsDown(a) then SetEx(t, Cooldown, 1, ClampCooldown(spec, a.retryAfter) * 1000, clock)
    else t
  }

  function FetchedStore(spec: Spec, s: Store<Key>, key: string, token: int, cachedAt: Option<int>, now: int, clock: int, a: Answer): Store<Key> {
    if StoppedBy(s, spec, key, cachedAt, now, clock).Some? || Live(s, Flight(key), clock) then s
    else
      var taken := SetEx(s, Flight(key), token, FLIGHT_TTL_MS, clock);
      CompareAndDelete(AttemptedStore(spec, taken, key, now, clock, a), Flight(key), token, clock)
  }

  function FetchedStatus(spec: Spec, s: Store<Key>, key: string, cachedAt: Option<int>, now: int, clock: int, a: Answer): Status {
    StoppedBy(s, spec, key, cachedAt, now, clock).UnwrapOr(if Live(s, Flight(key), clock) then Cached else StatusOf(a))
  }

  ghost predicate SameBut(s: Store<Key>, t: Store<Key>, keys: set<Key>) {
    forall k | k !in keys :: (k in t <==> k in s) && (k in t ==> t[k] == s[k])
  }

  /** One charge; a negative entry exactly after an empty answer, a cooldown
      exactly after a 429 or a server error; nothing else changes. */
  ghost predicate AttemptLeaves(spec: Spec, s: Store<Key>, t: Store<Key>, key: string, now: int, clock: int, a: Answer) {
    && Spent(t, DayOf(now), clock) == Spent(s, DayOf(now), clock) + 1
    && (Live(t, Negative(key), clock) <==> a.Nothing? || Live(s, Negative(key), clock))
    && (a.Nothing? ==> Negative(key) in t && t[Negative(key)].expiry == Some(clock + 30_000))
    && (CoolsDown(a) ==> Cooldown in t && t[Cooldown].expiry == Some(clock + 1000 * ClampCooldown(spec, a.retryAfter)))
    && (!CoolsDown(a) ==> TtlSeconds(t, Cooldown, clock) == TtlSeconds(s, Cooldown, clock))
    && SameBut(s, t, {Budget(DayOf(now)), Negative(key), Cooldown})
  }

  lemma AttemptEffects(spec: Spec, s: Store<Key>, key: string, now: int, clock: int, a: Answer)
    ensures AttemptLeaves(spec, s, AttemptedStore(spec, s, key, now, clock, a), key, now, clock, a)
  {}

  /** The flight taken for the attempt is free again, and no other is touched. */
  lemma FlightFreed(spec: Spec, s: Store<Key>, key: string, token: int, now: int, clock: int, a: Answer)
    requires !Live(s, Flight(key), clock)
    ensures var taken := SetEx(s, Flight(key), token, FLIGHT_TTL_MS, clock);
      var t := AttemptedStore(spec, taken, key, now, clock, a);
      CompareAndDelete(t, Flight(key), token, clock) == Delete(t, Flight(key))
  {
    var taken := SetEx(s, Flight(key), token, FLIGHT_TTL_MS, clock);
    AttemptEffects(spec, taken, key, now, clock, a);
  }

  /** What a fetch without interference means: one charge per refresh and never
      past the budget; an empty answer is remembered and a 429 or a server error
      starts a cooldown; the flight it took is free again and one it found is left
      alone; a call that does not refresh writes nothing. */
  ghost predicate FetchLeaves(spec: Spec, s: Store<Key>, t: Store<Key>, key: string, cachedAt: Option<int>, now: int, clock: int, a: Answer) {
    var refreshes := StoppedBy(s, spec, key, cachedAt, now, clock).None? && !Live(s, Flight(key), clock);
    && Spent(t, DayOf(now), clock) == Spent(s, DayOf(now), clock) + (if refreshes then 1 else 0)
    && (spec.budgetPerDay.Some? && refreshes ==> Spent(t, DayOf(now), clock) <= spec.budgetPerDay.value)
    && (refreshes ==> (Live(t, Negative(key), clock) <==> a.Nothing?))
    && (refreshes && a.Nothing? ==> Negative(key) in t && t[Negative(key)].expiry == Some(clock + 30_000))
    && (refreshes && CoolsDown(a) ==>
          Cooldown in t && t[Cooldown].expiry == Some(clock + 1000 * ClampCooldown(spec, a.retryAfter)))
    && (refreshes && !CoolsDown(a) ==> CoolingSeconds(t, clock) == 0)
    && (Live(t, Flight(key), clock) <==> Live(s, Flight(key), clock))
    && (!refreshes ==> t == s)
    && SameBut(s, t, {Budget(DayOf(now)), Negative(key), Cooldown, Flight(key)})
  }

  lemma FetchEffects(spec: Spec, s: Store<Key>, key: string, token: int, cachedAt: Option<int>, now: int, clock: int, a: Answer)
    ensures FetchLeaves(spec, s, FetchedStore(spec, s, key, token, cachedAt, now, clock, a), key, cachedAt, now, clock, a)
  {
    if StoppedBy(s, spec, key, cachedAt, now, clock).None? && !Live(s, Flight(key), clock) {
      FlightFreed(spec, s, key, token, now, clock, a);
      AttemptEffects(spec, SetEx(s, Flight(key), token, FLIGHT_TTL_MS, clock), key, now, clock, a);
    }
  }

  class Toolkit {
    const redis: Redis<Key>
    const spec: Spec

    constructor (redis: Redis<Key>, spec: Spec)
      ensures this.redis == redis && this.spec == spec
    {
      this.redis := redis;
      this.spec := spec;
    }

    method ChargeBudget(now: int) returns (count: int)
      modifies redis
      ensures redis.now == old(redis.now)
      ensures redis.store == ChargedStore(old(redis.store), DayOf(now), redis.now)
      ensures count == old(Spent(redis.store, DayOf(now), redis.now)) + 1 == Spent(redis.store, DayOf(now), redis.now)
      ensures forall k | k != Budget(DayOf(now)) :: (k in redis.store <==> k in old(redis.store)) && (k in redis.store ==> redis.store[k] == old(redis.store)[k])
      ensures Budget(DayOf(now)) in redis.store
      ensures redis.store[Budget(DayOf(now))].expiry ==
        if count == 1 then Some(redis.now + 172_800_000)
        else if old(Live(redis.store, Budget(DayOf(now)), redis.now)) then old(redis.store)[Budget(DayOf(now))].expiry
        else None
    {
      var k := Budget(DayOf(now));
      redis.store := Incr(redis.store, k, redis.now);
      count := redis.store[k].value;
      if count == 1 {
        redis.store := Expire(redis.store, k, 2 * DAY_MS, redis.now);
      }
    }

    method SetCooldown(retryAfter: Option<real>) returns (seconds: int)
      modifies redis
      ensures redis.now == old(redis.now)
      ensures seconds == ClampCooldown(spec, retryAfter)
      ensures redis.store == SetEx(old(redis.store), Cooldown, 1, seconds * 1000, redis.now)
      ensures CoolingSeconds(redis.store, redis.now) == if seconds > 0 then seconds else 0
    {
      seconds := ClampCooldown(spec, retryAfter);
      redis.store := SetEx(redis.store, Cooldown, 1, seconds * 1000, redis.now);
    }

    /** Asks once, or twice when the first time was a timeout; what was answered
        last is the answer, be it a timeout again. */
    method FetchWithRetry(first: Answer, second: Answer) returns (answer: Answer, asked: nat)
      ensures 1 <= asked <= 2 && answer == [first, second][asked - 1]
      ensures asked == 2 <==> TimedOut(first)
      ensures TimedOut(answer) ==> asked == 2
    {
      if TimedOut(first) {
        return second, 2;
      }
      return first, 1;
    }

    /** The body of `attempt`, run by the holder of the flight. */
    method Attempt(key: string, cached: Option<string>, cachedAt: Option<int>, now: int, first: Answer, second: Answer)
      returns (f: Fetched, asked: nat)
      modifies redis
      ensures redis.now == old(redis.now)
      ensures asked == if TimedOut(first) then 2 else 1
      ensures redis.store == AttemptedStore(spec, old(redis.store), key, now, redis.now, LastAnswer(first, second))
      ensures AttemptLeaves(spec, old(redis.store), redis.store, key, now, redis.now, LastAnswer(first, second))
      ensures var a := LastAnswer(first, second);
        && f.status == StatusOf(a)
        && (a.Value? ==> f == Fetched(Some(a.payload), Nominal, Fresh, Some(now)))
        && (!a.Value? ==> f.value == cached && f.fetchedAt == cachedAt && f.state != Nominal)
        && StateFits(f, spec, cached, cachedAt, now)
    {
      AttemptEffects(spec, redis.store, key, now, redis.now, LastAnswer(first, second));
      var _ := ChargeBudget(now);
      var stale := StaleState(spec, cached, cachedAt, now);
      var answer;
      answer, asked := FetchWithRetry(first, second);
      match answer {
        case Failure(_, _, retryAfter) =>
          var state := if cached.Some? then Degraded else stale;
          if CoolsDown(answer) {
            var _ := SetCooldown(retryAfter);
            f := Fetched(cached, state, Cooling, cachedAt);
          } else {
            f := Fetched(cached, state, Failed, cachedAt);
          }
        case Nothing =>
          redis.store := SetEx(redis.store, Negative(key), 1, NEGATIVE_TTL_MS, redis.now);
          f := Fetched(cached, if cached.Some? then Stale else Unavailable, NegativeHit, cachedAt);
        case Value(payload) =>
          f := Fetched(Some(payload), Nominal, Fresh, Some(now));
      }
    }

    /** The checks of `fetch`, in their order. */
    method Check(key: string, cached: Option<string>, cachedAt: Option<int>, now: int) returns (stop: Option<Fetched>)
      ensures var met := StoppedBy(redis.store, spec, key, cachedAt, now, redis.now);
        && (stop.Some? <==> met.Some?)
        && (stop.Some? ==> stop.value == Fetched(cached, stop.value.state, met.value, cachedAt)
                           && StateFits(stop.value, spec, cached, cachedAt, now)
                           && (met.value == Cached ==> stop.value.state == Nominal))
      // In figures: what stops the call, in the order the checks are made.
      ensures var young := cachedAt.Some? && now - cachedAt.value <= Get(redis.store, Quota, redis.now).UnwrapOr(spec.interval);
        var empty, cooling := Live(redis.store, Negative(key), redis.now), TtlSeconds(redis.store, Cooldown, redis.now) > 0;
        var spent := spec.budgetPerDay.Some? && Get(redis.store, Budget(now / 86_400_000), redis.now).UnwrapOr(0) >= spec.budgetPerDay.value;
        && (young <==> stop.Some? && stop.value.status == Cached)
        && (young ==> stop == Some(Fetched(cached, Nominal, Cached, cachedAt)))
        && (!young && empty <==> stop.Some? && stop.value.status == NegativeHit)
        && (!young && !empty && cooling <==> stop.Some? && stop.value.status == Cooling)
        && (!young && !empty && !cooling && spent <==> stop.Some? && stop.value.status == OverBudget)
        && (!young && !empty && !cooling && !spent <==> stop.None?)
      // What the reader is told: an old value only while it is not too old, or marked as degraded.
      ensures stop.Some? && stop.value.status == OverBudget ==>
        stop.value.state == if cached.Some? && cachedAt.Some? && now - cachedAt.value <= spec.staleFor then Stale else Unavailable
      ensures stop.Some? && stop.value.status == NegativeHit ==> stop.value.state == if cached.Some? then Stale else Unavailable
      ensures stop.Some? && stop.value.status == Cooling ==> stop.value.state == if cached.Some? then Degraded else Unavailable
    {
      var clock := redis.now;
      if IsFresh(now, cachedAt, IntervalIn(redis.store, spec, clock)) {
        return Some(Fetched(cached, Nominal, Cached, cachedAt));
      }
      if Live(redis.store, Negative(key), clock) {
        return Some(Fetched(cached, if cached.Some? then Stale else Unavailable, NegativeHit, cachedAt));
      }
      var stale := StaleState(spec, cached, cachedAt, now);
      if CoolingSeconds(redis.store, clock) > 0 {
        return Some(Fetched(cached, if cached.Some? then Degraded else stale, Cooling, cachedAt));
      }
      if !Affordable(spec, Spent(redis.store, DayOf(now), clock)) {
        return Some(Fetched(cached, stale, OverBudget, cachedAt));
      }
      return None;
    }

    /** The whole pattern. `first` and `second` are what the injected `fetch`
        would do when asked, `reload` what the cache holds once another call's
        flight has ended (None when there is no reload). */
    method Fetch(key: string, token: int, cached: Option<string>, cachedAt: Option<int>, now: int,
                 first: Answer, second: Answer, reload: Option<(Option<string>, Option<int>)>)
      returns (f: Fetched, asked: nat)
      modifies redis
      ensures redis.now == old(redis.now)
      // Upstream is asked exactly when no check stops the call and the flight is free.
      ensures asked > 0 <==> old(StoppedBy(redis.store, spec, key, cachedAt, now, redis.now).None? && !Live(redis.store, Flight(key), redis.now))
      ensures asked <= 2 && (asked == 2 ==> TimedOut(first))
      // The new store, what it means, and the status.
      ensures FetchLeaves(spec, old(redis.store), redis.store, key, cachedAt, now, redis.now, LastAnswer(first, second))
      ensures redis.store == FetchedStore(spec, old(redis.store), key, token, cachedAt, now, redis.now, LastAnswer(first, second))
      ensures f.status == FetchedStatus(spec, old(redis.store), key, cachedAt, now, redis.now, LastAnswer(first, second))
      // A fresh value is the last answer; anything else serves the cache or the holder's value.
      ensures f.status == Fresh ==> asked > 0 && f == Fetched(Some(LastAnswer(first, second).payload), Nominal, Fresh, Some(now))
      ensures var waited := asked == 0 && old(StoppedBy(redis.store, spec, key, cachedAt, now, redis.now)).None?;
        if waited && Newer(reload, cachedAt) then f == Fetched(reload.value.0, Nominal, Cached, reload.value.1)
        else f.status != Fresh ==> f.value == cached && f.fetchedAt == cachedAt
      // The state: nominal for a cached value only while that is fresh or newly reloaded.
      ensures StateFits(f, spec, cached, cachedAt, now)
      ensures f.status == Cached ==>
        var stopped := old(StoppedBy(redis.store, spec, key, cachedAt, now, redis.now)) == Some(Cached);
        f.state == if stopped || Newer(reload, cachedAt) then Nominal else StaleState(spec, cached, cachedAt, now)
      // In figures: a value young enough is served as it is, an older one never stops the call.
      ensures var young := cachedAt.Some? && now - cachedAt.value <= old(Get(redis.store, Quota, redis.now)).UnwrapOr(spec.interval);
        && (young ==> asked == 0 && f == Fetched(cached, Nominal, Cached, cachedAt))
        && (!young && f.status == Cached ==>
              asked == 0 && old(Live(redis.store, Flight(key), redis.now))
              && if reload.Some? && reload.value.1.Some? && (cachedAt.None? || reload.value.1.value > cachedAt.value)
                 then f == Fetched(reload.value.0, Nominal, Cached, reload.value.1)
                 else f == Fetched(cached, if cached.Some? && cachedAt.Some? && now - cachedAt.value <= spec.staleFor
                                           then Stale else Unavailable, Cached, cachedAt))
      // A second question exactly after a timeout; a cooldown exactly after 429 or a server error.
      ensures asked > 0 ==>
        var a := if asked == 2 then second else first;
        && (asked == 2 <==> first.Failure? && first.timeout)
        && (f.status == Fresh <==> a.Value?)
        && (f.status == NegativeHit <==> a.Nothing?)
        && (f.status == Cooling <==> a.Failure? && a.status.Some? && (a.status.value == 429 || 500 <= a.status.value))
        && (f.status == Cooling || f.status == Failed ==> f == Fetched(cached, if cached.Some? then Degraded else Unavailable, f.status, cachedAt))
        && (f.status == NegativeHit ==> f == Fetched(cached, if cached.Some? then Stale else Unavailable, f.status, cachedAt))
    {
      FetchEffects(spec, redis.store, key, token, cachedAt, now, redis.now, LastAnswer(first, second));
      asked := 0;
      var stop := Check(key, cached, cachedAt, now);
      if stop.Some? {
        return stop.value, 0;
      }
      if Live(redis.store, Flight(key), redis.now) {
        if Newer(reload, cachedAt) {
          return Fetched(reload.value.0, Nominal, Cached, reload.value.1), 0;
        }
        return Fetched(cached, StaleState(spec, cached, cachedAt, now), Cached, cachedAt), 0;
      }
      redis.store := SetEx(redis.store, Flight(key), token, FLIGHT_TTL_MS, redis.now);
      f, asked := Attempt(key, cached, cachedAt, now, first, second);
      redis.store := CompareAndDelete(redis.store, Flight(key), token, redis.now);
    }
  }
}
