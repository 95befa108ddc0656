/** What a provider declares, and the pure rules of the toolkit. */
module ProviderSpecs {
  import opened Wrappers

  const DAY_MS := 24 * 3600 * 1000
  const FLIGHT_TTL_MS := 60 * 1000
  const NEGATIVE_TTL_MS := 30 * 1000

  datatype Spec = Spec(
    interval: int, staleFor: int, budgetPerDay: Option<int>, coolLow: int, coolHigh: int)

  /** The Redis keys of one provider. */
  datatype Key = Quota | Cooldown | Budget(day: int) | Negative(key: string) | Flight(key: string)

  /** Why a value was served the way it was. */
  datatype Status = Fresh | Cached | Cooling | OverBudget | NegativeHit | Failed

  /** What the injected `fetch` does: a value, nothing, or a ProviderError. */
  datatype Answer = Value(payload: string) | Nothing | Failure(status: Option<int>, timeout: bool, retryAfter: Option<real>)

  function DayOf(now: int): int {
    now / DAY_MS
  }

  predicate IsFresh(now: int, cachedAt: Option<int>, interval: int) {
    cachedAt.Some? && now - cachedAt.value <= interval
  }

  predicate Affordable(spec: Spec, spent: int) {
    spec.budgetPerDay.Some? ==> spent < spec.budgetPerDay.value
  }

  predicate TimedOut(a: Answer) {
    a.Failure? && a.timeout
  }

  predicate CoolsDown(a: Answer) {
    a.Failure? && a.status.Some? && (a.status.value == 429 || a.status.value >= 500)
  }

  /** How a refresh is reported, from the last answer it got. */
  function StatusOf(a: Answer): Status {
    match a
    case Value(_) => Fresh
    case Nothing => NegativeHit
    case Failure(_, _, _) => if CoolsDown(a) then Cooling else Failed
  }

  function Truncate(x: real): int {
    if x >= 0.0 then x.Floor else -(-x).Floor
  }

  function ClampCooldown(spec: Spec, seconds: Option<real>): (r: int)
    ensures spec.coolLow <= spec.coolHigh ==> spec.coolLow <= r <= spec.coolHigh
    ensures seconds.Some? && spec.coolLow as real <= seconds.value <= spec.coolHigh as real ==> r == Truncate(seconds.value)
    ensures spec.coolLow <= spec.coolHigh ==>
      (seconds.None? || seconds.value < spec.coolLow as real ==> r == spec.coolLow)
      && (seconds.Some? && seconds.value > spec.coolHigh as real ==> r == spec.coolHigh)
  {
    match seconds
    case None => spec.coolLow
    case Some(x) =>
      var low, high := spec.coolLow as real, spec.coolHigh as real;
      var raised := if x < low then low else x;
      Truncate(if high < raised then high else raised)
  }

  /** QUOTA_STEPS: the multiplier of the first floor the share reaches. */
  function Multiplier(share: real): real {
    if share >= 0.5 then 1.0
    else if share >= 0.25 then 2.0
    else if share >= 0.1 then 4.0
    else 12.0
  }

  function IntervalForQuota(spec: Spec, share: real): int {
    Truncate(spec.interval as real * Multiplier(share))
  }

  /** The less quota is left, the longer the interval: the declared one while
      half is left, and twelve times it below a tenth. */
  lemma LessQuotaLongerInterval(spec: Spec, less: real, more: real)
    requires less <= more && spec.interval >= 0
    ensures spec.interval <= IntervalForQuota(spec, more) <= IntervalForQuota(spec, less) <= 12 * spec.interval
    ensures more >= 0.5 ==> IntervalForQuota(spec, more) == spec.interval
    ensures less < 0.1 ==> IntervalForQuota(spec, less) == 12 * spec.interval
  {
    var i := spec.interval as real;
    assert i <= i * Multiplier(more) <= i * Multiplier(less) <= i * 12.0 == (12 * spec.interval) as real;
    assert i.Floor == spec.interval && (i * 12.0).Floor == 12 * spec.interval;
  }

  /** `int` of a number cuts its fraction off, toward zero. */
  lemma TruncatesTowardZero(x: real)
    ensures x >= 0.0 ==> Truncate(x) as real <= x < Truncate(x) as real + 1.0
    ensures x <= 0.0 ==> Truncate(x) as real - 1.0 < x <= Truncate(x) as real
  {
    var up := (-x).Floor;
    assert up as real <= -x < up as real + 1.0;
  }

  /** The steps in figures: the declared interval while half the quota is left,
      twice it down to a quarter, four times it down to a tenth, then twelve times. */
  lemma QuotaBands(spec: Spec, share: real)
    requires spec.interval >= 0
    ensures IntervalForQuota(spec, share) ==
      if 0.5 <= share then spec.interval
      else if 0.25 <= share then 2 * spec.interval
      else if 0.1 <= share then 4 * spec.interval
      else 12 * spec.interval
  {
    var i := spec.interval as real;
    var m := if 0.5 <= share then 1 else if 0.25 <= share then 2 else if 0.1 <= share then 4 else 12;
    assert i * Multiplier(share) == (m * spec.interval) as real;
  }
}
