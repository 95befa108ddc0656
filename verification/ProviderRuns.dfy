/** `Toolkit.fetch` run by many processes at once for one provider. Every Redis
    command and every upstream answer is one step, and the steps of different
    calls interleave freely. */
module ProviderRuns {
  import opened Wrappers
  import opened RedisStore
  import opened ProviderSpecs
  import opened Sets
  import SingleFlight

  datatype Phase =
    | AskInterval | AskNegative | AskCooldown | AskBudget
    | Entering | Charging | Expiring | Calling | Retrying
    | MarkNegative | MarkCooldown(seconds: int) | Releasing(status: Status)
    | Waiting(deadline: int) | Done(result: Status) | Crashed

  /** One call: what it walked in with, what its checks read, how often it asked
      the upstream and what that answered, and when its work began and ended. */
  datatype Call = Call(
    key: string, token: int, now: int, cachedAt: Option<int>, phase: Phase,
    interval: int, negative: bool, cooling: int, spent: int,
    charges: nat, asks: nat, answers: seq<Answer>, run: Option<SingleFlight.Run>)

  /** `charged` is the true number of charges per day; `late` are the days that
      some call charged after the day that follows them was over. */
  datatype State = State(now: int, store: Store<Key>, calls: map<nat, Call>, charged: map<int, nat>, late: set<int>)

  datatype Event =
    | Tick(ms: nat)
    | NoteQuota(interval: int)
    | ClearCooldown
    | Begin(id: nat, key: string, token: int, cachedAt: Option<int>)
    | Command(id: nat)
    | Upstream(id: nat, answer: Answer)
    | Resume(id: nat)
    | Crash(id: nat)

  function Put(s: State, id: nat, c: Call): State {
    s.(calls := s.calls[id := c])
  }

  function ChargedOn(s: State, day: int): nat {
    if day in s.charged then s.charged[day] else 0
  }

  /** What `attempt` does with an upstream answer that is not retried. */
  function Settle(spec: Spec, a: Answer): Phase {
    match a
    case Value(_) => Releasing(Fresh)
    case Nothing => MarkNegative
    case Failure(_, _, retryAfter) =>
      if CoolsDown(a) then MarkCooldown(ClampCooldown(spec, retryAfter)) else Releasing(Failed)
  }

  /** Inside `attempt`. */
  predicate AtWork(p: Phase) {
    p.Charging? || p.Expiring? || p.Calling? || p.Retrying? || p.MarkNegative? || p.MarkCooldown?
  }

  /** The call in its next phase; its work ends with the phase that leaves it. */
  function Moved(c: Call, phase: Phase, now: int): Call {
    c.(phase := phase,
       run := if AtWork(c.phase) && !AtWork(phase) && c.run.Some?
              then Some(SingleFlight.Run(c.run.value.since, Some(now))) else c.run)
  }

  predicate AtCommand(p: Phase) {
    !p.Calling? && !p.Retrying? && !p.Waiting? && !p.Done? && !p.Crashed?
  }

  /** The call after its next command, from what Redis holds at that instant. */
  function Told(spec: Spec, s: State, c: Call): Call
    requires AtCommand(c.phase)
  {
    match c.phase
    case AskInterval =>
      var interval := Get(s.store, Quota, s.now).UnwrapOr(spec.interval);
      c.(interval := interval, phase := if IsFresh(c.now, c.cachedAt, interval) then Done(Cached) else AskNegative)
    case AskNegative =>
      var negative := Live(s.store, Negative(c.key), s.now);
      c.(negative := negative, phase := if negative then Done(NegativeHit) else AskCooldown)
    case AskCooldown =>
      var cooling := TtlSeconds(s.store, Cooldown, s.now);
      c.(cooling := cooling, phase := if cooling > 0 then Done(Cooling) else AskBudget)
    case AskBudget =>
      var spent := Get(s.store, Budget(DayOf(c.now)), s.now).UnwrapOr(0);
      c.(spent := spent, phase := if Affordable(spec, spent) then Entering else Done(OverBudget))
    case Entering =>
      if Live(s.store, Flight(c.key), s.now) then c.(phase := Waiting(s.now + FLIGHT_TTL_MS))
      else c.(phase := Charging, run := Some(SingleFlight.Run(s.now, None)))
    case Charging =>
      var k := Budget(DayOf(c.now));
      if Incr(s.store, k, s.now)[k].value == 1 then c.(charges := c.charges + 1, phase := Expiring)
      else c.(charges := c.charges + 1, phase := Calling, asks := c.asks + 1)
    case Expiring => c.(phase := Calling, asks := c.asks + 1)
    case MarkNegative => Moved(c, Releasing(NegativeHit), s.now)
    case MarkCooldown(_) => Moved(c, Releasing(Cooling), s.now)
    case Releasing(status) => c.(phase := Done(status))
  }

  /** What the command of the call writes. */
  function Written(s: State, c: Call): Store<Key> {
    match c.phase
    case Entering =>
      if Live(s.store, Flight(c.key), s.now) then s.store
      else SetEx(s.store, Flight(c.key), c.token, FLIGHT_TTL_MS, s.now)
    case Charging => Incr(s.store, Budget(DayOf(c.now)), s.now)
    case Expiring => Expire(s.store, Budget(DayOf(c.now)), 2 * DAY_MS, s.now)
    case MarkNegative => SetEx(s.store, Negative(c.key), 1, NEGATIVE_TTL_MS, s.now)
    case MarkCooldown(seconds) => SetEx(s.store, Cooldown, 1, seconds * 1000, s.now)
    case Releasing(_) => CompareAndDelete(s.store, Flight(c.key), c.token, s.now)
    case _ => s.store
  }

  /** The day, or the day that follows it, is not over. */
  predicate InTime(s: State, day: int) {
    s.now < (day + 2) * DAY_MS
  }

  function Recorded(s: State, c: Call): State {
    if c.phase.Charging? then
      s.(charged := s.charged[DayOf(c.now) := ChargedOn(s, DayOf(c.now)) + 1],
         late := if InTime(s, DayOf(c.now)) then s.late else s.late + {DayOf(c.now)})
    else s
  }

  function RunCommand(spec: Spec, s: State, id: nat): State
    requires id in s.calls && AtCommand(s.calls[id].phase)
  {
    var c := s.calls[id];
    Put(Recorded(s, c).(store := Written(s, c)), id, Told(spec, s, c))
  }

  /** The call after an answer: a first timeout is asked again. */
  function Answered(spec: Spec, c: Call, a: Answer, now: int): Call {
    var d := c.(answers := c.answers + [a]);
    if c.phase.Calling? && TimedOut(a) then d.(phase := Retrying, asks := c.asks + 1)
    else Moved(d, Settle(spec, a), now)
  }

  predicate Enabled(s: State, e: Event) {
    match e
    case Tick(_) => true
    case NoteQuota(_) => true
    case ClearCooldown => true
    case Begin(id, _, token, _) => id !in s.calls && forall i | i in s.calls :: s.calls[i].token != token
    case Command(id) => id in s.calls && AtCommand(s.calls[id].phase)
    case Upstream(id, _) => id in s.calls && (s.calls[id].phase.Calling? || s.calls[id].phase.Retrying?)
    case Resume(id) => id in s.calls && s.calls[id].phase.Waiting?
    case Crash(id) => id in s.calls && !s.calls[id].phase.Done?
  }

  function Step(spec: Spec, s: State, e: Event): State
    requires Enabled(s, e)
  {
    match e
    case Tick(ms) => s.(now := s.now + ms)
    case NoteQuota(interval) => s.(store := SetEx(s.store, Quota, interval, DAY_MS, s.now))
    case ClearCooldown => s.(store := Delete(s.store, Cooldown))
    case Begin(id, key, token, cachedAt) =>
      Put(s, id, Call(key, token, s.now, cachedAt, AskInterval, 0, false, 0, 0, 0, 0, [], None))
    case Command(id) => RunCommand(spec, s, id)
    case Upstream(id, a) =>
      var c := s.calls[id];
      Put(s, id, Answered(spec, c, a, s.now))
    case Resume(id) => Put(s, id, s.calls[id].(phase := Done(Cached)))
    case Crash(id) => Put(s, id, Moved(s.calls[id], Crashed, s.now))
  }

  /** Nobody is ever stuck: time can pass, a quota be noted, a call come, go on
      and die, and the upstream may answer whatever it likes. */
  lemma NobodyIsStuck(s: State, ms: nat, interval: int, id: nat, key: string, token: int, cachedAt: Option<int>, a: Answer)
    ensures Enabled(s, Tick(ms)) && Enabled(s, NoteQuota(interval)) && Enabled(s, ClearCooldown)
    ensures id !in s.calls && (forall i | i in s.calls :: s.calls[i].token != token) ==> Enabled(s, Begin(id, key, token, cachedAt))
    ensures id in s.calls ==>
      match s.calls[id].phase
      case Calling => Enabled(s, Upstream(id, a)) && Enabled(s, Crash(id))
      case Retrying => Enabled(s, Upstream(id, a)) && Enabled(s, Crash(id))
      case Waiting(_) => Enabled(s, Resume(id)) && Enabled(s, Crash(id))
      case Done(_) => true
      case Crashed => true
      case _ => Enabled(s, Command(id)) && Enabled(s, Crash(id))
  {}

  /** The state after a whole interleaving, from an empty Redis at time `now`. */
  function After(spec: Spec, now: int, trace: seq<Event>): Option<State>
    decreases |trace|
  {
    if trace == [] then Some(State(now, map[], map[], map[], {}))
    else
      match After(spec, now, trace[..|trace| - 1])
      case None => None
      case Some(s) =>
        var e := trace[|trace| - 1];
        if Enabled(s, e) then Some(Step(spec, s, e)) else None
  }

  // The counter is the number of charges

  /** Until the end of the day after, the day's counter holds exactly the number
      of charges made; its expiry never falls before that. */
  predicate Counted(s: State, day: int) {
    var k := Budget(day);
    && (k in s.store && s.store[k].expiry.Some? ==> s.store[k].expiry.value >= (day + 2) * DAY_MS)
    && (k in s.store <==> ChargedOn(s, day) > 0)
    && (day !in s.late && k in s.store ==> s.store[k].value == ChargedOn(s, day))
  }

  ghost predicate AllCounted(s: State) {
    && (forall day :: Counted(s, day))
    && (forall i | i in s.calls :: s.calls[i].now <= s.now)
  }

  lemma {:induction false} DayBounds(now: int)
    ensures DayOf(now) * DAY_MS <= now < (DayOf(now) + 1) * DAY_MS
  {}

  lemma ChargeCounts(spec: Spec, s: State, id: nat, day: int)
    requires AllCounted(s) && id in s.calls && s.calls[id].phase.Charging?
    ensures Counted(RunCommand(spec, s, id), day)
  {
    DayBounds(s.calls[id].now);
    assert Counted(s, day);
  }

  lemma StepCounts(spec: Spec, s: State, e: Event, day: int)
    requires AllCounted(s) && Enabled(s, e)
    ensures Counted(Step(spec, s, e), day)
  {
    assert Counted(s, day);
    if e.Command? && s.calls[e.id].phase.Charging? {
      ChargeCounts(spec, s, e.id, day);
    } else if e.Command? && s.calls[e.id].phase.Expiring? {
      DayBounds(s.calls[e.id].now);
    }
  }

  lemma {:induction false} ReachableCounts(spec: Spec, now: int, trace: seq<Event>)
    requires After(spec, now, trace).Some?
    ensures AllCounted(After(spec, now, trace).value)
    decreases |trace|
  {
    if trace != [] {
      ReachableCounts(spec, now, trace[..|trace| - 1]);
      var s, e := After(spec, now, trace[..|trace| - 1]).value, trace[|trace| - 1];
      forall day ensures Counted(Step(spec, s, e), day) {
        StepCounts(spec, s, e, day);
      }
    }
  }

  // The budget under any interleaving

  predicate PastCheck(p: Phase) {
    p.Entering? || p.Charging?
  }

  /** The calls that have passed the budget check and not yet charged. */
  function Undecided(s: State): set<nat> {
    set i | i in s.calls && PastCheck(s.calls[i].phase)
  }

  /** Those of one day that can still charge in time. */
  function Committed(s: State, day: int): set<nat> {
    if InTime(s, day) then set i | i in s.calls && PastCheck(s.calls[i].phase) && DayOf(s.calls[i].now) == day else {}
  }

  /** At no point of the run are more than `n` calls between check and charge. */
  ghost predicate AtMost(spec: Spec, now: int, trace: seq<Event>, n: nat)
    decreases |trace|
  {
    After(spec, now, trace).Some? && |Undecided(After(spec, now, trace).value)| <= n
    && (trace != [] ==> AtMost(spec, now, trace[..|trace| - 1], n))
  }

  ghost predicate Capped(spec: Spec, s: State, day: int, n: nat)
    requires spec.budgetPerDay.Some?
  {
    ChargedOn(s, day) + |Committed(s, day)| <= spec.budgetPerDay.value + n - 1
  }

  lemma CheckCaps(spec: Spec, s: State, id: nat, day: int, n: nat)
    requires AllCounted(s) && spec.budgetPerDay.Some? && day !in s.late
    requires id in s.calls && s.calls[id].phase.AskBudget?
    requires Capped(spec, s, day, n) && |Undecided(RunCommand(spec, s, id))| <= n
    ensures Capped(spec, RunCommand(spec, s, id), day, n)
  {
    var t := RunCommand(spec, s, id);
    assert Counted(s, day);
    DayBounds(s.calls[id].now);
    if id in Committed(t, day) {
      SubsetSize(Committed(t, day), Undecided(t));
    } else {
      SubsetSize(Committed(t, day), Committed(s, day));
    }
  }

  lemma ChargeMoves(spec: Spec, s: State, id: nat, day: int)
    requires id in s.calls && s.calls[id].phase.Charging?
    ensures var t, charged := RunCommand(spec, s, id), DayOf(s.calls[id].now);
      && t.now == s.now && t.calls == s.calls[id := t.calls[id]] && !PastCheck(t.calls[id].phase)
      && ChargedOn(t, day) == ChargedOn(s, day) + (if day == charged then 1 else 0)
      && (charged !in t.late ==> InTime(s, charged))
  {}

  lemma ChargeCaps(spec: Spec, s: State, id: nat, day: int, n: nat)
    requires spec.budgetPerDay.Some?
    requires id in s.calls && s.calls[id].phase.Charging? && day !in RunCommand(spec, s, id).late
    requires Capped(spec, s, day, n)
    ensures Capped(spec, RunCommand(spec, s, id), day, n)
  {
    var t := RunCommand(spec, s, id);
    ChargeMoves(spec, s, id, day);
    if DayOf(s.calls[id].now) == day {
      assert Committed(t, day) == Committed(s, day) - {id};
    } else {
      assert Committed(t, day) == Committed(s, day);
    }
  }

  lemma StepCaps(spec: Spec, s: State, e: Event, day: int, n: nat)
    requires AllCounted(s) && Enabled(s, e) && spec.budgetPerDay.Some?
    requires day !in Step(spec, s, e).late && |Undecided(Step(spec, s, e))| <= n
    requires Capped(spec, s, day, n)
    ensures Capped(spec, Step(spec, s, e), day, n)
  {
    if e.Command? && s.calls[e.id].phase.AskBudget? {
      CheckCaps(spec, s, e.id, day, n);
    } else if e.Command? && s.calls[e.id].phase.Charging? {
      ChargeCaps(spec, s, e.id, day, n);
    } else {
      SubsetSize(Committed(Step(spec, s, e), day), Committed(s, day));
    }
  }

  lemma {:induction false} RunCaps(spec: Spec, now: int, trace: seq<Event>, day: int, n: nat)
    requires spec.budgetPerDay.Some? && spec.budgetPerDay.value >= 0 && n > 0
    requires AtMost(spec, now, trace, n) && day !in After(spec, now, trace).value.late
    ensures Capped(spec, After(spec, now, trace).value, day, n)
    decreases |trace|
  {
    if trace != [] {
      var s, e := After(spec, now, trace[..|trace| - 1]).value, trace[|trace| - 1];
      RunCaps(spec, now, trace[..|trace| - 1], day, n);
      ReachableCounts(spec, now, trace[..|trace| - 1]);
      StepCaps(spec, s, e, day, n);
    }
  }

  /** With at most `n` calls between their check and their charge, no day is
      charged more than its budget plus n - 1; a serial caller never passes the
      budget. */
  lemma BudgetOvershootBound(spec: Spec, now: int, trace: seq<Event>, day: int, n: nat)
    requires spec.budgetPerDay.Some? && spec.budgetPerDay.value >= 0 && n > 0
    requires AtMost(spec, now, trace, n) && day !in After(spec, now, trace).value.late
    ensures ChargedOn(After(spec, now, trace).value, day) <= spec.budgetPerDay.value + n - 1
  {
    RunCaps(spec, now, trace, day, n);
  }

  // What one call does upstream

  predicate Cleared(spec: Spec, c: Call) {
    && !IsFresh(c.now, c.cachedAt, c.interval)
    && !c.negative
    && c.cooling <= 0
    && Affordable(spec, c.spent)
  }

  /** How a finished call is reported, from its reads and the answers it got. */
  function Verdict(spec: Spec, c: Call): Status {
    if IsFresh(c.now, c.cachedAt, c.interval) then Cached
    else if c.negative then NegativeHit
    else if c.cooling > 0 then Cooling
    else if !Affordable(spec, c.spent) then OverBudget
    else if c.answers == [] then Cached
    else StatusOf(c.answers[|c.answers| - 1])
  }

  predicate AfterCharge(p: Phase) {
    p.Expiring? || p.Calling? || p.Retrying? || p.MarkNegative? || p.MarkCooldown? || p.Releasing?
  }

  predicate CallKept(spec: Spec, c: Call) {
    && c.charges <= 1
    && |c.answers| <= c.asks <= 2 * c.charges
    && (c.asks == 2 ==> c.answers != [] && TimedOut(c.answers[0]))
    && (c.charges == 1 || c.phase.Charging? ==> c.run.Some?)
    && (c.charges == 1 ==> Cleared(spec, c))
    && (AfterCharge(c.phase) ==> c.charges == 1)
    && (c.phase.Expiring? ==> c.asks == 0)
    && (c.phase.Calling? ==> c.asks == 1 && c.answers == [])
    && (c.phase.Retrying? ==> c.asks == 2 && |c.answers| == 1 && TimedOut(c.answers[0]))
    && (PastCheck(c.phase) || c.phase.Waiting? ==> c.charges == 0 && Cleared(spec, c))
    && (c.phase.AskBudget? ==>
          !IsFresh(c.now, c.cachedAt, c.interval) && !c.negative && c.cooling <= 0 && c.charges == 0)
    && (c.phase.AskCooldown? ==> !IsFresh(c.now, c.cachedAt, c.interval) && !c.negative && c.charges == 0)
    && (c.phase.AskNegative? ==> !IsFresh(c.now, c.cachedAt, c.interval) && c.charges == 0)
    && (c.phase.AskInterval? ==> c.charges == 0)
    && (c.phase.MarkNegative? ==> c.answers != [] && Verdict(spec, c) == NegativeHit)
    && (c.phase.MarkCooldown? ==> c.answers != [] && Verdict(spec, c) == Cooling)
    && (c.phase.Releasing? ==> c.answers != [] && Verdict(spec, c) == c.phase.status)
    && (c.phase.Done? ==> Verdict(spec, c) == c.phase.result)
  }

  lemma CommandKeepsCall(spec: Spec, s: State, c: Call)
    requires AtCommand(c.phase) && CallKept(spec, c)
    ensures CallKept(spec, Told(spec, s, c))
  {
    match c.phase
    case AskInterval =>
    case AskNegative =>
    case AskCooldown =>
    case AskBudget =>
    case Charging =>
    case _ =>
  }

  lemma AnswerKeepsCall(spec: Spec, s: State, id: nat, a: Answer)
    requires Enabled(s, Upstream(id, a)) && CallKept(spec, s.calls[id])
    ensures CallKept(spec, Step(spec, s, Upstream(id, a)).calls[id])
  {
    var c, d := s.calls[id], Step(spec, s, Upstream(id, a)).calls[id];
    assert d.answers[|d.answers| - 1] == a;
    assert c.phase.Retrying? ==> d.answers[0] == c.answers[0];
  }

  /** A wait that ends, or a crash. */
  lemma LeavingKeepsCall(spec: Spec, c: Call, now: int)
    requires CallKept(spec, c)
    ensures CallKept(spec, Moved(c, Crashed, now))
    ensures c.phase.Waiting? ==> CallKept(spec, c.(phase := Done(Cached)))
  {}

  lemma StepKeepsCall(spec: Spec, s: State, e: Event, i: nat)
    requires Enabled(s, e) && i in Step(spec, s, e).calls
    requires i in s.calls ==> CallKept(spec, s.calls[i])
    ensures CallKept(spec, Step(spec, s, e).calls[i])
  {
    if i in s.calls {
      match e
      case Command(id) =>
        if id == i { CommandKeepsCall(spec, s, s.calls[i]); }
      case Upstream(id, a) =>
        if id == i { AnswerKeepsCall(spec, s, id, a); }
      case Resume(_) => LeavingKeepsCall(spec, s.calls[i], s.now);
      case Crash(_) => LeavingKeepsCall(spec, s.calls[i], s.now);
      case _ =>
    }
  }

  lemma {:induction false} ReachableKeepsCall(spec: Spec, now: int, trace: seq<Event>, i: nat)
    requires After(spec, now, trace).Some? && i in After(spec, now, trace).value.calls
    ensures CallKept(spec, After(spec, now, trace).value.calls[i])
    decreases |trace|
  {
    if trace != [] {
      var s, e := After(spec, now, trace[..|trace| - 1]).value, trace[|trace| - 1];
      if i in s.calls {
        ReachableKeepsCall(spec, now, trace[..|trace| - 1], i);
      }
      StepKeepsCall(spec, s, e, i);
    }
  }

  /** The status that the reads and the last answer of a call stand for. */
  predicate Reported(spec: Spec, c: Call, status: Status) {
    var young := c.cachedAt.Some? && c.now - c.cachedAt.value <= c.interval;
    var spent := spec.budgetPerDay.Some? && c.spent >= spec.budgetPerDay.value;
    var asked := !young && !c.negative && c.cooling <= 0 && !spent && c.answers != [];
    && (status == NegativeHit <==> (!young && c.negative) || (asked && c.answers[|c.answers| - 1].Nothing?))
    && (status == Cooling <==> (!young && !c.negative && c.cooling > 0) || (asked && Refuses(c.answers[|c.answers| - 1])))
    && (status == OverBudget <==> !young && !c.negative && c.cooling <= 0 && spent)
    && (status == Fresh <==> asked && c.answers[|c.answers| - 1].Value?)
    && (status == Failed <==> asked && c.answers[|c.answers| - 1].Failure? && !Refuses(c.answers[|c.answers| - 1]))
  }

  /** Too many requests, or an error of the server. */
  predicate Refuses(a: Answer) {
    a.Failure? && (a.status == Some(429) || (a.status.Some? && a.status.value >= 500))
  }

  /** Upstream is asked at most twice for one charge, the second time only after
      a timeout, never without a charge, and never by a call whose own checks
      read a fresh value, a negative entry, a cooldown or a spent budget. The
      status a finished call reports is the one its reads and answers call for. */
  lemma UpstreamOnlyWhenCleared(spec: Spec, now: int, trace: seq<Event>, i: nat)
    requires After(spec, now, trace).Some? && i in After(spec, now, trace).value.calls
    ensures var c := After(spec, now, trace).value.calls[i];
      && |c.answers| <= c.asks <= 2 * c.charges <= 2
      && (c.asks == 2 ==> c.answers != [] && c.answers[0].Failure? && c.answers[0].timeout)
      && (c.charges > 0 ==>
            && c.run.Some? && !c.negative && c.cooling <= 0
            && !(c.cachedAt.Some? && c.now - c.cachedAt.value <= c.interval)
            && (spec.budgetPerDay.Some? ==> c.spent < spec.budgetPerDay.value))
      && (c.phase.Done? ==> Reported(spec, c, c.phase.result))
  {
    ReachableKeepsCall(spec, now, trace, i);
  }

  lemma ThenStep(spec: Spec, now: int, trace: seq<Event>, e: Event)
    requires After(spec, now, trace).Some? && Enabled(After(spec, now, trace).value, e)
    ensures After(spec, now, trace + [e]) == Some(Step(spec, After(spec, now, trace).value, e))
  {
    assert (trace + [e])[..|trace|] == trace;
  }

  // The bound is reached

  /** A cache key of its own for every call. */
  function OwnKey(id: nat): string {
    seq(id, _ => 'k')
  }

  /** Redis holds nothing about the provider but its counters and flights. */
  predicate Quiet(store: Store<Key>) {
    Quota !in store && Cooldown !in store && forall k | k in store :: !k.Negative?
  }

  function SpentBy(s: State, day: int): int {
    Get(s.store, Budget(day), s.now).UnwrapOr(0)
  }

  /** A call without a cached value after k of its four checks, all clear. */
  function Asking(spec: Spec, s: State, id: nat, k: nat): Call {
    Call(OwnKey(id), id, s.now, None,
         if k == 0 then AskInterval else if k == 1 then AskNegative else if k == 2 then AskCooldown
         else if k == 3 then AskBudget else Entering,
         if k > 0 then spec.interval else 0, false, if k > 2 then -2 else 0,
         if k > 3 then SpentBy(s, DayOf(s.now)) else 0, 0, 0, [], None)
  }

  lemma AsksNext(spec: Spec, s: State, id: nat, k: nat)
    requires k < 4 && Quiet(s.store) && Affordable(spec, SpentBy(s, DayOf(s.now)))
    ensures RunCommand(spec, Put(s, id, Asking(spec, s, id, k)), id) == Put(s, id, Asking(spec, s, id, k + 1))
  {
    var c, d := Asking(spec, s, id, k), Asking(spec, s, id, k + 1);
    var t := Put(s, id, c);
    assert Written(t, c) == s.store && Recorded(t, c) == t;
    assert Told(spec, t, c) == d;
    assert s.calls[id := c][id := d] == s.calls[id := d];
  }

  lemma ThenAtMost(spec: Spec, now: int, trace: seq<Event>, e: Event, n: nat)
    requires AtMost(spec, now, trace, n) && Enabled(After(spec, now, trace).value, e)
    requires |Undecided(Step(spec, After(spec, now, trace).value, e))| <= n
    ensures After(spec, now, trace + [e]) == Some(Step(spec, After(spec, now, trace).value, e))
    ensures AtMost(spec, now, trace + [e], n)
  {
    ThenStep(spec, now, trace, e);
    assert (trace + [e])[..|trace|] == trace;
  }

  lemma OneMoreUndecided(s: State, id: nat, c: Call, n: nat)
    requires |Undecided(s)| < n
    ensures |Undecided(Put(s, id, c))| <= n
  {
    SubsetSize(Undecided(Put(s, id, c)), Undecided(s) + {id});
  }

  /** A new call passes its four checks. */
  lemma ChecksPass(spec: Spec, now: int, trace: seq<Event>, id: nat, n: nat) returns (longer: seq<Event>)
    requires AtMost(spec, now, trace, n) && |Undecided(After(spec, now, trace).value)| < n
    requires var s := After(spec, now, trace).value;
      && id !in s.calls && (forall i | i in s.calls :: s.calls[i].token != id)
      && Quiet(s.store) && Affordable(spec, SpentBy(s, DayOf(s.now)))
    ensures AtMost(spec, now, longer, n)
    ensures var s := After(spec, now, trace).value;
      After(spec, now, longer) == Some(Put(s, id, Asking(spec, s, id, 4)))
  {
    var s := After(spec, now, trace).value;
    OneMoreUndecided(s, id, Asking(spec, s, id, 0), n);
    ThenAtMost(spec, now, trace, Begin(id, OwnKey(id), id, None), n);
    longer := trace + [Begin(id, OwnKey(id), id, None)];
    for k := 0 to 4
      invariant AtMost(spec, now, longer, n)
      invariant After(spec, now, longer) == Some(Put(s, id, Asking(spec, s, id, k)))
    {
      AsksNext(spec, s, id, k);
      OneMoreUndecided(s, id, Asking(spec, s, id, k + 1), n);
      ThenAtMost(spec, now, longer, Command(id), n);
      longer := longer + [Command(id)];
    }
  }

  predicate Poised(s: State, now: int, i: nat) {
    i in s.calls && s.calls[i].phase.Entering? && s.calls[i].now == now && s.calls[i].key == OwnKey(i)
  }

  /** The calls below `from` have charged, those from there to `to` have passed
      their checks and wait to charge. */
  ghost predicate Lined(s: State, now: int, from: nat, to: nat) {
    && s.now == now && s.late == {} && Quiet(s.store) && from <= to
    && ChargedOn(s, DayOf(now)) == from
    && (forall i: nat :: i in s.calls <==> i < to)
    && (forall i | i in s.calls :: s.calls[i].token == i)
    && (forall i: nat | from <= i < to :: Poised(s, now, i))
    && (forall i: nat | i < from :: !PastCheck(s.calls[i].phase))
    && (forall i: nat | from <= i :: Flight(OwnKey(i)) !in s.store)
  }

  lemma CounterIsTrue(spec: Spec, now: int, trace: seq<Event>)
    requires After(spec, now, trace).Some?
    requires var s := After(spec, now, trace).value; s.now == now && s.late == {}
    ensures var s := After(spec, now, trace).value; SpentBy(s, DayOf(now)) == ChargedOn(s, DayOf(now))
  {
    ReachableCounts(spec, now, trace);
    DayBounds(now);
    assert Counted(After(spec, now, trace).value, DayOf(now));
  }

  lemma LinedLonger(spec: Spec, s: State, now: int, from: nat, to: nat)
    requires Lined(s, now, from, to)
    ensures Lined(Put(s, to, Asking(spec, s, to, 4)), now, from, to + 1)
  {
    var t := Put(s, to, Asking(spec, s, to, 4));
    assert Poised(t, now, to);
    forall i: nat | from <= i < to ensures Poised(t, now, i) {
      assert Poised(s, now, i);
    }
  }

  /** One more call lines up while the counter is below the budget. */
  lemma LinesUp(spec: Spec, now: int, trace: seq<Event>, from: nat, to: nat, n: nat) returns (longer: seq<Event>)
    requires AtMost(spec, now, trace, n) && Lined(After(spec, now, trace).value, now, from, to)
    requires to - from < n && Affordable(spec, from)
    ensures AtMost(spec, now, longer, n) && Lined(After(spec, now, longer).value, now, from, to + 1)
  {
    var s := After(spec, now, trace).value;
    IdsBetween(Undecided(s), from, to);
    CounterIsTrue(spec, now, trace);
    longer := ChecksPass(spec, now, trace, to, n);
    LinedLonger(spec, s, now, from, to);
  }

  function Entered(c: Call, now: int): Call {
    c.(phase := Charging, run := Some(SingleFlight.Run(now, None)))
  }

  /** The first of the line has taken its flight. */
  lemma Enters(spec: Spec, s: State, now: int, from: nat, to: nat)
    requires Lined(s, now, from, to) && from < to && Poised(s, now, from)
    ensures var c := s.calls[from];
      RunCommand(spec, s, from) ==
      Put(s.(store := SetEx(s.store, Flight(c.key), c.token, FLIGHT_TTL_MS, now)), from, Entered(c, now))
  {}

  /** And charged: the counter moves by one, and the flights of the others stay free. */
  lemma Charges(spec: Spec, s: State, u: State, now: int, from: nat, to: nat)
    requires Lined(s, now, from, to) && from < to && Poised(s, now, from)
    requires u == Put(s.(store := SetEx(s.store, Flight(s.calls[from].key), s.calls[from].token, FLIGHT_TTL_MS, now)),
                      from, Entered(s.calls[from], now))
    ensures Lined(RunCommand(spec, u, from), now, from + 1, to)
    ensures Undecided(RunCommand(spec, u, from)) <= Undecided(s)
  {
    DayBounds(now);
    var t := RunCommand(spec, u, from);
    assert t.calls == s.calls[from := t.calls[from]] && !PastCheck(t.calls[from].phase) && t.calls[from].token == from;
    FlightsStayFree(s, t, now, from);
    forall i: nat | from + 1 <= i < to ensures Poised(t, now, i) {
      assert Poised(s, now, i);
    }
  }

  lemma FlightsStayFree(s: State, t: State, now: int, from: nat)
    requires t.store.Keys <= s.store.Keys + {Flight(OwnKey(from)), Budget(DayOf(now))}
    requires forall i: nat | from <= i :: Flight(OwnKey(i)) !in s.store
    ensures forall i: nat | from + 1 <= i :: Flight(OwnKey(i)) !in t.store
  {
    forall i: nat | from + 1 <= i ensures Flight(OwnKey(i)) !in t.store {
      assert |OwnKey(i)| == i && |OwnKey(from)| == from;
    }
  }

  /** The first of the line takes its flight and charges. */
  lemma ChargesNext(spec: Spec, now: int, trace: seq<Event>, from: nat, to: nat, n: nat) returns (longer: seq<Event>)
    requires AtMost(spec, now, trace, n) && Lined(After(spec, now, trace).value, now, from, to) && from < to
    ensures AtMost(spec, now, longer, n) && Lined(After(spec, now, longer).value, now, from + 1, to)
  {
    var s := After(spec, now, trace).value;
    assert Poised(s, now, from);
    var u := RunCommand(spec, s, from);
    Enters(spec, s, now, from, to);
    assert Undecided(u) == Undecided(s);
    ThenAtMost(spec, now, trace, Command(from), n);
    longer := trace + [Command(from)];
    Charges(spec, s, u, now, from, to);
    SubsetSize(Undecided(RunCommand(spec, u, from)), Undecided(s));
    ThenAtMost(spec, now, longer, Command(from), n);
    longer := longer + [Command(from)];
  }

  /** One after the other, the first callers leave one charge of the budget. */
  lemma {:induction false} ChargeSerially(spec: Spec, now: int, count: nat, n: nat) returns (trace: seq<Event>)
    requires Affordable(spec, count) && n > 0
    ensures AtMost(spec, now, trace, n) && Lined(After(spec, now, trace).value, now, count, count)
    decreases count
  {
    if count == 0 {
      trace := [];
      assert Undecided(After(spec, now, trace).value) == {};
    } else {
      trace := ChargeSerially(spec, now, count - 1, n);
      trace := LinesUp(spec, now, trace, count - 1, count - 1, n);
      trace := ChargesNext(spec, now, trace, count - 1, count, n);
    }
  }

  /** For every budget and every `n`, some run with at most `n` calls between
      check and charge charges the budget plus n - 1. */
  lemma OvershootIsReached(spec: Spec, now: int, n: nat) returns (trace: seq<Event>)
    requires spec.budgetPerDay.Some? && spec.budgetPerDay.value > 0 && n > 0
    ensures AtMost(spec, now, trace, n) && After(spec, now, trace).value.late == {}
    ensures ChargedOn(After(spec, now, trace).value, DayOf(now)) == spec.budgetPerDay.value + n - 1
  {
    var last := spec.budgetPerDay.value - 1;
    trace := ChargeSerially(spec, now, last, n);
    for k := 0 to n
      invariant AtMost(spec, now, trace, n) && Lined(After(spec, now, trace).value, now, last, last + k)
    {
      trace := LinesUp(spec, now, trace, last, last + k, n);
    }
    for k := 0 to n
      invariant AtMost(spec, now, trace, n) && Lined(After(spec, now, trace).value, now, last + k, last + n)
    {
      trace := ChargesNext(spec, now, trace, last + k, last + n, n);
    }
  }

  /** The budget of a day is kept in every run. */
  ghost predicate BudgetKept(spec: Spec, now: int, n: nat)
    requires spec.budgetPerDay.Some?
  {
    forall trace, day | AtMost(spec, now, trace, n) && day !in After(spec, now, trace).value.late ::
      ChargedOn(After(spec, now, trace).value, day) <= spec.budgetPerDay.value
  }

  /** The budget is a cap exactly when calls come one at a time between their
      check and their charge. */
  lemma BudgetCapsExactly(spec: Spec, now: int, n: nat)
    requires spec.budgetPerDay.Some? && spec.budgetPerDay.value > 0 && n > 0
    ensures BudgetKept(spec, now, n) <==> n == 1
  {
    if n == 1 {
      forall trace, day | AtMost(spec, now, trace, n) && day !in After(spec, now, trace).value.late
        ensures ChargedOn(After(spec, now, trace).value, day) <= spec.budgetPerDay.value
      {
        BudgetOvershootBound(spec, now, trace, day, n);
      }
    } else {
      var trace := OvershootIsReached(spec, now, n);
      assert DayOf(now) !in After(spec, now, trace).value.late;
    }
  }
}
