/** The serial `fetch` is a run of the interleaved one: the commands of one call,
    with nobody else's in between. */
module FetchRuns {
  import opened Wrappers
  import opened RedisStore
  import opened ProviderSpecs
  import opened ProviderRuns
  import opened Toolkit

  /** A call that has just begun. */
  function Began(key: string, token: int, now: int, cachedAt: Option<int>): Call {
    Call(key, token, now, cachedAt, AskInterval, 0, false, 0, 0, 0, 0, [], None)
  }

  /** From `s` to `t` nothing moved but the call and what it wrote. */
  predicate Alone(s: State, t: State, id: nat) {
    t.now == s.now && id in t.calls && t.calls == s.calls[id := t.calls[id]]
  }

  lemma AloneTogether(s: State, t: State, u: State, id: nat)
    requires Alone(s, t, id) && Alone(t, u, id)
    ensures Alone(s, u, id)
  {}

  predicate Asks(p: Phase) {
    p.AskInterval? || p.AskNegative? || p.AskCooldown? || p.AskBudget?
  }

  lemma AskOnly(spec: Spec, s: State, id: nat)
    requires id in s.calls && Asks(s.calls[id].phase)
    ensures RunCommand(spec, s, id) == Put(s, id, Told(spec, s, s.calls[id]))
  {}

  /** The call, in its new phase, knows what it began with. */
  predicate Unasked(c: Call, d: Call, phase: Phase) {
    d.key == c.key && d.token == c.token && d.now == c.now && d.cachedAt == c.cachedAt && d.phase == phase
    && d.charges == 0 && d.asks == 0 && d.answers == [] && d.run.None?
  }

  function Reading(c: Call, k: nat): Phase {
    if k == 0 then AskInterval else if k == 1 then AskNegative else if k == 2 then AskCooldown
    else if k == 3 then AskBudget else Entering
  }

  /** Whether the k-th check stops the call. */
  function StopsAt(spec: Spec, s: State, c: Call, k: nat): Option<Status> {
    if k == 0 && IsFresh(c.now, c.cachedAt, IntervalIn(s.store, spec, s.now)) then Some(Cached)
    else if k == 1 && Live(s.store, Negative(c.key), s.now) then Some(NegativeHit)
    else if k == 2 && TtlSeconds(s.store, Cooldown, s.now) > 0 then Some(Cooling)
    else if k == 3 && !Affordable(spec, Spent(s.store, DayOf(c.now), s.now)) then Some(OverBudget)
    else None
  }

  lemma AskNext(spec: Spec, s: State, c: Call, d: Call, k: nat)
    requires k < 4 && Unasked(c, d, Reading(c, k))
    ensures var stop := StopsAt(spec, s, c, k);
      Unasked(c, Told(spec, s, d), if stop.Some? then Done(stop.value) else Reading(c, k + 1))
  {}

  lemma PutAgain(s: State, id: nat, c: Call, d: Call)
    ensures Put(Put(s, id, c), id, d) == Put(s, id, d)
  {}

  /** The checks, up to the first that stops the call. */
  lemma ChecksRun(spec: Spec, start: int, trace: seq<Event>, id: nat, c: Call) returns (longer: seq<Event>, d: Call)
    requires After(spec, start, trace).Some? && id in After(spec, start, trace).value.calls
    requires After(spec, start, trace).value.calls[id] == c && c == Began(c.key, c.token, c.now, c.cachedAt)
    ensures After(spec, start, longer) == Some(Put(After(spec, start, trace).value, id, d))
    ensures var s := After(spec, start, trace).value;
      var stop := StoppedBy(s.store, spec, c.key, c.cachedAt, c.now, s.now);
      Unasked(c, d, if stop.Some? then Done(stop.value) else Entering)
  {
    var s := After(spec, start, trace).value;
    longer, d := trace, c;
    assert Put(s, id, c) == s;
    var k := 0;
    while k < 4
      invariant k <= 4 && After(spec, start, longer) == Some(Put(s, id, d))
      invariant Unasked(c, d, Reading(c, k))
      invariant forall m | 0 <= m < k :: StopsAt(spec, s, c, m).None?
      decreases 4 - k
    {
      AskNext(spec, s, c, d, k);
      var t := Put(s, id, d);
      AskOnly(spec, t, id);
      ThenStep(spec, start, longer, Command(id));
      longer := longer + [Command(id)];
      PutAgain(s, id, d, Told(spec, t, d));
      d := Told(spec, t, d);
      if StopsAt(spec, s, c, k).Some? {
        StopsFirst(spec, s, c, k);
        return;
      }
      k := k + 1;
    }
    NoneStops(spec, s, c);
  }

  lemma StopsFirst(spec: Spec, s: State, c: Call, k: nat)
    requires k < 4 && StopsAt(spec, s, c, k).Some? && forall m | 0 <= m < k :: StopsAt(spec, s, c, m).None?
    ensures StoppedBy(s.store, spec, c.key, c.cachedAt, c.now, s.now) == StopsAt(spec, s, c, k)
  {
    assert k > 0 ==> StopsAt(spec, s, c, 0).None?;
    assert k > 1 ==> StopsAt(spec, s, c, 1).None?;
    assert k > 2 ==> StopsAt(spec, s, c, 2).None?;
  }

  lemma NoneStops(spec: Spec, s: State, c: Call)
    requires forall m | 0 <= m < 4 :: StopsAt(spec, s, c, m).None?
    ensures StoppedBy(s.store, spec, c.key, c.cachedAt, c.now, s.now).None?
  {
    assert StopsAt(spec, s, c, 0).None? && StopsAt(spec, s, c, 1).None?;
    assert StopsAt(spec, s, c, 2).None? && StopsAt(spec, s, c, 3).None?;
  }

  /** One more event of the call. */
  lemma Next(spec: Spec, start: int, trace: seq<Event>, e: Event) returns (longer: seq<Event>)
    requires After(spec, start, trace).Some? && Enabled(After(spec, start, trace).value, e)
    ensures After(spec, start, longer) == Some(Step(spec, After(spec, start, trace).value, e))
  {
    ThenStep(spec, start, trace, e);
    longer := trace + [e];
  }

  predicate At(s: State, id: nat, key: string, token: int, now: int, phase: Phase) {
    id in s.calls && s.calls[id].key == key && s.calls[id].token == token && s.calls[id].now == now
    && s.calls[id].phase == phase
  }

  /** The charge, with its EXPIRE when it is the first of the day. */
  lemma ChargeRuns(spec: Spec, start: int, trace: seq<Event>, id: nat, key: string, token: int, now: int) returns (longer: seq<Event>)
    requires After(spec, start, trace).Some? && At(After(spec, start, trace).value, id, key, token, now, Charging)
    ensures After(spec, start, longer).Some?
    ensures var s, t := After(spec, start, trace).value, After(spec, start, longer).value;
      Alone(s, t, id) && At(t, id, key, token, now, Calling) && t.store == ChargedStore(s.store, DayOf(now), s.now)
  {
    var s := After(spec, start, trace).value;
    longer := Next(spec, start, trace, Command(id));
    var t := After(spec, start, longer).value;
    assert Alone(s, t, id);
    if t.calls[id].phase.Expiring? {
      longer := Next(spec, start, longer, Command(id));
      AloneTogether(s, t, After(spec, start, longer).value, id);
    }
  }

  /** The answers, the second only after a timeout, and where they lead. */
  lemma AnswersRun(spec: Spec, start: int, trace: seq<Event>, id: nat, key: string, token: int, now: int, first: Answer, second: Answer)
    returns (longer: seq<Event>)
    requires After(spec, start, trace).Some? && At(After(spec, start, trace).value, id, key, token, now, Calling)
    ensures After(spec, start, longer).Some?
    ensures var s, t := After(spec, start, trace).value, After(spec, start, longer).value;
      Alone(s, t, id) && At(t, id, key, token, now, Settle(spec, LastAnswer(first, second))) && t.store == s.store
  {
    var s := After(spec, start, trace).value;
    longer := Next(spec, start, trace, Upstream(id, first));
    var t := After(spec, start, longer).value;
    assert Alone(s, t, id);
    if TimedOut(first) {
      longer := Next(spec, start, longer, Upstream(id, second));
      AloneTogether(s, t, After(spec, start, longer).value, id);
    }
  }

  /** The mark that an empty answer or a refusal leaves. */
  lemma MarkRuns(spec: Spec, start: int, trace: seq<Event>, id: nat, key: string, token: int, now: int, a: Answer) returns (longer: seq<Event>)
    requires After(spec, start, trace).Some? && At(After(spec, start, trace).value, id, key, token, now, Settle(spec, a))
    ensures After(spec, start, longer).Some?
    ensures var s, t := After(spec, start, trace).value, After(spec, start, longer).value;
      && Alone(s, t, id) && At(t, id, key, token, now, Releasing(StatusOf(a)))
      && t.store == if a.Nothing? then SetEx(s.store, Negative(key), 1, NEGATIVE_TTL_MS, s.now)
                    else if CoolsDown(a) then SetEx(s.store, Cooldown, 1, ClampCooldown(spec, a.retryAfter) * 1000, s.now)
                    else s.store
  {
    var s := After(spec, start, trace).value;
    longer := trace;
    assert s.calls == s.calls[id := s.calls[id]];
    if a.Nothing? || CoolsDown(a) {
      longer := Next(spec, start, trace, Command(id));
      assert Alone(s, After(spec, start, longer).value, id);
    }
  }

  lemma AttemptRuns(spec: Spec, start: int, trace: seq<Event>, id: nat, key: string, token: int, now: int, first: Answer, second: Answer)
    returns (longer: seq<Event>)
    requires After(spec, start, trace).Some? && At(After(spec, start, trace).value, id, key, token, now, Charging)
    ensures After(spec, start, longer).Some?
    ensures var s, t, a := After(spec, start, trace).value, After(spec, start, longer).value, LastAnswer(first, second);
      Alone(s, t, id) && At(t, id, key, token, now, Releasing(StatusOf(a)))
      && t.store == AttemptedStore(spec, s.store, key, now, s.now, a)
  {
    var s := After(spec, start, trace).value;
    longer := ChargeRuns(spec, start, trace, id, key, token, now);
    var t := After(spec, start, longer).value;
    longer := AnswersRun(spec, start, longer, id, key, token, now, first, second);
    var u := After(spec, start, longer).value;
    AloneTogether(s, t, u, id);
    longer := MarkRuns(spec, start, longer, id, key, token, now, LastAnswer(first, second));
    AloneTogether(s, u, After(spec, start, longer).value, id);
  }

  /** From the flight on: a wait for another's, or a refresh and its release. */
  lemma FlightRuns(spec: Spec, start: int, trace: seq<Event>, id: nat, key: string, token: int, now: int, first: Answer, second: Answer)
    returns (longer: seq<Event>)
    requires After(spec, start, trace).Some? && At(After(spec, start, trace).value, id, key, token, now, Entering)
    ensures After(spec, start, longer).Some?
    ensures var s, t, a := After(spec, start, trace).value, After(spec, start, longer).value, LastAnswer(first, second);
      && Alone(s, t, id)
      && if Live(s.store, Flight(key), s.now) then t.store == s.store && t.calls[id].phase == Done(Cached)
         else t.calls[id].phase == Done(StatusOf(a))
              && t.store == CompareAndDelete(
                   AttemptedStore(spec, SetEx(s.store, Flight(key), token, FLIGHT_TTL_MS, s.now), key, now, s.now, a),
                   Flight(key), token, s.now)
  {
    var s := After(spec, start, trace).value;
    longer := Next(spec, start, trace, Command(id));
    var t := After(spec, start, longer).value;
    assert Alone(s, t, id);
    if Live(s.store, Flight(key), s.now) {
      longer := Next(spec, start, longer, Resume(id));
      AloneTogether(s, t, After(spec, start, longer).value, id);
    } else {
      longer := AttemptRuns(spec, start, longer, id, key, token, now, first, second);
      var u := After(spec, start, longer).value;
      AloneTogether(s, t, u, id);
      longer := Next(spec, start, longer, Command(id));
      AloneTogether(s, u, After(spec, start, longer).value, id);
    }
  }

  /** A call that has begun in any run can go on alone to its end. It then leaves
      in Redis, and reports, what the method `Fetch` does. */
  lemma FetchIsARun(spec: Spec, start: int, trace: seq<Event>, id: nat, c: Call, first: Answer, second: Answer) returns (longer: seq<Event>)
    requires After(spec, start, trace).Some? && id in After(spec, start, trace).value.calls
    requires After(spec, start, trace).value.calls[id] == c && c == Began(c.key, c.token, c.now, c.cachedAt)
    ensures After(spec, start, longer).Some?
    ensures var s, t, a := After(spec, start, trace).value, After(spec, start, longer).value, LastAnswer(first, second);
      && Alone(s, t, id)
      && t.store == FetchedStore(spec, s.store, c.key, c.token, c.cachedAt, c.now, s.now, a)
      && t.calls[id].phase == Done(FetchedStatus(spec, s.store, c.key, c.cachedAt, c.now, s.now, a))
  {
    var s := After(spec, start, trace).value;
    var d;
    longer, d := ChecksRun(spec, start, trace, id, c);
    var t := Put(s, id, d);
    assert Alone(s, t, id);
    if StoppedBy(s.store, spec, c.key, c.cachedAt, c.now, s.now).None? {
      longer := FlightRuns(spec, start, longer, id, c.key, c.token, c.now, first, second);
      AloneTogether(s, t, After(spec, start, longer).value, id);
    }
  }
}
