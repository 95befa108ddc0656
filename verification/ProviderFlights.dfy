/** The flights of `fetch` are flights of `single_flight`: every run of the
    provider's calls is, seen through its flight keys, a run of the lock. */
module ProviderFlights {
  import opened Wrappers
  import opened RedisStore
  import opened ProviderSpecs
  import Runs = ProviderRuns
  import Lock = SingleFlight

  /** The flight keys alone. */
  function Flights(store: Store<Key>): Store<string> {
    map k | k in store && k.Flight? :: k.key := store[k]
  }

  /** A call that gave up before its work, or waited for another's, has no part
      in the lock any more. */
  function PhaseOf(c: Runs.Call): Lock.Phase {
    match c.phase
    case Releasing(_) => Lock.Releasing
    case Waiting(deadline) => Lock.LoopHead(deadline)
    case Done(_) => if c.run.Some? then Lock.Finished else Lock.Crashed
    case Crashed => Lock.Crashed
    case _ => if Runs.AtWork(c.phase) then Lock.Working else Lock.Entering
  }

  function CallOf(c: Runs.Call): Lock.Call {
    Lock.Call(c.key, c.token, FLIGHT_TTL_MS, PhaseOf(c), c.run, 0)
  }

  function Seen(s: Runs.State): Lock.State {
    Lock.State(s.now, Flights(s.store), map i | i in s.calls :: CallOf(s.calls[i]))
  }

  /** What the lock sees of an event, if anything. */
  function Image(spec: Spec, s: Runs.State, e: Runs.Event): Option<Lock.Event>
    requires Runs.Enabled(s, e)
  {
    match e
    case Tick(ms) => Some(Lock.Tick(ms))
    case NoteQuota(_) => None
    case ClearCooldown => None
    case Begin(id, key, token, _) => Some(Lock.Begin(id, key, token, FLIGHT_TTL_MS))
    case Command(id) =>
      var c, d := s.calls[id], Runs.Told(spec, s, s.calls[id]);
      if c.phase.Entering? then Some(Lock.Acquire(id))
      else if c.phase.Releasing? then Some(Lock.Release(id))
      else if d.phase.Releasing? then Some(Lock.EndWork(id))
      else if d.phase.Done? then Some(Lock.Crash(id))
      else None
    case Upstream(id, a) =>
      if Runs.Answered(spec, s.calls[id], a, s.now).phase.Releasing? then Some(Lock.EndWork(id)) else None
    case Resume(id) => Some(Lock.Crash(id))
    case Crash(id) => Some(Lock.Crash(id))
  }

  /** The lock does what it sees. */
  ghost predicate Follows(spec: Spec, s: Runs.State, e: Runs.Event)
    requires Runs.Enabled(s, e)
  {
    match Image(spec, s, e)
    case None => Seen(Runs.Step(spec, s, e)) == Seen(s)
    case Some(f) => Lock.Enabled(Seen(s), f) && Lock.Step(Seen(s), f) == Seen(Runs.Step(spec, s, e))
  }

  lemma FlightsOfPut(s: Runs.State, id: nat, c: Runs.Call)
    ensures Seen(Runs.Put(s, id, c)) == Lock.Put(Seen(s), id, CallOf(c))
  {}

  lemma OtherKeysUnseen(store: Store<Key>, k: Key, e: Entry)
    requires !k.Flight?
    ensures Flights(store[k := e]) == Flights(store) && Flights(Delete(store, k)) == Flights(store)
  {}

  lemma FlightSeen(store: Store<Key>, key: string, now: int)
    ensures Live(store, Flight(key), now) == Live(Flights(store), key, now)
    ensures Get(store, Flight(key), now) == Get(Flights(store), key, now)
  {}

  lemma FlightSet(store: Store<Key>, key: string, token: int, now: int)
    ensures Flights(SetEx(store, Flight(key), token, FLIGHT_TTL_MS, now)) == SetEx(Flights(store), key, token, FLIGHT_TTL_MS, now)
  {}

  lemma FlightReleased(store: Store<Key>, key: string, token: int, now: int)
    ensures Flights(CompareAndDelete(store, Flight(key), token, now)) == CompareAndDelete(Flights(store), key, token, now)
  {
    FlightSeen(store, key, now);
  }

  /** Commands that write no flight. */
  lemma WorkUnseen(s: Runs.State, c: Runs.Call)
    requires !c.phase.Entering? && !c.phase.Releasing?
    ensures Flights(Runs.Written(s, c)) == Flights(s.store)
  {
    var budget := Budget(DayOf(c.now));
    match c.phase
    case Charging => OtherKeysUnseen(s.store, budget, Runs.Written(s, c)[budget]);
    case Expiring =>
      if Live(s.store, budget, s.now) {
        OtherKeysUnseen(s.store, budget, Runs.Written(s, c)[budget]);
      }
    case MarkNegative => OtherKeysUnseen(s.store, Negative(c.key), Runs.Written(s, c)[Negative(c.key)]);
    case MarkCooldown(_) => OtherKeysUnseen(s.store, Cooldown, Runs.Written(s, c)[Cooldown]);
    case _ =>
  }

  /** A call that the lock sees unchanged. */
  lemma UnseenPut(s: Runs.State, id: nat, c: Runs.Call)
    requires id in s.calls && CallOf(c) == CallOf(s.calls[id])
    ensures Seen(Runs.Put(s, id, c)) == Seen(s)
  {}

  lemma FlightsOfStore(s: Runs.State, store: Store<Key>, id: nat, c: Runs.Call)
    ensures Seen(Runs.Put(s.(store := store), id, c)) == Lock.Put(Seen(s).(flights := Flights(store)), id, CallOf(c))
  {
    FlightsOfPut(s.(store := store), id, c);
  }

  lemma TakenFollows(spec: Spec, s: Runs.State, id: nat)
    requires id in s.calls && s.calls[id].phase.Entering? && Live(s.store, Flight(s.calls[id].key), s.now)
    ensures Lock.Acquired(Seen(s), id) == Seen(Runs.RunCommand(spec, s, id))
  {
    var c, seen := s.calls[id], Seen(s);
    var d := c.(phase := Runs.Waiting(s.now + FLIGHT_TTL_MS));
    FlightSeen(s.store, c.key, s.now);
    FlightsOfPut(s, id, d);
    assert Runs.RunCommand(spec, s, id) == Runs.Put(s, id, d);
    AcquireSeen(seen, id, CallOf(c));
    assert Lock.Acquired(seen, id) == Lock.Put(seen, id, CallOf(d));
  }

  lemma FreeFollows(spec: Spec, s: Runs.State, id: nat)
    requires id in s.calls && s.calls[id].phase.Entering? && !Live(s.store, Flight(s.calls[id].key), s.now)
    ensures Lock.Acquired(Seen(s), id) == Seen(Runs.RunCommand(spec, s, id))
  {
    var c, seen := s.calls[id], Seen(s);
    var store := SetEx(s.store, Flight(c.key), c.token, FLIGHT_TTL_MS, s.now);
    var d := Runs.Entered(c, s.now);
    FlightSeen(s.store, c.key, s.now);
    FlightSet(s.store, c.key, c.token, s.now);
    FlightsOfStore(s, store, id, d);
    assert Runs.RunCommand(spec, s, id) == Runs.Put(s.(store := store), id, d);
    AcquireSeen(seen, id, CallOf(c));
    assert Lock.Acquired(seen, id) == Lock.Put(seen.(flights := Flights(store)), id, CallOf(d));
  }

  lemma AcquireFollows(spec: Spec, s: Runs.State, id: nat)
    requires id in s.calls && s.calls[id].phase.Entering?
    ensures Lock.Enabled(Seen(s), Lock.Acquire(id))
    ensures Lock.Acquired(Seen(s), id) == Seen(Runs.RunCommand(spec, s, id))
  {
    if Live(s.store, Flight(s.calls[id].key), s.now) {
      TakenFollows(spec, s, id);
    } else {
      FreeFollows(spec, s, id);
    }
  }

  /** The lock's side of it. */
  lemma AcquireSeen(s: Lock.State, id: nat, c: Lock.Call)
    requires id in s.calls && s.calls[id] == c && c.phase.Entering? && c.timeoutMs == FLIGHT_TTL_MS
    ensures Lock.Enabled(s, Lock.Acquire(id))
    ensures Lock.Acquired(s, id) ==
      if Live(s.flights, c.key, s.now) then Lock.Put(s, id, c.(phase := Lock.LoopHead(s.now + FLIGHT_TTL_MS)))
      else Lock.Put(s.(flights := SetEx(s.flights, c.key, c.token, FLIGHT_TTL_MS, s.now)), id,
                    c.(phase := Lock.Working, run := Some(Lock.Run(s.now, None))))
  {}

  lemma ReleaseFollows(spec: Spec, s: Runs.State, id: nat)
    requires id in s.calls && s.calls[id].phase.Releasing? && s.calls[id].run.Some?
    ensures Lock.Enabled(Seen(s), Lock.Release(id))
    ensures Lock.Step(Seen(s), Lock.Release(id)) == Seen(Runs.RunCommand(spec, s, id))
  {
    var c := s.calls[id];
    var d, store := Runs.Told(spec, s, c), Runs.Written(s, c);
    FlightReleased(s.store, c.key, c.token, s.now);
    FlightsOfStore(s, store, id, d);
    assert Runs.RunCommand(spec, s, id) == Runs.Put(s.(store := store), id, d);
    ReleaseSeen(Seen(s), id, CallOf(c));
    assert CallOf(d) == CallOf(c).(phase := Lock.Finished);
    assert Flights(store) == CompareAndDelete(Seen(s).flights, c.key, c.token, s.now);
  }

  lemma ReleaseSeen(s: Lock.State, id: nat, c: Lock.Call)
    requires id in s.calls && s.calls[id] == c && c.phase.Releasing?
    ensures Lock.Enabled(s, Lock.Release(id))
    ensures Lock.Step(s, Lock.Release(id)) ==
      Lock.Put(s.(flights := CompareAndDelete(s.flights, c.key, c.token, s.now)), id, c.(phase := Lock.Finished))
  {}

  /** What the lock sees of the end of a call's work. */
  lemma EndFollows(s: Runs.State, id: nat, status: Status, answers: seq<Answer>)
    requires id in s.calls && Runs.AtWork(s.calls[id].phase) && s.calls[id].run.Some?
    ensures Lock.Enabled(Seen(s), Lock.EndWork(id))
    ensures var d := Runs.Moved(s.calls[id].(answers := answers), Runs.Releasing(status), s.now);
      Lock.Step(Seen(s), Lock.EndWork(id)) == Lock.Put(Seen(s), id, CallOf(d))
  {}

  /** And of its leaving before its work, or instead of it, or by a crash. */
  lemma LeavesFollow(s: Runs.State, id: nat, d: Runs.Call)
    requires id in s.calls && !s.calls[id].phase.Done?
    requires CallOf(d) == CallOf(s.calls[id]).(
      phase := Lock.Crashed,
      run := if PhaseOf(s.calls[id]).Working? && s.calls[id].run.Some?
             then Some(s.calls[id].run.value.(until := Some(s.now))) else s.calls[id].run)
    ensures Lock.Enabled(Seen(s), Lock.Crash(id))
    ensures Lock.Step(Seen(s), Lock.Crash(id)) == Seen(Runs.Put(s, id, d))
  {
    FlightsOfPut(s, id, d);
  }

  /** The state around the call, after a command that writes no flight. */
  function Around(s: Runs.State, c: Runs.Call): Runs.State {
    Runs.Recorded(s, c).(store := Runs.Written(s, c))
  }

  lemma AroundUnseen(s: Runs.State, c: Runs.Call)
    requires !c.phase.Entering? && !c.phase.Releasing?
    ensures Seen(Around(s, c)) == Seen(s) && Around(s, c).calls == s.calls && Around(s, c).now == s.now
  {
    WorkUnseen(s, c);
  }

  lemma WorkEnds(spec: Spec, s: Runs.State, id: nat)
    requires Runs.Enabled(s, Runs.Command(id)) && s.calls[id].run.Some?
    requires s.calls[id].phase.MarkNegative? || s.calls[id].phase.MarkCooldown?
    ensures Follows(spec, s, Runs.Command(id))
  {
    var c := s.calls[id];
    var d, t := Runs.Told(spec, s, c), Around(s, c);
    AroundUnseen(s, c);
    assert d == Runs.Moved(c.(answers := c.answers), d.phase, s.now);
    EndFollows(s, id, d.phase.status, c.answers);
    FlightsOfPut(t, id, d);
    assert Runs.RunCommand(spec, s, id) == Runs.Put(t, id, d);
  }

  lemma ChargeUnseen(spec: Spec, s: Runs.State, c: Runs.Call)
    requires c.phase.Charging? || c.phase.Expiring?
    ensures CallOf(Runs.Told(spec, s, c)) == CallOf(c)
    ensures var d := Runs.Told(spec, s, c); d.phase.Calling? || d.phase.Expiring?
  {}

  lemma CommandAround(spec: Spec, s: Runs.State, id: nat)
    requires Runs.Enabled(s, Runs.Command(id))
    ensures Runs.RunCommand(spec, s, id) == Runs.Put(Around(s, s.calls[id]), id, Runs.Told(spec, s, s.calls[id]))
  {}

  lemma WorkGoesOn(spec: Spec, s: Runs.State, id: nat)
    requires Runs.Enabled(s, Runs.Command(id))
    requires s.calls[id].phase.Charging? || s.calls[id].phase.Expiring?
    ensures Seen(Runs.RunCommand(spec, s, id)) == Seen(s)
  {
    var c, t, d := s.calls[id], Around(s, s.calls[id]), Runs.Told(spec, s, s.calls[id]);
    CommandAround(spec, s, id);
    AroundUnseen(s, c);
    ChargeUnseen(spec, s, c);
    UnseenPut(t, id, d);
  }

  lemma ImageOfCharge(spec: Spec, s: Runs.State, id: nat)
    requires Runs.Enabled(s, Runs.Command(id))
    requires s.calls[id].phase.Charging? || s.calls[id].phase.Expiring?
    ensures Image(spec, s, Runs.Command(id)).None?
  {
    ChargeUnseen(spec, s, s.calls[id]);
  }

  lemma UnseenFollows(spec: Spec, s: Runs.State, e: Runs.Event)
    requires Runs.Enabled(s, e) && Image(spec, s, e).None? && Seen(Runs.Step(spec, s, e)) == Seen(s)
    ensures Follows(spec, s, e)
  {}

  lemma WorkFollows(spec: Spec, s: Runs.State, id: nat)
    requires Runs.Enabled(s, Runs.Command(id)) && Lock.CallOk(Seen(s), CallOf(s.calls[id]))
    requires Runs.AtWork(s.calls[id].phase)
    ensures Follows(spec, s, Runs.Command(id))
  {
    if s.calls[id].phase.Charging? || s.calls[id].phase.Expiring? {
      ImageOfCharge(spec, s, id);
      WorkGoesOn(spec, s, id);
      UnseenFollows(spec, s, Runs.Command(id));
    } else {
      WorkEnds(spec, s, id);
    }
  }

  lemma CheckFollows(spec: Spec, s: Runs.State, id: nat)
    requires Runs.Enabled(s, Runs.Command(id)) && Lock.CallOk(Seen(s), CallOf(s.calls[id]))
    requires !s.calls[id].phase.Entering? && !s.calls[id].phase.Releasing? && !Runs.AtWork(s.calls[id].phase)
    ensures Follows(spec, s, Runs.Command(id))
  {
    var c := s.calls[id];
    var d, t := Runs.Told(spec, s, c), Around(s, c);
    AroundUnseen(s, c);
    if d.phase.Done? {
      LeavesFollow(t, id, d);
    } else {
      UnseenPut(t, id, d);
    }
  }

  lemma CommandFollows(spec: Spec, s: Runs.State, id: nat)
    requires Runs.Enabled(s, Runs.Command(id)) && Lock.CallOk(Seen(s), CallOf(s.calls[id]))
    ensures Follows(spec, s, Runs.Command(id))
  {
    if s.calls[id].phase.Entering? {
      AcquireFollows(spec, s, id);
    } else if s.calls[id].phase.Releasing? {
      ReleaseFollows(spec, s, id);
    } else if Runs.AtWork(s.calls[id].phase) {
      WorkFollows(spec, s, id);
    } else {
      CheckFollows(spec, s, id);
    }
  }

  lemma AnswerFollows(spec: Spec, s: Runs.State, id: nat, a: Answer)
    requires Runs.Enabled(s, Runs.Upstream(id, a)) && Lock.CallOk(Seen(s), CallOf(s.calls[id]))
    ensures Follows(spec, s, Runs.Upstream(id, a))
  {
    var c := s.calls[id];
    var d := Runs.Answered(spec, c, a, s.now);
    if d.phase.Releasing? {
      EndFollows(s, id, d.phase.status, d.answers);
      FlightsOfPut(s, id, d);
    } else {
      UnseenPut(s, id, d);
    }
  }

  lemma BeginFollows(spec: Spec, s: Runs.State, id: nat, key: string, token: int, cachedAt: Option<int>)
    requires Runs.Enabled(s, Runs.Begin(id, key, token, cachedAt))
    ensures Follows(spec, s, Runs.Begin(id, key, token, cachedAt))
  {
    FlightsOfPut(s, id, Runs.Step(spec, s, Runs.Begin(id, key, token, cachedAt)).calls[id]);
  }

  lemma ResumeFollows(spec: Spec, s: Runs.State, id: nat)
    requires Runs.Enabled(s, Runs.Resume(id)) && Lock.CallOk(Seen(s), CallOf(s.calls[id]))
    ensures Follows(spec, s, Runs.Resume(id))
  {
    LeavesFollow(s, id, s.calls[id].(phase := Runs.Done(Cached)));
  }

  lemma CrashFollows(spec: Spec, s: Runs.State, id: nat)
    requires Runs.Enabled(s, Runs.Crash(id)) && Lock.CallOk(Seen(s), CallOf(s.calls[id]))
    ensures Follows(spec, s, Runs.Crash(id))
  {
    LeavesFollow(s, id, Runs.Moved(s.calls[id], Runs.Crashed, s.now));
  }

  lemma CallIsOk(s: Runs.State, id: nat)
    requires Lock.CallsOk(Seen(s)) && id in s.calls
    ensures Lock.CallOk(Seen(s), CallOf(s.calls[id]))
  {
    assert Seen(s).calls[id] == CallOf(s.calls[id]);
  }

  lemma OutsideFollows(spec: Spec, s: Runs.State, e: Runs.Event)
    requires e.NoteQuota? || e.ClearCooldown? || e.Tick?
    ensures Follows(spec, s, e)
  {
    match e
    case NoteQuota(interval) => OtherKeysUnseen(s.store, Quota, Entry(interval, Some(s.now + DAY_MS)));
    case ClearCooldown => OtherKeysUnseen(s.store, Cooldown, Entry(0, None));
    case Tick(ms) => assert Seen(s.(now := s.now + ms)) == Seen(s).(now := s.now + ms);
  }

  lemma StepFollows(spec: Spec, s: Runs.State, e: Runs.Event)
    requires Runs.Enabled(s, e) && Lock.CallsOk(Seen(s))
    ensures Follows(spec, s, e)
  {
    match e
    case Command(id) =>
      CallIsOk(s, id);
      CommandFollows(spec, s, id);
    case Upstream(id, a) =>
      CallIsOk(s, id);
      AnswerFollows(spec, s, id, a);
    case NoteQuota(_) => OutsideFollows(spec, s, e);
    case ClearCooldown => OutsideFollows(spec, s, e);
    case Tick(_) => OutsideFollows(spec, s, e);
    case Begin(id, key, token, cachedAt) => BeginFollows(spec, s, id, key, token, cachedAt);
    case Resume(id) =>
      CallIsOk(s, id);
      ResumeFollows(spec, s, id);
    case Crash(id) =>
      CallIsOk(s, id);
      CrashFollows(spec, s, id);
  }

  /** A free flight is taken for exactly a minute, under the call's own token. */
  lemma TakenForAMinute(spec: Spec, s: Runs.State, id: nat)
    requires id in s.calls && s.calls[id].phase.Entering? && !Live(s.store, Flight(s.calls[id].key), s.now)
    ensures var t := Runs.RunCommand(spec, s, id);
      && Flight(s.calls[id].key) in t.store
      && t.store[Flight(s.calls[id].key)] == Entry(s.calls[id].token, Some(s.now + 60_000))
  {}

  /** Every run of the calls is a run of the lock. */
  lemma {:induction false} RunsAreFlights(spec: Spec, now: int, trace: seq<Runs.Event>) returns (flights: seq<Lock.Event>)
    requires Runs.After(spec, now, trace).Some?
    ensures Lock.After(now, flights) == Some(Seen(Runs.After(spec, now, trace).value))
    decreases |trace|
  {
    if trace == [] {
      flights := [];
      assert Seen(Runs.After(spec, now, trace).value) == Lock.State(now, map[], map[]);
    } else {
      var s, e := Runs.After(spec, now, trace[..|trace| - 1]).value, trace[|trace| - 1];
      flights := RunsAreFlights(spec, now, trace[..|trace| - 1]);
      Lock.ReachableKeepsInv(now, flights);
      StepFollows(spec, s, e);
      var f := Image(spec, s, e);
      if f.Some? {
        Lock.ThenStep(now, flights, f.value);
        flights := flights + [f.value];
      }
    }
  }

  lemma RunSeen(s: Runs.State, i: nat)
    requires i in s.calls && s.calls[i].run.Some?
    ensures Lock.HasRun(Seen(s), i) && Seen(s).calls[i] == CallOf(s.calls[i])
    ensures Lock.WithinTtl(Seen(s), CallOf(s.calls[i])) <==> Lasted(s, i) <= FLIGHT_TTL_MS
  {}

  /** How long the work of a call took, or has taken so far. */
  function Lasted(s: Runs.State, i: nat): int
    requires i in s.calls && s.calls[i].run.Some?
  {
    s.calls[i].run.value.until.UnwrapOr(s.now) - s.calls[i].run.value.since
  }

  /** Two refreshes of one key, from their flight to the end of their work, are
      never under way together while each keeps within 60 seconds; every charge
      and every question to the upstream falls into such a refresh. */
  lemma RefreshesExclude(spec: Spec, now: int, trace: seq<Runs.Event>, i: nat, j: nat, instant: int)
    requires Runs.After(spec, now, trace).Some?
    requires var s := Runs.After(spec, now, trace).value;
      && i in s.calls && j in s.calls && s.calls[i].key == s.calls[j].key && instant < s.now
      && s.calls[i].run.Some? && s.calls[j].run.Some?
      && Lasted(s, i) <= 60_000 && Lasted(s, j) <= 60_000
      && Lock.At(s.calls[i].run.value, instant) && Lock.At(s.calls[j].run.value, instant)
    ensures i == j
  {
    var s := Runs.After(spec, now, trace).value;
    var flights := RunsAreFlights(spec, now, trace);
    RunSeen(s, i);
    RunSeen(s, j);
    Lock.RunsWithinTtlExclude(now, flights, i, j, instant);
  }
}
