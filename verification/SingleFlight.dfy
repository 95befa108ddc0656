/** `Toolkit.single_flight`: many processes, one Redis key per flight, one
    command at a time in any order. A call draws a token, tries SET NX EX, and
    either runs the work and releases with the compare-and-delete script, or
    polls until the key is gone or its own deadline has passed. */
module SingleFlight {
  import opened Wrappers
  import opened RedisStore

  const POLL_MS := 100

  /** One run of `work`: from the instant its SET NX succeeded to the instant
      the work returned, raised or died with its process. */
  datatype Run = Run(since: int, until: Option<int>)

  datatype Phase =
    | Entering
    | Working
    | Releasing
    | LoopHead(deadline: int)
    | Sleeping(deadline: int, wakeAt: int)
    | Finished
    | Crashed
    | Refused

  datatype Call = Call(key: string, token: int, timeoutMs: nat, phase: Phase, run: Option<Run>, polls: nat)

  datatype State = State(now: int, flights: Store<string>, calls: map<nat, Call>)

  datatype Event =
    | Tick(ms: nat)
    | Begin(id: nat, key: string, token: int, timeoutMs: nat)
    | Acquire(id: nat)
    | EndWork(id: nat)
    | Release(id: nat)
    | TestDeadline(id: nat)
    | Poll(id: nat)
    | Crash(id: nat)

  /** `ex=int(timeout)`, in milliseconds: the fraction of a second is cut off. */
  function TtlMs(c: Call): nat {
    c.timeoutMs / 1000 * 1000
  }

  function Put(s: State, id: nat, c: Call): State {
    s.(calls := s.calls[id := c])
  }

  /** The SET NX EX of the call. Redis refuses an expiry of zero seconds. */
  function Acquired(s: State, id: nat): State
    requires id in s.calls
  {
    var c := s.calls[id];
    if TtlMs(c) == 0 then Put(s, id, c.(phase := Refused))
    else if Live(s.flights, c.key, s.now) then
      Put(s, id, c.(phase := LoopHead(s.now + c.timeoutMs)))
    else
      Put(s.(flights := SetEx(s.flights, c.key, c.token, TtlMs(c), s.now)), id,
          c.(phase := Working, run := Some(Run(s.now, None))))
  }

  /** The wait loop's EXISTS after a sleep. */
  function Polled(s: State, id: nat): State
    requires id in s.calls && s.calls[id].phase.Sleeping?
  {
    var c := s.calls[id].(polls := s.calls[id].polls + 1);
    Put(s, id, c.(phase := if Live(s.flights, c.key, s.now) then LoopHead(c.phase.deadline) else Finished))
  }

  function Died(s: State, id: nat): State
    requires id in s.calls
  {
    var c := s.calls[id];
    Put(s, id, c.(phase := Crashed,
                  run := if c.phase.Working? && c.run.Some? then Some(c.run.value.(until := Some(s.now))) else c.run))
  }

  predicate Enabled(s: State, e: Event) {
    match e
    case Tick(_) => true
    case Begin(id, _, token, _) =>
      id !in s.calls && forall i | i in s.calls :: s.calls[i].token != token
    case Acquire(id) => id in s.calls && s.calls[id].phase.Entering?
    case EndWork(id) => id in s.calls && s.calls[id].phase.Working? && s.calls[id].run.Some?
    case Release(id) => id in s.calls && s.calls[id].phase.Releasing?
    case TestDeadline(id) => id in s.calls && s.calls[id].phase.LoopHead?
    case Poll(id) =>
      id in s.calls && s.calls[id].phase.Sleeping? && s.calls[id].phase.wakeAt <= s.now
    case Crash(id) => id in s.calls && !s.calls[id].phase.Finished? && !s.calls[id].phase.Refused?
  }

  function Step(s: State, e: Event): State
    requires Enabled(s, e)
  {
    match e
    case Tick(ms) => s.(now := s.now + ms)
    case Begin(id, key, token, timeoutMs) => Put(s, id, Call(key, token, timeoutMs, Entering, None, 0))
    case Acquire(id) => Acquired(s, id)
    case EndWork(id) =>
      var c := s.calls[id];
      Put(s, id, c.(phase := Releasing, run := Some(c.run.value.(until := Some(s.now)))))
    case Release(id) =>
      var c := s.calls[id];
      Put(s.(flights := CompareAndDelete(s.flights, c.key, c.token, s.now)), id, c.(phase := Finished))
    case TestDeadline(id) =>
      var c := s.calls[id];
      Put(s, id, c.(phase := if s.now < c.phase.deadline
                             then Sleeping(c.phase.deadline, s.now + POLL_MS) else Finished))
    case Poll(id) => Polled(s, id)
    case Crash(id) => Died(s, id)
  }

  /** Nobody is ever stuck: time can pass, a call with a token of its own can
      come, each can go on and die, and a sleeper wakes when its time has come. */
  lemma NobodyIsStuck(s: State, ms: nat, id: nat, key: string, token: int, timeoutMs: nat)
    ensures Enabled(s, Tick(ms))
    ensures id !in s.calls && (forall i | i in s.calls :: s.calls[i].token != token) ==> Enabled(s, Begin(id, key, token, timeoutMs))
    ensures id in s.calls ==>
      match s.calls[id].phase
      case Entering => Enabled(s, Acquire(id)) && Enabled(s, Crash(id))
      case Working => (s.calls[id].run.Some? ==> Enabled(s, EndWork(id))) && Enabled(s, Crash(id))
      case Releasing => Enabled(s, Release(id)) && Enabled(s, Crash(id))
      case LoopHead(_) => Enabled(s, TestDeadline(id)) && Enabled(s, Crash(id))
      case Sleeping(_, wakeAt) => (Enabled(s, Poll(id)) <==> wakeAt <= s.now) && Enabled(s, Crash(id))
      case _ => true
  {}

  /** The state after a whole interleaving, from an empty Redis at time `now`;
      None when some event could not have happened where it stands. */
  function After(now: int, trace: seq<Event>): Option<State>
    decreases |trace|
  {
    if trace == [] then Some(State(now, map[], map[]))
    else
      match After(now, trace[..|trace| - 1])
      case None => None
      case Some(s) =>
        var e := trace[|trace| - 1];
        if Enabled(s, e) then Some(Step(s, e)) else None
  }

  // What every reachable state keeps

  predicate HasRun(s: State, i: nat) {
    i in s.calls && s.calls[i].run.Some?
  }

  predicate Overlap(a: Run, b: Run) {
    (b.until.None? || a.since < b.until.value) && (a.until.None? || b.since < a.until.value)
  }

  function Expiry(c: Call): int
    requires c.run.Some?
  {
    c.run.value.since + TtlMs(c)
  }

  predicate CallOk(s: State, c: Call) {
    && (c.phase.Working? ==> c.run.Some? && c.run.value.until.None?)
    && (c.run.Some? && !c.phase.Working? ==> c.run.value.until.Some?)
    && (c.run.Some? ==>
          && c.phase in {Working, Releasing, Finished, Crashed}
          && TtlMs(c) > 0
          && c.run.value.since <= s.now
          && (c.run.value.until.Some? ==> c.run.value.since <= c.run.value.until.value <= s.now))
    && (c.phase.Releasing? ==> c.run.Some?)
  }

  predicate WaitOk(s: State, c: Call) {
    && (c.polls - 1) * POLL_MS < c.timeoutMs
    && (c.polls > 0 ==> c.run.None?)
    && (c.phase.Entering? ==> c.polls == 0)
    && (c.phase.LoopHead? ==> c.polls * POLL_MS <= s.now - (c.phase.deadline - c.timeoutMs))
    && (c.phase.Sleeping? ==>
          && (c.polls + 1) * POLL_MS <= c.phase.wakeAt - (c.phase.deadline - c.timeoutMs)
          && c.phase.wakeAt < c.phase.deadline + POLL_MS)
  }

  /** The work has started and the release script has not run: also when the
      process died on the way. */
  predicate Unreleased(c: Call) {
    c.run.Some? && !c.phase.Finished?
  }

  /** A run inside its time to live holds the key, under its own token. */
  predicate Holds(s: State, c: Call)
    requires c.run.Some?
  {
    c.key in s.flights && s.flights[c.key] == Entry(c.token, Some(Expiry(c)))
  }

  predicate Backed(s: State, k: string, i: nat) {
    && k in s.flights && HasRun(s, i) && s.calls[i].key == k && Holds(s, s.calls[i])
    && (Unreleased(s.calls[i]) || Expiry(s.calls[i]) <= s.now)
  }

  /** Two runs on one key overlap only when the later start came after the
      earlier one's time to live. */
  predicate Separated(a: Call, b: Call)
    requires a.run.Some? && b.run.Some?
  {
    a.key == b.key && Overlap(a.run.value, b.run.value) && a.run.value.since <= b.run.value.since
    ==> b.run.value.since >= Expiry(a)
  }

  ghost predicate TokensDiffer(s: State) {
    forall i, j | i in s.calls && j in s.calls && i != j :: s.calls[i].token != s.calls[j].token
  }

  ghost predicate CallsOk(s: State) {
    forall i | i in s.calls :: CallOk(s, s.calls[i]) && WaitOk(s, s.calls[i])
  }

  ghost predicate RunsHold(s: State) {
    forall i | HasRun(s, i) && Unreleased(s.calls[i]) && s.now < Expiry(s.calls[i]) :: Holds(s, s.calls[i])
  }

  ghost predicate FlightsBacked(s: State) {
    forall k | k in s.flights :: exists i :: Backed(s, k, i)
  }

  ghost predicate RunsSeparated(s: State) {
    forall i, j | HasRun(s, i) && HasRun(s, j) && i != j :: Separated(s.calls[i], s.calls[j])
  }

  ghost predicate Inv(s: State) {
    TokensDiffer(s) && CallsOk(s) && RunsHold(s) && FlightsBacked(s) && RunsSeparated(s)
  }

  lemma TokensStayDistinct(s: State, e: Event)
    requires TokensDiffer(s) && Enabled(s, e)
    ensures TokensDiffer(Step(s, e))
  {}

  ghost predicate Fine(s: State, i: nat) {
    i in s.calls ==> CallOk(s, s.calls[i]) && WaitOk(s, s.calls[i])
  }

  lemma AcquireStaysOk(s: State, id: nat, i: nat)
    requires Fine(s, i) && Enabled(s, Acquire(id))
    ensures Fine(Acquired(s, id), i)
  {}

  lemma WaitStaysOk(s: State, e: Event, i: nat)
    requires Fine(s, i) && Enabled(s, e) && (e.TestDeadline? || e.Poll?)
    ensures Fine(Step(s, e), i)
  {}

  lemma CallStaysOk(s: State, e: Event, i: nat)
    requires Fine(s, i) && Enabled(s, e)
    ensures Fine(Step(s, e), i)
  {
    if e.Acquire? {
      AcquireStaysOk(s, e.id, i);
    } else if e.TestDeadline? || e.Poll? {
      WaitStaysOk(s, e, i);
    }
  }

  lemma CallsStayOk(s: State, e: Event)
    requires CallsOk(s) && Enabled(s, e)
    ensures CallsOk(Step(s, e))
  {
    forall i | i in Step(s, e).calls ensures CallOk(Step(s, e), Step(s, e).calls[i]) && WaitOk(Step(s, e), Step(s, e).calls[i]) {
      assert Fine(s, i);
      CallStaysOk(s, e, i);
    }
  }

  lemma RunStillHolds(s: State, e: Event, i: nat)
    requires TokensDiffer(s) && CallsOk(s) && RunsHold(s) && Enabled(s, e)
    requires var t := Step(s, e); HasRun(t, i) && Unreleased(t.calls[i]) && t.now < Expiry(t.calls[i])
    ensures Holds(Step(s, e), Step(s, e).calls[i])
  {
    if !(e.Acquire? && e.id == i) {
      assert HasRun(s, i) && Holds(s, s.calls[i]) && Live(s.flights, s.calls[i].key, s.now);
      assert e.Release? ==> s.calls[e.id].token != s.calls[i].token;
    }
  }

  lemma RunsStillHold(s: State, e: Event)
    requires Inv(s) && Enabled(s, e)
    ensures RunsHold(Step(s, e))
  {
    var t := Step(s, e);
    forall i | HasRun(t, i) && Unreleased(t.calls[i]) && t.now < Expiry(t.calls[i]) ensures Holds(t, t.calls[i]) {
      RunStillHolds(s, e, i);
    }
  }

  lemma FlightsStayBacked(s: State, e: Event)
    requires Inv(s) && Enabled(s, e)
    ensures FlightsBacked(Step(s, e))
  {
    var t := Step(s, e);
    forall k | k in t.flights ensures exists i :: Backed(t, k, i) {
      if e.Acquire? && s.calls[e.id].key == k && t.flights != s.flights {
        assert Backed(t, k, e.id);
      } else {
        var i :| Backed(s, k, i);
        StaysBacked(s, e, k, i);
      }
    }
  }

  lemma StaysBacked(s: State, e: Event, k: string, i: nat)
    requires CallsOk(s) && Enabled(s, e) && Backed(s, k, i)
    requires k in Step(s, e).flights && Step(s, e).flights[k] == s.flights[k]
    ensures Backed(Step(s, e), k, i)
  {
    if e == Release(i) {
      assert !Live(s.flights, k, s.now);
    }
  }

  /** A run that starts finds every other run of its key released, or past its
      time to live. */
  lemma NewRunSeparated(s: State, id: nat, j: nat)
    requires CallsOk(s) && RunsHold(s) && Enabled(s, Acquire(id)) && id != j
    requires HasRun(Step(s, Acquire(id)), id) && HasRun(s, j)
    ensures var t := Step(s, Acquire(id));
      t.calls[j] == s.calls[j] && Separated(t.calls[id], t.calls[j]) && Separated(t.calls[j], t.calls[id])
  {
    assert CallOk(s, s.calls[j]) && CallOk(s, s.calls[id]);
    assert Unreleased(s.calls[j]) && s.now < Expiry(s.calls[j]) ==> Holds(s, s.calls[j]);
  }

  /** A run that goes on keeps its start; it can only end, at this instant. */
  lemma RunGoesOn(s: State, e: Event, i: nat)
    requires CallsOk(s) && Enabled(s, e) && HasRun(Step(s, e), i) && e != Acquire(i)
    ensures HasRun(s, i)
    ensures var c, d := s.calls[i], Step(s, e).calls[i];
      && d.key == c.key && d.timeoutMs == c.timeoutMs && d.run.value.since == c.run.value.since
      && (d.run == c.run || (c.run.value.until.None? && d.run.value.until == Some(s.now)))
  {}

  lemma PairStaysSeparated(s: State, e: Event, i: nat, j: nat)
    requires CallsOk(s) && RunsHold(s) && RunsSeparated(s) && Enabled(s, e) && i != j
    requires HasRun(Step(s, e), i) && HasRun(Step(s, e), j)
    ensures Separated(Step(s, e).calls[i], Step(s, e).calls[j])
  {
    if e == Acquire(i) {
      RunGoesOn(s, e, j);
      NewRunSeparated(s, i, j);
    } else if e == Acquire(j) {
      RunGoesOn(s, e, i);
      NewRunSeparated(s, j, i);
    } else {
      RunGoesOn(s, e, i);
      RunGoesOn(s, e, j);
      assert Separated(s.calls[i], s.calls[j]);
    }
  }

  lemma RunsStaySeparated(s: State, e: Event)
    requires Inv(s) && Enabled(s, e)
    ensures RunsSeparated(Step(s, e))
  {
    var t := Step(s, e);
    forall i, j | HasRun(t, i) && HasRun(t, j) && i != j ensures Separated(t.calls[i], t.calls[j]) {
      PairStaysSeparated(s, e, i, j);
    }
  }

  lemma {:induction false} ReachableKeepsInv(now: int, trace: seq<Event>)
    requires After(now, trace).Some?
    ensures Inv(After(now, trace).value)
    decreases |trace|
  {
    if trace != [] {
      ReachableKeepsInv(now, trace[..|trace| - 1]);
      var s, e := After(now, trace[..|trace| - 1]).value, trace[|trace| - 1];
      TokensStayDistinct(s, e);
      CallsStayOk(s, e);
      RunsStillHold(s, e);
      FlightsStayBacked(s, e);
      RunsStaySeparated(s, e);
    }
  }

  // What a caller of single_flight can rely on

  predicate At(r: Run, instant: int) {
    r.since <= instant && (r.until.None? || instant < r.until.value)
  }

  /** Two runs of one key that are both under way at some instant started at
      least the earlier one's time to live apart. */
  lemma OverlappingRunsAreATtlApart(now: int, trace: seq<Event>, i: nat, j: nat, instant: int)
    requires After(now, trace).Some?
    requires var s := After(now, trace).value;
      && HasRun(s, i) && HasRun(s, j) && i != j && s.calls[i].key == s.calls[j].key
      && At(s.calls[i].run.value, instant) && At(s.calls[j].run.value, instant)
      && s.calls[i].run.value.since <= s.calls[j].run.value.since
    ensures var s := After(now, trace).value;
      s.calls[j].run.value.since >= s.calls[i].run.value.since + TtlMs(s.calls[i])
  {
    ReachableKeepsInv(now, trace);
    var s := After(now, trace).value;
    assert Separated(s.calls[i], s.calls[j]);
  }

  /** The run ended, or still stands, no later than its time to live. */
  predicate WithinTtl(s: State, c: Call) {
    c.run.Some? ==> c.run.value.until.UnwrapOr(s.now) <= Expiry(c)
  }

  /** When every run keeps within its time to live, no two are ever under way
      together: the flight is a mutual exclusion. */
  lemma RunsWithinTtlExclude(now: int, trace: seq<Event>, i: nat, j: nat, instant: int)
    requires After(now, trace).Some?
    requires var s := After(now, trace).value;
      && instant < s.now
      && HasRun(s, i) && HasRun(s, j) && s.calls[i].key == s.calls[j].key
      && WithinTtl(s, s.calls[i]) && WithinTtl(s, s.calls[j])
      && At(s.calls[i].run.value, instant) && At(s.calls[j].run.value, instant)
    ensures i == j
  {
    var s := After(now, trace).value;
    if i != j {
      if s.calls[i].run.value.since <= s.calls[j].run.value.since {
        OverlappingRunsAreATtlApart(now, trace, i, j, instant);
      } else {
        OverlappingRunsAreATtlApart(now, trace, j, i, instant);
      }
      assert false;
    }
  }

  lemma ThenStep(now: int, trace: seq<Event>, e: Event)
    requires After(now, trace).Some? && Enabled(After(now, trace).value, e)
    ensures After(now, trace + [e]) == Some(Step(After(now, trace).value, e))
  {
    assert (trace + [e])[..|trace|] == trace;
  }

  /** Outliving the time to live by a millisecond is enough: for every key and
      timeout some run is under way for that millisecond together with another,
      which started exactly a time to live after it. */
  lemma OverlapIsReached(now: int, key: string, timeoutMs: nat) returns (trace: seq<Event>)
    requires timeoutMs >= 1000
    ensures After(now, trace).Some?
    ensures var s := After(now, trace).value;
      && s.calls.Keys == {0, 1} && HasRun(s, 0) && HasRun(s, 1) && s.calls[0].key == s.calls[1].key == key
      && s.calls[0].timeoutMs == s.calls[1].timeoutMs == timeoutMs
      && At(s.calls[0].run.value, s.now - 1) && At(s.calls[1].run.value, s.now - 1)
      && s.calls[1].run.value.since == s.calls[0].run.value.since + TtlMs(s.calls[0])
      && !WithinTtl(s, s.calls[0]) && Lasted(s, s.calls[0]) == TtlMs(s.calls[0]) + 1 && Lasted(s, s.calls[1]) == 1
  {
    var first, second := Begin(0, key, 0, timeoutMs), Begin(1, key, 1, timeoutMs);
    var passes := Tick(timeoutMs / 1000 * 1000);
    ThenStep(now, [], first);
    ThenStep(now, [first], Acquire(0));
    ThenStep(now, [first] + [Acquire(0)], passes);
    ThenStep(now, [first] + [Acquire(0)] + [passes], second);
    ThenStep(now, [first] + [Acquire(0)] + [passes] + [second], Acquire(1));
    ThenStep(now, [first] + [Acquire(0)] + [passes] + [second] + [Acquire(1)], Tick(1));
    trace := [first] + [Acquire(0)] + [passes] + [second] + [Acquire(1)] + [Tick(1)];
  }

  /** How long the run took, or has taken so far. */
  function Lasted(s: State, c: Call): int
    requires c.run.Some?
  {
    c.run.value.until.UnwrapOr(s.now) - c.run.value.since
  }

  /** The calls of the key all have this timeout, and their runs take at most `d`. */
  predicate Brief(s: State, key: string, timeoutMs: nat, d: int) {
    forall i | i in s.calls && s.calls[i].key == key ::
      s.calls[i].timeoutMs == timeoutMs && (HasRun(s, i) ==> Lasted(s, s.calls[i]) <= d)
  }

  predicate Together(s: State, key: string, i: nat, j: nat, instant: int) {
    && HasRun(s, i) && HasRun(s, j) && s.calls[i].key == s.calls[j].key == key && instant < s.now
    && At(s.calls[i].run.value, instant) && At(s.calls[j].run.value, instant)
  }

  /** In no interleaving are two runs of the key under way together while its
      runs take at most `d`. */
  ghost predicate Excludes(now: int, key: string, timeoutMs: nat, d: int) {
    forall trace, i, j, instant |
      After(now, trace).Some? && Brief(After(now, trace).value, key, timeoutMs, d)
      && Together(After(now, trace).value, key, i, j, instant) :: i == j
  }

  /** The flight is a mutual exclusion exactly for work that takes no longer than
      the time to live, the timeout cut to whole seconds. Below a second nothing
      ever runs. */
  lemma ExcludesExactly(now: int, key: string, timeoutMs: nat, d: int)
    ensures Excludes(now, key, timeoutMs, d) <==> timeoutMs < 1000 || d <= timeoutMs / 1000 * 1000
  {
    if timeoutMs < 1000 || d <= timeoutMs / 1000 * 1000 {
      forall trace, i, j, instant |
        After(now, trace).Some? && Brief(After(now, trace).value, key, timeoutMs, d)
        && Together(After(now, trace).value, key, i, j, instant) ensures i == j
      {
        var s := After(now, trace).value;
        ReachableKeepsInv(now, trace);
        assert CallOk(s, s.calls[i]) && TtlMs(s.calls[i]) > 0;
        RunsWithinTtlExclude(now, trace, i, j, instant);
      }
    } else {
      var trace := OverlapIsReached(now, key, timeoutMs);
      var s := After(now, trace).value;
      assert Brief(s, key, timeoutMs, d) && Together(s, key, 0, 1, s.now - 1);
    }
  }

  /** A started, unreleased run on `k` that is inside its time to live. */
  predicate Blocks(s: State, k: string, i: nat) {
    HasRun(s, i) && Unreleased(s.calls[i]) && s.calls[i].key == k && s.now < Expiry(s.calls[i])
  }

  /** SET NX finds the key taken exactly while some started, unreleased run is
      inside its time to live: a dead holder never wedges a key. */
  lemma FlightTakenExactly(now: int, trace: seq<Event>, k: string)
    requires After(now, trace).Some?
    ensures var s := After(now, trace).value;
      Live(s.flights, k, s.now) <==> exists i :: Blocks(s, k, i)
  {
    ReachableKeepsInv(now, trace);
    var s := After(now, trace).value;
    if Live(s.flights, k, s.now) {
      var i :| Backed(s, k, i);
      assert Blocks(s, k, i);
    }
  }

  /** A release frees the caller's own flight if it is still there, and no
      flight of anybody else, however late it comes. */
  lemma ReleaseFreesOnlyItsOwn(now: int, trace: seq<Event>, id: nat, k: string)
    requires After(now, trace).Some? && Enabled(After(now, trace).value, Release(id))
    ensures var s := After(now, trace).value;
      Live(Step(s, Release(id)).flights, k, s.now) <==> exists j :: j != id && Blocks(s, k, j)
  {
    var s := After(now, trace).value;
    var t := Step(s, Release(id));
    ThenStep(now, trace, Release(id));
    FlightTakenExactly(now, trace + [Release(id)], k);
    assert forall j :: Blocks(t, k, j) <==> j != id && Blocks(s, k, j);
  }

  /** A waiting call polls at most once every 100 ms of its own timeout, and
      never runs the work. */
  lemma WaitersPollBoundedly(now: int, trace: seq<Event>, i: nat)
    requires After(now, trace).Some? && i in After(now, trace).value.calls
    ensures var c := After(now, trace).value.calls[i];
      c.polls * 100 < c.timeoutMs + 100 && (c.polls > 0 ==> c.run.None?)
  {
    ReachableKeepsInv(now, trace);
  }
}
