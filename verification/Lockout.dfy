/** Failed-code lockout: checked before a code is tried, counted after it was
    wrong, cleared after it was right. Verifiers of one session may overlap. */
module Lockout {
  import opened Wrappers
  import opened RedisStore
  import opened Sets

  const WINDOW_MS := 15 * 60 * 1000
  const MAX_FAILURES := 5

  function Failures<K(==)>(s: Store<K>, session: K, now: int): int {
    Get(s, session, now).UnwrapOr(0)
  }

  class Lockout {
    const redis: Redis<string>

    constructor (redis: Redis<string>)
      ensures this.redis == redis
    {
      this.redis := redis;
    }

    method IsLocked(session: string) returns (locked: bool)
      ensures locked <==> Failures(redis.store, session, redis.now) >= 5
    {
      var failures := Get(redis.store, session, redis.now);
      locked := failures.UnwrapOr(0) >= MAX_FAILURES;
    }

    method NoteFailure(session: string)
      modifies redis
      ensures redis.now == old(redis.now)
      ensures Failures(redis.store, session, redis.now) == old(Failures(redis.store, session, redis.now)) + 1
      ensures session in redis.store && redis.store[session].value == Failures(redis.store, session, redis.now)
      ensures redis.store[session].expiry == (if old(Failures(redis.store, session, redis.now)) == 0 then Some(redis.now + 900_000)
                                              else old(redis.store)[session].expiry)
      ensures forall other | other != session :: Failures(redis.store, other, redis.now) == old(Failures(redis.store, other, redis.now))
    {
      redis.store := Incr(redis.store, session, redis.now);
      if redis.store[session].value == 1 {
        redis.store := Expire(redis.store, session, WINDOW_MS, redis.now);
      }
    }

    method Clear(session: string)
      modifies redis
      ensures redis.now == old(redis.now)
      ensures session !in redis.store && Failures(redis.store, session, redis.now) == 0
      ensures forall other | other != session :: Failures(redis.store, other, redis.now) == old(Failures(redis.store, other, redis.now))
    {
      redis.store := Delete(redis.store, session);
    }

    /** One verification as the endpoint runs it, alone: a locked session is
        refused without trying the code. */
    method Verify(session: string, right: bool) returns (accepted: bool)
      modifies redis
      ensures redis.now == old(redis.now)
      ensures accepted <==> right && old(Failures(redis.store, session, redis.now)) < 5
      ensures old(Failures(redis.store, session, redis.now)) >= 5 ==> redis.store == old(redis.store)
      ensures old(Failures(redis.store, session, redis.now)) < 5 ==>
        Failures(redis.store, session, redis.now) == if right then 0 else old(Failures(redis.store, session, redis.now)) + 1
      ensures forall other | other != session ::
        Failures(redis.store, other, redis.now) == old(Failures(redis.store, other, redis.now))
      // On its session the call is an uninterrupted run of the machine below.
      ensures forall s, id | Follows(s, old(redis.store), session, redis.now) && id !in s.calls ::
        Follows(VerifiedAlone(s, id, right), redis.store, session, redis.now)
    {
      var locked := IsLocked(session);
      if locked {
        return false;
      }
      if !right {
        NoteFailure(session);
        return false;
      }
      Clear(session);
      return true;
    }
  }

  // Overlapping verifiers of one session

  datatype Phase = Checking | Trying | Noting | SettingExpiry | Clearing | Finished

  datatype State = State(now: int, store: Store<()>, calls: map<nat, Phase>)

  datatype Event = Tick(ms: nat) | Begin(id: nat) | Tried(id: nat, right: bool) | Command(id: nat) | Crash(id: nat)

  predicate Enabled(s: State, e: Event) {
    match e
    case Tick(_) => true
    case Begin(id) => id !in s.calls
    case Tried(id, _) => id in s.calls && s.calls[id].Trying?
    case Command(id) => id in s.calls && !s.calls[id].Trying? && !s.calls[id].Finished?
    case Crash(id) => id in s.calls
  }

  function RunCommand(s: State, id: nat): State
    requires id in s.calls && !s.calls[id].Trying? && !s.calls[id].Finished?
  {
    match s.calls[id]
    case Checking =>
      s.(calls := s.calls[id := if Failures(s.store, (), s.now) >= MAX_FAILURES then Finished else Trying])
    case Noting =>
      var store := Incr(s.store, (), s.now);
      s.(store := store, calls := s.calls[id := if store[()].value == 1 then SettingExpiry else Finished])
    case SettingExpiry =>
      s.(store := Expire(s.store, (), WINDOW_MS, s.now), calls := s.calls[id := Finished])
    case Clearing =>
      s.(store := Delete(s.store, ()), calls := s.calls[id := Finished])
  }

  function Step(s: State, e: Event): State
    requires Enabled(s, e)
  {
    match e
    case Tick(ms) => s.(now := s.now + ms)
    case Begin(id) => s.(calls := s.calls[id := Checking])
    case Tried(id, right) => s.(calls := s.calls[id := if right then Clearing else Noting])
    case Command(id) => RunCommand(s, id)
    case Crash(id) => s.(calls := s.calls[id := Finished])
  }

  /** Nobody is ever stuck: time can pass, a verifier can come, go on, and die. */
  lemma NobodyIsStuck(s: State, id: nat, ms: nat, right: bool)
    ensures Enabled(s, Tick(ms)) && (id !in s.calls ==> Enabled(s, Begin(id)))
    ensures id in s.calls ==> Enabled(s, Crash(id))
    ensures id in s.calls && s.calls[id].Trying? ==> Enabled(s, Tried(id, right))
    ensures id in s.calls && !s.calls[id].Trying? && !s.calls[id].Finished? ==> Enabled(s, Command(id))
  {}

  /** The commands of one verification, with nothing in between. */
  function VerifiedAlone(s: State, id: nat, right: bool): State
    requires id !in s.calls
  {
    var checked := RunCommand(Step(s, Begin(id)), id);
    if checked.calls[id].Finished? then checked
    else
      var t := RunCommand(Step(checked, Tried(id, right)), id);
      if t.calls[id].Finished? then t else RunCommand(t, id)
  }

  /** The machine stands where the counter of this session stands. */
  predicate Follows(s: State, store: Store<string>, session: string, now: int) {
    s.now == now && s.store == if session in store then map[() := store[session]] else map[]
  }

  function After(now: int, trace: seq<Event>): Option<State>
    decreases |trace|
  {
    if trace == [] then Some(State(now, map[], map[]))
    else
      match After(now, trace[..|trace| - 1])
      case None => None
      case Some(s) => if Enabled(s, trace[|trace| - 1]) then Some(Step(s, trace[|trace| - 1])) else None
  }

  /** Past the check and not yet counted: these may still add a failure. */
  function Open(s: State): set<nat> {
    set i | i in s.calls && (s.calls[i].Trying? || s.calls[i].Noting?)
  }

  ghost predicate AtMost(now: int, trace: seq<Event>, n: nat)
    decreases |trace|
  {
    After(now, trace).Some? && |Open(After(now, trace).value)| <= n
    && (trace != [] ==> AtMost(now, trace[..|trace| - 1], n))
  }

  lemma StepCounts(s: State, e: Event, n: nat)
    requires Enabled(s, e) && |Open(Step(s, e))| <= n
    requires Failures(s.store, (), s.now) + |Open(s)| <= MAX_FAILURES - 1 + n
    ensures Failures(Step(s, e).store, (), Step(s, e).now) + |Open(Step(s, e))| <= MAX_FAILURES - 1 + n
    requires () in s.store ==> s.store[()].value >= 0
    ensures () in Step(s, e).store ==> Step(s, e).store[()].value >= 0
  {
    var t := Step(s, e);
    if e.Command? && s.calls[e.id].Noting? {
      assert Open(t) == Open(s) - {e.id};
    } else if e.Command? && s.calls[e.id].Checking? {
      assert Open(t) <= Open(s) + {e.id};
      if t.calls[e.id].Finished? {
        SubsetSize(Open(t), Open(s));
      }
    } else {
      SubsetSize(Open(t), Open(s));
    }
  }

  lemma {:induction false} RunCounts(now: int, trace: seq<Event>, n: nat)
    requires AtMost(now, trace, n)
    ensures var s := After(now, trace).value;
      && Failures(s.store, (), s.now) + |Open(s)| <= MAX_FAILURES - 1 + n
      && (() in s.store ==> s.store[()].value >= 0)
    decreases |trace|
  {
    if trace != [] {
      RunCounts(now, trace[..|trace| - 1], n);
      StepCounts(After(now, trace[..|trace| - 1]).value, trace[|trace| - 1], n);
    }
  }

  /** With at most `n` verifiers between check and count, the counter never
      passes 5 + n - 1: a serial one stops at five. */
  lemma CounterBound(now: int, trace: seq<Event>, n: nat)
    requires AtMost(now, trace, n)
    ensures var s := After(now, trace).value; Failures(s.store, (), s.now) <= 5 + n - 1
  {
    RunCounts(now, trace, n);
  }

  // The bound is reached

  /** The verifiers below `from` have failed and been counted, those from there
      to `to` have passed the check. */
  ghost predicate Lined(s: State, now: int, from: nat, to: nat) {
    && s.now == now && from <= to
    && (if () in s.store then from > 0 && Live(s.store, (), now) && s.store[()].value == from else from == 0)
    && (forall i: nat :: i in s.calls <==> i < to)
    && (forall i | i in s.calls :: if i < from then s.calls[i].Finished? else s.calls[i].Trying?)
  }

  lemma ThenAtMost(now: int, trace: seq<Event>, e: Event, n: nat)
    requires AtMost(now, trace, n) && Enabled(After(now, trace).value, e)
    requires |Open(Step(After(now, trace).value, e))| <= n
    ensures After(now, trace + [e]) == Some(Step(After(now, trace).value, e)) && AtMost(now, trace + [e], n)
  {
    assert (trace + [e])[..|trace|] == trace;
  }

  lemma PassesCheck(s: State, now: int, from: nat, to: nat)
    requires Lined(s, now, from, to) && from < MAX_FAILURES
    ensures Enabled(s, Begin(to)) && Enabled(Step(s, Begin(to)), Command(to))
    ensures Open(Step(s, Begin(to))) == Open(s)
    ensures var t := Step(Step(s, Begin(to)), Command(to));
      Lined(t, now, from, to + 1) && Open(t) == Open(s) + {to}
  {
    assert Failures(s.store, (), now) == from;
  }

  /** One more verifier passes the check while fewer than five have failed. */
  lemma LinesUp(now: int, trace: seq<Event>, from: nat, to: nat, n: nat) returns (longer: seq<Event>)
    requires AtMost(now, trace, n) && Lined(After(now, trace).value, now, from, to)
    requires from < MAX_FAILURES && to - from < n
    ensures AtMost(now, longer, n) && Lined(After(now, longer).value, now, from, to + 1)
  {
    var s := After(now, trace).value;
    PassesCheck(s, now, from, to);
    IdsBetween(Open(s), from, to);
    ThenAtMost(now, trace, Begin(to), n);
    longer := trace + [Begin(to)];
    ThenAtMost(now, longer, Command(to), n);
    longer := longer + [Command(to)];
  }

  /** A wrong code on the way through its commands. */
  lemma CommandsOfFailure(s: State, now: int, from: nat, to: nat)
    requires Lined(s, now, from, to) && from < to
    ensures Enabled(s, Tried(from, false))
    ensures var noting := Step(s, Tried(from, false));
      && Open(noting) == Open(s) && Enabled(noting, Command(from))
      && Open(Step(noting, Command(from))) <= Open(s)
      && if from > 0 then Lined(Step(noting, Command(from)), now, from + 1, to)
         else Enabled(Step(noting, Command(from)), Command(from))
              && Lined(Step(Step(noting, Command(from)), Command(from)), now, from + 1, to)
              && Open(Step(Step(noting, Command(from)), Command(from))) <= Open(s)
  {
    assert from in s.calls && s.calls[from].Trying?;
  }

  /** The first of the line fails and is counted. */
  lemma FailsNext(now: int, trace: seq<Event>, from: nat, to: nat, n: nat) returns (longer: seq<Event>)
    requires AtMost(now, trace, n) && Lined(After(now, trace).value, now, from, to) && from < to
    ensures AtMost(now, longer, n) && Lined(After(now, longer).value, now, from + 1, to)
  {
    var s := After(now, trace).value;
    CommandsOfFailure(s, now, from, to);
    ThenAtMost(now, trace, Tried(from, false), n);
    longer := trace + [Tried(from, false)];
    var noting := After(now, longer).value;
    SubsetSize(Open(Step(noting, Command(from))), Open(s));
    ThenAtMost(now, longer, Command(from), n);
    longer := longer + [Command(from)];
    if from == 0 {
      var setting := After(now, longer).value;
      SubsetSize(Open(Step(setting, Command(from))), Open(s));
      ThenAtMost(now, longer, Command(from), n);
      longer := longer + [Command(from)];
    }
  }

  /** Verifiers that fail one after the other. */
  lemma {:induction false} FailSerially(now: int, count: nat, n: nat) returns (trace: seq<Event>)
    requires count < MAX_FAILURES && n > 0
    ensures AtMost(now, trace, n) && Lined(After(now, trace).value, now, count, count)
    decreases count
  {
    if count == 0 {
      trace := [];
      assert Open(After(now, trace).value) == {};
    } else {
      trace := FailSerially(now, count - 1, n);
      trace := LinesUp(now, trace, count - 1, count - 1, n);
      trace := FailsNext(now, trace, count - 1, count, n);
    }
  }

  /** Four failures, then `n` verifiers past the check before any of them fails. */
  lemma CounterBoundIsReached(now: int, n: nat) returns (trace: seq<Event>)
    requires n > 0
    ensures AtMost(now, trace, n)
    ensures var s := After(now, trace).value; Failures(s.store, (), s.now) == 5 + n - 1
  {
    var last := MAX_FAILURES - 1;
    trace := FailSerially(now, last, n);
    for k := 0 to n
      invariant AtMost(now, trace, n) && Lined(After(now, trace).value, now, last, last + k)
    {
      trace := LinesUp(now, trace, last, last + k, n);
    }
    for k := 0 to n
      invariant AtMost(now, trace, n) && Lined(After(now, trace).value, now, last + k, last + n)
    {
      trace := FailsNext(now, trace, last + k, last + n, n);
    }
  }

  /** No session ever counts more than five failures. */
  ghost predicate FiveAtMost(now: int, n: nat) {
    forall trace | AtMost(now, trace, n) ::
      var s := After(now, trace).value; Failures(s.store, (), s.now) <= 5
  }

  /** The counter stops at five in every run exactly when verifiers come one at a
      time between their check and their count. */
  lemma FiveAtMostExactly(now: int, n: nat)
    requires n > 0
    ensures FiveAtMost(now, n) <==> n == 1
  {
    if n == 1 {
      forall trace | AtMost(now, trace, n)
        ensures var s := After(now, trace).value; Failures(s.store, (), s.now) <= 5
      {
        CounterBound(now, trace, n);
      }
    } else {
      var trace := CounterBoundIsReached(now, n);
    }
  }
}
