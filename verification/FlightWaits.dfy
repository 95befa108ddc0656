/** What a caller of `single_flight` does when it finds the key taken, or free:
    each decision by who is at work, and the wait loop as a run of the machine. */
module FlightWaits {
  import opened Wrappers
  import opened RedisStore
  import opened SingleFlight

  /** Some started, unreleased run on the key is inside its time to live. */
  ghost predicate Busy(s: State, key: string) {
    exists j :: Blocks(s, key, j)
  }

  /** SET NX: the call works at once exactly when nobody is at work, waits until
      its whole timeout from now when somebody is, and is refused when its
      timeout is under a second. */
  lemma AcquireDecides(now: int, trace: seq<Event>, id: nat)
    requires After(now, trace).Some? && Enabled(After(now, trace).value, Acquire(id))
    ensures var s := After(now, trace).value;
      var c, d := s.calls[id], Step(s, Acquire(id)).calls[id];
      && (c.timeoutMs < 1000 ==> d.phase == Refused && d.run.None?)
      && (c.timeoutMs >= 1000 && Busy(s, c.key) ==> d.phase == LoopHead(s.now + c.timeoutMs) && d.run.None?)
      && (c.timeoutMs >= 1000 && !Busy(s, c.key) ==> d.phase == Working && d.run == Some(Run(s.now, None)))
  {
    ReachableKeepsInv(now, trace);
    FlightTakenExactly(now, trace, After(now, trace).value.calls[id].key);
  }

  /** The EXISTS after a sleep: the waiter leaves exactly when nobody is at work
      any more, and otherwise tests its deadline next. */
  lemma PollDecides(now: int, trace: seq<Event>, id: nat)
    requires After(now, trace).Some? && Enabled(After(now, trace).value, Poll(id))
    ensures var s := After(now, trace).value;
      var c, d := s.calls[id], Step(s, Poll(id)).calls[id];
      && d.polls == c.polls + 1
      && (d.phase == Finished <==> !Busy(s, c.key))
      && (d.phase != Finished ==> d.phase == LoopHead(c.phase.deadline))
  {
    FlightTakenExactly(now, trace, After(now, trace).value.calls[id].key);
  }

  /** The deadline test: past it the waiter leaves, before it it sleeps 100 ms. */
  lemma TestDecides(s: State, id: nat)
    requires Enabled(s, TestDeadline(id))
    ensures var c, d := s.calls[id], Step(s, TestDeadline(id)).calls[id];
      && d.polls == c.polls
      && d.phase == if c.phase.deadline <= s.now then Finished else Sleeping(c.phase.deadline, s.now + 100)
  {}

  // When a waiter leaves

  lemma {:induction false} PrefixRuns(now: int, trace: seq<Event>, k: nat)
    requires After(now, trace).Some? && k <= |trace|
    ensures After(now, trace[..k]).Some?
    decreases |trace|
  {
    if k < |trace| {
      PrefixRuns(now, trace[..|trace| - 1], k);
      assert trace[..|trace| - 1][..k] == trace[..k];
    } else {
      assert trace[..k] == trace;
    }
  }

  /** The k-th event was the SET NX of the call, and it found somebody at work. */
  ghost predicate FailedAt(now: int, trace: seq<Event>, k: nat, id: nat) {
    && k < |trace| && trace[k] == Acquire(id) && After(now, trace[..k]).Some?
    && var s := After(now, trace[..k]).value; id in s.calls && Busy(s, s.calls[id].key)
  }

  /** The call set its deadline when its SET NX failed. */
  ghost predicate DeadlineSet(now: int, trace: seq<Event>, id: nat, deadline: int, timeoutMs: nat) {
    exists k: nat :: FailedAt(now, trace, k, id) && deadline == After(now, trace[..k]).value.now + timeoutMs
  }

  lemma FailedEarlier(now: int, trace: seq<Event>, e: Event, k: nat, id: nat)
    requires FailedAt(now, trace, k, id)
    ensures FailedAt(now, trace + [e], k, id) && (trace + [e])[..k] == trace[..k]
  {
    assert (trace + [e])[..k] == trace[..k];
  }

  lemma DeadlineEarlier(now: int, trace: seq<Event>, e: Event, id: nat, deadline: int, timeoutMs: nat)
    requires DeadlineSet(now, trace, id, deadline, timeoutMs)
    ensures DeadlineSet(now, trace + [e], id, deadline, timeoutMs)
  {
    var k: nat :| FailedAt(now, trace, k, id) && deadline == After(now, trace[..k]).value.now + timeoutMs;
    FailedEarlier(now, trace, e, k, id);
  }

  function DeadlineOf(p: Phase): Option<int> {
    match p
    case LoopHead(deadline) => Some(deadline)
    case Sleeping(deadline, _) => Some(deadline)
    case _ => None
  }

  /** A deadline comes from the call's own failed SET NX, or was there before. */
  lemma StepSetsDeadline(now: int, trace: seq<Event>, e: Event, id: nat)
    requires After(now, trace).Some? && Enabled(After(now, trace).value, e)
    requires var t := Step(After(now, trace).value, e); id in t.calls && DeadlineOf(t.calls[id].phase).Some?
    ensures var s := After(now, trace).value;
      var d := Step(s, e).calls[id];
      && id in s.calls && d.timeoutMs == s.calls[id].timeoutMs
      && if e == Acquire(id) then FailedAt(now, trace + [e], |trace|, id) && DeadlineOf(d.phase) == Some(s.now + d.timeoutMs)
         else DeadlineOf(s.calls[id].phase) == DeadlineOf(d.phase)
  {
    assert (trace + [e])[..|trace|] == trace;
    if e.Acquire? {
      AcquireDecides(now, trace, e.id);
    }
  }

  lemma {:induction false} WaitersHaveDeadlines(now: int, trace: seq<Event>, id: nat)
    requires After(now, trace).Some? && id in After(now, trace).value.calls
    requires DeadlineOf(After(now, trace).value.calls[id].phase).Some?
    ensures var c := After(now, trace).value.calls[id];
      DeadlineSet(now, trace, id, DeadlineOf(c.phase).value, c.timeoutMs)
    decreases |trace|
  {
    if trace != [] {
      var shorter, e := trace[..|trace| - 1], trace[|trace| - 1];
      assert trace == shorter + [e];
      StepSetsDeadline(now, shorter, e, id);
      if e == Acquire(id) {
        assert trace[..|shorter|] == shorter;
      } else {
        WaitersHaveDeadlines(now, shorter, id);
        var c := After(now, shorter).value.calls[id];
        DeadlineEarlier(now, shorter, e, id, DeadlineOf(c.phase).value, c.timeoutMs);
      }
    }
  }

  /** At its k-th event the run let the waiter go: nobody was at work on its key,
      or its timeout had passed since its failed SET NX. */
  ghost predicate LetGo(now: int, trace: seq<Event>, k: nat, id: nat) {
    && k < |trace| && After(now, trace[..k]).Some?
    && var s := After(now, trace[..k]).value;
      && id in s.calls
      && ((trace[k] == Poll(id) && !Busy(s, s.calls[id].key))
          || (trace[k] == TestDeadline(id)
              && exists m: nat :: m < k && FailedAt(now, trace, m, id)
                   && s.now >= After(now, trace[..m]).value.now + s.calls[id].timeoutMs))
  }

  lemma LetGoEarlier(now: int, trace: seq<Event>, e: Event, k: nat, id: nat)
    requires LetGo(now, trace, k, id)
    ensures LetGo(now, trace + [e], k, id)
  {
    assert (trace + [e])[..k] == trace[..k];
    if trace[k] == TestDeadline(id) {
      var s := After(now, trace[..k]).value;
      var m: nat :| m < k && FailedAt(now, trace, m, id) && s.now >= After(now, trace[..m]).value.now + s.calls[id].timeoutMs;
      FailedEarlier(now, trace, e, m, id);
    }
  }

  lemma LeavesNow(now: int, trace: seq<Event>, e: Event, id: nat)
    requires After(now, trace).Some? && Enabled(After(now, trace).value, e) && (e == Poll(id) || e == TestDeadline(id))
    requires var t := Step(After(now, trace).value, e); t.calls[id].phase == Finished
    ensures LetGo(now, trace + [e], |trace|, id)
  {
    var s := After(now, trace).value;
    assert (trace + [e])[..|trace|] == trace;
    if e.Poll? {
      PollDecides(now, trace, id);
    } else {
      TestDecides(s, id);
      WaitersHaveDeadlines(now, trace, id);
      var m: nat :| FailedAt(now, trace, m, id) && s.calls[id].phase.deadline == After(now, trace[..m]).value.now + s.calls[id].timeoutMs;
      FailedEarlier(now, trace, e, m, id);
    }
  }

  /** A call that finished without a run was a waiter, and was let go. */
  lemma {:induction false} WaiterLeavesRightly(now: int, trace: seq<Event>, id: nat)
    requires After(now, trace).Some? && id in After(now, trace).value.calls
    requires After(now, trace).value.calls[id].phase == Finished && After(now, trace).value.calls[id].run.None?
    ensures exists k: nat :: LetGo(now, trace, k, id)
    decreases |trace|
  {
    if trace != [] {
      var shorter, e := trace[..|trace| - 1], trace[|trace| - 1];
      assert trace == shorter + [e];
      ReachableKeepsInv(now, shorter);
      var s := After(now, shorter).value;
      assert id in s.calls ==> CallOk(s, s.calls[id]);
      if id in s.calls && s.calls[id].phase == Finished {
        WaiterLeavesRightly(now, shorter, id);
        var k: nat :| LetGo(now, shorter, k, id);
        LetGoEarlier(now, shorter, e, k, id);
      } else {
        LeavesNow(now, shorter, e, id);
      }
    }
  }

  // The wait loop

  /** How a wait goes: `clock(n)` is the time at the n-th deadline test, `gone(n)`
      what the n-th EXISTS answers. It ends at the first poll that finds the key
      gone, or at the first test past the deadline. */
  ghost predicate Waited(began: int, clock: nat -> int, gone: nat -> bool, timeoutMs: nat, polls: nat, sawGone: bool) {
    && (forall n: nat | n < polls :: clock(n) < began + timeoutMs)
    && (forall n: nat | 0 < n < polls :: !gone(n))
    && if sawGone then polls > 0 && gone(polls)
       else clock(polls) >= began + timeoutMs && (polls > 0 ==> !gone(polls))
  }

  /** There is one way it can go. */
  lemma WaitedOneWay(began: int, clock: nat -> int, gone: nat -> bool, timeoutMs: nat, p: nat, a: bool, q: nat, b: bool)
    requires Waited(began, clock, gone, timeoutMs, p, a) && Waited(began, clock, gone, timeoutMs, q, b)
    ensures p == q && a == b
  {
    assert p < q ==> clock(p) < began + timeoutMs && (p > 0 ==> !gone(p));
    assert q < p ==> clock(q) < began + timeoutMs && (q > 0 ==> !gone(q));
  }

  /** The wait loop as one call sees it, `began` being the time its SET NX failed. */
  method AwaitHolder(began: int, clock: nat -> int, gone: nat -> bool, timeoutMs: nat) returns (polls: nat, sawGone: bool)
    requires began <= clock(0) && forall n: nat :: clock(n) + POLL_MS <= clock(n + 1)
    ensures polls * 100 < timeoutMs + 100
    ensures Waited(began, clock, gone, timeoutMs, polls, sawGone)
  {
    polls, sawGone := 0, false;
    var deadline := began + timeoutMs;
    while clock(polls) < deadline
      invariant polls * POLL_MS <= clock(polls) - began
      invariant polls > 0 ==> (polls - 1) * POLL_MS < timeoutMs
      invariant forall n: nat | n < polls :: clock(n) < deadline
      invariant forall n: nat | 0 < n <= polls :: !gone(n)
      decreases deadline - clock(polls)
    {
      polls := polls + 1;
      if gone(polls) {
        return polls, true;
      }
    }
  }

  /** What the call meets at this event is what `clock` and `gone` say. */
  predicate Meets(s: State, e: Event, id: nat, began: int, clock: nat -> int, gone: nat -> bool) {
    id in s.calls ==>
      var c := s.calls[id];
      && (e == Acquire(id) ==> s.now == began)
      && (e == TestDeadline(id) ==> s.now == clock(c.polls))
      && (e == Poll(id) ==> gone(c.polls + 1) == !Live(s.flights, c.key, s.now))
  }

  ghost predicate MeetsAll(now: int, trace: seq<Event>, id: nat, began: int, clock: nat -> int, gone: nat -> bool)
    requires After(now, trace).Some?
    decreases |trace|
  {
    trace != [] ==>
      MeetsAll(now, trace[..|trace| - 1], id, began, clock, gone)
      && Meets(After(now, trace[..|trace| - 1]).value, trace[|trace| - 1], id, began, clock, gone)
  }

  /** How far a waiter has come. */
  ghost predicate Waits(c: Call, began: int, clock: nat -> int, gone: nat -> bool) {
    match c.phase
    case Entering => c.polls == 0
    case LoopHead(deadline) =>
      deadline == began + c.timeoutMs
      && (forall n: nat | n < c.polls :: clock(n) < deadline) && (forall n: nat | 0 < n <= c.polls :: !gone(n))
    case Sleeping(deadline, _) =>
      deadline == began + c.timeoutMs
      && (forall n: nat | n <= c.polls :: clock(n) < deadline) && (forall n: nat | 0 < n <= c.polls :: !gone(n))
    case Finished => c.run.None? ==> exists sawGone :: Waited(began, clock, gone, c.timeoutMs, c.polls, sawGone)
    case _ => true
  }

  lemma StepWaits(s: State, e: Event, id: nat, began: int, clock: nat -> int, gone: nat -> bool)
    requires Enabled(s, e) && id in s.calls && CallOk(s, s.calls[id]) && WaitOk(s, s.calls[id])
    requires Waits(s.calls[id], began, clock, gone) && Meets(s, e, id, began, clock, gone)
    ensures Waits(Step(s, e).calls[id], began, clock, gone)
  {
    var c, d := s.calls[id], Step(s, e).calls[id];
    match e
    case Poll(i) =>
      if i == id && d.phase.Finished? {
        assert Waited(began, clock, gone, c.timeoutMs, d.polls, true);
      }
    case TestDeadline(i) =>
      if i == id && d.phase.Finished? {
        assert Waited(began, clock, gone, c.timeoutMs, d.polls, false);
      }
    case _ =>
  }

  /** In every run a waiter does what the loop above does: it ends after as many
      polls, and for the same reason. */
  lemma {:induction false} WaitersWait(now: int, trace: seq<Event>, id: nat, began: int, clock: nat -> int, gone: nat -> bool)
    requires After(now, trace).Some? && MeetsAll(now, trace, id, began, clock, gone) && id in After(now, trace).value.calls
    ensures Waits(After(now, trace).value.calls[id], began, clock, gone)
    decreases |trace|
  {
    if trace != [] {
      var shorter, e := trace[..|trace| - 1], trace[|trace| - 1];
      var s := After(now, shorter).value;
      if id in s.calls {
        WaitersWait(now, shorter, id, began, clock, gone);
        ReachableKeepsInv(now, shorter);
        assert CallOk(s, s.calls[id]) && WaitOk(s, s.calls[id]);
        StepWaits(s, e, id, began, clock, gone);
      }
    }
  }

  lemma WaiterRunsTheLoop(now: int, trace: seq<Event>, id: nat, began: int, clock: nat -> int, gone: nat -> bool, polls: nat, sawGone: bool)
    requires After(now, trace).Some? && MeetsAll(now, trace, id, began, clock, gone) && id in After(now, trace).value.calls
    requires var c := After(now, trace).value.calls[id];
      c.phase == Finished && c.run.None? && Waited(began, clock, gone, c.timeoutMs, polls, sawGone)
    ensures After(now, trace).value.calls[id].polls == polls
  {
    WaitersWait(now, trace, id, began, clock, gone);
    var c := After(now, trace).value.calls[id];
    var saw :| Waited(began, clock, gone, c.timeoutMs, c.polls, saw);
    WaitedOneWay(began, clock, gone, c.timeoutMs, c.polls, saw, polls, sawGone);
  }
}
